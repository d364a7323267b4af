/**
  The assumptions of the two main theorems can be met: a concrete one-byte transfer is an
  admissible, deliverable session, and its interruption is an honest run.
 */
module Witness {
  import opened Prelude
  import opened Manifest
  import Ranges
  import opened Receiver
  import opened Runs
  import opened Publishing
  import opened Sender
  import opened ResumeCorrect
  import opened Interruptions
  import opened Wire
  import opened SessionChunks
  import opened Session
  import Names
  import Sorting
  import Text
  import Utf8

  const ID: string := "t"

  const SOURCES: seq<Source> := [Source("a", [7])]

  function Zeros(b: Bytes): Digest { seq(64, _ => '0') }

  function TheRequest(): Request { Request(ID, Offers(Zeros, SOURCES)) }

  /** The five messages of the session, one per tag. */
  function Message(tag: Byte): Option<Control> {
    match tag
    case 1 => Some(Hello([]))
    case 2 => Some(HelloAck([]))
    case 3 => Some(RequestTransfer(TheRequest()))
    case 4 => Some(AcceptTransfer(ID, DEFAULT_CHUNK_SIZE))
    case 7 => Some(Done(ID))
    case _ => None
  }

  /** A codec for just these messages; its payloads are empty. */
  function Messages(): Codec {
    Codec((m: Control) => if Message(Tag(m)) == Some(m) then Some([]) else None,
          (tag: Byte, payload: Bytes) => if payload == [] then Message(tag) else None)
  }

  lemma MessagesLawful()
    ensures Messages().Lawful()
  {
    forall m | Messages().encode(m).Some? ensures Messages().decode(Tag(m), Messages().encode(m).value) == Some(m) {
    }
    forall t, b | Messages().decode(t, b).Some? ensures Tag(Messages().decode(t, b).value) == t {
    }
  }

  function Empty(): World { World(map[], map[], map[]) }

  function TheSetup(): Setup {
    Setup(Messages(), NativeFrames(Zeros), Zeros, [], [], _ => Some("p"), ID, SOURCES, Empty())
  }

  lemma RequestAccepted()
    ensures Accept(Empty(), ConfigFor("p"), "p", TheRequest()).1.None?
  {
    OffersUnique(Zeros, SOURCES);
    FileIdNotBlank(0);
  }

  lemma MessagesAllFit(tag: Byte)
    requires Message(tag).Some?
    ensures ControlFits(Messages(), Message(tag).value)
  {
  }

  /** There is a session over the native framing ... */
  lemma OneByteNative()
    ensures NativeSetup(TheSetup())
  {
    Utf8.AsciiLength(FileId(0));
  }

  /** ... that is admissible ... */
  lemma OneByteAdmissible()
    ensures Admissible(TheSetup())
  {
    MessagesLawful();
    RequestAccepted();
    OneByteMessages();
    NothingStored();
  }

  lemma NothingStored()
    ensures ValidDb(Empty().db) && Fresh(Empty(), ID)
  {
    assert Clean(ID) != [];
  }

  lemma OneByteMessages()
    ensures MessagesFit(TheSetup())
  {
    MessagesAllFit(1);
    MessagesAllFit(2);
    MessagesAllFit(3);
    MessagesAllFit(4);
    MessagesAllFit(7);
  }

  /** ... and deliverable. */
  lemma OneByteDeliverable()
    ensures Deliverable(TheSetup())
  {
    UsableSourcesAllocate(map[], Zeros, SOURCES);
  }

  /** There is an honest run with an interruption in it: the chunk is on disk but not recorded. */
  lemma OneByteInterrupted()
    ensures var started := Accept(Empty(), ConfigFor("p"), "p", TheRequest()).0;
            HonestRun(started, Zeros, ID, SOURCES, [ReceivingTorn(ID, FileId(0), 0, [7], Zeros([7]), 1)])
  {
    assert TrueSlice(Zeros, SOURCES, FileId(0), 0, [7], Zeros([7]), 0);
  }

  /** A session over that interrupted transfer is admissible too. */
  lemma OneByteRetried()
    ensures var started := Accept(Empty(), ConfigFor("p"), "p", TheRequest()).0;
            var torn := Run(started, Zeros, [ReceivingTorn(ID, FileId(0), 0, [7], Zeros([7]), 1)]);
            !Fresh(torn, ID) && Admissible(TheSetup().(disk := torn))
  {
    var started := Accept(Empty(), ConfigFor("p"), "p", TheRequest()).0;
    var es := [ReceivingTorn(ID, FileId(0), 0, [7], Zeros([7]), 1)];
    RequestAccepted();
    NothingStored();
    AcceptStarts(Empty(), Zeros, ConfigFor("p"), "p", ID, SOURCES);
    OneByteInterrupted();
    HonestRunKeeps(started, Zeros, ID, SOURCES, es);
    OneByteAdmissible();
    RetryAdmissible(Run(started, Zeros, es));
  }

  lemma RetryAdmissible(w: World)
    requires InProgress(w, Zeros, ID, SOURCES) && Admissible(TheSetup())
    ensures Admissible(TheSetup().(disk := w))
  {
    AcceptReopens(w, ConfigFor("p"), "p", TheRequest());
    AcceptReopens(Empty(), ConfigFor("p"), "p", TheRequest());
  }

  // ----- a publish that stops half way -----

  const TWO_ROWS: seq<FileRow> := [FileRow("f", "a", 1, None), FileRow("g", "a/b", 1, None)]

  /** Two one-byte files, received in full; the second has a name that is refused only when it is moved. */
  function TwoFiles(): World {
    World(map[Path(ID, "f") := [7], Path(ID, "g") := [8]], map[],
          map[ID := TransferRow("p", Active, TWO_ROWS, map["f" := [RowOf(0, 1)], "g" := [RowOf(0, 1)]])])
  }

  const PAIR: Request := Request(ID, [FileOffer("f", "a", 1, None), FileOffer("g", "a/b", 1, None)])

  /** The receiver after the accept of that request and `rows` of its chunks. */
  function PairWith(parts: map<Path, Bytes>, rows: map<string, seq<ChunkRow>>): World {
    World(parts, map[], map[ID := TransferRow("p", Active, TWO_ROWS, rows)])
  }

  lemma PairRows()
    ensures Sorting.Sort(ToRows(PAIR.files), IdOrder()) == TWO_ROWS
  {
    var rows := ToRows(PAIR.files);
    assert rows == TWO_ROWS;
    assert Text.Le("f", "g");
    assert Sorting.Sort(rows[1..], IdOrder()) == [rows[1]] by { assert rows[1..][1..] == []; }
  }

  lemma PairAccepted()
    ensures Accept(Empty(), ConfigFor("p"), "p", PAIR) == (PairWith(map[], map[]), None)
  {
    PairRows();
    assert ValidRequest(PAIR);
    var w := Accept(Empty(), ConfigFor("p"), "p", PAIR).0;
    assert w.db[ID] == TransferRow("p", Active, TWO_ROWS, map[]);
    assert w.db == PairWith(map[], map[]).db;
  }

  lemma FirstReceived()
    ensures ReceiveChunk(PairWith(map[], map[]), Zeros, ID, "f", 0, [7], Zeros([7])) ==
            (PairWith(map[Path(ID, "f") := [7]], map["f" := [RowOf(0, 1)]]), None)
  {
    assert Clean(ID) == ID && Clean("f") == "f";
    assert WriteAt([], 0, [7]) == [7];
    var was := PairWith(map[], map[]);
    var (w, error) := ReceiveChunk(was, Zeros, ID, "f", 0, [7], Zeros([7]));
    assert Upsert(was.db[ID].Rows("f"), RowOf(0, 1)) == [RowOf(0, 1)];
    assert w.db[ID].chunks == map["f" := [RowOf(0, 1)]];
    assert w.db == map[ID := TransferRow("p", Active, TWO_ROWS, map["f" := [RowOf(0, 1)]])];
    assert w.parts == map[Path(ID, "f") := [7]];
  }

  lemma SecondReceived()
    ensures var was := PairWith(map[Path(ID, "f") := [7]], map["f" := [RowOf(0, 1)]]);
            ReceiveChunk(was, Zeros, ID, "g", 0, [8], Zeros([8])) == (TwoFiles(), None)
  {
    assert Clean(ID) == ID && Clean("g") == "g";
    assert WriteAt([], 0, [8]) == [8];
    assert FindFile(TWO_ROWS, "g") == Some(TWO_ROWS[1]) by { assert TWO_ROWS[1..][0].fileId == "g"; }
    var was := PairWith(map[Path(ID, "f") := [7]], map["f" := [RowOf(0, 1)]]);
    var (w, error) := ReceiveChunk(was, Zeros, ID, "g", 0, [8], Zeros([8]));
    assert Upsert(was.db[ID].Rows("g"), RowOf(0, 1)) == [RowOf(0, 1)];
    assert w.db[ID].chunks == TwoFiles().db[ID].chunks;
    assert w.db == TwoFiles().db;
    assert w.parts == TwoFiles().parts;
  }

  /** The receiver gets there: an accept and one chunk for each file. */
  lemma TwoFilesReached()
    ensures Run(Empty(), Zeros, [Accepting(ConfigFor("p"), "p", PAIR), Receiving(ID, "f", 0, [7], Zeros([7])),
                                 Receiving(ID, "g", 0, [8], Zeros([8]))]) == TwoFiles()
  {
    var a := Accepting(ConfigFor("p"), "p", PAIR);
    var b, c := Receiving(ID, "f", 0, [7], Zeros([7])), Receiving(ID, "g", 0, [8], Zeros([8]));
    PairAccepted();
    FirstReceived();
    SecondReceived();
    assert [a, b, c][..2] == [a, b] && [a, b][..1] == [a] && [a][..0] == [];
    assert Run(Empty(), Zeros, [a]) == PairWith(map[], map[]);
    assert Run(Empty(), Zeros, [a, b]) == Step(PairWith(map[], map[]), Zeros, b);
  }

  lemma TwoFilesVerified()
    ensures AllVerified(TwoFiles(), Zeros, ID)
  {
    assert RowOf(0, 1).ToRange() == Ranges.Range(0, 1);
    forall f | f in TWO_ROWS ensures Ranges.Complete(f.Size(), TwoFiles().db[ID].Ranges(f.fileId)) {
      assert TwoFiles().db[ID].Ranges(f.fileId) == [Ranges.Range(0, 1)];
      assert Ranges.Covers([Ranges.Range(0, 1)], 0) by { assert [Ranges.Range(0, 1)][0].Has(0); }
    }
    assert Clean(ID) == ID && Clean("f") == "f" && Clean("g") == "g";
  }

  /** The finish fails on the second name with the first file already in the inbox. */
  lemma HalfPublished()
    ensures var (w, error) := Finish(TwoFiles(), Zeros, ID);
            && error.Some? && w.inbox != map[]
            && !Delivered(TwoFiles(), ID, TWO_ROWS, w, Targets(TwoFiles(), ID, TWO_ROWS))
  {
    TwoFilesVerified();
    assert Names.SafeFileName("a/b").Err? by { assert "a/b"[1] == '/'; }
    FirstNameFree();
    RefusedNameLeavesPrefix(TwoFiles(), Zeros, ID, 1);
  }

  lemma FirstNameFree()
    ensures Names.Allocate(Taken(map[]), "a").Ok?
  {
    Names.NativeSearch(Taken(map[]), "a");
    SubsetSize(Taken(map[]), {".", "..", ".incoming"});
    assert Text.Trim("a") == "a";
  }
}
