/**
  Resume is correct end to end: whatever an honest sender got through before it was
  interrupted, at whatever chunk sizes and wherever the receiver crashed, one uninterrupted
  resume delivers files equal to the sources.
 */
module ResumeCorrect {
  import opened Prelude
  import opened Ranges
  import opened Manifest
  import opened Receiver
  import opened Runs
  import opened Publishing
  import opened Sender
  import opened Progress
  import Sorting
  import Text

  // ----- ids and parts of an offered transfer -----

  lemma {:induction false} CleanKeeps(s: string)
    requires forall c :: c in s ==> ComponentChar(c)
    ensures Clean(s) == s
  {
    if s != [] {
      CleanKeeps(s[1..]);
      assert s[0] in s && s == [s[0]] + s[1..];
    }
  }

  function PartOf(id: string, i: nat): Path { Path(Clean(id), FileId(i)) }

  /** Sender-made ids survive cleaning, so each file has its own part. */
  lemma OfferedPart(id: string, i: nat)
    requires Clean(id) != []
    ensures PartPath(id, FileId(i)) == Some(PartOf(id, i))
  {
    var d := Text.Decimal(i);
    forall c | c in FileId(i) ensures ComponentChar(c) {
      if c in d { var k :| 0 <= k < |d| && d[k] == c; }
    }
    CleanKeeps(FileId(i));
  }

  lemma FileIdInjective(i: nat, j: nat)
    requires FileId(i) == FileId(j)
    ensures i == j
  {
    assert FileId(i)[5..] == Text.Decimal(i) && FileId(j)[5..] == Text.Decimal(j);
    Text.DecimalInjective(i, j);
  }

  lemma OffersUnique(hash: Hash, sources: seq<Source>)
    requires Addressable(sources)
    ensures UniqueOffers(Offers(hash, sources))
  {
    var os := Offers(hash, sources);
    forall i, j | 0 <= i < j < |os| ensures os[i].fileId != os[j].fileId {
      if os[i].fileId == os[j].fileId { FileIdInjective(i, j); }
    }
  }

  function RowFor(hash: Hash, sources: seq<Source>, i: nat): FileRow
    requires i < |sources| && Addressable(sources)
  {
    ToRows(Offers(hash, sources))[i]
  }

  lemma RowForSize(hash: Hash, sources: seq<Source>, i: nat)
    requires i < |sources| && Addressable(sources)
    ensures RowFor(hash, sources, i).Size() == |sources[i].data|
    ensures RowFor(hash, sources, i).fileId == FileId(i)
  {
    assert sources[i] in sources;
    StoredRoundTrip(|sources[i].data|);
  }

  /** The manifest rows of an offered transfer, in id order. */
  function OfferedFiles(hash: Hash, sources: seq<Source>): seq<FileRow>
    requires Addressable(sources)
  {
    Sorting.Sort(ToRows(Offers(hash, sources)), IdOrder())
  }

  lemma OfferedFind(hash: Hash, sources: seq<Source>, i: nat)
    requires Addressable(sources) && i < |sources|
    ensures DistinctIds(OfferedFiles(hash, sources))
    ensures RowFor(hash, sources, i) in OfferedFiles(hash, sources)
    ensures FindFile(OfferedFiles(hash, sources), FileId(i)) == Some(RowFor(hash, sources, i))
  {
    var f := RowFor(hash, sources, i);
    assert f in ToRows(Offers(hash, sources));
    OffersUnique(hash, sources);
    NewTransferFiles("", Offers(hash, sources));
    Sorting.SortMembers(ToRows(Offers(hash, sources)), IdOrder());
    FindFileHit(OfferedFiles(hash, sources), f);
  }

  lemma OfferedIndex(hash: Hash, sources: seq<Source>, f: FileRow) returns (i: nat)
    requires Addressable(sources) && f in OfferedFiles(hash, sources)
    ensures i < |sources| && f == RowFor(hash, sources, i)
  {
    var rows := ToRows(Offers(hash, sources));
    Sorting.SortMembers(rows, IdOrder());
    i :| 0 <= i < |rows| && rows[i] == f;
  }

  // ----- the state of an honest transfer -----

  /** Recorded bytes of file `i` are on disk and equal the source; nothing longer than the source is. */
  ghost predicate FileSound(w: World, id: string, sources: seq<Source>, i: nat)
    requires i < |sources| && id in w.db
  {
    var stored, data := Stored(w.parts, PartOf(id, i)), sources[i].data;
    && |stored| <= |data|
    && (data == [] ==> PartOf(id, i) !in w.parts)
    && forall p :: Covers(w.db[id].Ranges(FileId(i)), p) ==> Agrees(stored, data, p)
  }

  ghost predicate InProgress(w: World, hash: Hash, id: string, sources: seq<Source>) {
    && Addressable(sources) && sources != [] && Clean(id) != []
    && ValidDb(w.db) && id in w.db && w.db[id].files == OfferedFiles(hash, sources)
    && forall i :: 0 <= i < |sources| ==> FileSound(w, id, sources, i)
  }

  // ----- honest writes -----

  function Slice(sources: seq<Source>, i: nat, r: Range): Bytes
    requires i < |sources| && r.End() <= |sources[i].data|
  {
    sources[i].data[r.offset..r.End()]
  }

  /** The first bytes of `stored` marked by `p` agree with the source. */
  ghost predicate Agrees(stored: Bytes, data: Bytes, p: int) {
    0 <= p < |stored| && p < |data| && stored[p] == data[p]
  }

  lemma WriteSlice(was: Bytes, data: Bytes, r: Range, p: int)
    requires |was| <= |data| && r.End() <= |data|
    ensures var now := WriteAt(was, r.offset, data[r.offset..r.End()]);
            && |now| <= |data|
            && (Agrees(was, data, p) || r.Has(p) ==> Agrees(now, data, p))
  {
    var slice := data[r.offset..r.End()];
    if slice != [] { WriteAtByte(was, r.offset, slice, if p < 0 then 0 else p); }
  }

  /** Writing any slice of source `i` at its own place keeps every file sound. */
  lemma WriteKeepsSound(w: World, id: string, sources: seq<Source>, i: nat, r: Range, j: nat)
    requires Clean(id) != [] && id in w.db && i < |sources| && j < |sources|
    requires r.End() <= |sources[i].data| && sources[i].data != []
    requires FileSound(w, id, sources, j)
    ensures FileSound(WritePart(w, id, FileId(i), r.offset, Slice(sources, i, r)), id, sources, j)
  {
    OfferedPart(id, i);
    if PartOf(id, j) == PartOf(id, i) {
      FileIdInjective(i, j);
      var was := Stored(w.parts, PartOf(id, i));
      WriteSlice(was, sources[i].data, r, 0);
      forall p | Agrees(was, sources[i].data, p)
        ensures Agrees(WriteAt(was, r.offset, Slice(sources, i, r)), sources[i].data, p)
      {
        WriteSlice(was, sources[i].data, r, p);
      }
    }
  }

  lemma WriteAgrees(w: World, id: string, sources: seq<Source>, i: nat, r: Range, p: int)
    requires Clean(id) != [] && id in w.db && i < |sources|
    requires r.End() <= |sources[i].data| && FileSound(w, id, sources, i) && r.Has(p)
    ensures var w' := WritePart(w, id, FileId(i), r.offset, Slice(sources, i, r));
            Agrees(Stored(w'.parts, PartOf(id, i)), sources[i].data, p)
  {
    OfferedPart(id, i);
    WriteSlice(Stored(w.parts, PartOf(id, i)), sources[i].data, r, p);
  }

  lemma TornKeepsProgress(w: World, hash: Hash, id: string, sources: seq<Source>, i: nat, r: Range)
    requires InProgress(w, hash, id, sources) && i < |sources|
    requires r.End() <= |sources[i].data| && sources[i].data != []
    ensures InProgress(WritePart(w, id, FileId(i), r.offset, Slice(sources, i, r)), hash, id, sources)
  {
    var w' := WritePart(w, id, FileId(i), r.offset, Slice(sources, i, r));
    forall j | 0 <= j < |sources| ensures FileSound(w', id, sources, j) {
      assert FileSound(w, id, sources, j);
      WriteKeepsSound(w, id, sources, i, r, j);
    }
  }

  /** Recording a slice of source `i` succeeds and changes only its rows. */
  lemma HonestRecord(w: World, hash: Hash, id: string, sources: seq<Source>, i: nat, r: Range)
    requires InProgress(w, hash, id, sources) && i < |sources|
    requires r.length > 0 && r.End() <= |sources[i].data| < TWO_64
    ensures var rec := Record(w.db, id, FileId(i), r.offset, r.length);
            && rec.Ok? && id in rec.value && ValidDb(rec.value)
            && rec.value[id].files == w.db[id].files
            && rec.value[id].Rows(FileId(i)) == Upsert(w.db[id].Rows(FileId(i)), RowOf(r.offset, r.length))
            && forall fid :: fid != FileId(i) ==> rec.value[id].Rows(fid) == w.db[id].Rows(fid)
  {
    OfferedFind(hash, sources, i);
    RowForSize(hash, sources, i);
    RecordValid(w.db, id, FileId(i), r.offset, r.length);
  }

  lemma HonestCover(w: World, hash: Hash, id: string, sources: seq<Source>, i: nat, r: Range, p: int)
    requires InProgress(w, hash, id, sources) && i < |sources| && Fits(r)
    requires Covers(ToRanges(Upsert(w.db[id].Rows(FileId(i)), RowOf(r.offset, r.length))), p)
    ensures r.Has(p) || Covers(w.db[id].Ranges(FileId(i)), p)
  {
    var rows := w.db[id].Rows(FileId(i));
    OfferedFind(hash, sources, i);
    UpsertCover(rows, r.offset, r.length, p);
    if c :| c in rows && c.ToRange().offset != r.offset && c.ToRange().Has(p) {
      ToRangesMembers(rows, c.ToRange());
    }
  }

  /** Receiving a slice of a source succeeds and keeps the transfer in progress. */
  lemma HonestReceive(w: World, hash: Hash, id: string, sources: seq<Source>, i: nat, r: Range)
    requires InProgress(w, hash, id, sources) && i < |sources|
    requires r.length > 0 && r.End() <= |sources[i].data| < TWO_64
    ensures var data := Slice(sources, i, r);
            var (w', error) := ReceiveChunk(w, hash, id, FileId(i), r.offset, data, hash(data));
            && error.None? && InProgress(w', hash, id, sources) && w'.inbox == w.inbox
            && w'.db[id].Rows(FileId(i)) == Upsert(w.db[id].Rows(FileId(i)), RowOf(r.offset, r.length))
            && forall fid :: fid != FileId(i) ==> w'.db[id].Rows(fid) == w.db[id].Rows(fid)
  {
    HonestRecord(w, hash, id, sources, i, r);
    var w' := Recorded(w, id, sources, i, r);
    var data := Slice(sources, i, r);
    assert |data| == r.length;
    assert ReceiveChunk(w, hash, id, FileId(i), r.offset, data, hash(data)) == (w', None);
    forall j | 0 <= j < |sources| ensures FileSound(w', id, sources, j) {
      HonestSound(w, hash, id, sources, i, r, j);
    }
  }

  /** The slice on disk and its range in the manifest. */
  function Recorded(w: World, id: string, sources: seq<Source>, i: nat, r: Range): World
    requires i < |sources| && r.End() <= |sources[i].data| < TWO_64
    requires Record(w.db, id, FileId(i), r.offset, r.length).Ok?
  {
    WritePart(w, id, FileId(i), r.offset, Slice(sources, i, r))
    .(db := Record(w.db, id, FileId(i), r.offset, r.length).value)
  }

  lemma HonestSound(w: World, hash: Hash, id: string, sources: seq<Source>, i: nat, r: Range, j: nat)
    requires InProgress(w, hash, id, sources) && i < |sources| && j < |sources|
    requires r.length > 0 && r.End() <= |sources[i].data| < TWO_64
    requires Record(w.db, id, FileId(i), r.offset, r.length).Ok?
    ensures id in Recorded(w, id, sources, i, r).db && FileSound(Recorded(w, id, sources, i, r), id, sources, j)
  {
    HonestRecord(w, hash, id, sources, i, r);
    assert FileSound(w, id, sources, j);
    if j == i { HonestSoundSame(w, hash, id, sources, i, r); } else { HonestSoundOther(w, id, sources, i, r, j); }
  }

  lemma HonestSoundSame(w: World, hash: Hash, id: string, sources: seq<Source>, i: nat, r: Range)
    requires InProgress(w, hash, id, sources) && i < |sources|
    requires r.length > 0 && r.End() <= |sources[i].data| < TWO_64
    requires Record(w.db, id, FileId(i), r.offset, r.length).Ok?
    ensures id in Recorded(w, id, sources, i, r).db && FileSound(Recorded(w, id, sources, i, r), id, sources, i)
  {
    HonestRecord(w, hash, id, sources, i, r);
    WriteKeepsSound(w, id, sources, i, r, i);
    var written := WritePart(w, id, FileId(i), r.offset, Slice(sources, i, r));
    forall p | r.Has(p) ensures Agrees(Stored(written.parts, PartOf(id, i)), sources[i].data, p) {
      WriteAgrees(w, id, sources, i, r, p);
    }
    RecordKeepsSound(w, hash, id, sources, i, r, written, Record(w.db, id, FileId(i), r.offset, r.length).value);
  }

  lemma HonestSoundOther(w: World, id: string, sources: seq<Source>, i: nat, r: Range, j: nat)
    requires Clean(id) != [] && id in w.db && i < |sources| && j < |sources| && i != j
    requires r.length > 0 && r.End() <= |sources[i].data| < TWO_64
    requires Record(w.db, id, FileId(i), r.offset, r.length).Ok? && FileSound(w, id, sources, j)
    ensures FileSound(Recorded(w, id, sources, i, r), id, sources, j)
  {
    WriteKeepsSound(w, id, sources, i, r, j);
    if FileId(j) == FileId(i) { FileIdInjective(i, j); }
    assert Recorded(w, id, sources, i, r).db[id].Rows(FileId(j)) == w.db[id].Rows(FileId(j));
  }

  lemma RecordKeepsSound(w: World, hash: Hash, id: string, sources: seq<Source>, i: nat, r: Range,
      written: World, db: Db)
    requires InProgress(w, hash, id, sources) && i < |sources| && r.End() <= |sources[i].data| && Fits(r)
    requires written.db == w.db && FileSound(written, id, sources, i)
    requires forall p :: r.Has(p) ==> Agrees(Stored(written.parts, PartOf(id, i)), sources[i].data, p)
    requires id in db && db[id].Rows(FileId(i)) == Upsert(w.db[id].Rows(FileId(i)), RowOf(r.offset, r.length))
    ensures FileSound(written.(db := db), id, sources, i)
  {
    forall p | Covers(db[id].Ranges(FileId(i)), p) ensures r.Has(p) || Covers(w.db[id].Ranges(FileId(i)), p) {
      HonestCover(w, hash, id, sources, i, r, p);
    }
  }

  // ----- sending ranges and files -----

  /** Sending ranges of source `i` records exactly those ranges. */
  lemma {:induction false} HonestRanges(w: World, hash: Hash, id: string, sources: seq<Source>, i: nat,
      ranges: seq<Range>)
    requires InProgress(w, hash, id, sources) && i < |sources| && |sources[i].data| < TWO_64
    requires Within(|sources[i].data|, ranges)
    ensures AllFit(ranges)
    ensures var (w', error) := SendRanges(w, hash, id, FileId(i), sources[i].data, ranges);
            && error.None? && InProgress(w', hash, id, sources) && w'.inbox == w.inbox
            && w'.db[id].Rows(FileId(i)) == RecordAll(w.db[id].Rows(FileId(i)), ranges)
            && forall fid :: fid != FileId(i) ==> w'.db[id].Rows(fid) == w.db[id].Rows(fid)
    decreases |ranges|
  {
    WithinFits(|sources[i].data|, ranges);
    if ranges != [] {
      assert ranges[0] in ranges;
      HonestReceive(w, hash, id, sources, i, ranges[0]);
      var w1 := SendRange(w, hash, id, FileId(i), sources[i].data, ranges[0]).0;
      HonestRanges(w1, hash, id, sources, i, ranges[1..]);
    }
  }

  ghost predicate FileComplete(w: World, id: string, sources: seq<Source>, i: nat)
    requires i < |sources| && id in w.db
  {
    Complete(|sources[i].data|, w.db[id].Ranges(FileId(i)))
  }

  /** The ranges the sender will send for file `i` are the ones missing now. */
  ghost predicate PlanCurrent(w: World, id: string, sources: seq<Source>, chunkSize: U64,
                              plan: Option<map<string, seq<Range>>>, i: nat)
    requires i < |sources| && id in w.db && chunkSize > 0
  {
    RangesFor(w.db, id, FileId(i), chunkSize, plan) ==
    Ok(Missing(|sources[i].data|, chunkSize, w.db[id].Ranges(FileId(i))))
  }

  lemma PlanStaysCurrent(w: World, w': World, hash: Hash, id: string, sources: seq<Source>, chunkSize: U64,
                         plan: Option<map<string, seq<Range>>>, i: nat)
    requires InProgress(w, hash, id, sources) && InProgress(w', hash, id, sources)
    requires i < |sources| && chunkSize > 0 && PlanCurrent(w, id, sources, chunkSize, plan, i)
    requires w'.db[id].Rows(FileId(i)) == w.db[id].Rows(FileId(i))
    ensures PlanCurrent(w', id, sources, chunkSize, plan, i)
  {
    OfferedFind(hash, sources, i);
    RowForSize(hash, sources, i);
  }

  /** One file's turn: it becomes complete, and the other files' rows stay as they are. */
  lemma HonestFile(w: World, hash: Hash, id: string, sources: seq<Source>, chunkSize: U64, i: nat)
    requires InProgress(w, hash, id, sources) && i < |sources| && |sources[i].data| < TWO_64 && chunkSize > 0
    ensures var plan := Missing(|sources[i].data|, chunkSize, w.db[id].Ranges(FileId(i)));
            var (w', error) := SendRanges(w, hash, id, FileId(i), sources[i].data, plan);
            && error.None? && InProgress(w', hash, id, sources) && w'.inbox == w.inbox
            && FileComplete(w', id, sources, i)
            && forall fid :: fid != FileId(i) ==> w'.db[id].Rows(fid) == w.db[id].Rows(fid)
  {
    var size := |sources[i].data|;
    var rows := w.db[id].Rows(FileId(i));
    OfferedFind(hash, sources, i);
    PlanGrowing(rows, size, chunkSize);
    PlanCompletes(rows, size, chunkSize);
    HonestRanges(w, hash, id, sources, i, Missing(size, chunkSize, w.db[id].Ranges(FileId(i))));
  }

  /** Sending from file `i` on completes every remaining file and keeps the finished ones. */
  lemma {:induction false} HonestSend(w: World, hash: Hash, id: string, sources: seq<Source>, chunkSize: U64,
                                      plan: Option<map<string, seq<Range>>>, i: nat)
    requires InProgress(w, hash, id, sources) && i <= |sources| && chunkSize > 0
    requires forall j :: 0 <= j < i ==> FileComplete(w, id, sources, j)
    requires forall j :: i <= j < |sources| ==> PlanCurrent(w, id, sources, chunkSize, plan, j)
    ensures var (w', error) := SendFrom(w, hash, Request(id, Offers(hash, sources)), sources, chunkSize, plan, i);
            && error.None? && InProgress(w', hash, id, sources) && w'.inbox == w.inbox
            && forall j :: 0 <= j < |sources| ==> FileComplete(w', id, sources, j)
    decreases |sources| - i
  {
    if i < |sources| {
      assert sources[i] in sources;
      HonestFile(w, hash, id, sources, chunkSize, i);
      var ranges := Missing(|sources[i].data|, chunkSize, w.db[id].Ranges(FileId(i)));
      var w1 := SendRanges(w, hash, id, FileId(i), sources[i].data, ranges).0;
      assert PlanCurrent(w, id, sources, chunkSize, plan, i);
      forall j | 0 <= j < i + 1 ensures FileComplete(w1, id, sources, j) {
        if j < i { StaysComplete(w, w1, id, sources, i, j); }
      }
      forall j | i + 1 <= j < |sources| ensures PlanCurrent(w1, id, sources, chunkSize, plan, j) {
        OtherRows(w, w1, i, j, id);
        PlanStaysCurrent(w, w1, hash, id, sources, chunkSize, plan, j);
      }
      SendFromNext(w, hash, id, sources, chunkSize, plan, i);
      HonestSend(w1, hash, id, sources, chunkSize, plan, i + 1);
    }
  }

  lemma SendFromNext(w: World, hash: Hash, id: string, sources: seq<Source>, chunkSize: U64,
                     plan: Option<map<string, seq<Range>>>, i: nat)
    requires Addressable(sources) && i < |sources| && |sources[i].data| < TWO_64 && chunkSize > 0
    requires id in w.db && PlanCurrent(w, id, sources, chunkSize, plan, i)
    ensures var req := Request(id, Offers(hash, sources));
            var ranges := Missing(|sources[i].data|, chunkSize, w.db[id].Ranges(FileId(i)));
            var (w1, error) := SendRanges(w, hash, id, FileId(i), sources[i].data, ranges);
            error.None? ==>
              SendFrom(w, hash, req, sources, chunkSize, plan, i) ==
              SendFrom(w1, hash, req, sources, chunkSize, plan, i + 1)
  {
  }

  lemma StaysComplete(w: World, w': World, id: string, sources: seq<Source>, i: nat, j: nat)
    requires i != j && j < |sources| && id in w.db && id in w'.db && FileComplete(w, id, sources, j)
    requires forall fid :: fid != FileId(i) ==> w'.db[id].Rows(fid) == w.db[id].Rows(fid)
    ensures FileComplete(w', id, sources, j)
  {
    OtherRows(w, w', i, j, id);
  }

  lemma OtherRows(w: World, w': World, i: nat, j: nat, id: string)
    requires i != j && id in w.db && id in w'.db
    requires forall fid :: fid != FileId(i) ==> w'.db[id].Rows(fid) == w.db[id].Rows(fid)
    ensures w'.db[id].Rows(FileId(j)) == w.db[id].Rows(FileId(j))
  {
    if FileId(i) == FileId(j) { FileIdInjective(i, j); }
  }

  // ----- finishing -----

  /** A complete, sound, non-empty file has exactly the source bytes as its part. */
  lemma CompletePart(w: World, hash: Hash, id: string, sources: seq<Source>, i: nat)
    requires InProgress(w, hash, id, sources) && i < |sources| && FileComplete(w, id, sources, i)
    ensures sources[i].data != [] ==> PartOf(id, i) in w.parts && w.parts[PartOf(id, i)] == sources[i].data
    ensures Verified(w, hash, id, RowFor(hash, sources, i)) <==> sources[i].data != []
  {
    var stored, data := Stored(w.parts, PartOf(id, i)), sources[i].data;
    assert FileSound(w, id, sources, i);
    RowForSize(hash, sources, i);
    OfferedPart(id, i);
    if data != [] {
      assert Covers(w.db[id].Ranges(FileId(i)), |data| - 1);
      assert Agrees(stored, data, |data| - 1);
      forall p | 0 <= p < |data| ensures stored[p] == data[p] { assert Agrees(stored, data, p); }
      assert stored == data;
    }
  }

  predicate NonEmpty(sources: seq<Source>) {
    forall s :: s in sources ==> s.data != []
  }

  lemma AllComplete(w: World, hash: Hash, id: string, sources: seq<Source>)
    requires InProgress(w, hash, id, sources)
    requires forall j :: 0 <= j < |sources| ==> FileComplete(w, id, sources, j)
    ensures TransferComplete(w.db, id)
    ensures (forall f :: f in w.db[id].files ==> Verified(w, hash, id, f)) <==> NonEmpty(sources)
  {
    var files := w.db[id].files;
    OfferedFind(hash, sources, 0);
    forall f | f in files
      ensures Complete(f.Size(), w.db[id].Ranges(f.fileId))
      ensures NonEmpty(sources) ==> Verified(w, hash, id, f)
    {
      var i := OfferedIndex(hash, sources, f);
      RowForSize(hash, sources, i);
      CompletePart(w, hash, id, sources, i);
      assert FileComplete(w, id, sources, i);
      assert sources[i] in sources;
    }
    if !NonEmpty(sources) {
      var i :| 0 <= i < |sources| && sources[i].data == [];
      OfferedFind(hash, sources, i);
      CompletePart(w, hash, id, sources, i);
    }
  }

  lemma OfferedPartsDistinct(w: World, hash: Hash, id: string, sources: seq<Source>)
    requires InProgress(w, hash, id, sources)
    ensures DistinctParts(id, w.db[id].files)
  {
    var files := w.db[id].files;
    forall a, b | 0 <= a < b < |files| ensures PartPath(id, files[a].fileId) != PartPath(id, files[b].fileId) {
      var i := OfferedIndex(hash, sources, files[a]);
      var j := OfferedIndex(hash, sources, files[b]);
      RowForSize(hash, sources, i);
      RowForSize(hash, sources, j);
      OfferedPart(id, i);
      OfferedPart(id, j);
    }
  }

  /**
    One new inbox entry per source, at `places[i]` for source `i`, holding exactly its bytes.
    Nothing else is new and earlier entries are unchanged.
   */
  ghost predicate SourcesDelivered(inbox: map<string, Bytes>, inbox': map<string, Bytes>, sources: seq<Source>,
      places: seq<string>)
  {
    && |places| == |sources| && NoRepeats(places)
    && inbox'.Keys == inbox.Keys + (set n | n in places)
    && Extends(inbox, inbox')
    && forall i :: 0 <= i < |sources| ==>
         places[i] !in inbox && places[i] in inbox' && inbox'[places[i]] == sources[i].data
  }

  /** Every source is at its own name or one of its numbered alternatives. */
  ghost predicate NamedAfterSources(sources: seq<Source>, places: seq<string>) {
    |places| == |sources| && forall i :: 0 <= i < |sources| ==> Names.NamedAfter(places[i], sources[i].name)
  }

  /** Where the row of source `i` stands among the stored files. */
  ghost function Position(hash: Hash, sources: seq<Source>, i: nat): (k: nat)
    requires Addressable(sources) && i < |sources|
    ensures k < |OfferedFiles(hash, sources)| && OfferedFiles(hash, sources)[k] == RowFor(hash, sources, i)
  {
    OfferedFind(hash, sources, i);
    var k: nat :| k < |OfferedFiles(hash, sources)| && OfferedFiles(hash, sources)[k] == RowFor(hash, sources, i);
    k
  }

  /** Stored files and sources correspond one to one. */
  lemma PositionOnto(hash: Hash, sources: seq<Source>, k: nat) returns (i: nat)
    requires Addressable(sources) && k < |OfferedFiles(hash, sources)|
    ensures i < |sources| && Position(hash, sources, i) == k
  {
    i := OfferedIndex(hash, sources, OfferedFiles(hash, sources)[k]);
    OfferedFind(hash, sources, i);
  }

  lemma PositionInjective(hash: Hash, sources: seq<Source>, i: nat, j: nat)
    requires Addressable(sources) && i < |sources| && j < |sources|
    requires Position(hash, sources, i) == Position(hash, sources, j)
    ensures i == j
  {
    RowForSize(hash, sources, i);
    RowForSize(hash, sources, j);
    FileIdInjective(i, j);
  }

  ghost function Places(hash: Hash, sources: seq<Source>, names: seq<string>): seq<string>
    requires Addressable(sources) && |names| == |OfferedFiles(hash, sources)|
  {
    seq(|sources|, i requires 0 <= i < |sources| => names[Position(hash, sources, i)])
  }

  lemma PlacesRearrange(hash: Hash, sources: seq<Source>, names: seq<string>)
    requires Addressable(sources) && |names| == |OfferedFiles(hash, sources)| && NoRepeats(names)
    ensures NoRepeats(Places(hash, sources, names))
    ensures (set n | n in Places(hash, sources, names)) == (set n | n in names)
  {
    var places := Places(hash, sources, names);
    forall i, j | 0 <= i < j < |places| ensures places[i] != places[j] {
      if Position(hash, sources, i) == Position(hash, sources, j) { PositionInjective(hash, sources, i, j); }
    }
    forall n | n in names ensures n in places {
      var k :| 0 <= k < |names| && names[k] == n;
      var i := PositionOnto(hash, sources, k);
      assert places[i] == n;
    }
  }

  lemma DeliveredSources(w: World, hash: Hash, id: string, sources: seq<Source>, w': World, names: seq<string>)
    requires InProgress(w, hash, id, sources)
    requires forall j :: 0 <= j < |sources| ==> FileComplete(w, id, sources, j)
    requires NonEmpty(sources) && Delivered(w, id, w.db[id].files, w', names)
    ensures SourcesDelivered(w.inbox, w'.inbox, sources, Places(hash, sources, names))
  {
    PlacesRearrange(hash, sources, names);
    forall i | 0 <= i < |sources|
      ensures var n := names[Position(hash, sources, i)];
              n !in w.inbox && n in w'.inbox && w'.inbox[n] == sources[i].data
    {
      CompletePart(w, hash, id, sources, i);
      OfferedPart(id, i);
      RowForSize(hash, sources, i);
    }
  }

  lemma PlacesNamed(w: World, hash: Hash, id: string, sources: seq<Source>)
    requires Addressable(sources) && |Targets(w, id, OfferedFiles(hash, sources))| == |OfferedFiles(hash, sources)|
    ensures NamedAfterSources(sources, Places(hash, sources, Targets(w, id, OfferedFiles(hash, sources))))
  {
    var files := OfferedFiles(hash, sources);
    forall i | 0 <= i < |sources|
      ensures Names.NamedAfter(Targets(w, id, files)[Position(hash, sources, i)], sources[i].name)
    {
      TargetsNamed(w, id, files, Position(hash, sources, i));
    }
  }

  lemma PlanIsCurrent(w: World, hash: Hash, id: string, sources: seq<Source>, chunkSize: U64, i: nat)
    requires InProgress(w, hash, id, sources) && chunkSize > 0 && i < |sources|
    ensures PlanCurrent(w, id, sources, chunkSize, Some(PlanOf(w.db, id, chunkSize)), i)
  {
    OfferedFind(hash, sources, i);
    RowForSize(hash, sources, i);
    PlanForEntry(w.db[id], w.db[id].files, chunkSize, RowFor(hash, sources, i));
  }

  ghost predicate Succeeded(w: World, id: string, sources: seq<Source>, w': World) {
    && id in w'.db && w'.db[id].state == Completed
    && exists places :: SourcesDelivered(w.inbox, w'.inbox, sources, places) && NamedAfterSources(sources, places)
  }

  lemma FinishDelivers(w: World, hash: Hash, id: string, sources: seq<Source>)
    requires InProgress(w, hash, id, sources)
    requires forall j :: 0 <= j < |sources| ==> FileComplete(w, id, sources, j)
    ensures var (w', error) := Finish(w, hash, id);
            && (error.None? <==> NonEmpty(sources) && Allocates(Taken(w.inbox), OfferedFiles(hash, sources)))
            && (error.None? ==> Succeeded(w, id, sources, w'))
  {
    AllComplete(w, hash, id, sources);
    OfferedPartsDistinct(w, hash, id, sources);
    FinishSucceedsIff(w, hash, id);
    if Finish(w, hash, id).1.None? { FinishHandsOver(w, hash, id, sources); }
  }

  lemma FinishHandsOver(w: World, hash: Hash, id: string, sources: seq<Source>)
    requires InProgress(w, hash, id, sources) && NonEmpty(sources)
    requires forall j :: 0 <= j < |sources| ==> FileComplete(w, id, sources, j)
    requires Finish(w, hash, id).1.None?
    ensures Succeeded(w, id, sources, Finish(w, hash, id).0)
  {
    SuccessDelivers(w, hash, id);
    HandedOver(w, hash, id, sources, Finish(w, hash, id).0);
  }

  lemma HandedOver(w: World, hash: Hash, id: string, sources: seq<Source>, w': World)
    requires InProgress(w, hash, id, sources) && NonEmpty(sources)
    requires forall j :: 0 <= j < |sources| ==> FileComplete(w, id, sources, j)
    requires id in w'.db && w'.db[id].state == Completed
    requires Delivered(w, id, w.db[id].files, w', Targets(w, id, w.db[id].files))
    ensures Succeeded(w, id, sources, w')
  {
    DeliveredSources(w, hash, id, sources, w', Targets(w, id, w.db[id].files));
    PlacesNamed(w, hash, id, sources);
  }

  /**
    A resume of a transfer in progress succeeds exactly when no source is empty and every
    file can be given a name; it then completes the transfer and delivers every source.
   */
  lemma ResumeDelivers(w: World, hash: Hash, id: string, sources: seq<Source>, chunkSize: U64)
    requires InProgress(w, hash, id, sources) && chunkSize > 0
    ensures var (w', error) := Resume(w, hash, Request(id, Offers(hash, sources)), sources, chunkSize);
            && (error.None? <==> NonEmpty(sources) && Allocates(Taken(w.inbox), OfferedFiles(hash, sources)))
            && (error.None? ==> Succeeded(w, id, sources, w'))
  {
    var plan := Some(PlanOf(w.db, id, chunkSize));
    forall j | 0 <= j < |sources| ensures PlanCurrent(w, id, sources, chunkSize, plan, j) {
      PlanIsCurrent(w, hash, id, sources, chunkSize, j);
    }
    HonestSend(w, hash, id, sources, chunkSize, plan, 0);
    var w1 := SendFrom(w, hash, Request(id, Offers(hash, sources)), sources, chunkSize, plan, 0).0;
    FinishDelivers(w1, hash, id, sources);
  }
}
