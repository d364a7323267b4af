/**
  Whole runs of the receiver: any interleaving of accepts, chunks (of any transfer, in or out
  of range, overlapping, repeated), finishes, and crashes in the middle of either.
 */
module Runs {
  import opened Prelude
  import opened Ranges
  import opened Manifest
  import opened Receiver
  import Text

  datatype Event =
    | Accepting(cfg: Config, peer: string, req: Request)
    | Receiving(id: string, fileId: string, offset: U64, data: Bytes, claimed: Digest)
    | ReceivingTorn(id: string, fileId: string, offset: U64, data: Bytes, claimed: Digest, k: nat)
    | Finishing(id: string)
    | FinishingTorn(id: string, k: nat)

  ghost function Step(w: World, hash: Hash, e: Event): World {
    match e
    case Accepting(cfg, peer, req) => Accept(w, cfg, peer, req).0
    case Receiving(id, fileId, offset, data, claimed) =>
      ReceiveChunk(w, hash, id, fileId, offset, data, claimed).0
    case ReceivingTorn(id, fileId, offset, data, claimed, k) =>
      TornChunk(w, hash, id, fileId, offset, data, claimed, k)
    case Finishing(id) => Finish(w, hash, id).0
    case FinishingTorn(id, k) => TornFinish(w, hash, id, k)
  }

  ghost function Run(w: World, hash: Hash, es: seq<Event>): World {
    if es == [] then w else Step(Run(w, hash, es[..|es| - 1]), hash, es[|es| - 1])
  }

  // ----- what single calls decide -----

  /**
    An accept depends on policy, peer and request alone. It makes the transfer active whatever
    its state was: a known one, even a completed one, keeps its files and rows, and a new one
    starts with the offered files and no rows. Nothing else changes.
   */
  lemma AcceptReopens(w: World, cfg: Config, peer: string, req: Request)
    ensures var (w', error) := Accept(w, cfg, peer, req);
            && (error.None? <==>
                  && !cfg.blocked && cfg.trusted == Some(peer) && (req.id in w.db || !Text.Blank(peer))
                  && !Text.Blank(req.id) && req.files != []
                  && (forall i :: 0 <= i < |req.files| ==>
                        !Text.Blank(req.files[i].fileId) && !Text.Blank(req.files[i].fileName))
                  && forall i, j :: 0 <= i < j < |req.files| ==> req.files[i].fileId != req.files[j].fileId)
            && w'.parts == w.parts && w'.inbox == w.inbox
            && (error.Some? ==> w' == w)
            && (error.None? ==>
                  && w'.db.Keys == w.db.Keys + {req.id} && w'.db[req.id].state == Active
                  && (forall id :: id in w.db && id != req.id ==> w'.db[id] == w.db[id])
                  && (if req.id in w.db
                      then w'.db[req.id].files == w.db[req.id].files && w'.db[req.id].chunks == w.db[req.id].chunks
                      else
                        && multiset(w'.db[req.id].files) == multiset(ToRows(req.files))
                        && forall f :: w'.db[req.id].Rows(f) == []))
  {
    if UniqueOffers(req.files) { NewTransferFiles(peer, req.files); }
  }

  /** A refused chunk never changes the manifest or the inbox; refused for its digest, it changes nothing at all. */
  lemma RefusedChunk(w: World, hash: Hash, id: string, fileId: string, offset: U64, data: Bytes, claimed: Digest)
    requires ReceiveChunk(w, hash, id, fileId, offset, data, claimed).1.Some?
    ensures var (w', error) := ReceiveChunk(w, hash, id, fileId, offset, data, claimed);
            && w'.db == w.db && w'.inbox == w.inbox
            && (data == [] || hash(data) != claimed ==> w' == w)
            && forall p :: p in w.parts && PartPath(id, fileId) != Some(p) ==>
                 p in w'.parts && w'.parts[p] == w.parts[p]
  {
  }

  /**
    Exactly when a refused chunk changes nothing: it was refused for its data or digest, its part
    has no lasting path, or the part already held those bytes there. In every other refusal
    (unknown file, overflow, past the end) the bytes have reached the part.
   */
  lemma RefusedChunkKeepsIff(w: World, hash: Hash, id: string, fileId: string, offset: U64, data: Bytes,
      claimed: Digest)
    requires ReceiveChunk(w, hash, id, fileId, offset, data, claimed).1.Some?
    ensures var w' := ReceiveChunk(w, hash, id, fileId, offset, data, claimed).0;
            var path := PartPath(id, fileId);
            w' == w <==>
            || !ChunkAccepted(hash, data, claimed)
            || path.None?
            || (path.value in w.parts && WriteAt(w.parts[path.value], offset, data) == w.parts[path.value])
  {
    var path := PartPath(id, fileId);
    if ChunkAccepted(hash, data, claimed) && path.Some? {
      var w' := ReceiveChunk(w, hash, id, fileId, offset, data, claimed).0;
      assert w'.parts[path.value] == WriteAt(Stored(w.parts, path.value), offset, data);
      if path.value in w.parts && w'.parts[path.value] == w.parts[path.value] { assert w'.parts == w.parts; }
    }
  }

  /**
    A chunk that ends past its file is refused, yet it has been written: the part is then longer
    than the file.
   */
  lemma RefusedChunkWrites(w: World, hash: Hash, id: string, f: FileRow, path: Path, offset: U64, data: Bytes)
    requires id in w.db && FindFile(w.db[id].files, f.fileId) == Some(f) && PartPath(id, f.fileId) == Some(path)
    requires data != [] && f.Size() < offset + |data|
    ensures var (w', error) := ReceiveChunk(w, hash, id, f.fileId, offset, data, hash(data));
            && error == Some(Store(if offset + |data| < TWO_64 then PastFileEnd else ChunkOverflow))
            && path in w'.parts && |w'.parts[path]| > f.Size() && (w' == w <==> w'.parts == w.parts)
  {
    WriteAtByte(Stored(w.parts, path), offset, data, 0);
  }

  // ----- whole runs -----

  lemma StepValid(w: World, hash: Hash, e: Event)
    requires ValidDb(w.db)
    ensures ValidDb(Step(w, hash, e).db)
  {
    match e
    case Accepting(cfg, peer, req) =>
      CreateValid(w.db, req.id, peer, req.files);
      if Create(w.db, req.id, peer, req.files).Ok? && req.id !in w.db {
        SetStateValid(Create(w.db, req.id, peer, req.files).value, req.id, Active);
      }
      SetStateValid(w.db, req.id, Active);
    case Receiving(id, fileId, offset, data, claimed) =>
      RecordValid(w.db, id, fileId, offset, |data|);
    case ReceivingTorn(_, _, _, _, _, _) =>
    case Finishing(id) =>
      SetStateValid(w.db, id, Interrupted);
      SetStateValid(w.db, id, Failed);
      SetStateValid(w.db, id, Completed);
    case FinishingTorn(_, _) =>
  }

  /** Every reachable manifest is valid: rows in range and in order, ids distinct. */
  lemma {:induction false} RunValid(w: World, hash: Hash, es: seq<Event>)
    requires ValidDb(w.db)
    ensures ValidDb(Run(w, hash, es).db)
  {
    if es != [] {
      RunValid(w, hash, es[..|es| - 1]);
      StepValid(Run(w, hash, es[..|es| - 1]), hash, es[|es| - 1]);
    }
  }

  /**
    On every reachable manifest the unchecked arithmetic is exact: no stored range ends
    outside 64 bits, so both planners give the same plan.
   */
  lemma ReachableRangesFit(w: World, hash: Hash, es: seq<Event>, id: string, f: FileRow)
    requires ValidDb(w.db) && id in Run(w, hash, es).db && f in Run(w, hash, es).db[id].files
    ensures var rs := Run(w, hash, es).db[id].Ranges(f.fileId); AllFit(rs) && Within(f.Size(), rs)
  {
    RunValid(w, hash, es);
    WithinFits(f.Size(), Run(w, hash, es).db[id].Ranges(f.fileId));
  }
}
