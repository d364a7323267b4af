/**
  Until a part is moved out, every recorded byte is on disk and was last written by a chunk
  that passed its digest check; a file judged complete therefore has no zero-filled gap.
 */
module NoHoles {
  import opened Prelude
  import opened Ranges
  import opened Manifest
  import opened Receiver
  import opened Runs
  import opened Publishing

  /** Event `e` is a digest-checked chunk that put a byte at position `p` of part `path`. */
  predicate Writes(hash: Hash, e: Event, path: Path, p: nat) {
    && (e.Receiving? || e.ReceivingTorn?)
    && PartPath(e.id, e.fileId) == Some(path)
    && ChunkAccepted(hash, e.data, e.claimed)
    && e.offset <= p < e.offset + Reach(e)
  }

  /** How many bytes of the chunk reached the disk. */
  function Reach(e: Event): nat
    requires e.Receiving? || e.ReceivingTorn?
  {
    if e.Receiving? then |e.data| else Min(e.k, |e.data|)
  }

  /** The last event of the run that wrote position `p` of `path`. */
  function LastWriter(hash: Hash, es: seq<Event>, path: Path, p: nat): (r: Option<nat>)
    ensures r.Some? ==> r.value < |es| && Writes(hash, es[r.value], path, p)
    ensures forall i :: (if r.Some? then r.value else -1) < i < |es| ==> !Writes(hash, es[i], path, p)
  {
    if es == [] then None
    else if Writes(hash, es[|es| - 1], path, p) then Some(|es| - 1)
    else LastWriter(hash, es[..|es| - 1], path, p)
  }

  /** The byte event `e` put at position `p`. */
  function Written(hash: Hash, e: Event, path: Path, p: nat): Byte
    requires Writes(hash, e, path, p)
  {
    e.data[p - e.offset]
  }

  ghost predicate KeptAt(w: World, hash: Hash, es: seq<Event>, path: Path, i: nat)
    requires i < |es|
  {
    path in Run(w, hash, es[..i]).parts ==> path in Run(w, hash, es[..i + 1]).parts
  }

  /** No event of the run moved `path` out. */
  ghost predicate Kept(w: World, hash: Hash, es: seq<Event>, path: Path) {
    forall i :: 0 <= i < |es| ==> KeptAt(w, hash, es, path, i)
  }

  lemma KeptAtPrefix(w: World, hash: Hash, es: seq<Event>, path: Path, m: nat, i: nat)
    requires i < m <= |es| && KeptAt(w, hash, es, path, i)
    ensures KeptAt(w, hash, es[..m], path, i)
  {
    assert es[..m][..i] == es[..i] && es[..m][..i + 1] == es[..i + 1];
  }

  lemma KeptPrefix(w: World, hash: Hash, es: seq<Event>, path: Path)
    requires es != [] && Kept(w, hash, es, path)
    ensures Kept(w, hash, es[..|es| - 1], path)
    ensures path in Run(w, hash, es[..|es| - 1]).parts ==> path in Run(w, hash, es).parts
  {
    var m := |es| - 1;
    forall i | 0 <= i < m ensures KeptAt(w, hash, es[..m], path, i) {
      KeptAtPrefix(w, hash, es, path, m, i);
    }
    assert KeptAt(w, hash, es, path, m);
    assert es[..m + 1] == es;
  }

  ghost predicate Holds(w: World, path: Path, p: nat, b: Byte) {
    path in w.parts && p < |w.parts[path]| && w.parts[path][p] == b
  }

  lemma WritePartByte(w: World, id: string, fileId: string, offset: nat, data: Bytes, path: Path, p: nat, b: Byte)
    requires PartPath(id, fileId) == Some(path) && offset <= p < offset + |data| ==> data[p - offset] == b
    requires !(PartPath(id, fileId) == Some(path) && offset <= p < offset + |data|) ==> Holds(w, path, p, b)
    ensures Holds(WritePart(w, id, fileId, offset, data), path, p, b)
  {
    if data != [] { WriteAtByte(Stored(w.parts, path), offset, data, p); }
  }

  /** One step keeps a byte that it does not overwrite, unless it moves the part. */
  lemma StepKeepsByte(w: World, hash: Hash, e: Event, path: Path, p: nat, b: Byte)
    requires path in w.parts ==> path in Step(w, hash, e).parts
    requires if Writes(hash, e, path, p) then Written(hash, e, path, p) == b else Holds(w, path, p, b)
    ensures Holds(Step(w, hash, e), path, p, b)
  {
    match e
    case Accepting(_, _, _) =>
    case Receiving(id, fileId, offset, data, claimed) =>
      if ChunkAccepted(hash, data, claimed) {
        WritePartByte(w, id, fileId, offset, data, path, p, b);
      }
    case ReceivingTorn(id, fileId, offset, data, claimed, k) =>
      if ChunkAccepted(hash, data, claimed) {
        WritePartByte(w, id, fileId, offset, data[..Min(k, |data|)], path, p, b);
      }
    case Finishing(id) => FinishVerifiesFirst(w, hash, id);
    case FinishingTorn(id, k) =>
      if id in w.db { PublishKeeps(w, id, w.db[id].files[..Min(k, |w.db[id].files|)]); }
  }

  /** The disk holds, at every position ever written, the byte of the last writer. */
  lemma {:induction false} DiskHoldsLastWrite(w: World, hash: Hash, es: seq<Event>, path: Path, p: nat)
    requires Kept(w, hash, es, path) && LastWriter(hash, es, path, p).Some?
    ensures var i := LastWriter(hash, es, path, p).value;
            Holds(Run(w, hash, es), path, p, Written(hash, es[i], path, p))
  {
    var m := |es| - 1;
    KeptPrefix(w, hash, es, path);
    var i := LastWriter(hash, es, path, p).value;
    if i < m { DiskHoldsLastWrite(w, hash, es[..m], path, p); }
    StepKeepsByte(Run(w, hash, es[..m]), hash, es[m], path, p, Written(hash, es[i], path, p));
  }

  // ----- recorded bytes were written -----

  ghost predicate Recorded(db: Db, id: string, fileId: string, p: int) {
    id in db && Covers(db[id].Ranges(fileId), p)
  }

  lemma AcceptRecordsNothing(w: World, cfg: Config, peer: string, req: Request, id: string, fileId: string, p: nat)
    requires Recorded(Accept(w, cfg, peer, req).0.db, id, fileId, p)
    ensures Recorded(w.db, id, fileId, p)
  {
    var db' := Accept(w, cfg, peer, req).0.db;
    if id in w.db { assert db'[id].Ranges(fileId) == w.db[id].Ranges(fileId); }
  }

  lemma FinishRecordsNothing(w: World, hash: Hash, fid: string, id: string, fileId: string, p: nat)
    requires Recorded(Finish(w, hash, fid).0.db, id, fileId, p)
    ensures Recorded(w.db, id, fileId, p)
  {
    assert Finish(w, hash, fid).0.db[id].Ranges(fileId) == w.db[id].Ranges(fileId);
  }

  /** A step that records a byte for the first time wrote it, for that very file. */
  lemma StepRecords(w: World, hash: Hash, e: Event, id: string, fileId: string, path: Path, p: nat)
    requires ValidDb(w.db) && PartPath(id, fileId) == Some(path)
    requires Recorded(Step(w, hash, e).db, id, fileId, p)
    ensures Recorded(w.db, id, fileId, p) || (Writes(hash, e, path, p) && e.id == id && e.fileId == fileId)
  {
    match e
    case Accepting(cfg, peer, req) => AcceptRecordsNothing(w, cfg, peer, req, id, fileId, p);
    case Receiving(eid, efile, offset, data, claimed) =>
      if ChunkAccepted(hash, data, claimed) && Record(w.db, eid, efile, offset, |data|).Ok? {
        if eid == id && efile == fileId {
          RecordCovers(w.db, id, fileId, offset, |data|, p);
        } else {
          assert Step(w, hash, e).db[id].Rows(fileId) == w.db[id].Rows(fileId);
        }
      }
    case ReceivingTorn(_, _, _, _, _, _) =>
    case Finishing(fid) => FinishRecordsNothing(w, hash, fid, id, fileId, p);
    case FinishingTorn(_, _) =>
  }

  lemma RecordCovers(db: Db, id: string, fileId: string, offset: U64, length: nat, p: nat)
    requires ValidDb(db) && Record(db, id, fileId, offset, length).Ok?
    requires Recorded(Record(db, id, fileId, offset, length).value, id, fileId, p)
    ensures Recorded(db, id, fileId, p) || offset <= p < offset + length
  {
    var rows := db[id].Rows(fileId);
    FindFileIn(db[id].files, fileId);
    UpsertCover(rows, offset, length, p);
    if c :| c in rows && c.ToRange().offset != offset && c.ToRange().Has(p) {
      ToRangesMembers(rows, c.ToRange());
    }
  }

  lemma {:induction false} RecordedWasWritten(w: World, hash: Hash, es: seq<Event>, id: string, fileId: string,
      path: Path, p: nat)
    requires w.db == map[] && PartPath(id, fileId) == Some(path)
    requires Recorded(Run(w, hash, es).db, id, fileId, p)
    ensures LastWriter(hash, es, path, p).Some?
  {
    var m := |es| - 1;
    RunValid(w, hash, es[..m]);
    StepRecords(Run(w, hash, es[..m]), hash, es[m], id, fileId, path, p);
    if Recorded(Run(w, hash, es[..m]).db, id, fileId, p) {
      RecordedWasWritten(w, hash, es[..m], id, fileId, path, p);
    }
  }

  /** Only events for this very file name its part. */
  ghost predicate OwnPart(es: seq<Event>, id: string, fileId: string) {
    forall i :: 0 <= i < |es| && (es[i].Receiving? || es[i].ReceivingTorn?) ==>
      (PartPath(es[i].id, es[i].fileId) == PartPath(id, fileId) ==> es[i].id == id && es[i].fileId == fileId)
  }

  /**
    No holes: after any run that has not moved the part, a recorded byte lies within the part
    and is the byte put there by the last chunk written over it, which passed its digest check;
    when no other file shares the part, that chunk was sent for this file.
   */
  lemma RecordedBytesAreOnDisk(w: World, hash: Hash, es: seq<Event>, id: string, fileId: string, path: Path, p: nat)
    requires w.db == map[] && PartPath(id, fileId) == Some(path) && Kept(w, hash, es, path)
    requires Recorded(Run(w, hash, es).db, id, fileId, p)
    ensures var last := LastWriter(hash, es, path, p);
            && last.Some?
            && Holds(Run(w, hash, es), path, p, Written(hash, es[last.value], path, p))
            && (OwnPart(es, id, fileId) ==> es[last.value].id == id && es[last.value].fileId == fileId)
  {
    RecordedWasWritten(w, hash, es, id, fileId, path, p);
    DiskHoldsLastWrite(w, hash, es, path, p);
  }

  /** A complete file has no zero-filled gap: each of its bytes came from a digest-checked chunk. */
  lemma CompleteFileHasNoGap(w: World, hash: Hash, es: seq<Event>, id: string, f: FileRow, path: Path)
    requires w.db == map[] && PartPath(id, f.fileId) == Some(path) && Kept(w, hash, es, path)
    requires id in Run(w, hash, es).db && Complete(f.Size(), Run(w, hash, es).db[id].Ranges(f.fileId))
    ensures forall p: nat :: p < f.Size() ==>
              && LastWriter(hash, es, path, p).Some?
              && Holds(Run(w, hash, es), path, p, Written(hash, es[LastWriter(hash, es, path, p).value], path, p))
    ensures f.Size() > 0 ==> path in Run(w, hash, es).parts && |Run(w, hash, es).parts[path]| >= f.Size()
  {
    forall p: nat | p < f.Size()
      ensures && LastWriter(hash, es, path, p).Some?
              && Holds(Run(w, hash, es), path, p, Written(hash, es[LastWriter(hash, es, path, p).value], path, p))
    {
      RecordedBytesAreOnDisk(w, hash, es, id, f.fileId, path, p);
    }
    if f.Size() > 0 {
      var last := f.Size() - 1;
      assert LastWriter(hash, es, path, last).Some?;
    }
  }

  /**
    Why the part must not have been moved: rows outlive a publish. After a successful finish
    the transfer still counts as complete, but its parts are gone, so finishing it again fails
    for want of a file.
   */
  lemma RowsOutliveParts(w: World, hash: Hash, id: string)
    requires Finish(w, hash, id).1.None?
    ensures var w' := Finish(w, hash, id).0;
            && TransferComplete(w'.db, id)
            && Finish(w', hash, id).1 == Some(FileMissing)
  {
    var files := w.db[id].files;
    var w' := Finish(w, hash, id).0;
    var published := PublishFiles(w, id, files).0;
    assert PublishFile(w, id, files[0]).1.None?;
    PublishKeeps(PublishFile(w, id, files[0]).0, id, files[1..]);
    assert PartPath(id, files[0].fileId).value !in published.parts;
    assert forall f :: w'.db[id].Ranges(f) == w.db[id].Ranges(f);
    assert CheckFile(w', hash, id, files[0]) == Some(FileMissing);
  }
}
