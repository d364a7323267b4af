/**
  Interrupted transfers: after an accept, any number of honest attempts, torn writes, early
  finishes, re-accepts and other transfers' traffic leaves a transfer that one resume
  delivers.
 */
module Interruptions {
  import opened Prelude
  import opened Ranges
  import opened Manifest
  import opened Receiver
  import opened Runs
  import opened Publishing
  import opened Sender
  import opened ResumeCorrect
  import Names
  import Sorting

  /** A chunk event that carries a true, non-empty slice of one of the sources. */
  ghost predicate TrueSlice(hash: Hash, sources: seq<Source>, fileId: string, offset: nat, data: Bytes,
      claimed: Digest, i: nat)
  {
    && i < |sources| && fileId == FileId(i)
    && data != [] && offset + |data| <= |sources[i].data|
    && data == sources[i].data[offset..offset + |data|] && claimed == hash(data)
  }

  /**
    What may happen to transfer `id` before it is published: true slices of its sources, whole
    or torn at any byte, finishes that come too early, accepts, and anything at all for
    transfers staged in other directories.
   */
  ghost predicate Honest(w: World, hash: Hash, id: string, sources: seq<Source>, e: Event) {
    match e
    case Accepting(_, _, _) => true
    case Receiving(eid, fileId, offset, data, claimed) =>
      if eid == id then exists i :: TrueSlice(hash, sources, fileId, offset, data, claimed, i)
      else Clean(eid) != Clean(id)
    case ReceivingTorn(eid, fileId, offset, data, claimed, _) =>
      if eid == id then exists i :: TrueSlice(hash, sources, fileId, offset, data, claimed, i)
      else Clean(eid) != Clean(id)
    case Finishing(eid) => if eid == id then !TransferComplete(w.db, id) else Clean(eid) != Clean(id)
    case FinishingTorn(eid, k) => if eid == id then k == 0 || !TransferComplete(w.db, id) else Clean(eid) != Clean(id)
  }

  /** The same rows and parts for this transfer, whatever happened elsewhere. */
  ghost predicate Untouched(w: World, id: string, w': World) {
    && ValidDb(w'.db) && id in w.db && id in w'.db
    && w'.db[id].files == w.db[id].files && w'.db[id].chunks == w.db[id].chunks
    && forall p :: p in w.parts || p in w'.parts ==>
         (p.dir == Clean(id) ==> p in w.parts && p in w'.parts && w.parts[p] == w'.parts[p])
  }

  lemma UntouchedProgress(w: World, hash: Hash, id: string, sources: seq<Source>, w': World)
    requires InProgress(w, hash, id, sources) && Untouched(w, id, w')
    ensures InProgress(w', hash, id, sources)
  {
    forall j | 0 <= j < |sources| ensures FileSound(w', id, sources, j) {
      assert FileSound(w, id, sources, j);
      assert Stored(w'.parts, PartOf(id, j)) == Stored(w.parts, PartOf(id, j));
      assert w'.db[id].Ranges(FileId(j)) == w.db[id].Ranges(FileId(j));
    }
  }

  /** Publishing another transfer only moves parts of its own directory. */
  lemma {:induction false} PublishOwnDir(w: World, eid: string, files: seq<FileRow>, p: Path)
    requires p.dir != Clean(eid)
    ensures var w' := PublishFiles(w, eid, files).0;
            (p in w.parts <==> p in w'.parts) && (p in w.parts ==> w'.parts[p] == w.parts[p])
    decreases |files|
  {
    if files != [] && PublishFile(w, eid, files[0]).1.None? {
      PublishOwnDir(PublishFile(w, eid, files[0]).0, eid, files[1..], p);
    }
  }

  lemma AcceptUntouched(w: World, id: string, cfg: Config, peer: string, req: Request)
    requires ValidDb(w.db) && id in w.db && ValidDb(Accept(w, cfg, peer, req).0.db)
    ensures Untouched(w, id, Accept(w, cfg, peer, req).0)
  {
  }

  lemma OtherWriteParts(w: World, id: string, eid: string, fileId: string, offset: nat, data: Bytes, p: Path)
    requires Clean(eid) != Clean(id) && p.dir == Clean(id)
    ensures var w' := WritePart(w, eid, fileId, offset, data);
            (p in w.parts <==> p in w'.parts) && (p in w.parts ==> w'.parts[p] == w.parts[p])
  {
  }

  lemma OtherRecordRow(db: Db, id: string, eid: string, fileId: string, offset: U64, length: nat)
    requires eid != id && id in db
    ensures var r := Record(db, eid, fileId, offset, length); r.Ok? ==> id in r.value && r.value[id] == db[id]
  {
  }

  lemma OtherReceiveUntouched(w: World, hash: Hash, id: string, e: Event)
    requires e.Receiving? && e.id != id && Clean(e.id) != Clean(id)
    requires id in w.db && ValidDb(Step(w, hash, e).db)
    ensures Untouched(w, id, Step(w, hash, e))
  {
    var w' := Step(w, hash, e);
    OtherRecordRow(w.db, id, e.id, e.fileId, e.offset, |e.data|);
    forall p: Path | p.dir == Clean(id)
      ensures (p in w.parts <==> p in w'.parts) && (p in w.parts ==> w'.parts[p] == w.parts[p])
    {
      OtherChunkParts(w, hash, id, e, p);
    }
    assert w'.db[id] == w.db[id];
  }

  lemma OtherChunkParts(w: World, hash: Hash, id: string, e: Event, p: Path)
    requires e.Receiving? && Clean(e.id) != Clean(id) && p.dir == Clean(id)
    ensures var w' := Step(w, hash, e);
            (p in w.parts <==> p in w'.parts) && (p in w.parts ==> w'.parts[p] == w.parts[p])
  {
    OtherWriteParts(w, id, e.id, e.fileId, e.offset, e.data, p);
  }

  lemma OtherTornUntouched(w: World, hash: Hash, id: string, e: Event)
    requires e.ReceivingTorn? && Clean(e.id) != Clean(id) && id in w.db && ValidDb(w.db)
    ensures Untouched(w, id, Step(w, hash, e))
  {
  }

  lemma OtherFinishUntouched(w: World, hash: Hash, id: string, eid: string)
    requires Clean(eid) != Clean(id) && id in w.db && ValidDb(w.db) && ValidDb(Finish(w, hash, eid).0.db)
    ensures Untouched(w, id, Finish(w, hash, eid).0)
  {
    var w' := Finish(w, hash, eid).0;
    forall p: Path | p.dir == Clean(id)
      ensures (p in w.parts <==> p in w'.parts) && (p in w.parts ==> w'.parts[p] == w.parts[p])
    {
      OtherFinishParts(w, hash, id, eid, p);
    }
    OtherFinishRow(w, hash, id, eid);
  }

  lemma OtherFinishParts(w: World, hash: Hash, id: string, eid: string, p: Path)
    requires Clean(eid) != Clean(id) && p.dir == Clean(id)
    ensures var w' := Finish(w, hash, eid).0;
            (p in w.parts <==> p in w'.parts) && (p in w.parts ==> w'.parts[p] == w.parts[p])
  {
    if eid in w.db { PublishOwnDir(w, eid, w.db[eid].files, p); }
  }

  lemma OtherFinishRow(w: World, hash: Hash, id: string, eid: string)
    requires eid != id && id in w.db
    ensures var w' := Finish(w, hash, eid).0; id in w'.db && w'.db[id] == w.db[id]
  {
  }

  lemma OtherTornFinishUntouched(w: World, hash: Hash, id: string, eid: string, k: nat)
    requires Clean(eid) != Clean(id) && id in w.db && ValidDb(w.db)
    ensures Untouched(w, id, TornFinish(w, hash, eid, k))
  {
    var w' := TornFinish(w, hash, eid, k);
    if eid in w.db {
      forall p: Path | p.dir == Clean(id)
        ensures (p in w.parts <==> p in w'.parts) && (p in w.parts ==> w'.parts[p] == w.parts[p])
      {
        PublishOwnDir(w, eid, w.db[eid].files[..Min(k, |w.db[eid].files|)], p);
      }
    }
  }

  /** An own chunk is a true slice, received whole. */
  lemma OwnChunkKeeps(w: World, hash: Hash, id: string, sources: seq<Source>, e: Event, i: nat)
    requires InProgress(w, hash, id, sources) && e.Receiving? && e.id == id
    requires TrueSlice(hash, sources, e.fileId, e.offset, e.data, e.claimed, i)
    ensures InProgress(Step(w, hash, e), hash, id, sources)
  {
    assert sources[i] in sources;
    var r := Range(e.offset, |e.data|);
    assert e.data == Slice(sources, i, r);
    HonestReceive(w, hash, id, sources, i, r);
  }

  /** An own torn chunk leaves a shorter true slice on disk. */
  lemma OwnTornKeeps(w: World, hash: Hash, id: string, sources: seq<Source>, e: Event, i: nat)
    requires InProgress(w, hash, id, sources) && e.ReceivingTorn? && e.id == id
    requires TrueSlice(hash, sources, e.fileId, e.offset, e.data, e.claimed, i)
    ensures InProgress(Step(w, hash, e), hash, id, sources)
  {
    var r := Range(e.offset, Min(e.k, |e.data|));
    SliceOfSlice(sources[i].data, e.data, r);
    TornKeepsProgress(w, hash, id, sources, i, r);
  }

  lemma SliceOfSlice(source: Bytes, data: Bytes, r: Range)
    requires r.offset + |data| <= |source| && data == source[r.offset..r.offset + |data|] && r.length <= |data|
    ensures data[..r.length] == source[r.offset..r.End()]
  {
  }

  lemma OwnFinishKeeps(w: World, hash: Hash, id: string, sources: seq<Source>)
    requires InProgress(w, hash, id, sources) && !TransferComplete(w.db, id)
    ensures InProgress(Finish(w, hash, id).0, hash, id, sources)
  {
    SetStateValid(w.db, id, Interrupted);
    UntouchedProgress(w, hash, id, sources, Finish(w, hash, id).0);
  }

  /** Every honest event keeps the transfer in progress. */
  lemma HonestStep(w: World, hash: Hash, id: string, sources: seq<Source>, e: Event)
    requires InProgress(w, hash, id, sources) && Honest(w, hash, id, sources, e)
    ensures InProgress(Step(w, hash, e), hash, id, sources)
  {
    StepValid(w, hash, e);
    match e
    case Accepting(cfg, peer, req) =>
      AcceptUntouched(w, id, cfg, peer, req);
      UntouchedProgress(w, hash, id, sources, Step(w, hash, e));
    case Receiving(eid, fileId, offset, data, claimed) =>
      if eid == id {
        var i :| TrueSlice(hash, sources, fileId, offset, data, claimed, i);
        OwnChunkKeeps(w, hash, id, sources, e, i);
      } else {
        OtherReceiveUntouched(w, hash, id, e);
        UntouchedProgress(w, hash, id, sources, Step(w, hash, e));
      }
    case ReceivingTorn(eid, fileId, offset, data, claimed, k) =>
      if eid == id {
        var i :| TrueSlice(hash, sources, fileId, offset, data, claimed, i);
        OwnTornKeeps(w, hash, id, sources, e, i);
      } else {
        OtherTornUntouched(w, hash, id, e);
        UntouchedProgress(w, hash, id, sources, Step(w, hash, e));
      }
    case Finishing(eid) => HonestFinishStep(w, hash, id, sources, eid);
    case FinishingTorn(eid, k) =>
      if eid != id {
        OtherTornFinishUntouched(w, hash, id, eid, k);
        UntouchedProgress(w, hash, id, sources, Step(w, hash, e));
      } else {
        assert w.db[id].files[..0] == [];
      }
  }

  lemma HonestFinishStep(w: World, hash: Hash, id: string, sources: seq<Source>, eid: string)
    requires InProgress(w, hash, id, sources) && Honest(w, hash, id, sources, Finishing(eid))
    ensures InProgress(Finish(w, hash, eid).0, hash, id, sources)
  {
    if eid == id {
      OwnFinishKeeps(w, hash, id, sources);
    } else {
      StepValid(w, hash, Finishing(eid));
      OtherFinishUntouched(w, hash, id, eid);
      UntouchedProgress(w, hash, id, sources, Finish(w, hash, eid).0);
    }
  }

  ghost predicate HonestRun(w: World, hash: Hash, id: string, sources: seq<Source>, es: seq<Event>) {
    forall k :: 0 <= k < |es| ==> Honest(Run(w, hash, es[..k]), hash, id, sources, es[k])
  }

  lemma {:induction false} HonestRunKeeps(w: World, hash: Hash, id: string, sources: seq<Source>, es: seq<Event>)
    requires InProgress(w, hash, id, sources) && HonestRun(w, hash, id, sources, es)
    ensures InProgress(Run(w, hash, es), hash, id, sources)
  {
    if es != [] {
      var m := |es| - 1;
      forall k | 0 <= k < m ensures Honest(Run(w, hash, es[..m][..k]), hash, id, sources, es[..m][k]) {
        assert es[..m][..k] == es[..k];
      }
      HonestRunKeeps(w, hash, id, sources, es[..m]);
      assert Honest(Run(w, hash, es[..m]), hash, id, sources, es[m]);
      HonestStep(Run(w, hash, es[..m]), hash, id, sources, es[m]);
    }
  }

  /** A transfer id that is new to the manifest and to the staging directory. */
  ghost predicate Fresh(w: World, id: string) {
    Clean(id) != [] && id !in w.db && forall p :: p in w.parts ==> p.dir != Clean(id)
  }

  lemma AcceptStarts(w: World, hash: Hash, cfg: Config, peer: string, id: string, sources: seq<Source>)
    requires ValidDb(w.db) && Fresh(w, id) && Addressable(sources)
    requires Accept(w, cfg, peer, Request(id, Offers(hash, sources))).1.None?
    ensures InProgress(Accept(w, cfg, peer, Request(id, Offers(hash, sources))).0, hash, id, sources)
  {
    var req := Request(id, Offers(hash, sources));
    var w' := Accept(w, cfg, peer, req).0;
    StepValid(w, hash, Accepting(cfg, peer, req));
    forall j | 0 <= j < |sources| ensures FileSound(w', id, sources, j) {
      assert w'.db[id].Ranges(FileId(j)) == [];
      assert PartOf(id, j) !in w'.parts;
    }
  }

  /**
    End to end: after an accept of a fresh transfer and any honest run of interruptions, a
    resume with any positive chunk size succeeds exactly when no source is empty and every file
    can be given a name. It then leaves the transfer completed and the inbox with one new entry
    per source, equal to it, and nothing else changed.
   */
  lemma ResumeAfterInterruptions(
    w: World, hash: Hash, cfg: Config, peer: string, id: string, sources: seq<Source>, es: seq<Event>, chunkSize: U64)
    requires ValidDb(w.db) && Fresh(w, id) && Addressable(sources) && chunkSize > 0
    requires Accept(w, cfg, peer, Request(id, Offers(hash, sources))).1.None?
    requires HonestRun(Accept(w, cfg, peer, Request(id, Offers(hash, sources))).0, hash, id, sources, es)
    ensures var req := Request(id, Offers(hash, sources));
            var before := Run(Accept(w, cfg, peer, req).0, hash, es);
            var (after, error) := Resume(before, hash, req, sources, chunkSize);
            && (error.None? <==> NonEmpty(sources) && Allocates(Taken(before.inbox), OfferedFiles(hash, sources)))
            && (error.None? ==> Succeeded(before, id, sources, after))
  {
    AcceptStarts(w, hash, cfg, peer, id, sources);
    var req := Request(id, Offers(hash, sources));
    var started := Accept(w, cfg, peer, req).0;
    HonestRunKeeps(started, hash, id, sources, es);
    ResumeDelivers(Run(started, hash, es), hash, id, sources, chunkSize);
  }

  lemma CurrentWithoutPlan(w: World, hash: Hash, id: string, sources: seq<Source>, chunkSize: U64, i: nat)
    requires InProgress(w, hash, id, sources) && chunkSize > 0 && i < |sources|
    ensures PlanCurrent(w, id, sources, chunkSize, None, i)
  {
    OfferedFind(hash, sources, i);
    RowForSize(hash, sources, i);
  }

  /**
    A whole send in one go: it succeeds exactly when the sender's own chunk size and the
    receiver's are positive, the receiver accepts, no source is empty and every file can be given
    a name, and then delivers every source.
   */
  lemma SendDelivers(
    w: World, hash: Hash, cfg: Config, peer: string, id: string, sources: seq<Source>, chunkSize: U64)
    requires ValidDb(w.db) && Fresh(w, id) && Addressable(sources)
    ensures var (after, error) := Send(w, hash, cfg, peer, id, sources, chunkSize);
            && (error.None? <==>
                  && chunkSize > 0 && cfg.chunkSize > 0
                  && Accept(w, cfg, peer, Request(id, Offers(hash, sources))).1.None?
                  && NonEmpty(sources) && Allocates(Taken(w.inbox), OfferedFiles(hash, sources)))
            && (error.None? ==> Succeeded(w, id, sources, after))
  {
    var req := Request(id, Offers(hash, sources));
    AcceptReopens(w, cfg, peer, req);
    if chunkSize > 0 && cfg.chunkSize > 0 && sources != [] && Accept(w, cfg, peer, req).1.None? {
      AcceptStarts(w, hash, cfg, peer, id, sources);
      var started := Accept(w, cfg, peer, req).0;
      forall j | 0 <= j < |sources| ensures PlanCurrent(started, id, sources, cfg.chunkSize, None, j) {
        CurrentWithoutPlan(started, hash, id, sources, cfg.chunkSize, j);
      }
      HonestSend(started, hash, id, sources, cfg.chunkSize, None, 0);
      FinishDelivers(SendFrom(started, hash, req, sources, cfg.chunkSize, None, 0).0, hash, id, sources);
    }
  }

  lemma TakenSize(inbox: map<string, Bytes>)
    ensures |Taken(inbox)| <= |inbox| + 3
  {
    JoinedSize(inbox.Keys, ".", "..", ".incoming");
  }

  lemma JoinedSize<T>(s: set<T>, x: T, y: T, z: T)
    ensures |s + {x, y, z}| <= |s| + 3
  {
    assert s + {x, y, z} == s + {x} + {y} + {z};
  }

  /** Usable names and room for them in the inbox are enough for the naming half. */
  lemma UsableSourcesAllocate(inbox: map<string, Bytes>, hash: Hash, sources: seq<Source>)
    requires Addressable(sources) && |inbox| + 3 + |sources| <= Names.NATIVE_LIMIT + 1
    requires forall s :: s in sources ==> Names.SafeFileName(s.name).Ok?
    ensures Allocates(Taken(inbox), OfferedFiles(hash, sources))
  {
    var files := OfferedFiles(hash, sources);
    Sorting.SortPermutes(ToRows(Offers(hash, sources)), IdOrder());
    forall f | f in files ensures Names.SafeFileName(f.fileName).Ok? {
      var i := OfferedIndex(hash, sources, f);
      assert sources[i] in sources;
    }
    TakenSize(inbox);
    UsableNamesAllocate(Taken(inbox), files);
  }

  // ----- a finish cut off among its moves -----

  /** Nothing is missing from a complete file. */
  lemma {:induction false} NothingMissing(grid: seq<Range>, rs: seq<Range>)
    requires forall r :: r in grid ==> Whole(r, rs)
    ensures MissingOf(grid, rs) == []
  {
    if grid != [] { NothingMissing(grid[1..], rs); }
  }

  lemma CompletePlan(size: nat, chunkSize: nat, rs: seq<Range>)
    requires chunkSize > 0 && Complete(size, rs)
    ensures Missing(size, chunkSize, rs) == []
  {
    var grid := Grid(size, chunkSize);
    forall r, p | r in grid && r.Has(p) ensures Covers(rs, p) {
      CoversMember(grid, r, p);
      GridCovers(0, size, chunkSize, p);
    }
    NothingMissing(grid, rs);
  }

  lemma CoversMember(rs: seq<Range>, r: Range, p: int)
    requires r in rs && r.Has(p)
    ensures Covers(rs, p)
  {
  }

  /** A plan that asks for nothing sends nothing. */
  lemma {:induction false} SendNothing(w: World, hash: Hash, req: Request, sources: seq<Source>, chunkSize: U64,
                                       plan: map<string, seq<Range>>, i: nat)
    requires Addressable(sources)
    requires forall f :: f in req.files ==> f.fileId in plan && plan[f.fileId] == []
    ensures SendFrom(w, hash, req, sources, chunkSize, Some(plan), i) == (w, None)
    decreases |req.files| - i
  {
    if i < |req.files| && i < |sources| {
      assert req.files[i] in req.files;
      SendNothing(w, hash, req, sources, chunkSize, plan, i + 1);
    }
  }

  /** The plan of a complete transfer asks for nothing. */
  lemma CompletePlansNothing(db: Db, hash: Hash, id: string, sources: seq<Source>, chunkSize: U64, i: nat)
    requires Addressable(sources) && chunkSize > 0 && i < |sources|
    requires TransferComplete(db, id) && db[id].files == OfferedFiles(hash, sources)
    ensures FileId(i) in PlanOf(db, id, chunkSize) && PlanOf(db, id, chunkSize)[FileId(i)] == []
  {
    OfferedFind(hash, sources, i);
    RowForSize(hash, sources, i);
    PlanForEntry(db[id], db[id].files, chunkSize, RowFor(hash, sources, i));
    CompletePlan(RowFor(hash, sources, i).Size(), chunkSize, db[id].Ranges(FileId(i)));
  }

  /** So a resume of a complete transfer is its finish. */
  lemma CompleteResumeFinishes(w: World, hash: Hash, id: string, sources: seq<Source>, chunkSize: U64)
    requires Addressable(sources) && chunkSize > 0
    requires TransferComplete(w.db, id) && w.db[id].files == OfferedFiles(hash, sources)
    ensures Resume(w, hash, Request(id, Offers(hash, sources)), sources, chunkSize) == Finish(w, hash, id)
  {
    var req, plan := Request(id, Offers(hash, sources)), PlanOf(w.db, id, chunkSize);
    forall f | f in req.files ensures f.fileId in plan && plan[f.fileId] == [] {
      var i :| 0 <= i < |req.files| && req.files[i] == f;
      CompletePlansNothing(w.db, hash, id, sources, chunkSize, i);
    }
    SendNothing(w, hash, req, sources, chunkSize, plan, 0);
  }

  lemma CompleteMeansFiles(w: World, hash: Hash, id: string, sources: seq<Source>)
    requires InProgress(w, hash, id, sources) && TransferComplete(w.db, id)
    ensures forall j :: 0 <= j < |sources| ==> FileComplete(w, id, sources, j)
  {
    forall j | 0 <= j < |sources| ensures FileComplete(w, id, sources, j) {
      OfferedFind(hash, sources, j);
      RowForSize(hash, sources, j);
    }
  }

  /** The first move takes the first part away for good: no later finish finds it. */
  lemma MovedPartMissing(w: World, hash: Hash, id: string, files: seq<FileRow>)
    requires files != [] && PublishFile(w, id, files[0]).1.None? && w.db == PublishFiles(w, id, files).0.db
    ensures CheckFile(PublishFiles(w, id, files).0, hash, id, files[0]) == Some(FileMissing)
  {
    var w1 := PublishFile(w, id, files[0]).0;
    PublishKeeps(w1, id, files[1..]);
  }

  /** After a finish cut off behind its first move, a second finish fails on the missing part. */
  lemma TornMoveBlocks(w: World, hash: Hash, id: string, k: nat)
    requires AllVerified(w, hash, id) && k > 0
    requires Names.Allocate(Taken(w.inbox), w.db[id].files[0].fileName).Ok?
    ensures var torn := TornFinish(w, hash, id, k);
            torn.db == w.db && Finish(torn, hash, id) == (torn, Some(FileMissing))
  {
    var files := w.db[id].files;
    CheckMeansVerified(w, hash, id, files);
    assert files[0] in files;
    MovedPartMissing(w, hash, id, files[..Min(k, |files|)]);
  }

  /** A finish cut off before any move, or of a transfer it refuses, changes nothing. */
  lemma TornEarly(w: World, hash: Hash, id: string, k: nat)
    requires k == 0 || !AllVerified(w, hash, id) || Names.Allocate(Taken(w.inbox), w.db[id].files[0].fileName).Err?
    ensures TornFinish(w, hash, id, k) == w
  {
    if TransferComplete(w.db, id) { CheckMeansVerified(w, hash, id, w.db[id].files); }
  }

  /**
    Resuming after a finish that was cut off at any point: it succeeds exactly when it would
    have before, unless the finish had begun to move the files of a complete transfer. Then the
    plan is empty, the moved part is gone and the resume fails on it.
   */
  lemma ResumeAfterTornFinish(w: World, hash: Hash, id: string, sources: seq<Source>, k: nat, chunkSize: U64)
    requires InProgress(w, hash, id, sources) && chunkSize > 0
    ensures var torn := TornFinish(w, hash, id, k);
            var error := Resume(torn, hash, Request(id, Offers(hash, sources)), sources, chunkSize).1;
            && (error.None? <==>
                  && NonEmpty(sources) && Allocates(Taken(w.inbox), OfferedFiles(hash, sources))
                  && (k == 0 || !TransferComplete(w.db, id)))
            && (torn != w ==> error == Some(FileMissing))
  {
    var files := w.db[id].files;
    if TransferComplete(w.db, id) {
      CompleteMeansFiles(w, hash, id, sources);
      AllComplete(w, hash, id, sources);
    }
    if k > 0 && AllVerified(w, hash, id) && Names.Allocate(Taken(w.inbox), files[0].fileName).Ok? {
      TornMoveBlocks(w, hash, id, k);
      CompleteResumeFinishes(TornFinish(w, hash, id, k), hash, id, sources, chunkSize);
    } else {
      TornEarly(w, hash, id, k);
      ResumeDelivers(w, hash, id, sources, chunkSize);
    }
  }

  /** A complete transfer whose first part is gone. */
  ghost predicate Stuck(w: World, id: string) {
    && ValidDb(w.db) && TransferComplete(w.db, id)
    && var path := PartPath(id, w.db[id].files[0].fileId);
       path.Some? && path.value !in w.parts
  }

  /** Anything but a chunk for this transfer's parts, or another transfer that shares its directory. */
  predicate NoResend(id: string, e: Event) {
    match e
    case Accepting(_, _, _) => true
    case Receiving(eid, _, _, _, _) => Clean(eid) != Clean(id)
    case ReceivingTorn(eid, _, _, _, _, _) => Clean(eid) != Clean(id)
    case Finishing(eid) => eid == id || Clean(eid) != Clean(id)
    case FinishingTorn(eid, _) => eid == id || Clean(eid) != Clean(id)
  }

  lemma StuckFinish(w: World, hash: Hash, id: string, k: nat)
    requires Stuck(w, id)
    ensures Finish(w, hash, id) == (w, Some(FileMissing)) && TornFinish(w, hash, id, k) == w
  {
    assert CheckFile(w, hash, id, w.db[id].files[0]) == Some(FileMissing);
  }

  lemma UntouchedStuck(w: World, id: string, w': World)
    requires Stuck(w, id) && Untouched(w, id, w')
    ensures Stuck(w', id) && w'.db[id].files == w.db[id].files
  {
    forall f | f in w'.db[id].files ensures Complete(f.Size(), w'.db[id].Ranges(f.fileId)) {
      assert w'.db[id].Ranges(f.fileId) == w.db[id].Ranges(f.fileId);
    }
  }

  lemma StuckStep(w: World, hash: Hash, id: string, e: Event)
    requires Stuck(w, id) && NoResend(id, e)
    ensures Stuck(Step(w, hash, e), id) && Step(w, hash, e).db[id].files == w.db[id].files
  {
    StepValid(w, hash, e);
    match e
    case Accepting(cfg, peer, req) =>
      AcceptUntouched(w, id, cfg, peer, req);
      UntouchedStuck(w, id, Step(w, hash, e));
    case Receiving(_, _, _, _, _) =>
      OtherReceiveUntouched(w, hash, id, e);
      UntouchedStuck(w, id, Step(w, hash, e));
    case ReceivingTorn(_, _, _, _, _, _) =>
      OtherTornUntouched(w, hash, id, e);
      UntouchedStuck(w, id, Step(w, hash, e));
    case Finishing(eid) =>
      if eid == id {
        StuckFinish(w, hash, id, 0);
      } else {
        OtherFinishUntouched(w, hash, id, eid);
        UntouchedStuck(w, id, Step(w, hash, e));
      }
    case FinishingTorn(eid, k) =>
      if eid == id {
        StuckFinish(w, hash, id, k);
      } else {
        OtherTornFinishUntouched(w, hash, id, eid, k);
        UntouchedStuck(w, id, Step(w, hash, e));
      }
  }

  lemma {:induction false} StuckRun(w: World, hash: Hash, id: string, es: seq<Event>)
    requires Stuck(w, id) && forall e :: e in es ==> NoResend(id, e)
    ensures Stuck(Run(w, hash, es), id) && Run(w, hash, es).db[id].files == w.db[id].files
  {
    if es != [] {
      StuckRun(w, hash, id, es[..|es| - 1]);
      StuckStep(Run(w, hash, es[..|es| - 1]), hash, id, es[|es| - 1]);
    }
  }

  /**
    Nor does waiting help: once a finish has been cut off behind its first move, every resume
    fails after any run in which none of the transfer's chunks is sent again, whatever is
    accepted, finished or received elsewhere in between.
   */
  lemma CutFinishStaysStuck(
    w: World, hash: Hash, id: string, sources: seq<Source>, k: nat, es: seq<Event>, chunkSize: U64)
    requires InProgress(w, hash, id, sources) && TransferComplete(w.db, id) && NonEmpty(sources)
    requires k > 0 && chunkSize > 0 && Names.Allocate(Taken(w.inbox), w.db[id].files[0].fileName).Ok?
    requires forall e :: e in es ==> NoResend(id, e)
    ensures var later := Run(TornFinish(w, hash, id, k), hash, es);
            Resume(later, hash, Request(id, Offers(hash, sources)), sources, chunkSize) == (later, Some(FileMissing))
  {
    var torn := TornFinish(w, hash, id, k);
    CompleteMeansFiles(w, hash, id, sources);
    AllComplete(w, hash, id, sources);
    TornStuck(w, hash, id, k);
    StuckRun(torn, hash, id, es);
    var later := Run(torn, hash, es);
    StuckFinish(later, hash, id, 0);
    CompleteResumeFinishes(later, hash, id, sources, chunkSize);
  }

  lemma TornStuck(w: World, hash: Hash, id: string, k: nat)
    requires ValidDb(w.db) && AllVerified(w, hash, id) && k > 0
    requires Names.Allocate(Taken(w.inbox), w.db[id].files[0].fileName).Ok?
    ensures Stuck(TornFinish(w, hash, id, k), id) && TornFinish(w, hash, id, k).db == w.db
  {
    var files := w.db[id].files;
    CheckMeansVerified(w, hash, id, files);
    assert files[0] in files && Verified(w, hash, id, files[0]);
    MovedPartMissing(w, hash, id, files[..Min(k, |files|)]);
  }
}
