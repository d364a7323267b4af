/**
  The native transfer sender (`transfer.rs`): offering files under `file-N` ids, sending
  ranges of them, and resuming an interrupted transfer from the receiver's plan.
 */
module Sender {
  import opened Prelude
  import opened Ranges
  import opened Manifest
  import opened Receiver
  import Text

  /** A local file: its name and its content. */
  datatype Source = Source(name: string, data: Bytes)

  predicate Addressable(sources: seq<Source>) {
    forall s :: s in sources ==> |s.data| < TWO_64
  }

  function FileId(i: nat): string { "file-" + Text.Decimal(i) }

  function Offer(hash: Hash, sources: seq<Source>, i: nat): FileOffer
    requires i < |sources| && Addressable(sources)
  {
    assert sources[i] in sources;
    FileOffer(FileId(i), sources[i].name, |sources[i].data|, Some(hash(sources[i].data)))
  }

  /** What `prepare_request` offers. */
  function Offers(hash: Hash, sources: seq<Source>): seq<FileOffer>
    requires Addressable(sources)
  {
    seq(|sources|, i requires 0 <= i < |sources| => Offer(hash, sources, i))
  }

  /** Read one range of the source and hand it to the receiver with its digest. */
  function SendRange(w: World, hash: Hash, id: string, fileId: string, data: Bytes, r: Range)
      : (World, Option<TransferError>)
    requires |data| < TWO_64
  {
    if r.End() > |data| then (w, Some(SourceShort))
    else
      var bytes := data[r.offset..r.End()];
      ReceiveChunk(w, hash, id, fileId, r.offset, bytes, hash(bytes))
  }

  function SendRanges(w: World, hash: Hash, id: string, fileId: string, data: Bytes, ranges: seq<Range>)
      : (World, Option<TransferError>)
    requires |data| < TWO_64
    decreases |ranges|
  {
    if ranges == [] then (w, None)
    else
      var (w', error) := SendRange(w, hash, id, fileId, data, ranges[0]);
      if error.Some? then (w', error) else SendRanges(w', hash, id, fileId, data, ranges[1..])
  }

  /** The plan's entry for a file, or the receiver's current missing ranges. */
  ghost function RangesFor(db: Db, id: string, fileId: string, chunkSize: U64, plan: Option<map<string, seq<Range>>>)
      : Result<seq<Range>, TransferError>
  {
    if plan.Some? && fileId in plan.value then Ok(plan.value[fileId])
    else if chunkSize == 0 then Err(Store(ZeroChunk))
    else if id !in db || FindFile(db[id].files, fileId).None? then Err(Store(UnknownFile))
    else Ok(Missing(FindFile(db[id].files, fileId).value.Size(), chunkSize, db[id].Ranges(fileId)))
  }

  /** `send_ranges` from file `i` on. */
  ghost function SendFrom(
    w: World, hash: Hash, req: Request, sources: seq<Source>, chunkSize: U64,
    plan: Option<map<string, seq<Range>>>, i: nat): (World, Option<TransferError>)
    requires Addressable(sources)
    decreases |req.files| - i
  {
    if i >= |req.files| || i >= |sources| then (w, None)
    else
      assert sources[i] in sources;
      var ranges := RangesFor(w.db, req.id, req.files[i].fileId, chunkSize, plan);
      if ranges.Err? then (w, Some(ranges.error))
      else
        var (w', error) := SendRanges(w, hash, req.id, req.files[i].fileId, sources[i].data, ranges.value);
        if error.Some? then (w', error) else SendFrom(w', hash, req, sources, chunkSize, plan, i + 1)
  }

  /** `resume_files_to_receiver`: plan once, send what the plan asks for, finish. */
  ghost function Resume(w: World, hash: Hash, req: Request, sources: seq<Source>, chunkSize: U64)
      : (World, Option<TransferError>)
    requires Addressable(sources)
  {
    var plan := Plan(w.db, req.id, chunkSize);
    if |sources| != |req.files| then (w, Some(SourcesMismatch))
    else if plan.Err? then (w, Some(plan.error))
    else
      var (w', error) := SendFrom(w, hash, req, sources, chunkSize, Some(plan.value), 0);
      if error.Some? then (w', error) else Finish(w', hash, req.id)
  }

  /** `send_files_to_receiver`: offer, send what the receiver misses at its own chunk size, finish. */
  ghost function Send(
    w: World, hash: Hash, cfg: Config, peer: string, id: string, sources: seq<Source>, chunkSize: U64)
      : (World, Option<TransferError>)
    requires Addressable(sources)
  {
    var req := Request(id, Offers(hash, sources));
    if chunkSize == 0 then (w, Some(NoChunkSize))
    else if sources == [] then (w, Some(NoPaths))
    else
      var (accepted, refusal) := Accept(w, cfg, peer, req);
      if refusal.Some? then (accepted, refusal)
      else
        var (sent, error) := SendFrom(accepted, hash, req, sources, cfg.chunkSize, None, 0);
        if error.Some? then (sent, error) else Finish(sent, hash, id)
  }

  /** A resume with another number of paths than files, or without a chunk size, changes nothing. */
  lemma ResumeRefuses(w: World, hash: Hash, req: Request, sources: seq<Source>, chunkSize: U64)
    requires Addressable(sources)
    requires |sources| != |req.files| || (chunkSize == 0 && req.id in w.db && w.db[req.id].files != [])
    ensures var (w', error) := Resume(w, hash, req, sources, chunkSize); w' == w && error.Some?
  {
  }

  class NativeTransferSender {
    const chunkSize: U64

    constructor (chunkSize: U64)
      ensures this.chunkSize == chunkSize
    {
      this.chunkSize := chunkSize;
    }

    method PrepareRequest(hash: Hash, sources: seq<Source>, uuid: string) returns (req: Request)
      requires Addressable(sources)
      ensures req == Request(uuid, Offers(hash, sources))
      ensures |req.files| == |sources|
      ensures forall i :: 0 <= i < |sources| ==>
                && req.files[i].fileId == "file-" + Text.Decimal(i) && req.files[i].fileName == sources[i].name
                && req.files[i].size == |sources[i].data| && req.files[i].digest == Some(hash(sources[i].data))
    {
      var files: seq<FileOffer> := [];
      for i := 0 to |sources|
        invariant files == Offers(hash, sources)[..i]
      {
        files := files + [Offer(hash, sources, i)];
      }
      assert Offers(hash, sources)[..|sources|] == Offers(hash, sources);
      req := Request(uuid, files);
    }

    method SendFile(receiver: NativeTransferReceiver, id: string, fileId: string, data: Bytes, ranges: seq<Range>)
        returns (r: Option<TransferError>)
      requires receiver.Valid() && |data| < TWO_64
      modifies receiver, receiver.manifest
      ensures receiver.Valid()
      ensures (receiver.Now(), r) == SendRanges(old(receiver.Now()), receiver.hash, id, fileId, data, ranges)
    {
      for i := 0 to |ranges|
        invariant receiver.Valid()
        invariant SendRanges(old(receiver.Now()), receiver.hash, id, fileId, data, ranges) ==
                  SendRanges(receiver.Now(), receiver.hash, id, fileId, data, ranges[i..])
      {
        assert ranges[i..][1..] == ranges[i + 1..];
        if ranges[i].End() > |data| { return Some(SourceShort); }
        var bytes := data[ranges[i].offset..ranges[i].End()];
        r := receiver.Receive(id, fileId, ranges[i].offset, bytes, receiver.hash(bytes));
        if r.Some? { return; }
      }
      r := None;
    }

    /** The ranges of one file: the planned ones, or what the manifest still misses. */
    method RangesToSend(
      receiver: NativeTransferReceiver, id: string, fileId: string, size: U64,
      plan: Option<map<string, seq<Range>>>) returns (r: Result<seq<Range>, TransferError>)
      requires receiver.Valid()
      ensures r == RangesFor(receiver.Now().db, id, fileId, size, plan)
      ensures plan.Some? && fileId in plan.value ==> r == Ok(plan.value[fileId])
    {
      if plan.Some? && fileId in plan.value { return Ok(plan.value[fileId]); }
      var missing := receiver.manifest.MissingRanges(id, fileId, size);
      r := if missing.Err? then Err(Store(missing.error)) else Ok(missing.value);
    }

    method SendPlanned(
      receiver: NativeTransferReceiver, req: Request, sources: seq<Source>, size: U64,
      plan: Option<map<string, seq<Range>>>) returns (r: Option<TransferError>)
      requires receiver.Valid() && Addressable(sources)
      modifies receiver, receiver.manifest
      ensures receiver.Valid()
      ensures (receiver.Now(), r) == SendFrom(old(receiver.Now()), receiver.hash, req, sources, size, plan, 0)
    {
      var i := 0;
      while i < |req.files| && i < |sources|
        invariant receiver.Valid()
        invariant SendFrom(old(receiver.Now()), receiver.hash, req, sources, size, plan, 0) ==
                  SendFrom(receiver.Now(), receiver.hash, req, sources, size, plan, i)
      {
        assert sources[i] in sources;
        var fileId := req.files[i].fileId;
        var ranges := RangesToSend(receiver, req.id, fileId, size, plan);
        if ranges.Err? { return Some(ranges.error); }
        r := SendFile(receiver, req.id, fileId, sources[i].data, ranges.value);
        if r.Some? { return; }
        i := i + 1;
      }
      r := None;
    }

    method SendFiles(receiver: NativeTransferReceiver, peer: string, sources: seq<Source>, uuid: string)
        returns (r: Option<TransferError>)
      requires receiver.Valid() && Addressable(sources)
      modifies receiver, receiver.manifest
      ensures receiver.Valid()
      ensures (receiver.Now(), r) ==
              Send(old(receiver.Now()), receiver.hash, receiver.cfg, peer, uuid, sources, chunkSize)
    {
      if chunkSize == 0 { return Some(NoChunkSize); }
      if sources == [] { return Some(NoPaths); }
      var req := PrepareRequest(receiver.hash, sources, uuid);
      r := receiver.AcceptTransfer(peer, req);
      if r.Some? { return; }
      r := SendPlanned(receiver, req, sources, receiver.cfg.chunkSize, None);
      if r.Some? { return; }
      r := receiver.FinishTransfer(uuid);
    }

    method ResumeFiles(receiver: NativeTransferReceiver, req: Request, sources: seq<Source>)
        returns (r: Option<TransferError>)
      requires receiver.Valid() && Addressable(sources)
      modifies receiver, receiver.manifest
      ensures receiver.Valid()
      ensures (receiver.Now(), r) == Resume(old(receiver.Now()), receiver.hash, req, sources, chunkSize)
    {
      if |sources| != |req.files| { return Some(SourcesMismatch); }
      var plan := receiver.ResumePlan(req.id, chunkSize);
      if plan.Err? { return Some(plan.error); }
      r := SendPlanned(receiver, req, sources, chunkSize, Some(plan.value));
      if r.Some? { return; }
      r := receiver.FinishTransfer(req.id);
    }
  }
}
