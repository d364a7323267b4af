/**
  The native transfer receiver (`transfer.rs`): part files on disk, the manifest, and the
  inbox. Each operation is first a function on the whole persistent state; the receiver
  class is proved to compute it.
 */
module Receiver {
  import opened Prelude
  import opened Ranges
  import opened Manifest
  import Names
  import Text

  /** The content digest, `blake3_hex`; nothing is assumed about it here. */
  type Hash = Bytes -> Digest

  datatype Path = Path(dir: string, file: string)

  /** What survives a restart: part files, published files, manifest tables. */
  datatype World = World(parts: map<Path, Bytes>, inbox: map<string, Bytes>, db: Db)

  datatype Request = Request(id: string, files: seq<FileOffer>)

  datatype TransferError =
    | PeerBlocked | PeerUntrusted | InvalidRequest
    | EmptyBytes | ChunkHashMismatch
    | FileMissing | FileSizeMismatch | FileHashMismatch | BytesMissing
    | SourceShort | SourcesMismatch | NoChunkSize | NoPaths
    | Name(name: Names.NameError) | Store(store: ManifestError)

  // ----- paths -----

  predicate ComponentChar(c: char) {
    'a' <= c <= 'z' || 'A' <= c <= 'Z' || '0' <= c <= '9' || c == '-' || c == '_'
  }

  /** The filter of `safe_component`. */
  function Clean(s: string): string {
    if s == [] then []
    else (if ComponentChar(s[0]) then [s[0]] else []) + Clean(s[1..])
  }

  /**
    `incoming_file_path`. `None` stands for a path with a freshly drawn UUID in it, used
    when an id has no usable character: no other call ever names that path again.
   */
  function PartPath(id: string, fileId: string): Option<Path> {
    if Clean(id) == [] || Clean(fileId) == [] then None else Some(Path(Clean(id), Clean(fileId)))
  }

  /** Cleaning treats a string character by character: letters, digits, dash and underscore stay, the rest go. */
  lemma {:induction false} CleanKeepsExactly(a: string, b: string, c: char)
    ensures Clean(a + b) == Clean(a) + Clean(b)
    ensures Clean([c]) ==
            if 'a' <= c <= 'z' || 'A' <= c <= 'Z' || '0' <= c <= '9' || c == '-' || c == '_' then [c] else []
  {
    if a == [] {
      assert a + b == b;
    } else {
      CleanKeepsExactly(a[1..], b, c);
      assert (a + b)[1..] == a[1..] + b;
      JoinAssociates(if ComponentChar(a[0]) then [a[0]] else [], Clean(a[1..]), Clean(b));
    }
  }

  ghost predicate PathSafe(s: string) {
    s != [] && forall c :: c in s ==> 'a' <= c <= 'z' || 'A' <= c <= 'Z' || '0' <= c <= '9' || c == '-' || c == '_'
  }

  lemma {:induction false} CleanIsSafe(s: string)
    ensures Clean(s) != [] ==> PathSafe(Clean(s))
    ensures Clean(s) == [] <==> forall c :: c in s ==> !PathSafe([c])
  {
    if s != [] {
      CleanIsSafe(s[1..]);
      assert s == [s[0]] + s[1..];
      assert PathSafe([s[0]]) <==> ComponentChar(s[0]) by { assert s[0] in [s[0]]; }
    }
  }

  /**
    A part path has only safe characters, in both components, so it stays inside the staging
    directory; an id without any such character has no lasting path.
   */
  lemma PartPathSafe(id: string, fileId: string)
    ensures PartPath(id, fileId).Some? ==>
              PathSafe(PartPath(id, fileId).value.dir) && PathSafe(PartPath(id, fileId).value.file)
    ensures PartPath(id, fileId).None? <==>
            (forall c :: c in id ==> !PathSafe([c])) || (forall c :: c in fileId ==> !PathSafe([c]))
  {
    CleanIsSafe(id);
    CleanIsSafe(fileId);
  }

  // ----- disk -----

  function Zeros(n: nat): Bytes { seq(n, _ => 0) }

  /** Seek to `offset` and write: a gap before it reads as zeros; writing nothing changes nothing. */
  function WriteAt(was: Bytes, offset: nat, data: Bytes): Bytes {
    if data == [] then was
    else
      var padded := if |was| < offset then was + Zeros(offset - |was|) else was;
      padded[..offset] + data + if offset + |data| < |padded| then padded[offset + |data|..] else []
  }

  /** Pointwise reading of a write. */
  lemma WriteAtByte(was: Bytes, offset: nat, data: Bytes, p: nat)
    requires data != []
    ensures var now := WriteAt(was, offset, data);
            && |now| == Max(|was|, offset + |data|)
            && (p < |now| ==>
                  now[p] == if offset <= p < offset + |data| then data[p - offset]
                            else if p < |was| then was[p] else 0)
  {
  }

  function Stored(parts: map<Path, Bytes>, path: Path): Bytes {
    if path in parts then parts[path] else []
  }

  function WritePart(w: World, id: string, fileId: string, offset: nat, data: Bytes): World {
    match PartPath(id, fileId)
    case None => w
    case Some(path) => w.(parts := w.parts[path := WriteAt(Stored(w.parts, path), offset, data)])
  }

  // ----- accepting -----

  datatype Config = Config(blocked: bool, trusted: Option<string>, chunkSize: U64)

  predicate ValidRequest(req: Request) {
    && !Text.Blank(req.id) && req.files != [] && UniqueOffers(req.files)
    && forall f :: f in req.files ==> !Text.Blank(f.fileId) && !Text.Blank(f.fileName)
  }

  /** `accept_transfer`: an existing transfer keeps its rows and becomes active again. */
  function Accept(w: World, cfg: Config, peer: string, req: Request): (World, Option<TransferError>) {
    if cfg.blocked then (w, Some(PeerBlocked))
    else if cfg.trusted != Some(peer) then (w, Some(PeerUntrusted))
    else if !ValidRequest(req) then (w, Some(InvalidRequest))
    else
      var created := if req.id in w.db then Ok(w.db) else Create(w.db, req.id, peer, req.files);
      match created
      case Err(e) => (w, Some(Store(e)))
      case Ok(db) => (w.(db := db[req.id := db[req.id].(state := Active)]), None)
  }

  // ----- receiving -----

  predicate ChunkAccepted(hash: Hash, data: Bytes, claimed: Digest) {
    data != [] && hash(data) == claimed
  }

  /** `receive_chunk_with_hash`: bytes reach the disk before the range is checked. */
  function ReceiveChunk(w: World, hash: Hash, id: string, fileId: string, offset: U64, data: Bytes, claimed: Digest)
      : (World, Option<TransferError>)
  {
    if data == [] then (w, Some(EmptyBytes))
    else if hash(data) != claimed then (w, Some(ChunkHashMismatch))
    else
      var written := WritePart(w, id, fileId, offset, data);
      match Record(w.db, id, fileId, offset, |data|)
      case Ok(db) => (written.(db := db), None)
      case Err(e) => (written, Some(Store(e)))
  }

  /** The same call cut short after `k` bytes reached the disk and before the range was recorded. */
  function TornChunk(w: World, hash: Hash, id: string, fileId: string, offset: U64, data: Bytes, claimed: Digest,
      k: nat)
      : World
  {
    if ChunkAccepted(hash, data, claimed) then WritePart(w, id, fileId, offset, data[..Min(k, |data|)]) else w
  }

  // ----- finishing -----

  /** The names that exist in the inbox directory, its dot entries and the staging directory included. */
  function Taken(inbox: map<string, Bytes>): set<string> { inbox.Keys + {".", "..", ".incoming"} }

  function CheckFile(w: World, hash: Hash, id: string, file: FileRow): Option<TransferError> {
    var path := PartPath(id, file.fileId);
    if path.None? || path.value !in w.parts then Some(FileMissing)
    else if |w.parts[path.value]| != file.Size() then Some(FileSizeMismatch)
    else if file.digest.Some? && hash(w.parts[path.value]) != file.digest.value then Some(FileHashMismatch)
    else None
  }

  function CheckFiles(w: World, hash: Hash, id: string, files: seq<FileRow>): Option<TransferError> {
    if files == [] then None
    else
      var first := CheckFile(w, hash, id, files[0]);
      if first.Some? then first else CheckFiles(w, hash, id, files[1..])
  }

  function PublishFile(w: World, id: string, file: FileRow): (r: (World, Option<TransferError>))
    ensures r.0.db == w.db
  {
    match Names.Allocate(Taken(w.inbox), file.fileName)
    case Err(e) => (w, Some(Name(e)))
    case Ok(target) =>
      var path := PartPath(id, file.fileId);
      if path.None? || path.value !in w.parts then (w, Some(FileMissing))
      else (w.(parts := w.parts - {path.value}, inbox := w.inbox[target := w.parts[path.value]]), None)
  }

  function PublishFiles(w: World, id: string, files: seq<FileRow>): (r: (World, Option<TransferError>))
    ensures r.0.db == w.db
    decreases |files|
  {
    if files == [] then (w, None)
    else
      var (w', error) := PublishFile(w, id, files[0]);
      if error.Some? then (w', error) else PublishFiles(w', id, files[1..])
  }

  /** `finish_transfer`: coverage, then every length and digest, then the moves, then the state. */
  ghost function Finish(w: World, hash: Hash, id: string): (World, Option<TransferError>) {
    if !TransferComplete(w.db, id) then
      match SetState(w.db, id, Interrupted)
      case Ok(db) => (w.(db := db), Some(BytesMissing))
      case Err(e) => (w, Some(Store(e)))
    else
      var check := CheckFiles(w, hash, id, w.db[id].files);
      if check == Some(FileMissing) then (w, check)
      else if check.Some? then (w.(db := w.db[id := w.db[id].(state := Failed)]), check)
      else
        var (w', error) := PublishFiles(w, id, w.db[id].files);
        if error.Some? then (w', error)
        else (w'.(db := w'.db[id := w'.db[id].(state := Completed)]), None)
  }

  /** The same call cut short after at most `k` moves, before the state was set. */
  ghost function TornFinish(w: World, hash: Hash, id: string, k: nat): World {
    if TransferComplete(w.db, id) && CheckFiles(w, hash, id, w.db[id].files).None?
    then PublishFiles(w, id, w.db[id].files[..Min(k, |w.db[id].files|)]).0
    else w
  }

  // ----- planning -----

  ghost function PlanFor(t: TransferRow, files: seq<FileRow>, chunkSize: U64): map<string, seq<Range>>
    requires chunkSize > 0
  {
    if files == [] then map[]
    else
      var f := files[|files| - 1];
      PlanFor(t, files[..|files| - 1], chunkSize)[f.fileId := Missing(f.Size(), chunkSize, t.Ranges(f.fileId))]
  }

  /** The missing ranges of every file of a transfer, by file id. */
  ghost function PlanOf(db: Db, id: string, chunkSize: U64): map<string, seq<Range>>
    requires chunkSize > 0
  {
    if id !in db then map[] else PlanFor(db[id], db[id].files, chunkSize)
  }

  /** The plan, or the error of asking for one with a zero chunk size. */
  ghost function Plan(db: Db, id: string, chunkSize: U64): Result<map<string, seq<Range>>, TransferError> {
    if chunkSize > 0 then Ok(PlanOf(db, id, chunkSize))
    else if id in db && db[id].files != [] then Err(Store(ZeroChunk))
    else Ok(map[])
  }

  lemma {:induction false} PlanForEntry(t: TransferRow, files: seq<FileRow>, chunkSize: U64, f: FileRow)
    requires chunkSize > 0 && f in files && DistinctIds(files)
    ensures f.fileId in PlanFor(t, files, chunkSize)
    ensures PlanFor(t, files, chunkSize)[f.fileId] == Missing(f.Size(), chunkSize, t.Ranges(f.fileId))
  {
    var n := |files| - 1;
    if f != files[n] {
      var i :| 0 <= i < |files| && files[i] == f;
      assert files[..n][i] == f;
      PlanForEntry(t, files[..n], chunkSize, f);
    }
  }

  // ----- the receiver object -----

  class NativeTransferReceiver {
    const hash: Hash
    const cfg: Config
    const manifest: ManifestStore
    var parts: map<Path, Bytes>
    var inbox: map<string, Bytes>

    ghost predicate Valid() reads this, manifest { manifest.Valid() }

    ghost function Now(): World reads this, manifest { World(parts, inbox, manifest.db) }

    constructor (hash: Hash, cfg: Config, manifest: ManifestStore, inbox: map<string, Bytes>)
      requires manifest.Valid()
      ensures Valid() && this.hash == hash && this.cfg == cfg && this.manifest == manifest
      ensures Now() == World(map[], inbox, manifest.db)
    {
      this.hash, this.cfg, this.manifest := hash, cfg, manifest;
      parts, this.inbox := map[], inbox;
    }

    method AcceptTransfer(peer: string, req: Request) returns (r: Option<TransferError>)
      requires Valid()
      modifies this, manifest
      ensures Valid()
      ensures (Now(), r) == Accept(old(Now()), cfg, peer, req)
    {
      if cfg.blocked { return Some(PeerBlocked); }
      if cfg.trusted != Some(peer) { return Some(PeerUntrusted); }
      if !ValidRequest(req) { return Some(InvalidRequest); }
      if req.id !in manifest.db {
        var created := manifest.CreateTransfer(req.id, peer, req.files);
        if created.Some? { return Some(Store(created.value)); }
      }
      var updated := manifest.ChangeState(req.id, Active);
      r := None;
    }

    method Receive(id: string, fileId: string, offset: U64, data: Bytes, claimed: Digest)
        returns (r: Option<TransferError>)
      requires Valid()
      modifies this, manifest
      ensures Valid()
      ensures (Now(), r) == ReceiveChunk(old(Now()), hash, id, fileId, offset, data, claimed)
    {
      if data == [] { return Some(EmptyBytes); }
      if hash(data) != claimed { return Some(ChunkHashMismatch); }
      var path := PartPath(id, fileId);
      if path.Some? {
        parts := parts[path.value := WriteAt(Stored(parts, path.value), offset, data)];
      }
      var recorded := manifest.RecordVerifiedChunk(id, fileId, offset, |data|);
      r := if recorded.Some? then Some(Store(recorded.value)) else None;
    }

    /** `resume_plan`: the missing ranges of every file of the transfer. */
    method ResumePlan(id: string, chunkSize: U64) returns (r: Result<map<string, seq<Range>>, TransferError>)
      requires Valid()
      ensures r == Plan(manifest.db, id, chunkSize)
    {
      var missing: map<string, seq<Range>> := map[];
      if id !in manifest.db { return Ok(missing); }
      var files := manifest.db[id].files;
      for i := 0 to |files|
        invariant chunkSize == 0 ==> i == 0 && missing == map[]
        invariant chunkSize > 0 ==> missing == PlanFor(manifest.db[id], files[..i], chunkSize)
      {
        FindFileHit(files, files[i]);
        var ranges := manifest.MissingRanges(id, files[i].fileId, chunkSize);
        if ranges.Err? { return Err(Store(ranges.error)); }
        missing := missing[files[i].fileId := ranges.value];
        assert files[..i + 1][..i] == files[..i];
      }
      assert files[..|files|] == files;
      r := Ok(missing);
    }

    method Check(id: string, files: seq<FileRow>) returns (r: Option<TransferError>)
      ensures r == CheckFiles(Now(), hash, id, files)
    {
      for i := 0 to |files|
        invariant CheckFiles(Now(), hash, id, files) == CheckFiles(Now(), hash, id, files[i..])
      {
        assert files[i..][1..] == files[i + 1..];
        var path := PartPath(id, files[i].fileId);
        if path.None? || path.value !in parts { return Some(FileMissing); }
        var content := parts[path.value];
        if |content| != files[i].Size() { return Some(FileSizeMismatch); }
        if files[i].digest.Some? && hash(content) != files[i].digest.value { return Some(FileHashMismatch); }
      }
      r := None;
    }

    method Publish(id: string, files: seq<FileRow>) returns (r: Option<TransferError>)
      modifies this
      ensures (Now(), r) == PublishFiles(old(Now()), id, files)
    {
      for i := 0 to |files|
        invariant PublishFiles(old(Now()), id, files) == PublishFiles(Now(), id, files[i..])
      {
        assert files[i..][1..] == files[i + 1..];
        var target := Names.AvailableTarget(Taken(inbox), files[i].fileName);
        if target.Err? { return Some(Name(target.error)); }
        var path := PartPath(id, files[i].fileId);
        if path.None? || path.value !in parts { return Some(FileMissing); }
        inbox := inbox[target.value := parts[path.value]];
        parts := parts - {path.value};
      }
      r := None;
    }

    method FinishTransfer(id: string) returns (r: Option<TransferError>)
      requires Valid()
      modifies this, manifest
      ensures Valid()
      ensures (Now(), r) == Finish(old(Now()), hash, id)
    {
      var complete := manifest.IsComplete(id);
      if !complete {
        var interrupted := manifest.ChangeState(id, Interrupted);
        return if interrupted.Some? then Some(Store(interrupted.value)) else Some(BytesMissing);
      }
      var files := manifest.db[id].files;
      r := Check(id, files);
      if r.Some? {
        if r.value != FileMissing { var failed := manifest.ChangeState(id, Failed); }
        return;
      }
      r := Publish(id, files);
      if r.Some? { return; }
      var completed := manifest.ChangeState(id, Completed);
    }
  }
}
