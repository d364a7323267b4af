/**
  What the client sends after an accept: every grid chunk of every file, in order. The daemon
  counts the same chunks from the request alone, and receiving them all completes every file.
 */
module SessionChunks {
  import opened Prelude
  import opened Ranges
  import opened Manifest
  import opened Receiver
  import opened Sender
  import opened ResumeCorrect
  import opened Wire
  import Text
  import Utf8

  const DEFAULT_CHUNK_SIZE: U64 := 1024 * 1024

  const MAX_NATIVE_TRANSFER_BYTES: U64 := 64 * 1024 * 1024 * 1024

  // ----- what the daemon computes from the request -----

  /** `checked_declared_transfer_bytes`: the fold with `checked_add`, then the cap. */
  function DeclaredBytes(files: seq<FileOffer>, acc: U64): Option<U64>
    decreases |files|
  {
    if files == [] then (if acc > MAX_NATIVE_TRANSFER_BYTES then None else Some(acc))
    else match CheckedAdd(acc, files[0].size)
         case None => None
         case Some(total) => DeclaredBytes(files[1..], total)
  }

  function TotalBytes(files: seq<FileOffer>): nat {
    if files == [] then 0 else files[0].size + TotalBytes(files[1..])
  }

  /** The check passes exactly when the true total, which may not fit 64 bits, is within the cap. */
  lemma {:induction false} DeclaredBytesIff(files: seq<FileOffer>, acc: U64)
    ensures DeclaredBytes(files, acc).Some? <==> acc + TotalBytes(files) <= MAX_NATIVE_TRANSFER_BYTES
    ensures DeclaredBytes(files, acc).Some? ==> DeclaredBytes(files, acc).value == acc + TotalBytes(files)
    decreases |files|
  {
    if files != [] && CheckedAdd(acc, files[0].size).Some? {
      DeclaredBytesIff(files[1..], acc + files[0].size);
    }
  }

  /** `expected_chunk_count`. */
  function ExpectedChunkCount(files: seq<FileOffer>, chunkSize: nat): nat
    requires chunkSize > 0
  {
    if files == [] then 0
    else
      (if files[0].size == 0 then 0 else (files[0].size + chunkSize - 1) / chunkSize)
      + ExpectedChunkCount(files[1..], chunkSize)
  }

  // ----- what the client sends -----

  function ChunkOf(hash: Hash, fileId: string, data: Bytes, r: Range): Chunk
    requires r.End() <= |data| < TWO_64
  {
    var bytes := data[r.offset..r.End()];
    Chunk(fileId, r.offset, hash(bytes), bytes)
  }

  /** `send_file_chunks`: one chunk per planned range. */
  function FileChunks(hash: Hash, fileId: string, data: Bytes, ranges: seq<Range>): seq<Chunk>
    requires |data| < TWO_64 && forall r :: r in ranges ==> r.End() <= |data|
  {
    seq(|ranges|, k requires 0 <= k < |ranges| => assert ranges[k] in ranges; ChunkOf(hash, fileId, data, ranges[k]))
  }

  /** The chunks of file `i`. */
  function ChunksOfFile(hash: Hash, sources: seq<Source>, chunkSize: nat, i: nat): seq<Chunk>
    requires Addressable(sources) && chunkSize > 0 && i < |sources|
  {
    assert sources[i] in sources;
    GridFits(|sources[i].data|, chunkSize);
    FileChunks(hash, FileId(i), sources[i].data, Grid(|sources[i].data|, chunkSize))
  }

  /** The chunks of file `i` and all later files. */
  function ChunksFrom(hash: Hash, sources: seq<Source>, chunkSize: nat, i: nat): seq<Chunk>
    requires Addressable(sources) && chunkSize > 0
    decreases |sources| - i
  {
    if i >= |sources| then []
    else ChunksOfFile(hash, sources, chunkSize, i) + ChunksFrom(hash, sources, chunkSize, i + 1)
  }

  /** The loop of `send_file_chunks`, which plans, reads and frames. */
  method SendFileChunks(hash: Hash, fileId: string, data: Bytes, chunkSize: U64)
      returns (r: Result<seq<Chunk>, RangeError>)
    requires |data| < TWO_64
    ensures r.Err? <==> chunkSize == 0
    ensures r.Ok? ==> (forall g :: g in Grid(|data|, chunkSize) ==> g.End() <= |data|)
    ensures r.Ok? ==> r.value == FileChunks(hash, fileId, data, Grid(|data|, chunkSize))
  {
    var plan := PlanChunks(|data|, chunkSize);
    if plan.Err? { return Err(plan.error); }
    GridFits(|data|, chunkSize);
    var sent: seq<Chunk> := [];
    for k := 0 to |plan.value|
      invariant sent == FileChunks(hash, fileId, data, plan.value)[..k]
    {
      assert plan.value[k] in plan.value;
      sent := sent + [ChunkOf(hash, fileId, data, plan.value[k])];
    }
    r := Ok(sent);
  }

  lemma {:induction false} CountFrom(hash: Hash, sources: seq<Source>, chunkSize: nat, i: nat)
    requires Addressable(sources) && chunkSize > 0 && i <= |sources|
    ensures |ChunksFrom(hash, sources, chunkSize, i)| == ExpectedChunkCount(Offers(hash, sources)[i..], chunkSize)
    decreases |sources| - i
  {
    var offers := Offers(hash, sources);
    if i < |sources| {
      CountFrom(hash, sources, chunkSize, i + 1);
      GridCount(0, |sources[i].data|, chunkSize);
      assert offers[i..][1..] == offers[i + 1..] && offers[i..][0] == Offer(hash, sources, i);
    }
  }

  /** The daemon expects exactly as many chunk frames as the client sends. */
  lemma CountsAgree(hash: Hash, sources: seq<Source>, chunkSize: nat)
    requires Addressable(sources) && chunkSize > 0
    ensures |ChunksFrom(hash, sources, chunkSize, 0)| == ExpectedChunkCount(Offers(hash, sources), chunkSize)
  {
    CountFrom(hash, sources, chunkSize, 0);
    assert Offers(hash, sources)[0..] == Offers(hash, sources);
  }

  // ----- each chunk is a true, distinct slice -----

  /** Chunk `c` is range `r` of file `i`. */
  ghost predicate SliceChunk(hash: Hash, sources: seq<Source>, c: Chunk, i: nat, r: Range) {
    && i < |sources| && r.length > 0 && r.End() <= |sources[i].data| < TWO_64
    && c == ChunkOf(hash, FileId(i), sources[i].data, r)
  }

  lemma ChunksOfFileAt(hash: Hash, sources: seq<Source>, chunkSize: nat, i: nat, k: nat)
    requires Addressable(sources) && chunkSize > 0 && i < |sources|
    requires k < |ChunksOfFile(hash, sources, chunkSize, i)|
    ensures var r := Grid(|sources[i].data|, chunkSize)[k];
            && SliceChunk(hash, sources, ChunksOfFile(hash, sources, chunkSize, i)[k], i, r)
            && r.offset == k * chunkSize && r.length <= chunkSize
  {
    assert sources[i] in sources;
    GridFits(|sources[i].data|, chunkSize);
    GridAt(0, |sources[i].data|, chunkSize, k);
    assert Grid(|sources[i].data|, chunkSize)[k] in Grid(|sources[i].data|, chunkSize);
  }

  /** Where chunk `k` of the stream comes from. */
  lemma {:induction false} Locate(hash: Hash, sources: seq<Source>, chunkSize: nat, i: nat, k: nat)
      returns (j: nat, m: nat)
    requires Addressable(sources) && chunkSize > 0
    requires k < |ChunksFrom(hash, sources, chunkSize, i)|
    ensures i <= j < |sources| && m < |ChunksOfFile(hash, sources, chunkSize, j)|
    ensures ChunksFrom(hash, sources, chunkSize, i)[k] == ChunksOfFile(hash, sources, chunkSize, j)[m]
    decreases |sources| - i
  {
    var own := ChunksOfFile(hash, sources, chunkSize, i);
    if k < |own| { j, m := i, k; } else { j, m := Locate(hash, sources, chunkSize, i + 1, k - |own|); }
  }

  /** No two chunks of the stream have the same file and offset. */
  lemma {:induction false} StreamDistinct(hash: Hash, sources: seq<Source>, chunkSize: nat, i: nat, a: nat, b: nat)
    requires Addressable(sources) && chunkSize > 0 && a < b < |ChunksFrom(hash, sources, chunkSize, i)|
    ensures var cs := ChunksFrom(hash, sources, chunkSize, i);
            cs[a].fileId != cs[b].fileId || cs[a].offset != cs[b].offset
    decreases |sources| - i
  {
    var own := ChunksOfFile(hash, sources, chunkSize, i);
    if b < |own| {
      ChunksOfFileAt(hash, sources, chunkSize, i, a);
      ChunksOfFileAt(hash, sources, chunkSize, i, b);
      MulMonotone(a + 1, b, chunkSize);
    } else if a < |own| {
      ChunksOfFileAt(hash, sources, chunkSize, i, a);
      var j, m := Locate(hash, sources, chunkSize, i + 1, b - |own|);
      ChunksOfFileAt(hash, sources, chunkSize, j, m);
      if FileId(i) == FileId(j) { FileIdInjective(i, j); }
    } else {
      StreamDistinct(hash, sources, chunkSize, i + 1, a - |own|, b - |own|);
    }
  }

  /** Chunk `m` of file `j` is in the stream. */
  lemma {:induction false} InStream(hash: Hash, sources: seq<Source>, chunkSize: nat, i: nat, j: nat, m: nat)
      returns (k: nat)
    requires Addressable(sources) && chunkSize > 0 && i <= j < |sources|
    requires m < |ChunksOfFile(hash, sources, chunkSize, j)|
    ensures k < |ChunksFrom(hash, sources, chunkSize, i)|
    ensures ChunksFrom(hash, sources, chunkSize, i)[k] == ChunksOfFile(hash, sources, chunkSize, j)[m]
    decreases j - i
  {
    if i == j {
      k := m;
    } else {
      var k' := InStream(hash, sources, chunkSize, i + 1, j, m);
      k := k' + |ChunksOfFile(hash, sources, chunkSize, i)|;
    }
  }

  // ----- each chunk can be framed -----

  lemma FileIdNotBlank(i: nat)
    ensures !Text.Blank(FileId(i))
  {
    var s, d := FileId(i), Text.Decimal(i);
    assert s[0] == 'f' && s[|s| - 1] == d[|d| - 1];
    assert s[|s| - 1] in Text.DIGITS;
    assert Text.TrimStart(s) == s && Text.TrimEnd(s) == s;
  }

  lemma StreamSendable(hash: Hash, sources: seq<Source>, k: nat)
    requires Addressable(sources) && HexHash(hash)
    requires k < |ChunksFrom(hash, sources, DEFAULT_CHUNK_SIZE, 0)|
    requires forall i :: 0 <= i < |sources| ==> |Utf8.Encode(FileId(i))| < TWO_16
    ensures Sendable(hash, ChunksFrom(hash, sources, DEFAULT_CHUNK_SIZE, 0)[k])
  {
    var j, m := Locate(hash, sources, DEFAULT_CHUNK_SIZE, 0, k);
    ChunksOfFileAt(hash, sources, DEFAULT_CHUNK_SIZE, j, m);
    FileIdNotBlank(j);
    ChunkSendable(hash, ChunksFrom(hash, sources, DEFAULT_CHUNK_SIZE, 0)[k]);
  }

  lemma ChunkSendable(hash: Hash, c: Chunk)
    requires HexHash(hash) && !Text.Blank(c.fileId) && |Utf8.Encode(c.fileId)| < TWO_16
    requires c.digest == hash(c.data) && 0 < |c.data| <= DEFAULT_CHUNK_SIZE
    ensures Sendable(hash, c)
  {
    assert HexDigest(hash(c.data));
  }

  // ----- receiving the stream -----

  /** The daemon's handling of one chunk frame. */
  function Next(w: World, hash: Hash, id: string, c: Chunk): (World, Option<TransferError>) {
    ReceiveChunk(w, hash, id, c.fileId, c.offset, c.data, c.digest)
  }

  function Received(w: World, hash: Hash, id: string, cs: seq<Chunk>): World {
    if cs == [] then w
    else Next(Received(w, hash, id, cs[..|cs| - 1]), hash, id, cs[|cs| - 1]).0
  }

  ghost predicate RowStored(w: World, id: string, c: Chunk)
  {
    |c.data| < TWO_64 && id in w.db && RowOf(c.offset, |c.data|) in w.db[id].Rows(c.fileId)
  }

  ghost predicate IsSlice(hash: Hash, sources: seq<Source>, c: Chunk) {
    exists i: nat, r: Range :: SliceChunk(hash, sources, c, i, r)
  }

  /** Every chunk is a true slice and no two have the same file and offset. */
  ghost predicate StreamOf(hash: Hash, sources: seq<Source>, cs: seq<Chunk>) {
    && (forall k :: 0 <= k < |cs| ==> IsSlice(hash, sources, cs[k]))
    && (forall a, b :: 0 <= a < b < |cs| ==> cs[a].fileId != cs[b].fileId || cs[a].offset != cs[b].offset)
  }

  lemma NextRows(w: World, hash: Hash, id: string, sources: seq<Source>, c: Chunk, i: nat, r: Range)
    requires InProgress(w, hash, id, sources) && SliceChunk(hash, sources, c, i, r)
    ensures Next(w, hash, id, c).1.None? && InProgress(Next(w, hash, id, c).0, hash, id, sources)
    ensures Next(w, hash, id, c).0.inbox == w.inbox
    ensures SortedRows(w.db[id].Rows(FileId(i))) && |c.data| == r.length
    ensures Next(w, hash, id, c).0.db[id].Rows(FileId(i)) == Upsert(w.db[id].Rows(FileId(i)), RowOf(r.offset, r.length))
    ensures forall fid :: fid != FileId(i) ==> Next(w, hash, id, c).0.db[id].Rows(fid) == w.db[id].Rows(fid)
  {
    HonestReceive(w, hash, id, sources, i, r);
    assert c.data == Slice(sources, i, r) && |c.data| == r.length;
    OfferedFind(hash, sources, i);
  }

  /** Receiving one more chunk of the stream stores its row and keeps the earlier rows. */
  lemma ReceiveNext(w: World, hash: Hash, id: string, sources: seq<Source>, c: Chunk, d: Chunk)
    requires InProgress(w, hash, id, sources) && IsSlice(hash, sources, c)
    requires d == c || (RowStored(w, id, d) && (d.fileId != c.fileId || d.offset != c.offset))
    ensures RowStored(Next(w, hash, id, c).0, id, d)
  {
    var i: nat, r: Range :| SliceChunk(hash, sources, c, i, r);
    NextRows(w, hash, id, sources, c, i, r);
    UpsertMembers(w.db[id].Rows(FileId(i)), RowOf(r.offset, r.length), RowOf(d.offset, |d.data|));
  }

  lemma ReceiveNextKeeps(w: World, hash: Hash, id: string, sources: seq<Source>, c: Chunk)
    requires InProgress(w, hash, id, sources) && IsSlice(hash, sources, c)
    ensures Next(w, hash, id, c).1.None? && InProgress(Next(w, hash, id, c).0, hash, id, sources)
    ensures Next(w, hash, id, c).0.inbox == w.inbox
  {
    var i: nat, r: Range :| SliceChunk(hash, sources, c, i, r);
    NextRows(w, hash, id, sources, c, i, r);
  }

  lemma ReceivedSnoc(w: World, hash: Hash, id: string, cs: seq<Chunk>, n: nat)
    requires n < |cs|
    ensures Received(w, hash, id, cs[..n + 1]) == Next(Received(w, hash, id, cs[..n]), hash, id, cs[n]).0
  {
    assert cs[..n + 1][..n] == cs[..n];
  }

  /** What holds of the first world and is kept by each chunk holds after any prefix. */
  lemma {:induction false} ReceivedKeeps(w: World, hash: Hash, id: string, cs: seq<Chunk>, n: nat,
      keep: (nat, World) -> bool)
    requires n <= |cs| && keep(0, w)
    requires forall j, v :: 0 <= j < n && keep(j, v) ==> keep(j + 1, Next(v, hash, id, cs[j]).0)
    ensures keep(n, Received(w, hash, id, cs[..n]))
  {
    if n > 0 {
      ReceivedKeeps(w, hash, id, cs, n - 1, keep);
      ReceivedSnoc(w, hash, id, cs, n - 1);
    }
  }

  /** In progress, nothing published, and a row for each of the first `n` chunks. */
  ghost predicate StoredSoFar(w: World, hash: Hash, id: string, sources: seq<Source>, cs: seq<Chunk>, n: nat,
      v: World)
  {
    && n <= |cs| && InProgress(v, hash, id, sources) && v.inbox == w.inbox
    && forall k :: 0 <= k < n ==> RowStored(v, id, cs[k])
  }

  lemma StoredNext(w: World, hash: Hash, id: string, sources: seq<Source>, cs: seq<Chunk>, n: nat, v: World)
    requires StreamOf(hash, sources, cs) && n < |cs| && StoredSoFar(w, hash, id, sources, cs, n, v)
    ensures StoredSoFar(w, hash, id, sources, cs, n + 1, Next(v, hash, id, cs[n]).0)
  {
    ReceiveNextKeeps(v, hash, id, sources, cs[n]);
    forall k | 0 <= k < n + 1 ensures RowStored(Next(v, hash, id, cs[n]).0, id, cs[k]) {
      RowNext(hash, id, sources, cs, n, v, k);
    }
  }

  lemma RowNext(hash: Hash, id: string, sources: seq<Source>, cs: seq<Chunk>, n: nat, v: World, k: nat)
    requires StreamOf(hash, sources, cs) && k <= n < |cs| && InProgress(v, hash, id, sources)
    requires k < n ==> RowStored(v, id, cs[k])
    ensures RowStored(Next(v, hash, id, cs[n]).0, id, cs[k])
  {
    ReceiveNext(v, hash, id, sources, cs[n], cs[k]);
  }

  /** After any prefix of the stream every received row is stored and the transfer is still in progress. */
  lemma ReceivedStored(w: World, hash: Hash, id: string, sources: seq<Source>, cs: seq<Chunk>, n: nat)
    requires InProgress(w, hash, id, sources) && StreamOf(hash, sources, cs) && n <= |cs|
    ensures StoredSoFar(w, hash, id, sources, cs, n, Received(w, hash, id, cs[..n]))
  {
    var keep := (j: nat, v: World) => StoredSoFar(w, hash, id, sources, cs, j, v);
    forall j, v | 0 <= j < n && keep(j, v) ensures keep(j + 1, Next(v, hash, id, cs[j]).0) {
      StoredNext(w, hash, id, sources, cs, j, v);
    }
    ReceivedKeeps(w, hash, id, cs, n, keep);
  }

  /** The next chunk of the stream is never refused. */
  lemma NextAccepted(w: World, hash: Hash, id: string, sources: seq<Source>, cs: seq<Chunk>, n: nat)
    requires InProgress(w, hash, id, sources) && StreamOf(hash, sources, cs) && n < |cs|
    ensures Next(Received(w, hash, id, cs[..n]), hash, id, cs[n]) == (Received(w, hash, id, cs[..n + 1]), None)
  {
    ReceivedStored(w, hash, id, sources, cs, n);
    ReceivedSnoc(w, hash, id, cs, n);
    ReceiveNextKeeps(Received(w, hash, id, cs[..n]), hash, id, sources, cs[n]);
  }

  lemma ClientStream(hash: Hash, sources: seq<Source>, chunkSize: nat)
    requires Addressable(sources) && chunkSize > 0
    ensures StreamOf(hash, sources, ChunksFrom(hash, sources, chunkSize, 0))
  {
    var cs := ChunksFrom(hash, sources, chunkSize, 0);
    forall k | 0 <= k < |cs| ensures IsSlice(hash, sources, cs[k]) {
      var j, m := Locate(hash, sources, chunkSize, 0, k);
      ChunksOfFileAt(hash, sources, chunkSize, j, m);
    }
    forall a, b | 0 <= a < b < |cs| ensures cs[a].fileId != cs[b].fileId || cs[a].offset != cs[b].offset {
      StreamDistinct(hash, sources, chunkSize, 0, a, b);
    }
  }

  /** When the whole stream has been received, every file is complete. */
  lemma StreamCompletes(w: World, hash: Hash, id: string, sources: seq<Source>, chunkSize: nat, i: nat)
    requires InProgress(w, hash, id, sources) && chunkSize > 0 && i < |sources|
    requires forall k :: 0 <= k < |ChunksFrom(hash, sources, chunkSize, 0)| ==>
                           RowStored(w, id, ChunksFrom(hash, sources, chunkSize, 0)[k])
    ensures FileComplete(w, id, sources, i)
  {
    var size := |sources[i].data|;
    assert sources[i] in sources;
    forall p | 0 <= p < size ensures Covers(w.db[id].Ranges(FileId(i)), p) {
      GridCovers(0, size, chunkSize, p);
      var g :| g in Grid(size, chunkSize) && g.Has(p);
      var m :| 0 <= m < |Grid(size, chunkSize)| && Grid(size, chunkSize)[m] == g;
      ChunksOfFileAt(hash, sources, chunkSize, i, m);
      var k := InStream(hash, sources, chunkSize, 0, i, m);
      var c := ChunksFrom(hash, sources, chunkSize, 0)[k];
      assert RowStored(w, id, c) && c.fileId == FileId(i) && |c.data| == g.length;
      ToRangesMembers(w.db[id].Rows(FileId(i)), RowOf(c.offset, |c.data|).ToRange());
      assert RowOf(c.offset, |c.data|).ToRange() == g;
    }
  }
}
