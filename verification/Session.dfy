/**
  The two-party wire session (`client.rs`, `handle_native_connection` and
  `receive_native_transfer` in `main.rs`): client and daemon over two byte queues that carry
  control frames and chunk frames with nothing to tell them apart, scheduled in any order.
 */
module Session {
  import opened Prelude
  import opened Ranges
  import opened Manifest
  import opened Receiver
  import opened Publishing
  import opened Sender
  import opened ResumeCorrect
  import opened Interruptions
  import opened Wire
  import opened SessionChunks
  import Runs
  import Utf8

  /**
    Everything fixed before the session: both parties' inputs and the receiver's disk. The
    framing of chunks is a parameter here; `NativeSetup` says it is the native one.
   */
  datatype Setup = Setup(
    codec: Codec, frames: ChunkCodec, hash: Hash,
    hello: Bytes, ack: Bytes,
    admit: Bytes -> Option<string>,
    id: string, sources: seq<Source>,
    disk: World)

  datatype Client =
    | ClientHello | ClientAwaitAck | ClientRequest | ClientAwaitAccept
    | ClientSending(chunkSize: U64, sent: nat) | ClientAwaitDone | ClientFinished | ClientFailed

  datatype Daemon =
    | DaemonAwaitHello | DaemonAck(peer: string) | DaemonAwaitRequest(peer: string)
    | DaemonAccept(req: Request) | DaemonReceiving(req: Request, remaining: nat)
    | DaemonDone(id: string) | DaemonFinished | DaemonFailed

  /** `up` is what the client wrote and the daemon has not read; `down` the other way. */
  datatype System = System(client: Client, daemon: Daemon, up: Bytes, down: Bytes, world: World)

  function RequestOf(x: Setup): Request
    requires Addressable(x.sources)
  {
    Request(x.id, Offers(x.hash, x.sources))
  }

  function ConfigFor(peer: string): Config { Config(false, Some(peer), DEFAULT_CHUNK_SIZE) }

  // ----- the client -----

  function ClientWrites(x: Setup, s: System, m: Control, next: Client): System {
    match WriteControl(x.codec, m)
    case Ok(frame) => s.(client := next, up := s.up + frame)
    case Err(_) => s.(client := ClientFailed)
  }

  function ClientSends(x: Setup, s: System, c: Chunk, next: Client): System {
    match x.frames.write(c)
    case Ok(frame) => s.(client := next, up := s.up + frame)
    case Err(_) => s.(client := ClientFailed)
  }

  /** What the client does with the message it was waiting for. */
  function ClientReads(x: Setup, s: System, m: Control): Client
    requires Addressable(x.sources)
  {
    match s.client
    case ClientAwaitAck => if m.HelloAck? then ClientRequest else ClientFailed
    case ClientAwaitAccept =>
      if m.AcceptTransfer? && m.id == x.id && m.chunkSize > 0 then ClientSending(m.chunkSize, 0) else ClientFailed
    case ClientAwaitDone => if m.Done? && m.id == x.id then ClientFinished else ClientFailed
    case _ => ClientFailed
  }

  /** One step of `send_prepared_native_files`; `None` while it waits for bytes or has ended. */
  function ClientStep(x: Setup, s: System): Option<System>
    requires Addressable(x.sources)
  {
    match s.client
    case ClientHello => Some(ClientWrites(x, s, Hello(x.hello), ClientAwaitAck))
    case ClientRequest => Some(ClientWrites(x, s, RequestTransfer(RequestOf(x)), ClientAwaitAccept))
    case ClientSending(chunkSize, sent) =>
      if chunkSize == 0 then Some(s.(client := ClientFailed))
      else if sent >= |ChunksFrom(x.hash, x.sources, chunkSize, 0)| then
        Some(ClientWrites(x, s, Done(x.id), ClientAwaitDone))
      else
        var c := ChunksFrom(x.hash, x.sources, chunkSize, 0)[sent];
        Some(ClientSends(x, s, c, ClientSending(chunkSize, sent + 1)))
    case ClientFinished => None
    case ClientFailed => None
    case _ => ClientReadsControl(x, s)
  }

  function ClientReadsControl(x: Setup, s: System): Option<System>
    requires Addressable(x.sources)
  {
    match ReadControl(x.codec, s.down)
    case Ok(read) => Some(s.(client := ClientReads(x, s, read.0), down := read.1))
    case Err(e) => if e.Eof? then None else Some(s.(client := ClientFailed))
  }

  // ----- the daemon -----

  function DaemonWrites(x: Setup, s: System, m: Control, next: Daemon): System {
    match WriteControl(x.codec, m)
    case Ok(frame) => s.(daemon := next, down := s.down + frame)
    case Err(_) => s.(daemon := DaemonFailed)
  }

  /** A request is capped before it is accepted. */
  function DaemonRequested(s: System, peer: string, req: Request): System {
    if DeclaredBytes(req.files, 0).None? then s.(daemon := DaemonFailed)
    else
      var (world, error) := Accept(s.world, ConfigFor(peer), peer, req);
      if error.Some? then s.(daemon := DaemonFailed, world := world)
      else s.(daemon := DaemonAccept(req), world := world)
  }

  function DaemonChunk(x: Setup, s: System, req: Request, remaining: nat, c: Chunk): System
    requires remaining > 0
  {
    var (world, error) := Next(s.world, x.hash, req.id, c);
    s.(daemon := if error.Some? then DaemonFailed else DaemonReceiving(req, remaining - 1), world := world)
  }

  ghost function DaemonFinish(x: Setup, s: System, id: string): System {
    var (world, error) := Finish(s.world, x.hash, id);
    s.(daemon := if error.Some? then DaemonFailed else DaemonDone(id), world := world)
  }

  /** What the daemon does with the control message it was waiting for. */
  ghost function DaemonReads(x: Setup, s: System, m: Control): System {
    match s.daemon
    case DaemonAwaitHello =>
      if m.Hello? && x.admit(m.info).Some? then s.(daemon := DaemonAck(x.admit(m.info).value))
      else s.(daemon := DaemonFailed)
    case DaemonAwaitRequest(peer) =>
      if m.RequestTransfer? then DaemonRequested(s, peer, m.req) else s.(daemon := DaemonFailed)
    case DaemonReceiving(req, _) =>
      if m.Done? && m.id == req.id then DaemonFinish(x, s, m.id) else s.(daemon := DaemonFailed)
    case _ => s.(daemon := DaemonFailed)
  }

  ghost function DaemonReadsControl(x: Setup, s: System): Option<System> {
    match ReadControl(x.codec, s.up)
    case Ok(read) => Some(DaemonReads(x, s.(up := read.1), read.0))
    case Err(e) => if e.Eof? then None else Some(s.(daemon := DaemonFailed))
  }

  function DaemonReadsChunk(x: Setup, s: System, req: Request, remaining: nat): Option<System>
    requires remaining > 0
  {
    match x.frames.read(s.up)
    case Ok(read) =>
      Some(DaemonChunk(x, s.(up := read.1), req, remaining, read.0))
    case Err(e) => if e.Eof? then None else Some(s.(daemon := DaemonFailed))
  }

  /** One step of the daemon; `None` while it waits for bytes or has ended. */
  ghost function DaemonStep(x: Setup, s: System): Option<System> {
    match s.daemon
    case DaemonAwaitHello => DaemonReadsControl(x, s)
    case DaemonAck(peer) => Some(DaemonWrites(x, s, HelloAck(x.ack), DaemonAwaitRequest(peer)))
    case DaemonAwaitRequest(_) => DaemonReadsControl(x, s)
    case DaemonAccept(req) =>
      Some(DaemonWrites(x, s, AcceptTransfer(req.id, DEFAULT_CHUNK_SIZE),
                        DaemonReceiving(req, ExpectedChunkCount(req.files, DEFAULT_CHUNK_SIZE))))
    case DaemonReceiving(req, remaining) =>
      if remaining > 0 then DaemonReadsChunk(x, s, req, remaining) else DaemonReadsControl(x, s)
    case DaemonDone(id) => Some(DaemonWrites(x, s, Done(id), DaemonFinished))
    case DaemonFinished => None
    case DaemonFailed => None
  }

  // ----- joint runs -----

  function Start(x: Setup): System { System(ClientHello, DaemonAwaitHello, [], [], x.disk) }

  /** A party that cannot move leaves the system as it is. */
  ghost function Turn(x: Setup, s: System, clientMoves: bool): System
    requires Addressable(x.sources)
  {
    var next := if clientMoves then ClientStep(x, s) else DaemonStep(x, s);
    if next.Some? then next.value else s
  }

  ghost function Play(x: Setup, schedule: seq<bool>): System
    requires Addressable(x.sources)
  {
    if schedule == [] then Start(x)
    else Turn(x, Play(x, schedule[..|schedule| - 1]), schedule[|schedule| - 1])
  }

  // ----- what a session may assume -----

  function Peer(x: Setup): string { if x.admit(x.hello).Some? then x.admit(x.hello).value else "" }

  function Accepted(x: Setup): World
    requires Addressable(x.sources)
  {
    Accept(x.disk, ConfigFor(Peer(x)), Peer(x), RequestOf(x)).0
  }

  predicate MessagesFit(x: Setup)
    requires Addressable(x.sources)
  {
    && ControlFits(x.codec, Hello(x.hello)) && ControlFits(x.codec, HelloAck(x.ack))
    && ControlFits(x.codec, RequestTransfer(RequestOf(x)))
    && ControlFits(x.codec, AcceptTransfer(x.id, DEFAULT_CHUNK_SIZE)) && ControlFits(x.codec, Done(x.id))
  }

  function Stream(x: Setup): seq<Chunk>
    requires Addressable(x.sources)
  {
    ChunksFrom(x.hash, x.sources, DEFAULT_CHUNK_SIZE, 0)
  }

  function Frame(x: Setup, c: Chunk): Bytes {
    match x.frames.write(c)
    case Ok(frame) => frame
    case Err(_) => []
  }

  /** Every chunk of the session can be framed and is read back from in front of anything. */
  ghost predicate Framed(x: Setup)
    requires Addressable(x.sources)
  {
    && x.frames.read([]) == Err(Eof)
    && forall k, rest :: 0 <= k < |Stream(x)| ==> ReadsBack(x, Stream(x)[k], rest)
  }

  ghost predicate ReadsBack(x: Setup, c: Chunk, rest: Bytes) {
    x.frames.write(c).Ok? && x.frames.read(Frame(x, c) + rest) == Ok((c, rest))
  }

  /**
    An admitted peer with an acceptable transfer within the cap, new or interrupted and consistent
    with its sources, and messages within limits.
   */
  ghost predicate Admissible(x: Setup) {
    && x.codec.Lawful()
    && Addressable(x.sources) && MessagesFit(x)
    && x.admit(x.hello).Some?
    && ValidDb(x.disk.db) && (Fresh(x.disk, x.id) || InProgress(x.disk, x.hash, x.id, x.sources))
    && TotalBytes(Offers(x.hash, x.sources)) <= MAX_NATIVE_TRANSFER_BYTES
    && Accept(x.disk, ConfigFor(Peer(x)), Peer(x), RequestOf(x)).1.None?
  }

  ghost predicate Sane(x: Setup) { Admissible(x) && Framed(x) }

  /** The native framing, with a hexadecimal digest and ids that fit their length field. */
  ghost predicate NativeSetup(x: Setup) {
    && x.frames == NativeFrames(x.hash) && HexHash(x.hash) && Addressable(x.sources)
    && forall i :: 0 <= i < |x.sources| ==> |Utf8.Encode(FileId(i))| < TWO_16
  }

  /** The native frames carry every chunk of every session. */
  lemma NativeFramesCarry(x: Setup)
    requires NativeSetup(x)
    ensures Framed(x)
  {
    forall k, rest | 0 <= k < |Stream(x)| ensures ReadsBack(x, Stream(x)[k], rest) {
      StreamSendable(x.hash, x.sources, k);
      ChunkRoundTrip(x.hash, Stream(x)[k], rest);
    }
  }

  /** No source is empty and every file can be given an inbox name. */
  ghost predicate Deliverable(x: Setup)
    requires Addressable(x.sources)
  {
    NonEmpty(x.sources) && Allocates(Taken(x.disk.inbox), OfferedFiles(x.hash, x.sources))
  }

  lemma StreamFacts(x: Setup)
    requires Sane(x)
    ensures InProgress(Accepted(x), x.hash, x.id, x.sources)
    ensures StreamOf(x.hash, x.sources, Stream(x))
    ensures |Stream(x)| == ExpectedChunkCount(RequestOf(x).files, DEFAULT_CHUNK_SIZE)
    ensures Accepted(x).inbox == x.disk.inbox
  {
    if Fresh(x.disk, x.id) {
      AcceptStarts(x.disk, x.hash, ConfigFor(Peer(x)), Peer(x), x.id, x.sources);
    } else {
      HonestStep(x.disk, x.hash, x.id, x.sources, Runs.Accepting(ConfigFor(Peer(x)), Peer(x), RequestOf(x)));
    }
    ClientStream(x.hash, x.sources, DEFAULT_CHUNK_SIZE);
    CountsAgree(x.hash, x.sources, DEFAULT_CHUNK_SIZE);
  }

  /** The disk after the first `n` chunks. */
  function DiskAfter(x: Setup, n: nat): World
    requires Addressable(x.sources) && n <= |Stream(x)|
  {
    Received(Accepted(x), x.hash, x.id, Stream(x)[..n])
  }

  ghost function DiskFinished(x: Setup): World
    requires Addressable(x.sources)
  {
    Finish(DiskAfter(x, |Stream(x)|), x.hash, x.id).0
  }

  /** Finishing after the whole stream succeeds exactly for a deliverable transfer. */
  lemma FinishOutcome(x: Setup)
    requires Sane(x)
    ensures Finish(DiskAfter(x, |Stream(x)|), x.hash, x.id).1.None? <==> Deliverable(x)
    ensures Deliverable(x) ==> Succeeded(x.disk, x.id, x.sources, DiskFinished(x))
  {
    var w := StreamStored(x);
    FinishDelivers(w, x.hash, x.id, x.sources);
  }

  /** Once the whole stream has been received, every file of the transfer is complete. */
  lemma StreamStored(x: Setup) returns (w: World)
    requires Sane(x)
    ensures w == DiskAfter(x, |Stream(x)|) && w.inbox == x.disk.inbox
    ensures InProgress(w, x.hash, x.id, x.sources)
    ensures forall i :: 0 <= i < |x.sources| ==> FileComplete(w, x.id, x.sources, i)
  {
    StreamFacts(x);
    w := DiskAfter(x, |Stream(x)|);
    ReceivedStored(Accepted(x), x.hash, x.id, x.sources, Stream(x), |Stream(x)|);
    forall i | 0 <= i < |x.sources| ensures FileComplete(w, x.id, x.sources, i) {
      StreamCompletes(w, x.hash, x.id, x.sources, DEFAULT_CHUNK_SIZE, i);
    }
  }
}
