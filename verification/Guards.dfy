/**
  Each party of a session against any other party: whatever bytes arrive and however the turns
  fall, what the daemon has done to the disk is explained by the messages it read, and what the
  client has sent by the messages it read. A session that must be refused touches nothing.
 */
module Guards {
  import opened Prelude
  import opened Manifest
  import opened Receiver
  import opened Sender
  import opened Wire
  import opened SessionChunks
  import opened Session
  import Lockstep
  import Runs

  /** Bytes arrive from a peer that may send anything, or the party takes a turn. */
  datatype Input = Arrive(bytes: Bytes) | Work

  /** What a party has read and written so far. */
  datatype Log = Log(read: seq<Control>, chunks: seq<Chunk>, wrote: seq<Control>)

  // ----- the daemon against any client -----

  ghost function Serve(x: Setup, inputs: seq<Input>): System {
    if inputs == [] then Start(x)
    else ServeNext(x, Serve(x, inputs[..|inputs| - 1]), inputs[|inputs| - 1])
  }

  ghost function ServeNext(x: Setup, s: System, i: Input): System {
    match i
    case Arrive(bytes) => s.(up := s.up + bytes)
    case Work => if DaemonStep(x, s).Some? then DaemonStep(x, s).value else s
  }

  ghost function ServeLog(x: Setup, inputs: seq<Input>): Log {
    if inputs == [] then Log([], [], [])
    else
      var before := inputs[..|inputs| - 1];
      Logged(x, Serve(x, before), ServeLog(x, before), inputs[|inputs| - 1])
  }

  /** What the next turn of the daemon adds to the log. */
  ghost function Logged(x: Setup, s: System, log: Log, i: Input): Log {
    if i.Arrive? then log
    else
      match s.daemon
      case DaemonAck(_) => LoggedWrite(x, log, HelloAck(x.ack))
      case DaemonAccept(req) => LoggedWrite(x, log, AcceptTransfer(req.id, 0x10_0000))
      case DaemonDone(id) => LoggedWrite(x, log, Done(id))
      case DaemonReceiving(_, remaining) => if remaining > 0 then LoggedChunk(x, s, log) else LoggedRead(x, s, log)
      case DaemonFinished => log
      case DaemonFailed => log
      case _ => LoggedRead(x, s, log)
  }

  function LoggedWrite(x: Setup, log: Log, m: Control): Log {
    if WriteControl(x.codec, m).Ok? then log.(wrote := log.wrote + [m]) else log
  }

  /** The frames of the messages written. */
  function Written(x: Setup, wrote: seq<Control>): Bytes {
    if wrote == [] then [] else Written(x, wrote[..|wrote| - 1]) + Lockstep.Sent(x, wrote[|wrote| - 1])
  }

  function LoggedRead(x: Setup, s: System, log: Log): Log {
    match ReadControl(x.codec, s.up)
    case Ok(read) => log.(read := log.read + [read.0])
    case Err(_) => log
  }

  function LoggedChunk(x: Setup, s: System, log: Log): Log {
    match x.frames.read(s.up)
    case Ok(read) => log.(chunks := log.chunks + [read.0])
    case Err(_) => log
  }

  /** The first message is a hello that the daemon admits. */
  predicate Greeted(x: Setup, log: Log) {
    log.read != [] && log.read[0].Hello? && x.admit(log.read[0].info).Some?
  }

  function PeerOf(x: Setup, log: Log): string
    requires Greeted(x, log)
  {
    x.admit(log.read[0].info).value
  }

  /** The second is a request within 64 GiB that the receiver accepts from that peer. */
  predicate Requested(x: Setup, log: Log) {
    && Greeted(x, log) && |log.read| >= 2 && log.read[1].RequestTransfer?
    && TotalBytes(log.read[1].req.files) <= 0x10_0000_0000
    && Accept(x.disk, ConfigFor(PeerOf(x, log)), PeerOf(x, log), log.read[1].req).1.None?
  }

  function Opened(x: Setup, log: Log): World
    requires Requested(x, log)
  {
    Accept(x.disk, ConfigFor(PeerOf(x, log)), PeerOf(x, log), log.read[1].req).0
  }

  /** The disk after the accept and the chunks read since. */
  function Stored(x: Setup, log: Log): World
    requires Requested(x, log)
  {
    Received(Opened(x, log), x.hash, log.read[1].req.id, log.chunks)
  }

  /** The receiver accepted each of the first `n` chunks. */
  ghost predicate Kept(x: Setup, log: Log, n: int)
    requires Requested(x, log) && n <= |log.chunks|
  {
    var id := log.read[1].req.id;
    forall i :: 0 <= i < n ==>
      Next(Received(Opened(x, log), x.hash, id, log.chunks[..i]), x.hash, id, log.chunks[i]).1.None?
  }

  function Expected(log: Log): nat
    requires |log.read| >= 2 && log.read[1].RequestTransfer?
  {
    ExpectedChunkCount(log.read[1].req.files, 0x10_0000)
  }

  /** After exactly the expected chunks, all accepted, a Done for that very transfer. */
  ghost predicate Asked(x: Setup, log: Log) {
    && Requested(x, log) && |log.read| == 3 && log.read[2] == Done(log.read[1].req.id)
    && |log.chunks| == Expected(log) && Kept(x, log, |log.chunks|)
  }

  /** How the daemon's state and the disk follow from what it read and wrote. */
  ghost predicate Explained(x: Setup, log: Log, s: System) {
    match s.daemon
    case DaemonAwaitHello => log == Log([], [], []) && s.world == x.disk
    case DaemonAck(peer) =>
      && Greeted(x, log) && peer == PeerOf(x, log) && |log.read| == 1 && log.chunks == []
      && log.wrote == [] && s.world == x.disk
    case DaemonAwaitRequest(peer) =>
      && Greeted(x, log) && peer == PeerOf(x, log) && |log.read| == 1 && log.chunks == []
      && log.wrote == [HelloAck(x.ack)] && s.world == x.disk
    case DaemonAccept(req) =>
      && Requested(x, log) && log.read[1].req == req && |log.read| == 2 && log.chunks == []
      && log.wrote == [HelloAck(x.ack)] && s.world == Opened(x, log)
    case DaemonReceiving(req, remaining) =>
      && Requested(x, log) && log.read[1].req == req && |log.read| == 2 && |log.chunks| + remaining == Expected(log)
      && log.wrote == [HelloAck(x.ack), AcceptTransfer(req.id, 0x10_0000)] && s.world == Stored(x, log)
      && Kept(x, log, |log.chunks|)
    case DaemonDone(id) =>
      && Asked(x, log) && id == log.read[1].req.id && Finish(Stored(x, log), x.hash, id) == (s.world, None)
      && log.wrote == [HelloAck(x.ack), AcceptTransfer(id, 0x10_0000)]
    case DaemonFinished =>
      && Asked(x, log) && Finish(Stored(x, log), x.hash, log.read[1].req.id) == (s.world, None)
      && log.wrote == [HelloAck(x.ack), AcceptTransfer(log.read[1].req.id, 0x10_0000), Done(log.read[1].req.id)]
    case DaemonFailed => FailedFairly(x, log, s.world)
  }

  /**
    A failed daemon has changed nothing but by an accepted request, its chunks, of which at most
    the last was refused, and a finish that was asked for.
   */
  ghost predicate FailedFairly(x: Setup, log: Log, world: World) {
    if Requested(x, log)
    then
      && Kept(x, log, |log.chunks| - 1)
      && (world == Stored(x, log) || (Asked(x, log) && world == Finish(Stored(x, log), x.hash, log.read[1].req.id).0))
    else world == x.disk
  }

  /** What the daemon has sent is exactly the frames of the messages in its log. */
  lemma {:induction false} RepliesWritten(x: Setup, inputs: seq<Input>)
    ensures Serve(x, inputs).down == Written(x, ServeLog(x, inputs).wrote)
  {
    if inputs != [] {
      var before := inputs[..|inputs| - 1];
      RepliesWritten(x, before);
      if inputs[|inputs| - 1].Work? { TurnWrites(x, Serve(x, before), ServeLog(x, before)); }
    }
  }

  lemma WrittenNext(x: Setup, wrote: seq<Control>, m: Control)
    ensures Written(x, wrote + [m]) == Written(x, wrote) + Lockstep.Sent(x, m)
  {
    assert (wrote + [m])[..|wrote|] == wrote;
  }

  lemma WriteLogged(x: Setup, s: System, log: Log, m: Control, next: Daemon)
    requires s.down == Written(x, log.wrote)
    ensures DaemonWrites(x, s, m, next).down == Written(x, LoggedWrite(x, log, m).wrote)
  {
    WrittenNext(x, log.wrote, m);
  }

  lemma TurnWrites(x: Setup, s: System, log: Log)
    requires s.down == Written(x, log.wrote)
    ensures ServeNext(x, s, Work).down == Written(x, Logged(x, s, log, Work).wrote)
  {
    match s.daemon
    case DaemonAck(peer) => WriteLogged(x, s, log, HelloAck(x.ack), DaemonAwaitRequest(peer));
    case DaemonAccept(req) =>
      WriteLogged(x, s, log, AcceptTransfer(req.id, 0x10_0000),
                  DaemonReceiving(req, ExpectedChunkCount(req.files, DEFAULT_CHUNK_SIZE)));
    case DaemonDone(id) => WriteLogged(x, s, log, Done(id), DaemonFinished);
    case _ => OthersWriteNothing(x, s, log);
  }

  lemma OthersWriteNothing(x: Setup, s: System, log: Log)
    requires !s.daemon.DaemonAck? && !s.daemon.DaemonAccept? && !s.daemon.DaemonDone?
    ensures ServeNext(x, s, Work).down == s.down && Logged(x, s, log, Work).wrote == log.wrote
  {
  }

  lemma HelloExplained(x: Setup, log: Log, s: System)
    requires Explained(x, log, s) && s.daemon.DaemonAwaitHello?
    ensures Explained(x, Logged(x, s, log, Work), ServeNext(x, s, Work))
  {
  }

  lemma AckExplained(x: Setup, log: Log, s: System)
    requires Explained(x, log, s) && s.daemon.DaemonAck?
    ensures Explained(x, Logged(x, s, log, Work), ServeNext(x, s, Work))
  {
  }

  lemma AcceptExplained(x: Setup, log: Log, s: System)
    requires Explained(x, log, s) && s.daemon.DaemonAccept?
    ensures Explained(x, Logged(x, s, log, Work), ServeNext(x, s, Work))
  {
    assert log.chunks == [];
  }

  lemma CompletionExplained(x: Setup, log: Log, s: System)
    requires Explained(x, log, s) && s.daemon.DaemonDone?
    ensures Explained(x, Logged(x, s, log, Work), ServeNext(x, s, Work))
  {
    OneMoreWrite(x, log, Done(s.daemon.id));
  }

  /** What was asked does not depend on what was answered. */
  lemma OneMoreWrite(x: Setup, log: Log, m: Control)
    requires Asked(x, log)
    ensures var after := log.(wrote := log.wrote + [m]); Asked(x, after) && Stored(x, after) == Stored(x, log)
  {
  }

  lemma RequestExplained(x: Setup, log: Log, s: System)
    requires Explained(x, log, s) && s.daemon.DaemonAwaitRequest?
    ensures Explained(x, Logged(x, s, log, Work), ServeNext(x, s, Work))
  {
    if ReadControl(x.codec, s.up).Ok? {
      var m := ReadControl(x.codec, s.up).value.0;
      if m.RequestTransfer? {
        DeclaredBytesIff(m.req.files, 0);
        Runs.AcceptReopens(x.disk, ConfigFor(s.daemon.peer), s.daemon.peer, m.req);
      }
    }
  }

  lemma ChunkExplained(x: Setup, log: Log, s: System)
    requires Explained(x, log, s) && s.daemon.DaemonReceiving? && s.daemon.remaining > 0
    ensures Explained(x, Logged(x, s, log, Work), ServeNext(x, s, Work))
  {
    if x.frames.read(s.up).Ok? {
      OneMoreChunk(x, log, x.frames.read(s.up).value.0);
    }
  }

  /** One chunk more leaves the request, and what was kept before it, as they were. */
  lemma OneMoreChunk(x: Setup, log: Log, c: Chunk)
    requires Requested(x, log) && Kept(x, log, |log.chunks|)
    ensures var after, id := log.(chunks := log.chunks + [c]), log.read[1].req.id;
            && Requested(x, after) && Expected(after) == Expected(log) && Kept(x, after, |log.chunks|)
            && Stored(x, after) == Next(Stored(x, log), x.hash, id, c).0
            && (Next(Stored(x, log), x.hash, id, c).1.None? ==> Kept(x, after, |log.chunks| + 1))
  {
    var cs := log.chunks + [c];
    forall i | 0 <= i <= |log.chunks| ensures cs[..i] == log.chunks[..i] {
    }
    assert log.chunks[..|log.chunks|] == log.chunks;
  }

  lemma DoneExplained(x: Setup, log: Log, s: System)
    requires Explained(x, log, s) && s.daemon.DaemonReceiving? && s.daemon.remaining == 0
    ensures Explained(x, Logged(x, s, log, Work), ServeNext(x, s, Work))
  {
    if ReadControl(x.codec, s.up).Ok? {
      var m := ReadControl(x.codec, s.up).value.0;
      OneMoreRead(x, log, m);
    }
  }

  /** A third message does not change what was requested and stored. */
  lemma OneMoreRead(x: Setup, log: Log, m: Control)
    requires Requested(x, log) && |log.read| == 2
    ensures var after := log.(read := log.read + [m]);
            && Requested(x, after) && Stored(x, after) == Stored(x, log) && Expected(after) == Expected(log)
            && (forall n :: n <= |log.chunks| ==> (Kept(x, after, n) <==> Kept(x, log, n)))
            && (Asked(x, after) <==>
                  m == Done(log.read[1].req.id) && |log.chunks| == Expected(log) && Kept(x, log, |log.chunks|))
  {
  }

  /**
    For every client, honest or not, and every cut of its bytes: the daemon touches the disk only
    after reading a hello it admits and a request within the cap that the receiver accepts; the
    disk is then that of the accept and the chunks it read; it finishes only on a Done for that
    transfer after exactly the expected chunks; and it answers in that order.
   */
  lemma {:induction false} DaemonExplained(x: Setup, inputs: seq<Input>)
    ensures Explained(x, ServeLog(x, inputs), Serve(x, inputs))
  {
    if inputs != [] {
      var before, i := inputs[..|inputs| - 1], inputs[|inputs| - 1];
      DaemonExplained(x, before);
      var s, log := Serve(x, before), ServeLog(x, before);
      if i.Work? {
        match s.daemon
        case DaemonAwaitHello => HelloExplained(x, log, s);
        case DaemonAwaitRequest(_) => RequestExplained(x, log, s);
        case DaemonReceiving(_, remaining) =>
          if remaining > 0 { ChunkExplained(x, log, s); } else { DoneExplained(x, log, s); }
        case DaemonFinished =>
        case DaemonFailed =>
        case DaemonAck(_) => AckExplained(x, log, s);
        case DaemonAccept(_) => AcceptExplained(x, log, s);
        case DaemonDone(_) => CompletionExplained(x, log, s);
      }
    }
  }

  /** A peer that is never admitted leaves the disk as it was and the daemon waiting or failed. */
  lemma UnadmittedTouchNothing(x: Setup, inputs: seq<Input>)
    requires forall info :: x.admit(info).None?
    ensures Serve(x, inputs).world == x.disk
    ensures Serve(x, inputs).daemon.DaemonAwaitHello? || Serve(x, inputs).daemon.DaemonFailed?
  {
    DaemonExplained(x, inputs);
  }

  /** The daemon never completes a transfer on a Done for another one, nor without the chunks it expects. */
  lemma FinishedWasAsked(x: Setup, inputs: seq<Input>)
    requires Serve(x, inputs).daemon.DaemonDone? || Serve(x, inputs).daemon.DaemonFinished?
    ensures Asked(x, ServeLog(x, inputs))
  {
    DaemonExplained(x, inputs);
  }

  // ----- the client against any daemon -----

  function Ask(x: Setup, inputs: seq<Input>): System
    requires Addressable(x.sources)
  {
    if inputs == [] then Start(x)
    else AskNext(x, Ask(x, inputs[..|inputs| - 1]), inputs[|inputs| - 1])
  }

  function AskNext(x: Setup, s: System, i: Input): System
    requires Addressable(x.sources)
  {
    match i
    case Arrive(bytes) => s.(down := s.down + bytes)
    case Work => if ClientStep(x, s).Some? then ClientStep(x, s).value else s
  }

  /** The control messages the client has read. */
  function Answers(x: Setup, inputs: seq<Input>): seq<Control>
    requires Addressable(x.sources)
  {
    if inputs == [] then []
    else
      var before := inputs[..|inputs| - 1];
      Answers(x, before) + if inputs[|inputs| - 1].Work? then Answer(x, Ask(x, before)) else []
  }

  function Answer(x: Setup, s: System): seq<Control> {
    if s.client.ClientAwaitAck? || s.client.ClientAwaitAccept? || s.client.ClientAwaitDone?
    then match ReadControl(x.codec, s.down) case Ok(read) => [read.0] case Err(_) => []
    else []
  }

  /** Hello and request, as sent. */
  function Opening(x: Setup): Bytes
    requires Addressable(x.sources)
  {
    Lockstep.Sent(x, Hello(x.hello)) + Lockstep.Sent(x, RequestTransfer(RequestOf(x)))
  }

  function Chunks(x: Setup, chunkSize: U64): seq<Chunk>
    requires Addressable(x.sources) && chunkSize > 0
  {
    ChunksFrom(x.hash, x.sources, chunkSize, 0)
  }

  /** The daemon acknowledged, and accepted this transfer with a positive chunk size. */
  predicate AcceptedBy(x: Setup, read: seq<Control>) {
    |read| >= 2 && read[0].HelloAck? && read[1].AcceptTransfer? && read[1].id == x.id && read[1].chunkSize > 0
  }

  /** How the client's state and everything it sent follow from what it read. */
  ghost predicate Justified(x: Setup, read: seq<Control>, s: System)
    requires Addressable(x.sources)
  {
    match s.client
    case ClientHello => read == [] && s.up == []
    case ClientAwaitAck => read == [] && s.up == Lockstep.Sent(x, Hello(x.hello))
    case ClientRequest => |read| == 1 && read[0].HelloAck? && s.up == Lockstep.Sent(x, Hello(x.hello))
    case ClientAwaitAccept => |read| == 1 && read[0].HelloAck? && s.up == Opening(x)
    case ClientSending(chunkSize, sent) =>
      && AcceptedBy(x, read) && |read| == 2 && chunkSize == read[1].chunkSize && sent <= |Chunks(x, chunkSize)|
      && s.up == Opening(x) + Lockstep.Frames(x, Chunks(x, chunkSize)[..sent])
    case ClientAwaitDone => AcceptedBy(x, read) && |read| == 2 && SentAll(x, read, s.up)
    case ClientFinished => AcceptedBy(x, read) && |read| == 3 && read[2] == Done(x.id) && SentAll(x, read, s.up)
    case ClientFailed => true
  }

  /** Every chunk of every file at the accepted size, between the opening and a Done for this transfer. */
  ghost predicate SentAll(x: Setup, read: seq<Control>, up: Bytes)
    requires Addressable(x.sources) && AcceptedBy(x, read)
  {
    up == Opening(x) + Lockstep.Frames(x, Chunks(x, read[1].chunkSize)) + Lockstep.Sent(x, Done(x.id))
  }

  lemma OpeningJustified(x: Setup, read: seq<Control>, s: System)
    requires Addressable(x.sources) && Justified(x, read, s) && (s.client.ClientHello? || s.client.ClientRequest?)
    ensures Justified(x, read + Answer(x, s), AskNext(x, s, Work))
  {
    assert [] + Lockstep.Sent(x, Hello(x.hello)) == Lockstep.Sent(x, Hello(x.hello));
    assert read + [] == read;
  }

  lemma AnswerJustified(x: Setup, read: seq<Control>, s: System)
    requires Addressable(x.sources) && Justified(x, read, s)
    requires s.client.ClientAwaitAck? || s.client.ClientAwaitAccept? || s.client.ClientAwaitDone?
    ensures Justified(x, read + Answer(x, s), AskNext(x, s, Work))
  {
    assert read + [] == read;
    if s.client.ClientAwaitAccept? && ReadControl(x.codec, s.down).Ok? {
      var m := ReadControl(x.codec, s.down).value.0;
      if m.AcceptTransfer? && m.chunkSize > 0 {
        assert Chunks(x, m.chunkSize)[..0] == [];
        assert Opening(x) + [] == Opening(x);
      }
    }
  }

  lemma OneMoreFrame(x: Setup, cs: seq<Chunk>, sent: nat)
    requires Addressable(x.sources) && sent < |cs|
    ensures Opening(x) + Lockstep.Frames(x, cs[..sent]) + Frame(x, cs[sent]) ==
            Opening(x) + Lockstep.Frames(x, cs[..sent + 1])
  {
    Lockstep.FramesAppend(x, cs[..sent], cs[sent]);
    assert cs[..sent + 1] == cs[..sent] + [cs[sent]];
    JoinAssociates(Opening(x), Lockstep.Frames(x, cs[..sent]), Frame(x, cs[sent]));
  }

  lemma SendingJustified(x: Setup, read: seq<Control>, s: System)
    requires Addressable(x.sources) && Justified(x, read, s) && s.client.ClientSending?
    ensures Justified(x, read + Answer(x, s), AskNext(x, s, Work))
  {
    assert read + [] == read;
    var cs, sent := Chunks(x, s.client.chunkSize), s.client.sent;
    if sent < |cs| {
      OneMoreFrame(x, cs, sent);
    } else {
      assert cs[..sent] == cs;
    }
  }

  /**
    For every daemon, honest or not: the client sends its request only after an acknowledgement
    and chunks only after an accept of this transfer, at the accepted size; and it reports success
    only after it has sent every chunk and a Done, and has read a Done for this transfer.
   */
  lemma {:induction false} ClientJustified(x: Setup, inputs: seq<Input>)
    requires Addressable(x.sources)
    ensures Justified(x, Answers(x, inputs), Ask(x, inputs))
  {
    if inputs != [] {
      var before, i := inputs[..|inputs| - 1], inputs[|inputs| - 1];
      ClientJustified(x, before);
      var s, read := Ask(x, before), Answers(x, before);
      if i.Arrive? {
        assert read + [] == read;
      } else {
        match s.client
        case ClientHello => OpeningJustified(x, read, s);
        case ClientRequest => OpeningJustified(x, read, s);
        case ClientSending(_, _) => SendingJustified(x, read, s);
        case ClientFinished => assert read + [] == read;
        case ClientFailed =>
        case _ => AnswerJustified(x, read, s);
      }
    }
  }

  // ----- sessions that must be refused -----

  /** The peer is not admitted, its transfer exceeds 64 GiB, or the receiver does not accept it. */
  ghost predicate MustRefuse(x: Setup)
    requires Addressable(x.sources)
  {
    || x.admit(x.hello).None?
    || TotalBytes(Offers(x.hash, x.sources)) > 0x10_0000_0000
    || Accept(x.disk, ConfigFor(Peer(x)), Peer(x), RequestOf(x)).1.Some?
  }

  /** The joint states of such a session. */
  ghost predicate InRefusal(x: Setup, s: System)
    requires Addressable(x.sources)
  {
    && s.world == x.disk
    && match s.daemon
       case DaemonAwaitHello =>
         && s.down == []
         && (|| (s.client.ClientHello? && s.up == [])
             || (&& s.client.ClientAwaitAck? && ControlFits(x.codec, Hello(x.hello))
                 && s.up == Lockstep.Sent(x, Hello(x.hello)))
             || (s.client.ClientFailed? && s.up == []))
       case DaemonAck(peer) => x.admit(x.hello) == Some(peer) && s.client.ClientAwaitAck? && s.up == [] && s.down == []
       case DaemonAwaitRequest(peer) =>
         && x.admit(x.hello) == Some(peer)
         && (|| (s.client.ClientAwaitAck? && s.up == [] && ControlFits(x.codec, HelloAck(x.ack)) &&
                 s.down == Lockstep.Sent(x, HelloAck(x.ack)))
             || (s.client.ClientRequest? && s.up == [] && s.down == [])
             || (s.client.ClientAwaitAccept? && ControlFits(x.codec, RequestTransfer(RequestOf(x))) && s.down == [] &&
                 s.up == Lockstep.Sent(x, RequestTransfer(RequestOf(x))))
             || (s.client.ClientFailed? && s.up == [] && s.down == []))
       case DaemonFailed => s.down == [] && (s.client.ClientAwaitAck? || s.client.ClientAwaitAccept?)
       case _ => false
  }

  lemma ReadsBackAlone(x: Setup, m: Control)
    requires x.codec.Lawful() && ControlFits(x.codec, m)
    ensures ReadControl(x.codec, Lockstep.Sent(x, m)) == Ok((m, []))
  {
    ControlRoundTrip(x.codec, m, []);
    assert Lockstep.Sent(x, m) + [] == Lockstep.Sent(x, m);
  }

  lemma RefusalClient(x: Setup, s: System)
    requires Addressable(x.sources) && x.codec.Lawful() && InRefusal(x, s)
    ensures ClientStep(x, s).Some? ==> InRefusal(x, ClientStep(x, s).value)
  {
    Lockstep.EmptyBlocks(x);
    assert forall b: Bytes :: [] + b == b;
    if s.client.ClientAwaitAck? && s.daemon.DaemonAwaitRequest? { ReadsBackAlone(x, HelloAck(x.ack)); }
  }

  lemma RefusalDaemon(x: Setup, s: System)
    requires Addressable(x.sources) && x.codec.Lawful() && MustRefuse(x) && InRefusal(x, s)
    ensures DaemonStep(x, s).Some? ==> InRefusal(x, DaemonStep(x, s).value)
  {
    Lockstep.EmptyBlocks(x);
    assert forall b: Bytes :: [] + b == b;
    if s.daemon.DaemonAwaitHello? && s.client.ClientAwaitAck? { ReadsBackAlone(x, Hello(x.hello)); }
    if s.daemon.DaemonAwaitRequest? && s.client.ClientAwaitAccept? {
      ReadsBackAlone(x, RequestTransfer(RequestOf(x)));
      DeclaredBytesIff(RequestOf(x).files, 0);
      Runs.AcceptReopens(x.disk, ConfigFor(Peer(x)), Peer(x), RequestOf(x));
    }
  }

  /**
    Under every schedule such a session leaves the disk as it was: no chunk is sent, no request is
    accepted, and a peer that is not admitted is not even acknowledged.
   */
  lemma {:induction false} RefusedSessionTouchesNothing(x: Setup, schedule: seq<bool>)
    requires Addressable(x.sources) && x.codec.Lawful() && MustRefuse(x)
    ensures InRefusal(x, Play(x, schedule))
    ensures var s := Play(x, schedule);
            && s.world == x.disk && !s.client.ClientSending? && !s.client.ClientFinished?
            && !s.daemon.DaemonAccept? && !s.daemon.DaemonReceiving?
            && !s.daemon.DaemonDone? && !s.daemon.DaemonFinished?
            && (x.admit(x.hello).None? ==> s.daemon.DaemonAwaitHello? || s.daemon.DaemonFailed?)
  {
    if schedule != [] {
      var s := Play(x, schedule[..|schedule| - 1]);
      RefusedSessionTouchesNothing(x, schedule[..|schedule| - 1]);
      RefusalClient(x, s);
      RefusalDaemon(x, s);
    }
  }
}
