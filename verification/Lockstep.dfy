/**
  Client and daemon stay in lockstep under every schedule: the bytes in flight are always
  exactly the frames the reader is about to ask for, nobody decodes a frame of the wrong kind,
  and every session runs to its end.
 */
module Lockstep {
  import opened Prelude
  import opened Receiver
  import opened Publishing
  import opened Sender
  import opened ResumeCorrect
  import opened Wire
  import opened SessionChunks
  import opened Session
  import Schedules

  function Sent(x: Setup, m: Control): Bytes { ControlFrame(x.codec, m) }

  function Frames(x: Setup, cs: seq<Chunk>): Bytes {
    if cs == [] then [] else Frame(x, cs[0]) + Frames(x, cs[1..])
  }

  /** Chunks `from` to `to` of the stream, framed. */
  function InFlight(x: Setup, from: nat, to: nat): Bytes
    requires Addressable(x.sources) && from <= to <= |Stream(x)|
  {
    Frames(x, Stream(x)[from..to])
  }

  lemma {:induction false} FramesAppend(x: Setup, cs: seq<Chunk>, c: Chunk)
    ensures Frames(x, cs + [c]) == Frames(x, cs) + Frame(x, c)
  {
    if cs == [] {
      assert Frames(x, [c]) == Frame(x, c) + Frames(x, []);
    } else {
      FramesAppend(x, cs[1..], c);
      assert (cs + [c])[1..] == cs[1..] + [c];
    }
  }

  /** The receiver's disk as a session goes on: after each number of chunks, and once published. */
  datatype Disks = Disks(after: nat -> World, published: World)

  /** The disks of this session: it is accepted, every chunk is, and the finish decides. */
  ghost predicate DisksOf(x: Setup, d: Disks)
    requires Addressable(x.sources)
  {
    && Accept(x.disk, ConfigFor(Peer(x)), Peer(x), RequestOf(x)) == (d.after(0), None)
    && (forall n :: 0 <= n < |Stream(x)| ==> Advances(x, d, n))
    && Finishes(x, d)
  }

  /** The disk moves on by chunk `n`. */
  ghost predicate Advances(x: Setup, d: Disks, n: nat)
    requires Addressable(x.sources) && n < |Stream(x)|
  {
    Next(d.after(n), x.hash, x.id, Stream(x)[n]) == (d.after(n + 1), None)
  }

  ghost predicate Finishes(x: Setup, d: Disks)
    requires Addressable(x.sources)
  {
    var (world, error) := Finish(d.after(|Stream(x)|), x.hash, x.id);
    world == d.published && (error.None? <==> Deliverable(x))
  }

  lemma DisksAdvance(x: Setup, d: Disks, n: nat)
    requires Sane(x) && n < |Stream(x)| && d.after(n) == DiskAfter(x, n) && d.after(n + 1) == DiskAfter(x, n + 1)
    ensures Advances(x, d, n)
  {
    StreamFacts(x);
    NextAccepted(Accepted(x), x.hash, x.id, x.sources, Stream(x), n);
  }

  lemma DisksFinish(x: Setup, d: Disks)
    requires Sane(x) && d.after(|Stream(x)|) == DiskAfter(x, |Stream(x)|) && d.published == DiskFinished(x)
    ensures Finishes(x, d)
  {
    FinishOutcome(x);
  }

  lemma DisksStart(x: Setup)
    requires Addressable(x.sources)
    ensures DiskAfter(x, 0) == Accepted(x)
  {
    assert Stream(x)[..0] == [];
  }

  lemma TheDisks(x: Setup) returns (d: Disks)
    requires Sane(x)
    ensures DisksOf(x, d) && d.published == DiskFinished(x)
  {
    d := Disks(n => if 0 <= n <= |Stream(x)| then DiskAfter(x, n) else x.disk, DiskFinished(x));
    DisksStart(x);
    forall n | 0 <= n < |Stream(x)| ensures Advances(x, d, n) { DisksAdvance(x, d, n); }
    DisksFinish(x, d);
  }

  /** The joint states a session goes through; everything else is out of step. */
  ghost predicate InStep(x: Setup, d: Disks, s: System)
    requires Addressable(x.sources)
  {
    var total := |Stream(x)|;
    match s.daemon
    case DaemonAwaitHello =>
      s.world == x.disk && s.down == [] &&
      ((s.client.ClientHello? && s.up == []) || (s.client.ClientAwaitAck? && s.up == Sent(x, Hello(x.hello))))
    case DaemonAck(peer) =>
      peer == Peer(x) && s.world == x.disk && s.client.ClientAwaitAck? && s.up == [] && s.down == []
    case DaemonAwaitRequest(peer) =>
      peer == Peer(x) && s.world == x.disk &&
      (|| (s.client.ClientAwaitAck? && s.up == [] && s.down == Sent(x, HelloAck(x.ack)))
       || (s.client.ClientRequest? && s.up == [] && s.down == [])
       || (s.client.ClientAwaitAccept? && s.up == Sent(x, RequestTransfer(RequestOf(x))) && s.down == []))
    case DaemonAccept(req) =>
      req == RequestOf(x) && s.world == d.after(0) && s.client.ClientAwaitAccept? && s.up == [] && s.down == []
    case DaemonReceiving(req, remaining) =>
      req == RequestOf(x) && remaining <= total && s.world == d.after(total - remaining) &&
      (|| (s.client.ClientAwaitAccept? && remaining == total && s.up == [] &&
           s.down == Sent(x, AcceptTransfer(x.id, DEFAULT_CHUNK_SIZE)))
       || (s.client.ClientSending? && s.client.chunkSize == DEFAULT_CHUNK_SIZE && s.down == [] &&
           total - remaining <= s.client.sent <= total && s.up == InFlight(x, total - remaining, s.client.sent))
       || (s.client.ClientAwaitDone? && s.down == [] &&
           s.up == InFlight(x, total - remaining, total) + Sent(x, Done(x.id))))
    case DaemonDone(id) =>
      id == x.id && Deliverable(x) && s.world == d.published && s.client.ClientAwaitDone? && s.up == [] && s.down == []
    case DaemonFinished =>
      Deliverable(x) && s.world == d.published && s.up == [] &&
      ((s.client.ClientAwaitDone? && s.down == Sent(x, Done(x.id))) || (s.client.ClientFinished? && s.down == []))
    case DaemonFailed =>
      !Deliverable(x) && s.client.ClientAwaitDone? && s.up == [] && s.down == []
  }

  lemma ReadBack(x: Setup, m: Control, rest: Bytes)
    requires Sane(x) && ControlFits(x.codec, m)
    ensures ReadControl(x.codec, Sent(x, m) + rest) == Ok((m, rest))
    ensures rest == [] ==> ReadControl(x.codec, Sent(x, m)) == Ok((m, []))
  {
    ControlRoundTrip(x.codec, m, rest);
    if rest == [] { assert Sent(x, m) + rest == Sent(x, m); }
  }

  lemma EmptyBlocks(x: Setup)
    ensures ReadControl(x.codec, []) == Err(Eof)
  {
  }

  lemma AppendNothing(b: Bytes)
    ensures [] + b == b
  {
  }

  // ----- the client keeps step -----

  lemma ClientWritesKeeps(x: Setup, d: Disks, s: System)
    requires Sane(x) && InStep(x, d, s) && (s.client.ClientHello? || s.client.ClientRequest?)
    ensures ClientStep(x, s).Some? && InStep(x, d, ClientStep(x, s).value)
  {
    AppendNothing(Sent(x, Hello(x.hello)));
    AppendNothing(Sent(x, RequestTransfer(RequestOf(x))));
  }

  lemma ClientAwaitsKeeps(x: Setup, d: Disks, s: System)
    requires Sane(x) && InStep(x, d, s)
    requires s.client.ClientAwaitAck? || s.client.ClientAwaitAccept? || s.client.ClientAwaitDone?
    ensures ClientStep(x, s).Some? ==> InStep(x, d, ClientStep(x, s).value)
    ensures s.down != [] ==> ClientStep(x, s).Some?
  {
    EmptyBlocks(x);
    if s.down != [] {
      ReadBack(x, HelloAck(x.ack), []);
      ReadBack(x, AcceptTransfer(x.id, DEFAULT_CHUNK_SIZE), []);
      ReadBack(x, Done(x.id), []);
      if s.client.ClientAwaitAccept? { assert Stream(x)[0..0] == []; }
    }
  }

  lemma InFlightGrows(x: Setup, from: nat, sent: nat)
    requires Addressable(x.sources) && from <= sent < |Stream(x)|
    ensures InFlight(x, from, sent + 1) == InFlight(x, from, sent) + Frame(x, Stream(x)[sent])
  {
    var cs := Stream(x);
    FramesAppend(x, cs[from..sent], cs[sent]);
    assert cs[from..sent + 1] == cs[from..sent] + [cs[sent]];
  }

  /** The in-step state in which `sent` chunks have been sent and `remaining` are unread. */
  function Sending(x: Setup, remaining: nat, sent: nat, world: World): System
    requires Addressable(x.sources) && remaining <= |Stream(x)| && |Stream(x)| - remaining <= sent <= |Stream(x)|
  {
    System(ClientSending(DEFAULT_CHUNK_SIZE, sent), DaemonReceiving(RequestOf(x), remaining),
           InFlight(x, |Stream(x)| - remaining, sent), [], world)
  }

  lemma SendingInStep(x: Setup, d: Disks, s: System)
    requires Addressable(x.sources) && s.client.ClientSending?
    ensures InStep(x, d, s) <==>
            && s.daemon.DaemonReceiving? && s.daemon.remaining <= |Stream(x)|
            && |Stream(x)| - s.daemon.remaining <= s.client.sent <= |Stream(x)|
            && s == Sending(x, s.daemon.remaining, s.client.sent, d.after(|Stream(x)| - s.daemon.remaining))
  {
  }

  lemma SendingStep(x: Setup, remaining: nat, sent: nat, world: World)
    requires Addressable(x.sources) && remaining <= |Stream(x)| && |Stream(x)| - remaining <= sent < |Stream(x)|
    requires x.frames.write(Stream(x)[sent]).Ok?
    ensures ClientStep(x, Sending(x, remaining, sent, world)) == Some(Sending(x, remaining, sent + 1, world))
  {
    InFlightGrows(x, |Stream(x)| - remaining, sent);
  }

  lemma SendingEnds(x: Setup, remaining: nat, world: World)
    requires Addressable(x.sources) && remaining <= |Stream(x)| && ControlFits(x.codec, Done(x.id))
    ensures ClientStep(x, Sending(x, remaining, |Stream(x)|, world)) == Some(Draining(x, remaining, world))
  {
  }

  lemma ClientSendsKeeps(x: Setup, d: Disks, s: System)
    requires Sane(x) && InStep(x, d, s) && s.client.ClientSending?
    ensures ClientStep(x, s).Some? && InStep(x, d, ClientStep(x, s).value)
  {
    SendsKeeps(x, d, s);
  }

  lemma SendsKeeps(x: Setup, d: Disks, s: System)
    requires Addressable(x.sources) && Framed(x) && ControlFits(x.codec, Done(x.id))
    requires InStep(x, d, s) && s.client.ClientSending?
    ensures ClientStep(x, s).Some? && InStep(x, d, ClientStep(x, s).value)
  {
    SendingInStep(x, d, s);
    if s.client.sent < |Stream(x)| {
      assert ReadsBack(x, Stream(x)[s.client.sent], []);
      SendingKeeps(x, d, s.daemon.remaining, s.client.sent);
    } else {
      SendingDone(x, d, s.daemon.remaining);
    }
  }

  lemma SendingKeeps(x: Setup, d: Disks, remaining: nat, sent: nat)
    requires Addressable(x.sources) && remaining <= |Stream(x)| && |Stream(x)| - remaining <= sent < |Stream(x)|
    requires x.frames.write(Stream(x)[sent]).Ok?
    ensures var next := ClientStep(x, Sending(x, remaining, sent, d.after(|Stream(x)| - remaining)));
            next.Some? && InStep(x, d, next.value)
  {
    var world := d.after(|Stream(x)| - remaining);
    SendingStep(x, remaining, sent, world);
    SendingStaysInStep(x, d, remaining, sent + 1);
  }

  lemma SendingStaysInStep(x: Setup, d: Disks, remaining: nat, sent: nat)
    requires Addressable(x.sources) && remaining <= |Stream(x)| && |Stream(x)| - remaining <= sent <= |Stream(x)|
    ensures InStep(x, d, Sending(x, remaining, sent, d.after(|Stream(x)| - remaining)))
  {
    SendingInStep(x, d, Sending(x, remaining, sent, d.after(|Stream(x)| - remaining)));
  }

  lemma SendingDone(x: Setup, d: Disks, remaining: nat)
    requires Addressable(x.sources) && remaining <= |Stream(x)| && ControlFits(x.codec, Done(x.id))
    ensures var next := ClientStep(x, Sending(x, remaining, |Stream(x)|, d.after(|Stream(x)| - remaining)));
            next.Some? && InStep(x, d, next.value)
  {
    var world := d.after(|Stream(x)| - remaining);
    SendingEnds(x, remaining, world);
    DrainingInStep(x, d, Draining(x, remaining, world));
  }

  lemma ClientKeeps(x: Setup, d: Disks, s: System)
    requires Sane(x) && InStep(x, d, s)
    ensures ClientStep(x, s).Some? ==> InStep(x, d, ClientStep(x, s).value)
  {
    if s.client.ClientHello? || s.client.ClientRequest? {
      ClientWritesKeeps(x, d, s);
    } else if s.client.ClientSending? {
      ClientSendsKeeps(x, d, s);
    } else if s.client.ClientAwaitAck? || s.client.ClientAwaitAccept? || s.client.ClientAwaitDone? {
      ClientAwaitsKeeps(x, d, s);
    }
  }

  // ----- the daemon keeps step -----

  lemma DaemonWritesKeeps(x: Setup, d: Disks, s: System)
    requires Sane(x) && InStep(x, d, s) && (s.daemon.DaemonAck? || s.daemon.DaemonAccept? || s.daemon.DaemonDone?)
    ensures DaemonStep(x, s).Some? && InStep(x, d, DaemonStep(x, s).value)
  {
    AppendNothing(Sent(x, HelloAck(x.ack)));
    AppendNothing(Sent(x, AcceptTransfer(x.id, DEFAULT_CHUNK_SIZE)));
    AppendNothing(Sent(x, Done(x.id)));
    if s.daemon.DaemonAccept? {
      StreamFacts(x);
    }
  }

  lemma DaemonHelloKeeps(x: Setup, d: Disks, s: System)
    requires Sane(x) && InStep(x, d, s) && s.daemon.DaemonAwaitHello?
    ensures DaemonStep(x, s).Some? ==> InStep(x, d, DaemonStep(x, s).value)
    ensures s.up != [] ==> DaemonStep(x, s).Some?
  {
    EmptyBlocks(x);
    if s.up != [] { ReadBack(x, Hello(x.hello), []); }
  }

  lemma DaemonRequestKeeps(x: Setup, d: Disks, s: System)
    requires Sane(x) && DisksOf(x, d) && InStep(x, d, s) && s.daemon.DaemonAwaitRequest?
    ensures DaemonStep(x, s).Some? ==> InStep(x, d, DaemonStep(x, s).value)
    ensures s.up != [] ==> DaemonStep(x, s).Some?
  {
    EmptyBlocks(x);
    if s.up != [] {
      ReadBack(x, RequestTransfer(RequestOf(x)), []);
      DeclaredBytesIff(RequestOf(x).files, 0);
    }
  }

  /** The next chunk in flight is the one the daemon reads, whatever follows it. */
  lemma ReadNext(x: Setup, from: nat, to: nat, rest: Bytes)
    requires Addressable(x.sources) && Framed(x) && from < to <= |Stream(x)|
    ensures x.frames.read(InFlight(x, from, to) + rest) == Ok((Stream(x)[from], InFlight(x, from + 1, to) + rest))
  {
    var cs := Stream(x);
    assert cs[from..to][1..] == cs[from + 1..to];
    assert ReadsBack(x, cs[from], InFlight(x, from + 1, to) + rest);
    assert InFlight(x, from, to) + rest == Frame(x, cs[from]) + (InFlight(x, from + 1, to) + rest);
  }

  /** Reading the next chunk counts it down and puts it on disk. */
  lemma ChunkStep(x: Setup, s: System, c: Chunk, rest: Bytes, world: World)
    requires s.daemon.DaemonReceiving? && s.daemon.remaining > 0
    requires x.frames.read(s.up) == Ok((c, rest)) && Next(s.world, x.hash, s.daemon.req.id, c) == (world, None)
    ensures DaemonStep(x, s) ==
            Some(s.(daemon := DaemonReceiving(s.daemon.req, s.daemon.remaining - 1), up := rest, world := world))
  {
  }

  lemma ChunkArrives(x: Setup, d: Disks, s: System, to: nat, rest: Bytes)
    requires Addressable(x.sources) && Framed(x) && s.daemon.DaemonReceiving? && 0 < s.daemon.remaining <= |Stream(x)|
    requires Advances(x, d, |Stream(x)| - s.daemon.remaining)
    requires s.daemon.req == RequestOf(x) && s.world == d.after(|Stream(x)| - s.daemon.remaining)
    requires |Stream(x)| - s.daemon.remaining < to <= |Stream(x)|
    requires s.up == InFlight(x, |Stream(x)| - s.daemon.remaining, to) + rest
    ensures DaemonStep(x, s) ==
            Some(s.(daemon := DaemonReceiving(RequestOf(x), s.daemon.remaining - 1),
                    up := InFlight(x, |Stream(x)| - s.daemon.remaining + 1, to) + rest,
                    world := d.after(|Stream(x)| - s.daemon.remaining + 1)))
  {
    var from := |Stream(x)| - s.daemon.remaining;
    ReadNext(x, from, to, rest);
    ChunkStep(x, s, Stream(x)[from], InFlight(x, from + 1, to) + rest, d.after(from + 1));
  }

  lemma ChunkWhileSending(x: Setup, d: Disks, remaining: nat, sent: nat)
    requires Addressable(x.sources) && Framed(x) && 0 < remaining <= |Stream(x)|
    requires |Stream(x)| - remaining < sent <= |Stream(x)| && Advances(x, d, |Stream(x)| - remaining)
    ensures DaemonStep(x, Sending(x, remaining, sent, d.after(|Stream(x)| - remaining))) ==
            Some(Sending(x, remaining - 1, sent, d.after(|Stream(x)| - remaining + 1)))
  {
    var from := |Stream(x)| - remaining;
    AppendsNothing(InFlight(x, from, sent));
    AppendsNothing(InFlight(x, from + 1, sent));
    ChunkArrives(x, d, Sending(x, remaining, sent, d.after(from)), sent, []);
  }

  lemma AppendsNothing(b: Bytes)
    ensures b + [] == b
  {
  }

  /** The in-step state in which everything has been sent and `remaining` chunks are unread. */
  function Draining(x: Setup, remaining: nat, world: World): System
    requires Addressable(x.sources) && remaining <= |Stream(x)|
  {
    System(ClientAwaitDone, DaemonReceiving(RequestOf(x), remaining),
           InFlight(x, |Stream(x)| - remaining, |Stream(x)|) + Sent(x, Done(x.id)), [], world)
  }

  lemma DrainingInStep(x: Setup, d: Disks, s: System)
    requires Addressable(x.sources) && s.client.ClientAwaitDone?
    requires s.daemon.DaemonReceiving? && s.daemon.remaining <= |Stream(x)|
    ensures InStep(x, d, s) <==> s == Draining(x, s.daemon.remaining, d.after(|Stream(x)| - s.daemon.remaining))
  {
  }

  lemma ChunkBeforeDone(x: Setup, d: Disks, remaining: nat)
    requires Addressable(x.sources) && Framed(x) && 0 < remaining <= |Stream(x)|
    requires Advances(x, d, |Stream(x)| - remaining)
    ensures DaemonStep(x, Draining(x, remaining, d.after(|Stream(x)| - remaining))) ==
            Some(Draining(x, remaining - 1, d.after(|Stream(x)| - remaining + 1)))
  {
    var from := |Stream(x)| - remaining;
    var s := Draining(x, remaining, d.after(from));
    ChunkArrives(x, d, s, |Stream(x)|, Sent(x, Done(x.id)));
    DrainingNext(x, remaining, d.after(from), d.after(from + 1));
  }

  lemma DrainingNext(x: Setup, remaining: nat, world: World, world': World)
    requires Addressable(x.sources) && 0 < remaining <= |Stream(x)|
    ensures Draining(x, remaining, world).(
              daemon := DaemonReceiving(RequestOf(x), remaining - 1),
              up := InFlight(x, |Stream(x)| - remaining + 1, |Stream(x)|) + Sent(x, Done(x.id)),
              world := world') == Draining(x, remaining - 1, world')
  {
  }

  lemma DaemonChunkKeeps(x: Setup, d: Disks, s: System)
    requires Sane(x) && DisksOf(x, d) && InStep(x, d, s) && s.daemon.DaemonReceiving? && s.daemon.remaining > 0
    ensures DaemonStep(x, s).Some? ==> InStep(x, d, DaemonStep(x, s).value)
    ensures s.up != [] ==> DaemonStep(x, s).Some?
  {
    ChunkKeeps(x, d, s);
  }

  lemma ChunkKeeps(x: Setup, d: Disks, s: System)
    requires Addressable(x.sources) && Framed(x) && InStep(x, d, s)
    requires s.daemon.DaemonReceiving? && s.daemon.remaining > 0
    requires Advances(x, d, |Stream(x)| - s.daemon.remaining)
    ensures DaemonStep(x, s).Some? ==> InStep(x, d, DaemonStep(x, s).value)
    ensures s.up != [] ==> DaemonStep(x, s).Some?
  {
    var from := |Stream(x)| - s.daemon.remaining;
    if s.client.ClientAwaitDone? {
      DrainingInStep(x, d, s);
      ChunkBeforeDone(x, d, s.daemon.remaining);
      DrainingInStep(x, d, Draining(x, s.daemon.remaining - 1, d.after(from + 1)));
    } else if s.client.ClientSending? {
      ChunkSendingKeeps(x, d, s);
    }
  }

  lemma ChunkSendingKeeps(x: Setup, d: Disks, s: System)
    requires Addressable(x.sources) && Framed(x) && InStep(x, d, s) && s.client.ClientSending?
    requires s.daemon.DaemonReceiving? && s.daemon.remaining > 0 && Advances(x, d, |Stream(x)| - s.daemon.remaining)
    ensures DaemonStep(x, s).Some? ==> InStep(x, d, DaemonStep(x, s).value)
    ensures s.up != [] ==> DaemonStep(x, s).Some?
  {
    SendingInStep(x, d, s);
    var remaining, sent := s.daemon.remaining, s.client.sent;
    var from := |Stream(x)| - remaining;
    if from < sent {
      ChunkWhileSending(x, d, remaining, sent);
      SendingInStep(x, d, Sending(x, remaining - 1, sent, d.after(from + 1)));
    } else {
      NothingInFlight(x, s, from);
    }
  }

  lemma NothingInFlight(x: Setup, s: System, from: nat)
    requires Addressable(x.sources) && x.frames.read([]) == Err(Eof)
    requires from <= |Stream(x)| && s.up == InFlight(x, from, from)
    requires s.daemon.DaemonReceiving? && s.daemon.remaining > 0
    ensures s.up == [] && DaemonStep(x, s).None?
  {
    assert Stream(x)[from..from] == [];
  }

  lemma DoneArrives(x: Setup, d: Disks, s: System)
    requires Addressable(x.sources) && Finishes(x, d)
    requires s.daemon == DaemonReceiving(RequestOf(x), 0) && s.client.ClientAwaitDone? && s.down == []
    requires s.world == d.after(|Stream(x)|) && ReadControl(x.codec, s.up) == Ok((Done(x.id), []))
    ensures DaemonStep(x, s).Some? && InStep(x, d, DaemonStep(x, s).value)
  {
  }

  lemma Drained(x: Setup, d: Disks, s: System)
    requires Addressable(x.sources) && InStep(x, d, s) && s.daemon.DaemonReceiving? && s.daemon.remaining == 0
    requires s.client.ClientAwaitDone?
    ensures s.daemon == DaemonReceiving(RequestOf(x), 0) && s.down == [] && s.world == d.after(|Stream(x)|)
    ensures s.up == Sent(x, Done(x.id))
  {
    DrainingInStep(x, d, s);
    assert Stream(x)[|Stream(x)|..|Stream(x)|] == [];
    AppendNothing(Sent(x, Done(x.id)));
  }

  lemma NoDoneYet(x: Setup, d: Disks, s: System)
    requires Addressable(x.sources) && InStep(x, d, s) && s.daemon.DaemonReceiving? && s.daemon.remaining == 0
    requires !s.client.ClientAwaitDone?
    ensures DaemonStep(x, s).None?
  {
    if s.client.ClientSending? {
      SendingInStep(x, d, s);
      assert Stream(x)[|Stream(x)|..|Stream(x)|] == [];
    }
    EmptyBlocks(x);
  }

  lemma DaemonDoneKeeps(x: Setup, d: Disks, s: System)
    requires Sane(x) && DisksOf(x, d) && InStep(x, d, s) && s.daemon.DaemonReceiving? && s.daemon.remaining == 0
    ensures DaemonStep(x, s).Some? ==> InStep(x, d, DaemonStep(x, s).value)
    ensures s.client.ClientAwaitDone? ==> DaemonStep(x, s).Some?
  {
    if s.client.ClientAwaitDone? {
      Drained(x, d, s);
      ReadBack(x, Done(x.id), []);
      DoneArrives(x, d, s);
    } else {
      NoDoneYet(x, d, s);
    }
  }

  lemma DaemonKeeps(x: Setup, d: Disks, s: System)
    requires Sane(x) && DisksOf(x, d) && InStep(x, d, s)
    ensures DaemonStep(x, s).Some? ==> InStep(x, d, DaemonStep(x, s).value)
  {
    match s.daemon
    case DaemonAwaitHello => DaemonHelloKeeps(x, d, s);
    case DaemonAwaitRequest(_) => DaemonRequestKeeps(x, d, s);
    case DaemonReceiving(_, remaining) =>
      if remaining > 0 { DaemonChunkKeeps(x, d, s); } else { DaemonDoneKeeps(x, d, s); }
    case DaemonFinished =>
    case DaemonFailed =>
    case _ => DaemonWritesKeeps(x, d, s);
  }

  // ----- every schedule -----

  /** Under every schedule the session is in step: no party ever meets a frame it cannot use. */
  lemma {:induction false} AlwaysInStep(x: Setup, d: Disks, schedule: seq<bool>)
    requires Sane(x) && DisksOf(x, d)
    ensures InStep(x, d, Play(x, schedule))
    ensures !Play(x, schedule).client.ClientFailed?
    ensures Play(x, schedule).daemon.DaemonFailed? ==> !Deliverable(x)
  {
    if schedule != [] {
      var s := Play(x, schedule[..|schedule| - 1]);
      AlwaysInStep(x, d, schedule[..|schedule| - 1]);
      ClientKeeps(x, d, s);
      DaemonKeeps(x, d, s);
    }
  }

  /** Neither party can move. */
  ghost predicate Quiet(x: Setup, s: System)
    requires Addressable(x.sources)
  {
    ClientStep(x, s).None? && DaemonStep(x, s).None?
  }

  /** A session in step that cannot move has ended: delivered on both sides, or refused at the finish. */
  lemma QuietMeansEnded(x: Setup, d: Disks, s: System)
    requires Sane(x) && DisksOf(x, d) && InStep(x, d, s) && Quiet(x, s)
    ensures if Deliverable(x) then s.client.ClientFinished? && s.daemon.DaemonFinished? && s.world == d.published
            else s.client.ClientAwaitDone? && s.daemon.DaemonFailed?
  {
    match s.daemon
    case DaemonAwaitHello => DaemonHelloKeeps(x, d, s);
    case DaemonAwaitRequest(_) => DaemonRequestKeeps(x, d, s); ClientMoves(x, d, s);
    case DaemonReceiving(_, remaining) =>
      ClientMoves(x, d, s);
      if remaining > 0 { DaemonChunkKeeps(x, d, s); AwaitDoneHasBytes(x, d, s); } else { DaemonDoneKeeps(x, d, s); }
    case DaemonFinished => ClientMoves(x, d, s);
    case DaemonFailed =>
    case _ => DaemonWritesKeeps(x, d, s);
  }

  lemma ClientMoves(x: Setup, d: Disks, s: System)
    requires Sane(x) && InStep(x, d, s)
    ensures s.client.ClientHello? || s.client.ClientRequest? || s.client.ClientSending? ==> ClientStep(x, s).Some?
    ensures s.down != [] && !s.client.ClientFinished? && !s.client.ClientFailed? ==> ClientStep(x, s).Some?
  {
    if s.client.ClientHello? || s.client.ClientRequest? {
      ClientWritesKeeps(x, d, s);
    } else if s.client.ClientSending? {
      ClientSendsKeeps(x, d, s);
    } else if s.client.ClientAwaitAck? || s.client.ClientAwaitAccept? || s.client.ClientAwaitDone? {
      ClientAwaitsKeeps(x, d, s);
    }
  }

  lemma AwaitDoneHasBytes(x: Setup, d: Disks, s: System)
    requires Sane(x) && InStep(x, d, s) && s.daemon.DaemonReceiving?
    ensures s.client.ClientAwaitDone? ==> s.up != []
    ensures s.client.ClientAwaitAccept? ==> s.down != []
  {
    assert |Sent(x, Done(x.id))| > 0 && |Sent(x, AcceptTransfer(x.id, DEFAULT_CHUNK_SIZE))| > 0;
  }

  // ----- every session ends -----

  function ClientLeft(x: Setup, c: Client): nat
    requires Addressable(x.sources)
  {
    match c
    case ClientHello => |Stream(x)| + 6
    case ClientAwaitAck => |Stream(x)| + 5
    case ClientRequest => |Stream(x)| + 4
    case ClientAwaitAccept => |Stream(x)| + 3
    case ClientSending(_, sent) => if sent <= |Stream(x)| then |Stream(x)| - sent + 2 else 2
    case ClientAwaitDone => 1
    case _ => 0
  }

  function DaemonLeft(x: Setup, d: Daemon): nat
    requires Addressable(x.sources)
  {
    match d
    case DaemonAwaitHello => |Stream(x)| + 6
    case DaemonAck(_) => |Stream(x)| + 5
    case DaemonAwaitRequest(_) => |Stream(x)| + 4
    case DaemonAccept(_) => |Stream(x)| + 3
    case DaemonReceiving(_, remaining) => remaining + 2
    case DaemonDone(_) => 1
    case _ => 0
  }

  function Left(x: Setup, s: System): nat
    requires Addressable(x.sources)
  {
    ClientLeft(x, s.client) + DaemonLeft(x, s.daemon)
  }

  lemma ClientProgress(x: Setup, s: System)
    requires Addressable(x.sources) && ClientStep(x, s).Some?
    requires s.client.ClientSending? ==> s.client.chunkSize == DEFAULT_CHUNK_SIZE
    ensures Left(x, ClientStep(x, s).value) < Left(x, s)
  {
    match s.client
    case ClientHello =>
    case ClientRequest =>
    case ClientSending(_, sent) =>
    case ClientFinished =>
    case ClientFailed =>
    case _ => ClientReadProgress(x, s);
  }

  lemma ClientReadProgress(x: Setup, s: System)
    requires Addressable(x.sources) && ClientReadsControl(x, s).Some?
    requires s.client.ClientAwaitAck? || s.client.ClientAwaitAccept? || s.client.ClientAwaitDone?
    ensures Left(x, ClientReadsControl(x, s).value) < Left(x, s)
  {
  }

  lemma DaemonProgress(x: Setup, s: System)
    requires Addressable(x.sources) && DaemonStep(x, s).Some?
    requires s.daemon.DaemonAccept? ==> |Stream(x)| == ExpectedChunkCount(s.daemon.req.files, DEFAULT_CHUNK_SIZE)
    ensures Left(x, DaemonStep(x, s).value) < Left(x, s)
  {
    match s.daemon
    case DaemonAwaitHello => DaemonReadProgress(x, s);
    case DaemonAwaitRequest(_) => DaemonReadProgress(x, s);
    case DaemonReceiving(_, remaining) => if remaining == 0 { DaemonReadProgress(x, s); }
    case _ =>
  }

  lemma DaemonReadProgress(x: Setup, s: System)
    requires Addressable(x.sources) && DaemonReadsControl(x, s).Some?
    requires s.daemon.DaemonAwaitHello? || s.daemon.DaemonAwaitRequest? || s.daemon.DaemonReceiving?
    ensures Left(x, DaemonReadsControl(x, s).value) < Left(x, s)
  {
  }

  // ----- every fair schedule ends -----

  /** The session as a game of turns, with what is left of it as the measure. */
  ghost function GameOf(x: Setup): Schedules.Game
    requires Addressable(x.sources)
  {
    Schedules.Game(schedule => Left(x, Play(x, schedule)),
                   (schedule, clientMoves) => Moves(x, Play(x, schedule), clientMoves))
  }

  /** Whether the party whose turn it is can move. */
  ghost predicate Moves(x: Setup, s: System, clientMoves: bool)
    requires Addressable(x.sources)
  {
    if clientMoves then ClientStep(x, s).Some? else DaemonStep(x, s).Some?
  }

  /** One more turn: a party that moves strictly lowers what is left, and otherwise nothing happens. */
  lemma TurnProgress(x: Setup, schedule: seq<bool>, clientMoves: bool)
    requires Sane(x)
    ensures var s, s' := Play(x, schedule), Play(x, schedule + [clientMoves]);
            if Moves(x, s, clientMoves) then Left(x, s') < Left(x, s) else s' == s
  {
    var s := Play(x, schedule);
    assert (schedule + [clientMoves])[..|schedule|] == schedule;
    var d := TheDisks(x);
    AlwaysInStep(x, d, schedule);
    if Moves(x, s, clientMoves) {
      StreamFacts(x);
      if clientMoves { ClientProgress(x, s); } else { DaemonProgress(x, s); }
    }
  }

  lemma GameLawful(x: Setup)
    requires Sane(x)
    ensures Schedules.Lawful(GameOf(x)) && GameOf(x).left([]) == 2 * |Stream(x)| + 12
  {
    forall schedule, party ensures Schedules.Turns(GameOf(x), schedule, party) {
      TurnProgress(x, schedule, party);
    }
  }

  /** No schedule contains more moves than are left at the start. */
  lemma MovesBounded(x: Setup, schedule: seq<bool>)
    requires Sane(x)
    ensures Schedules.MoveCount(GameOf(x), schedule) + Left(x, Play(x, schedule)) <= 2 * |Stream(x)| + 12
  {
    GameLawful(x);
    Schedules.MovesBounded(GameOf(x), schedule);
  }

  /** From any point of any session, some further turns, no more than are left, bring it to its end. */
  lemma CanAlwaysEnd(x: Setup, schedule: seq<bool>) returns (more: seq<bool>)
    requires Sane(x)
    ensures schedule <= more && |more| <= |schedule| + Left(x, Play(x, schedule)) && Quiet(x, Play(x, more))
  {
    GameLawful(x);
    more := Schedules.ToRest(GameOf(x), schedule);
    QuietIffAtRest(x, more);
  }

  /** Every schedule with enough rounds in which both parties get a turn brings the session to its end. */
  lemma FairSchedulesEnd(x: Setup, rounds: seq<seq<bool>>)
    requires Sane(x) && Schedules.Fair(rounds) && |rounds| >= 2 * |Stream(x)| + 12
    ensures Quiet(x, Play(x, Schedules.Joined(rounds)))
  {
    GameLawful(x);
    Schedules.FairSchedulesRest(GameOf(x), rounds);
    QuietIffAtRest(x, Schedules.Joined(rounds));
  }

  lemma QuietIffAtRest(x: Setup, schedule: seq<bool>)
    requires Addressable(x.sources)
    ensures Quiet(x, Play(x, schedule)) <==> Schedules.AtRest(GameOf(x), schedule)
  {
  }

  /**
    Lockstep over the native framing: however client and daemon are scheduled, no party ever
    fails on a frame; the session can always be brought to its end; and when nobody can move,
    a deliverable transfer has been acknowledged on both sides with every source in the inbox,
    byte for byte, while any other was refused only when its files were finished.
   */
  lemma SessionDelivers(x: Setup, schedule: seq<bool>)
    requires NativeSetup(x) && Admissible(x)
    ensures var s := Play(x, schedule);
            && !s.client.ClientFailed? && (s.daemon.DaemonFailed? ==> !Deliverable(x))
            && (Quiet(x, s) ==>
                  if Deliverable(x)
                  then
                    && s.client.ClientFinished? && s.daemon.DaemonFinished?
                    && Succeeded(x.disk, x.id, x.sources, s.world)
                  else s.client.ClientAwaitDone? && s.daemon.DaemonFailed?)
    ensures exists more :: schedule <= more && Quiet(x, Play(x, more))
  {
    NativeFramesCarry(x);
    var d := TheDisks(x);
    AlwaysInStep(x, d, schedule);
    var s := Play(x, schedule);
    if Quiet(x, s) {
      QuietMeansEnded(x, d, s);
      FinishOutcome(x);
    }
    var more := CanAlwaysEnd(x, schedule);
  }

  /** Every fair schedule of a deliverable session delivers every source and ends with both Done messages. */
  lemma FairSessionDelivers(x: Setup, rounds: seq<seq<bool>>)
    requires NativeSetup(x) && Admissible(x)
    requires Schedules.Fair(rounds) && |rounds| >= 2 * |Stream(x)| + 12
    ensures var s := Play(x, Schedules.Joined(rounds));
            if Deliverable(x)
            then s.client.ClientFinished? && s.daemon.DaemonFinished? && Succeeded(x.disk, x.id, x.sources, s.world)
            else s.client.ClientAwaitDone? && s.daemon.DaemonFailed?
  {
    NativeFramesCarry(x);
    FairSchedulesEnd(x, rounds);
    SessionDelivers(x, Schedules.Joined(rounds));
  }
}
