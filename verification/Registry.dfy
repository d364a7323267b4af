/**
  The rendezvous registry (`registry.rs`): a TTL cache of peers with a notification queue per
  registered peer. Times are in nanoseconds.
 */
module Registry {
  import opened Prelude
  import Text

  type Key = Bytes

  const NANOS: nat := 1_000_000_000

  datatype Candidate = Candidate(address: string, priority: U32)

  datatype RegisterRequest = RegisterRequest(alias: string, pubkey: Key, candidates: seq<Candidate>, ttlSeconds: U64)

  datatype Entry = Entry(alias: string, candidates: seq<Candidate>, registeredAt: nat, expiresAt: nat, lastSeen: nat)

  datatype LookupPeer = LookupPeer(alias: string, pubkey: Key, candidates: seq<Candidate>, lastSeenSeconds: nat)

  /** The address parser, which gives the port, and the cap on lifetimes. */
  datatype Limits = Limits(port: string -> Option<U16>, maxTtl: nat)

  datatype Peers = Peers(entries: map<Key, Entry>, notes: map<Key, seq<Key>>)

  // ----- the operations on the tables -----

  predicate ValidRegister(lim: Limits, req: RegisterRequest) {
    && !Text.Blank(req.alias) && req.candidates != [] && req.ttlSeconds > 0
    && forall c :: c in req.candidates ==> lim.port(c.address).Some? && lim.port(c.address).value > 0
  }

  /** What a registration needs: an alias, at least one candidate with a usable address, and a lifetime. */
  lemma RegisterIff(lim: Limits, p: Peers, now: nat, req: RegisterRequest)
    ensures Register(lim, p, now, req).1.Some? <==>
            && !Text.Blank(req.alias) && req.ttlSeconds != 0 && |req.candidates| >= 1
            && forall i :: 0 <= i < |req.candidates| ==>
                 match lim.port(req.candidates[i].address) case Some(port) => port != 0 case None => false
    ensures Register(lim, p, now, req).1.None? ==> Register(lim, p, now, req).0 == p
  {
  }

  /** The answered lifetime is within the request and the cap, and reaches the smaller one in whole seconds. */
  lemma AnsweredTtl(lim: Limits, p: Peers, now: nat, req: RegisterRequest)
    requires Register(lim, p, now, req).1.Some?
    ensures var answered := Register(lim, p, now, req).1.value;
            && answered <= req.ttlSeconds && answered * 1_000_000_000 <= lim.maxTtl
            && (answered == req.ttlSeconds || (answered + 1) * 1_000_000_000 > lim.maxTtl)
  {
  }

  /** `capped_ttl`. */
  function Ttl(lim: Limits, req: RegisterRequest): nat { Min(req.ttlSeconds * NANOS, lim.maxTtl) }

  function EntryFor(lim: Limits, now: nat, req: RegisterRequest): Entry {
    Entry(req.alias, req.candidates, now, now + Ttl(lim, req), now)
  }

  function Register(lim: Limits, p: Peers, now: nat, req: RegisterRequest): (Peers, Option<nat>) {
    if !ValidRegister(lim, req) then (p, None)
    else (p.(entries := p.entries[req.pubkey := EntryFor(lim, now, req)]), Some(Ttl(lim, req) / NANOS))
  }

  function Expired(p: Peers, now: nat): set<Key> {
    set k | k in p.entries && p.entries[k].expiresAt <= now
  }

  function Prune(p: Peers, now: nat): Peers {
    Peers(p.entries - Expired(p, now), p.notes - Expired(p, now))
  }

  function PeerOf(key: Key, e: Entry): LookupPeer {
    var seen := if e.lastSeen >= e.registeredAt then e.lastSeen - e.registeredAt else 0;
    LookupPeer(e.alias, key, e.candidates, seen / NANOS)
  }

  function Lookup(p: Peers, now: nat, key: Key): (Peers, Option<LookupPeer>) {
    var q := Prune(p, now);
    if key !in q.entries then (q, None)
    else
      var e := q.entries[key].(lastSeen := now);
      (q.(entries := q.entries[key := e]), Some(PeerOf(key, e)))
  }

  function NotesOf(p: Peers, key: Key): seq<Key> { if key in p.notes then p.notes[key] else [] }

  function Notify(p: Peers, now: nat, requester: Key, target: Key): (Peers, bool) {
    var (q, found) := Lookup(p, now, target);
    if found.None? then (q, false) else (q.(notes := q.notes[target := NotesOf(q, target) + [requester]]), true)
  }

  function Drain(p: Peers, now: nat, key: Key): (Peers, seq<Key>) {
    var (q, found) := Lookup(p, now, key);
    if found.None? then (q, []) else (q.(notes := q.notes - {key}), NotesOf(q, key))
  }

  class PeerRegistry {
    const lim: Limits
    var entries: map<Key, Entry>
    var notes: map<Key, seq<Key>>

    ghost function Tables(): Peers reads this { Peers(entries, notes) }

    constructor (lim: Limits)
      ensures this.lim == lim && Tables() == Peers(map[], map[])
    {
      this.lim, entries, notes := lim, map[], map[];
    }

    method RegisterPeer(now: nat, req: RegisterRequest) returns (ttlSeconds: Option<nat>)
      modifies this
      ensures (Tables(), ttlSeconds) == Register(lim, old(Tables()), now, req)
    {
      if !ValidRegister(lim, req) { return None; }
      entries := entries[req.pubkey := EntryFor(lim, now, req)];
      ttlSeconds := Some(Ttl(lim, req) / NANOS);
    }

    /** `retain` visits the entries in any order and drops the expired ones with their queues. */
    method PruneExpired(now: nat) returns (pruned: nat)
      modifies this
      ensures Tables() == Prune(old(Tables()), now)
      ensures pruned == |Expired(old(Tables()), now)|
    {
      var todo := entries.Keys;
      ghost var gone: set<Key> := {};
      pruned := 0;
      while todo != {}
        invariant todo <= old(entries).Keys && gone <= old(entries).Keys - todo
        invariant gone == set k | k in old(entries).Keys - todo && old(entries)[k].expiresAt <= now
        invariant entries == old(entries) - gone && notes == old(notes) - gone
        invariant pruned == |gone|
        decreases |todo|
      {
        var k :| k in todo;
        todo := todo - {k};
        if entries[k].expiresAt <= now {
          entries, notes := entries - {k}, notes - {k};
          gone := gone + {k};
          pruned := pruned + 1;
        }
      }
      assert gone == Expired(old(Tables()), now);
    }

    method LookupPeer(now: nat, key: Key) returns (found: Option<LookupPeer>)
      modifies this
      ensures (Tables(), found) == Lookup(old(Tables()), now, key)
    {
      var _ := PruneExpired(now);
      if key !in entries { return None; }
      entries := entries[key := entries[key].(lastSeen := now)];
      found := Some(PeerOf(key, entries[key]));
    }

    method QueueNotify(now: nat, requester: Key, target: Key) returns (ok: bool)
      modifies this
      ensures (Tables(), ok) == Notify(old(Tables()), now, requester, target)
    {
      var found := LookupPeer(now, target);
      if found.None? { return false; }
      var queue := if target in notes then notes[target] else [];
      notes := notes[target := queue + [requester]];
      ok := true;
    }

    method DrainNotifications(now: nat, key: Key) returns (drained: seq<Key>)
      modifies this
      ensures (Tables(), drained) == Drain(old(Tables()), now, key)
    {
      var found := LookupPeer(now, key);
      if found.None? { return []; }
      drained := if key in notes then notes[key] else [];
      notes := notes - {key};
    }
  }

  // ----- runs -----

  datatype Event =
    | Registering(now: nat, req: RegisterRequest)
    | Looking(now: nat, key: Key)
    | Notifying(now: nat, requester: Key, target: Key)
    | Draining(now: nat, key: Key)
    | Pruning(now: nat)

  function Step(lim: Limits, p: Peers, e: Event): Peers {
    match e
    case Registering(now, req) => Register(lim, p, now, req).0
    case Looking(now, key) => Lookup(p, now, key).0
    case Notifying(now, requester, target) => Notify(p, now, requester, target).0
    case Draining(now, key) => Drain(p, now, key).0
    case Pruning(now) => Prune(p, now)
  }

  function Run(lim: Limits, h: seq<Event>): Peers {
    if h == [] then Peers(map[], map[]) else Step(lim, Run(lim, h[..|h| - 1]), h[|h| - 1])
  }

  function Clock(h: seq<Event>): nat { if h == [] then 0 else h[|h| - 1].now }

  ghost predicate Monotone(h: seq<Event>) {
    forall i, j :: 0 <= i < j < |h| ==> h[i].now <= h[j].now
  }

  // ----- the reference: a timed map read off the history -----

  /** The latest valid registration of `key` and when it was made. */
  function Latest(lim: Limits, h: seq<Event>, key: Key): Option<(nat, RegisterRequest)> {
    if h == [] then None
    else
      var e := h[|h| - 1];
      if e.Registering? && e.req.pubkey == key && ValidRegister(lim, e.req) then Some((e.now, e.req))
      else Latest(lim, h[..|h| - 1], key)
  }

  /** The latest registration has not reached its capped lifetime. */
  predicate Live(lim: Limits, h: seq<Event>, key: Key, now: nat) {
    var l := Latest(lim, h, key);
    l.Some? && l.value.0 + Ttl(lim, l.value.1) > now
  }

  /** An entry mirrors the latest registration, up to its last-seen time. */
  ghost predicate Mirrors(lim: Limits, h: seq<Event>, key: Key, e: Entry) {
    var l := Latest(lim, h, key);
    && l.Some? && e.alias == l.value.1.alias && e.candidates == l.value.1.candidates
    && e.registeredAt == l.value.0 && e.expiresAt == l.value.0 + Ttl(lim, l.value.1)
  }

  ghost predicate Refines(lim: Limits, h: seq<Event>, p: Peers, key: Key) {
    && (key in p.entries ==> Mirrors(lim, h, key, p.entries[key]))
    && (Live(lim, h, key, Clock(h)) ==> key in p.entries)
  }

  lemma PruneRefines(lim: Limits, h: seq<Event>, p: Peers, key: Key, now: nat)
    requires Refines(lim, h, p, key) && Clock(h) <= now
    ensures key in Prune(p, now).entries <==> Live(lim, h, key, now)
    ensures key in Prune(p, now).entries ==>
              Prune(p, now).entries[key] == p.entries[key] && Mirrors(lim, h, key, p.entries[key])
  {
  }

  lemma StepRefines(lim: Limits, h: seq<Event>, p: Peers, key: Key, e: Event)
    requires Refines(lim, h, p, key) && Clock(h) <= e.now
    ensures Refines(lim, h + [e], Step(lim, p, e), key)
  {
    var h' := h + [e];
    assert h'[..|h'| - 1] == h;
    if !e.Registering? { PruneRefines(lim, h, p, key, e.now); }
  }

  lemma {:induction false} RunRefines(lim: Limits, h: seq<Event>, key: Key)
    requires Monotone(h)
    ensures Refines(lim, h, Run(lim, h), key)
  {
    if h != [] {
      var g := h[..|h| - 1];
      RunRefines(lim, g, key);
      assert g != [] ==> Clock(g) == h[|h| - 2].now;
      StepRefines(lim, g, Run(lim, g), key, h[|h| - 1]);
      assert g + [h[|h| - 1]] == h;
    }
  }

  /**
    The registry refines a timed map: after any history with a monotone clock, a lookup returns
    exactly the latest valid registration of the key, with its age in seconds, iff its capped
    lifetime has not elapsed, whenever and however often pruning ran.
   */
  lemma LookupIsLatest(lim: Limits, h: seq<Event>, now: nat, key: Key)
    requires Monotone(h) && Clock(h) <= now
    ensures Lookup(Run(lim, h), now, key).1 ==
            if Live(lim, h, key, now)
            then
              var (t, req) := Latest(lim, h, key).value;
              Some(LookupPeer(req.alias, key, req.candidates, Max(now - t, 0) / NANOS))
            else None
    ensures Lookup(Run(lim, h), now, key).1.Some? <==>
            match Latest(lim, h, key)
            case Some(latest) =>
              now < latest.0 + latest.1.ttlSeconds * 1_000_000_000 && now < latest.0 + lim.maxTtl
            case None => false
  {
    RunRefines(lim, h, key);
    PruneRefines(lim, h, Run(lim, h), key, now);
    LatestBefore(lim, h, key);
  }

  lemma {:induction false} LatestBefore(lim: Limits, h: seq<Event>, key: Key)
    requires Monotone(h)
    ensures Latest(lim, h, key).Some? ==> Latest(lim, h, key).value.0 <= Clock(h)
  {
    if h != [] {
      LatestBefore(lim, h[..|h| - 1], key);
      assert |h| >= 2 ==> h[|h| - 2].now <= h[|h| - 1].now;
    }
  }

  // ----- notifications -----

  /** Only registered peers have queues. */
  lemma {:induction false} QueuesBelongToEntries(lim: Limits, h: seq<Event>)
    ensures Run(lim, h).notes.Keys <= Run(lim, h).entries.Keys
  {
    if h != [] { QueuesBelongToEntries(lim, h[..|h| - 1]); }
  }

  /**
    The reference queue, read off the history: what was queued for `key` since its last drain,
    emptied whenever an operation that prunes finds the registration expired. Registering again
    before such an operation keeps it.
   */
  function Pending(lim: Limits, h: seq<Event>, key: Key): seq<Key> {
    if h == [] then []
    else
      var g, e := h[..|h| - 1], h[|h| - 1];
      if e.Registering? then Pending(lim, g, key)
      else if !Live(lim, g, key, e.now) then []
      else if e.Notifying? && e.target == key then Pending(lim, g, key) + [e.requester]
      else if e.Draining? && e.key == key then []
      else Pending(lim, g, key)
  }

  lemma StepQueues(lim: Limits, h: seq<Event>, p: Peers, key: Key, e: Event)
    requires Refines(lim, h, p, key) && Clock(h) <= e.now
    requires p.notes.Keys <= p.entries.Keys && NotesOf(p, key) == Pending(lim, h, key)
    ensures NotesOf(Step(lim, p, e), key) == Pending(lim, h + [e], key)
  {
    PendingNext(lim, h, key, e);
    if !e.Registering? {
      NotesPruned(lim, h, p, key, e.now);
      match e
      case Looking(now, k) => LookupNotes(p, now, k, key);
      case Notifying(now, requester, target) =>
        NotifyNotes(p, now, requester, target, key);
        if target == key { PruneRefines(lim, h, p, key, now); }
      case Draining(now, k) =>
        DrainNotes(p, now, k, key);
        if k == key { PruneRefines(lim, h, p, key, now); }
      case Pruning(_) =>
    }
  }

  lemma PendingNext(lim: Limits, h: seq<Event>, key: Key, e: Event)
    ensures Pending(lim, h + [e], key) ==
            if e.Registering? then Pending(lim, h, key)
            else if !Live(lim, h, key, e.now) then []
            else if e.Notifying? && e.target == key then Pending(lim, h, key) + [e.requester]
            else if e.Draining? && e.key == key then []
            else Pending(lim, h, key)
  {
    assert (h + [e])[..|h|] == h;
  }

  /** What pruning leaves in a queue. */
  lemma NotesPruned(lim: Limits, h: seq<Event>, p: Peers, key: Key, now: nat)
    requires Refines(lim, h, p, key) && Clock(h) <= now
    requires p.notes.Keys <= p.entries.Keys && NotesOf(p, key) == Pending(lim, h, key)
    ensures NotesOf(Prune(p, now), key) == if Live(lim, h, key, now) then Pending(lim, h, key) else []
  {
    PruneRefines(lim, h, p, key, now);
  }

  lemma LookupNotes(p: Peers, now: nat, looked: Key, key: Key)
    ensures NotesOf(Lookup(p, now, looked).0, key) == NotesOf(Prune(p, now), key)
    ensures Lookup(p, now, looked).1.Some? <==> looked in Prune(p, now).entries
  {
  }

  lemma NotifyNotes(p: Peers, now: nat, requester: Key, target: Key, key: Key)
    ensures NotesOf(Notify(p, now, requester, target).0, key) ==
            NotesOf(Prune(p, now), key) + if target == key && key in Prune(p, now).entries then [requester] else []
  {
    LookupNotes(p, now, target, key);
  }

  lemma DrainNotes(p: Peers, now: nat, drained: Key, key: Key)
    ensures NotesOf(Drain(p, now, drained).0, key) ==
            if drained == key && key in Prune(p, now).entries then [] else NotesOf(Prune(p, now), key)
  {
    LookupNotes(p, now, drained, key);
  }

  lemma {:induction false} QueueIsPending(lim: Limits, h: seq<Event>, key: Key)
    requires Monotone(h)
    ensures NotesOf(Run(lim, h), key) == Pending(lim, h, key)
  {
    if h != [] {
      var g := h[..|h| - 1];
      QueueIsPending(lim, g, key);
      RunRefines(lim, g, key);
      QueuesBelongToEntries(lim, g);
      assert g != [] ==> Clock(g) == h[|h| - 2].now;
      StepQueues(lim, g, Run(lim, g), key, h[|h| - 1]);
      assert g + [h[|h| - 1]] == h;
    }
  }

  /**
    A drain returns, in order, exactly what was queued for that key since its last drain or
    pruning, and nothing for a key that is not registered.
   */
  lemma DrainReturnsPending(lim: Limits, h: seq<Event>, now: nat, key: Key)
    requires Monotone(h) && Clock(h) <= now
    ensures Drain(Run(lim, h), now, key).1 == if Live(lim, h, key, now) then Pending(lim, h, key) else []
  {
    QueueIsPending(lim, h, key);
    RunRefines(lim, h, key);
    PruneRefines(lim, h, Run(lim, h), key, now);
  }

  // ----- conservation -----

  datatype Fate = Drained | Discarded

  /** What event `e` discards from the queue of `key` in tables `p`. */
  function Lost(p: Peers, e: Event, key: Key): seq<Key> {
    if e.Registering? || key !in Expired(p, e.now) then [] else NotesOf(p, key)
  }

  /** What event `e` drains from the queue of `key`. */
  function Taken(p: Peers, e: Event, key: Key): seq<Key> {
    if e.Draining? && e.key == key then Drain(p, e.now, key).1 else []
  }

  /** What event `e` queues for `key`, by the registry's own answer. */
  function Arrived(p: Peers, e: Event, key: Key): seq<Key> {
    if e.Notifying? && e.target == key && Notify(p, e.now, e.requester, e.target).1 then [e.requester] else []
  }

  /** The notifications for `key` that have left its queue, oldest first, and how. */
  function Settled(lim: Limits, h: seq<Event>, key: Key): seq<(Key, Fate)> {
    if h == [] then []
    else
      var g, e := h[..|h| - 1], h[|h| - 1];
      Settled(lim, g, key) + Marked(Lost(Run(lim, g), e, key), Discarded) + Marked(Taken(Run(lim, g), e, key), Drained)
  }

  function Marked(ks: seq<Key>, fate: Fate): seq<(Key, Fate)> { seq(|ks|, i requires 0 <= i < |ks| => (ks[i], fate)) }

  function Names(ks: seq<(Key, Fate)>): seq<Key> { seq(|ks|, i requires 0 <= i < |ks| => ks[i].0) }

  /** Every notification the registry said it queued for `key`, oldest first. */
  function Queued(lim: Limits, h: seq<Event>, key: Key): seq<Key> {
    if h == [] then []
    else Queued(lim, h[..|h| - 1], key) + Arrived(Run(lim, h[..|h| - 1]), h[|h| - 1], key)
  }

  lemma NamesMarked(ks: seq<Key>, fate: Fate)
    ensures Names(Marked(ks, fate)) == ks
  {
  }

  lemma NamesJoin(a: seq<(Key, Fate)>, b: seq<(Key, Fate)>)
    ensures Names(a + b) == Names(a) + Names(b)
  {
  }

  lemma SettledStep(lim: Limits, h: seq<Event>, key: Key)
    requires h != []
    ensures var g, e := h[..|h| - 1], h[|h| - 1];
            Names(Settled(lim, h, key)) ==
            Names(Settled(lim, g, key)) + Lost(Run(lim, g), e, key) + Taken(Run(lim, g), e, key)
  {
    var g, e := h[..|h| - 1], h[|h| - 1];
    var lost, taken := Lost(Run(lim, g), e, key), Taken(Run(lim, g), e, key);
    NamesJoin(Settled(lim, g, key) + Marked(lost, Discarded), Marked(taken, Drained));
    NamesJoin(Settled(lim, g, key), Marked(lost, Discarded));
    NamesMarked(lost, Discarded);
    NamesMarked(taken, Drained);
  }

  /** One operation moves notifications between the queue and its two exits, in order. */
  lemma StepConserves(lim: Limits, p: Peers, e: Event, key: Key)
    requires p.notes.Keys <= p.entries.Keys
    ensures NotesOf(p, key) + Arrived(p, e, key) == Lost(p, e, key) + Taken(p, e, key) + NotesOf(Step(lim, p, e), key)
  {
  }

  lemma Regroup(settled: seq<Key>, notes: seq<Key>, arrived: seq<Key>, lost: seq<Key>, taken: seq<Key>,
      notes': seq<Key>)
    requires notes + arrived == lost + taken + notes'
    ensures settled + notes + arrived == settled + lost + taken + notes'
  {
    assert settled + notes + arrived == settled + (notes + arrived);
  }

  /**
    Conservation in order: the notifications queued for a key are exactly those already drained
    or discarded by pruning, in the order they left, followed by those still pending.
   */
  lemma {:induction false} NotificationsConserved(lim: Limits, h: seq<Event>, key: Key)
    ensures Queued(lim, h, key) == Names(Settled(lim, h, key)) + NotesOf(Run(lim, h), key)
  {
    if h != [] {
      var g, e := h[..|h| - 1], h[|h| - 1];
      NotificationsConserved(lim, g, key);
      QueuesBelongToEntries(lim, g);
      ConservedNext(lim, h, key);
    }
  }

  lemma ConservedNext(lim: Limits, h: seq<Event>, key: Key)
    requires h != [] && Run(lim, h[..|h| - 1]).notes.Keys <= Run(lim, h[..|h| - 1]).entries.Keys
    requires var g := h[..|h| - 1]; Queued(lim, g, key) == Names(Settled(lim, g, key)) + NotesOf(Run(lim, g), key)
    ensures Queued(lim, h, key) == Names(Settled(lim, h, key)) + NotesOf(Run(lim, h), key)
  {
    var g, e := h[..|h| - 1], h[|h| - 1];
    var p := Run(lim, g);
    StepConserves(lim, p, e, key);
    SettledStep(lim, h, key);
    Regroup(Names(Settled(lim, g, key)), NotesOf(p, key), Arrived(p, e, key), Lost(p, e, key), Taken(p, e, key),
        NotesOf(Step(lim, p, e), key));
  }
}
