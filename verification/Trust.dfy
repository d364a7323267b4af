/**
  The LocalSend approval store (`store.rs`) and the gate in front of uploads (`server.rs`):
  operators approve and deny fingerprints, attempts are recorded, and a prepare request is
  accepted or refused. Unicode lower-casing of a character is a parameter.
 */
module Trust {
  import opened Prelude
  import Text

  datatype Status = Pending | Trusted | Blocked

  datatype PeerRow = PeerRow(
    alias: string, adminLabel: Option<string>, status: Status,
    firstSeen: int, lastSeen: int, attempts: nat, sourceIp: Option<string>)

  type Store = map<string, PeerRow>

  type Lower = char -> string

  datatype Policy = Auto | Prompt | TrustedOnly

  datatype TrustError = FingerprintRequired | AliasRequired | NeedsApproval | NotTrusted

  // ----- fingerprints -----

  predicate Separator(c: char) { c == ':' || c == '-' }

  /** Drop `:` and `-`, lower-case the rest. */
  function Normalize(lower: Lower, s: string): string {
    if s == [] then []
    else (if Separator(s[0]) then [] else lower(s[0])) + Normalize(lower, s[1..])
  }

  /** Normalizing treats a fingerprint character by character: colons and dashes go, the rest is lower-cased. */
  lemma {:induction false} NormalizeByCharacter(lower: Lower, a: string, b: string, c: char)
    ensures Normalize(lower, a + b) == Normalize(lower, a) + Normalize(lower, b)
    ensures Normalize(lower, [c]) == if c == ':' || c == '-' then [] else lower(c)
  {
    if a == [] {
      assert a + b == b;
    } else {
      NormalizeByCharacter(lower, a[1..], b, c);
      assert (a + b)[1..] == a[1..] + b;
      var head := if Separator(a[0]) then [] else lower(a[0]);
      JoinAssociates(head, Normalize(lower, a[1..]), Normalize(lower, b));
    }
  }

  /** Lower-casing yields characters that are already lower-case and never a separator. */
  ghost predicate Lowers(lower: Lower) {
    forall c, d :: !Separator(c) && d in lower(c) ==> lower(d) == [d] && !Separator(d)
  }

  ghost predicate Normal(lower: Lower, s: string) {
    forall d :: d in s ==> lower(d) == [d] && !Separator(d)
  }

  lemma {:induction false} NormalizeGivesNormal(lower: Lower, s: string)
    requires Lowers(lower)
    ensures Normal(lower, Normalize(lower, s))
  {
    if s != [] {
      NormalizeGivesNormal(lower, s[1..]);
      forall d | d in Normalize(lower, s) ensures lower(d) == [d] && !Separator(d) {
        if d !in Normalize(lower, s[1..]) { assert !Separator(s[0]) && d in lower(s[0]); }
      }
    }
  }

  lemma {:induction false} NormalUnchanged(lower: Lower, s: string)
    requires Normal(lower, s)
    ensures Normalize(lower, s) == s
  {
    if s != [] {
      assert s[0] in s;
      NormalUnchanged(lower, s[1..]);
      assert s == [s[0]] + s[1..];
    }
  }

  /** The gate normalizes, and the store normalizes again: the second time changes nothing. */
  lemma NormalizeTwice(lower: Lower, s: string)
    requires Lowers(lower)
    ensures Normalize(lower, Normalize(lower, s)) == Normalize(lower, s)
  {
    NormalizeGivesNormal(lower, s);
    NormalUnchanged(lower, Normalize(lower, s));
  }

  /** ASCII lower-casing is such a function. */
  function AsciiLower(c: char): string {
    if 'A' <= c <= 'Z' then [(c as int + 32) as char] else [c]
  }

  lemma AsciiLowers()
    ensures Lowers(AsciiLower)
    ensures forall k :: 0 <= k < 26 ==> AsciiLower("ABCDEFGHIJKLMNOPQRSTUVWXYZ"[k]) == ["abcdefghijklmnopqrstuvwxyz"[k]]
    ensures forall c :: !('A' <= c <= 'Z') ==> AsciiLower(c) == [c]
  {
  }

  // ----- the store -----

  function Coalesce<T>(a: Option<T>, b: Option<T>): Option<T> { if a.Some? then a else b }

  /** The upsert shared by both kinds of sighting; a row that exists keeps its status. */
  function Sighted(s: Store, key: string, alias: string, now: int, ip: Option<string>, status: Status,
      counts: bool): Store
  {
    if key in s then
      s[key := s[key].(alias := alias, lastSeen := now, sourceIp := Coalesce(ip, s[key].sourceIp),
                       attempts := s[key].attempts + if counts then 1 else 0)]
    else s[key := PeerRow(alias, None, status, now, now, if counts then 1 else 0, ip)]
  }

  function RecordSighting(lower: Lower, s: Store, fp: string, alias: string, now: int, ip: Option<string>,
      status: Status, counts: bool)
      : Result<Store, TrustError>
  {
    var key := Normalize(lower, fp);
    if key == [] then Err(FingerprintRequired)
    else if Text.Blank(alias) then Err(AliasRequired)
    else Ok(Sighted(s, key, alias, now, ip, status, counts))
  }

  /** `record_pending_localsend_peer`: one more attempt. */
  function RecordPending(lower: Lower, s: Store, fp: string, alias: string, now: int,
      ip: Option<string>): Result<Store, TrustError>
  {
    RecordSighting(lower, s, fp, alias, now, ip, Pending, true)
  }

  /** `record_trusted_localsend_peer`: a sighting without an attempt. */
  function RecordTrusted(lower: Lower, s: Store, fp: string, alias: string, now: int,
      ip: Option<string>): Result<Store, TrustError>
  {
    RecordSighting(lower, s, fp, alias, now, ip, Trusted, false)
  }

  function CleanLabel(adminLabel: Option<string>): Option<string> {
    if adminLabel.Some? && Text.Trim(adminLabel.value) != [] then Some(Text.Trim(adminLabel.value)) else None
  }

  /** `set_localsend_peer_status`: update, or insert a row without an alias. */
  function SetStatus(lower: Lower, s: Store, fp: string, status: Status, adminLabel: Option<string>,
      now: int): Result<Store, TrustError>
  {
    var key := Normalize(lower, fp);
    if key == [] then Err(FingerprintRequired)
    else if key in s then
      var kept := Coalesce(CleanLabel(adminLabel), s[key].adminLabel);
      Ok(s[key := s[key].(status := status, adminLabel := kept, lastSeen := now)])
    else Ok(s[key := PeerRow("", CleanLabel(adminLabel), status, now, now, 0, None)])
  }

  predicate IsBlocked(lower: Lower, s: Store, fp: string) {
    Normalize(lower, fp) in s && s[Normalize(lower, fp)].status == Blocked
  }

  // ----- the gate -----

  /** `authorize_prepare_upload` under the trusted policy, with the static lists as read now. */
  function Gate(lower: Lower, s: Store, listed: set<string>, fp: string, alias: string, now: int, ip: Option<string>)
      : (Store, Option<TrustError>)
  {
    var key := Normalize(lower, fp);
    if key == [] then (s, Some(FingerprintRequired))
    else if key in listed || (key in s && s[key].status == Trusted) then
      match RecordTrusted(lower, s, key, alias, now, ip)
      case Ok(s') => (s', None)
      case Err(e) => (s, Some(e))
    else if IsBlocked(lower, s, key) then (s, Some(NotTrusted))
    else
      match RecordPending(lower, s, key, alias, now, ip)
      case Ok(s') => (s', Some(NotTrusted))
      case Err(e) => (s, Some(e))
  }

  class UploadGate {
    const lower: Lower
    const policy: Policy
    /** The trust database, when one is configured. */
    const hasDb: bool
    var store: Store

    constructor (lower: Lower, policy: Policy, hasDb: bool)
      ensures this.lower == lower && this.policy == policy && this.hasDb == hasDb && store == map[]
    {
      this.lower, this.policy, this.hasDb, store := lower, policy, hasDb, map[];
    }

    method AuthorizePrepareUpload(listed: set<string>, fp: string, alias: string, now: int, ip: Option<string>)
        returns (r: Option<TrustError>)
      modifies this
      ensures policy == Auto ==> r == None && store == old(store)
      ensures policy == Prompt ==> r == Some(NeedsApproval) && store == old(store)
      ensures policy == TrustedOnly && hasDb ==> (store, r) == Gate(lower, old(store), listed, fp, alias, now, ip)
      ensures policy == TrustedOnly && Normalize(lower, fp) == [] ==> r.Some? && store == old(store)
      ensures policy == TrustedOnly && Lowers(lower) && r.None? ==>
                || Normalize(lower, fp) in listed
                || (hasDb && Normalize(lower, fp) in old(store) && old(store)[Normalize(lower, fp)].status == Trusted)
      ensures policy == TrustedOnly && !hasDb ==>
                store == old(store) && (r.None? <==> Normalize(lower, fp) != [] && Normalize(lower, fp) in listed)
    {
      if policy == Auto { return None; }
      if policy == Prompt { return Some(NeedsApproval); }
      var key := Normalize(lower, fp);
      if key == [] { return Some(FingerprintRequired); }
      if key in listed || (hasDb && key in store && store[key].status == Trusted) {
        if hasDb {
          var recorded := RecordTrusted(lower, store, key, alias, now, ip);
          if recorded.Err? { return Some(recorded.error); }
          store := recorded.value;
        }
        return None;
      }
      if hasDb && !IsBlocked(lower, store, key) {
        var recorded := RecordPending(lower, store, key, alias, now, ip);
        if recorded.Err? { return Some(recorded.error); }
        store := recorded.value;
      }
      r := Some(NotTrusted);
    }

    method Decide(fp: string, approve: bool, adminLabel: Option<string>, now: int) returns (r: Option<TrustError>)
      modifies this
      ensures match SetStatus(lower, old(store), fp, if approve then Trusted else Blocked,
                              if approve then adminLabel else None, now)
              case Ok(s') => r == None && store == s'
              case Err(e) => r == Some(e) && store == old(store)
    {
      var key := Normalize(lower, fp);
      if key == [] { return Some(FingerprintRequired); }
      var status := if approve then Trusted else Blocked;
      var clean := if approve then CleanLabel(adminLabel) else None;
      if key in store {
        var kept := Coalesce(clean, store[key].adminLabel);
        store := store[key := store[key].(status := status, adminLabel := kept, lastSeen := now)];
      } else {
        store := store[key := PeerRow("", clean, status, now, now, 0, None)];
      }
      r := None;
    }
  }

  // ----- runs -----

  datatype Event =
    | Attempt(now: int, fp: string, alias: string, ip: Option<string>, listed: set<string>)
    | Approve(now: int, fp: string, adminLabel: Option<string>)
    | Deny(now: int, fp: string)

  function Kept(s: Store, r: Result<Store, TrustError>): Store { if r.Ok? then r.value else s }

  function Step(lower: Lower, s: Store, e: Event): Store {
    match e
    case Attempt(now, fp, alias, ip, listed) => Gate(lower, s, listed, fp, alias, now, ip).0
    case Approve(now, fp, adminLabel) => Kept(s, SetStatus(lower, s, fp, Trusted, adminLabel, now))
    case Deny(now, fp) => Kept(s, SetStatus(lower, s, fp, Blocked, None, now))
  }

  function Run(lower: Lower, h: seq<Event>): Store {
    if h == [] then map[] else Step(lower, Run(lower, h[..|h| - 1]), h[|h| - 1])
  }

  // ----- the reference: decisions and first sightings read off the history -----

  /** The most recent operator decision for a normalized fingerprint. */
  function Decision(lower: Lower, h: seq<Event>, key: string): Option<bool> {
    if h == [] then None
    else
      var e := h[|h| - 1];
      if !e.Attempt? && Normalize(lower, e.fp) == key then Some(e.Approve?)
      else Decision(lower, h[..|h| - 1], key)
  }

  predicate NamedAttempt(lower: Lower, e: Event, key: string) {
    e.Attempt? && Normalize(lower, e.fp) == key && !Text.Blank(e.alias)
  }

  /** Whether the first attempt that gave an alias came while the fingerprint was statically listed. */
  function FirstListed(lower: Lower, h: seq<Event>, key: string): Option<bool> {
    if h == [] then None
    else
      var before := FirstListed(lower, h[..|h| - 1], key);
      var e := h[|h| - 1];
      if before.Some? then before
      else if NamedAttempt(lower, e, key) then Some(key in e.listed)
      else None
  }

  /** The status the history implies; `None` means the peer is unknown. */
  function Standing(lower: Lower, h: seq<Event>, key: string): Option<Status> {
    match Decision(lower, h, key)
    case Some(approved) => Some(if approved then Trusted else Blocked)
    case None =>
      match FirstListed(lower, h, key)
      case Some(listed) => Some(if listed then Trusted else Pending)
      case None => None
  }

  /** Refusals of attempts with an alias, made while the peer was neither trusted nor blocked nor listed. */
  function Refusals(lower: Lower, h: seq<Event>, key: string): nat {
    if h == [] then 0
    else
      var g, e := h[..|h| - 1], h[|h| - 1];
      Refusals(lower, g, key) +
      if NamedAttempt(lower, e, key) && key !in e.listed && Standing(lower, g, key) != Some(Trusted)
         && Standing(lower, g, key) != Some(Blocked) then 1 else 0
  }

  ghost predicate Agrees(lower: Lower, h: seq<Event>, s: Store, key: string) {
    && (key in s <==> Standing(lower, h, key).Some?)
    && (key in s ==> Some(s[key].status) == Standing(lower, h, key))
    && (if key in s then s[key].attempts else 0) == Refusals(lower, h, key)
  }

  /** The gate refuses the attempt. */
  predicate Refused(lower: Lower, s: Store, e: Event)
    requires e.Attempt?
  {
    Gate(lower, s, e.listed, e.fp, e.alias, e.now, e.ip).1.Some?
  }

  /** What an attempt does to the row of `key`, and whether it is refused. */
  lemma GateRow(lower: Lower, s: Store, e: Event, key: string)
    requires Lowers(lower) && key != [] && e.Attempt?
    ensures var s' := Step(lower, s, e);
            var trusted := key in s && s[key].status == Trusted;
            var blocked := key in s && s[key].status == Blocked;
            if !NamedAttempt(lower, e, key) then (key in s' <==> key in s) && (key in s ==> s'[key] == s[key])
            else
              && (key in s' <==> key in s || key in e.listed || !blocked)
              && (key in s' ==>
                    && s'[key].status == (if key in s then s[key].status
                                          else if key in e.listed then Trusted else Pending)
                    && s'[key].attempts == (if key in s then s[key].attempts else 0)
                                           + if key in e.listed || trusted || blocked then 0 else 1)
              && (Refused(lower, s, e) <==> key !in e.listed && !trusted)
  {
    NormalizeTwice(lower, e.fp);
  }

  /** The row an attempt that gives an alias leaves: seen now under that alias, everything else kept. */
  lemma SightedRow(lower: Lower, s: Store, e: Event, key: string)
    requires Lowers(lower) && key != [] && NamedAttempt(lower, e, key)
    requires key in e.listed || !(key in s && s[key].status == Blocked)
    ensures var s' := Step(lower, s, e);
            && s'.Keys == s.Keys + {key} && (forall other :: other in s && other != key ==> s'[other] == s[other])
            && s'[key].alias == e.alias && s'[key].lastSeen == e.now
            && s'[key].firstSeen == (if key in s then s[key].firstSeen else e.now)
            && s'[key].adminLabel == (if key in s then s[key].adminLabel else None)
            && s'[key].sourceIp == (if e.ip.None? && key in s then s[key].sourceIp else e.ip)
  {
    NormalizeTwice(lower, e.fp);
  }

  /** The row a decision leaves: its status and time, the label if one is given, everything else kept. */
  lemma DecidedRow(lower: Lower, s: Store, e: Event)
    requires !e.Attempt? && Normalize(lower, e.fp) != []
    ensures var s', key := Step(lower, s, e), Normalize(lower, e.fp);
            var given := if e.Approve? && e.adminLabel.Some? then Text.Trim(e.adminLabel.value) else "";
            && s'.Keys == s.Keys + {key} && (forall other :: other in s && other != key ==> s'[other] == s[other])
            && s'[key].status == (if e.Approve? then Trusted else Blocked) && s'[key].lastSeen == e.now
            && s'[key].adminLabel == (if given != "" then Some(given) else if key in s then s[key].adminLabel else None)
            && (key in s ==> s'[key].alias == s[key].alias && s'[key].firstSeen == s[key].firstSeen &&
                             s'[key].attempts == s[key].attempts && s'[key].sourceIp == s[key].sourceIp)
            && (key !in s ==> s'[key].alias == "" && s'[key].firstSeen == e.now && s'[key].attempts == 0 &&
                              s'[key].sourceIp == None)
  {
  }

  /** How an attempt extends the reference. */
  lemma AttemptHistory(lower: Lower, h: seq<Event>, e: Event, key: string)
    requires e.Attempt?
    ensures var st := Standing(lower, h, key);
            && Standing(lower, h + [e], key) ==
               (if st.Some? || !NamedAttempt(lower, e, key) then st
                else Some(if key in e.listed then Trusted else Pending))
            && Refusals(lower, h + [e], key) == Refusals(lower, h, key)
               + if NamedAttempt(lower, e, key) && key !in e.listed && st != Some(Trusted) && st != Some(Blocked)
                 then 1 else 0
  {
    assert (h + [e])[..|h|] == h;
  }

  lemma AttemptAgrees(lower: Lower, h: seq<Event>, s: Store, e: Event, key: string)
    requires Lowers(lower) && key != [] && Agrees(lower, h, s, key) && e.Attempt?
    ensures Agrees(lower, h + [e], Step(lower, s, e), key)
  {
    GateRow(lower, s, e, key);
    AttemptHistory(lower, h, e, key);
  }

  lemma DecisionAgrees(lower: Lower, h: seq<Event>, s: Store, e: Event, key: string)
    requires key != [] && Agrees(lower, h, s, key) && !e.Attempt?
    ensures Agrees(lower, h + [e], Step(lower, s, e), key)
  {
    assert (h + [e])[..|h|] == h;
  }

  lemma {:induction false} RunAgrees(lower: Lower, h: seq<Event>, key: string)
    requires Lowers(lower) && key != []
    ensures Agrees(lower, h, Run(lower, h), key)
  {
    if h != [] {
      var g, e := h[..|h| - 1], h[|h| - 1];
      RunAgrees(lower, g, key);
      if e.Attempt? {
        AttemptAgrees(lower, g, Run(lower, g), e, key);
      } else {
        DecisionAgrees(lower, g, Run(lower, g), e, key);
      }
      assert g + [e] == h;
    }
  }

  /**
    The latest operator decision rules: an attempt is accepted iff it gives a usable fingerprint
    and an alias, and the fingerprint is statically listed now, or was last approved rather than denied, or was never
    decided on but first introduced itself while listed.
   */
  lemma LatestDecisionRules(lower: Lower, h: seq<Event>, listed: set<string>, fp: string, alias: string,
      now: int, ip: Option<string>)
    requires Lowers(lower)
    ensures var key := Normalize(lower, fp);
            Gate(lower, Run(lower, h), listed, fp, alias, now, ip).1.None? <==>
              && key != [] && !Text.Blank(alias)
              && (key in listed || match Decision(lower, h, key)
                                   case Some(approved) => approved
                                   case None => FirstListed(lower, h, key) == Some(true))
  {
    if Normalize(lower, fp) != [] { RunAgrees(lower, h, Normalize(lower, fp)); }
    GateAccepts(lower, Run(lower, h), listed, fp, alias, now, ip);
  }

  /** When one attempt is accepted, in terms of the stored row. */
  lemma GateAccepts(lower: Lower, s: Store, listed: set<string>, fp: string, alias: string, now: int,
      ip: Option<string>)
    requires Lowers(lower)
    ensures var key := Normalize(lower, fp);
            Gate(lower, s, listed, fp, alias, now, ip).1.None? <==>
              key != [] && !Text.Blank(alias) && (key in listed || (key in s && s[key].status.Trusted?))
  {
    NormalizeTwice(lower, fp);
  }

  /** An attempt without a usable fingerprint or without an alias is refused and leaves no trace. */
  lemma UnnamedRefused(lower: Lower, s: Store, listed: set<string>, fp: string, alias: string, now: int,
      ip: Option<string>)
    requires Normalize(lower, fp) == [] || (Lowers(lower) && Text.Blank(alias))
    ensures var (s', error) := Gate(lower, s, listed, fp, alias, now, ip);
            s' == s && error.Some?
  {
    if Normalize(lower, fp) != [] { NormalizeTwice(lower, fp); }
  }

  /** Never listed, in the history or now, at an attempt that counts. */
  ghost predicate Unlisted(lower: Lower, h: seq<Event>, key: string) {
    forall i :: 0 <= i < |h| && NamedAttempt(lower, h[i], key) ==> key !in h[i].listed
  }

  lemma {:induction false} UnlistedFirst(lower: Lower, h: seq<Event>, key: string)
    requires Unlisted(lower, h, key)
    ensures FirstListed(lower, h, key) != Some(true)
  {
    if h != [] { UnlistedFirst(lower, h[..|h| - 1], key); }
  }

  /** For a fingerprint outside the static lists throughout, only the latest decision counts. */
  lemma UnlistedFollowsDecision(lower: Lower, h: seq<Event>, listed: set<string>, fp: string, alias: string,
      now: int, ip: Option<string>)
    requires Lowers(lower) && Normalize(lower, fp) != [] && !Text.Blank(alias)
    requires Unlisted(lower, h, Normalize(lower, fp)) && Normalize(lower, fp) !in listed
    ensures Gate(lower, Run(lower, h), listed, fp, alias, now, ip).1.None? <==>
            Decision(lower, h, Normalize(lower, fp)) == Some(true)
  {
    LatestDecisionRules(lower, h, listed, fp, alias, now, ip);
    UnlistedFirst(lower, h, Normalize(lower, fp));
  }

  /** Attempts never change the status of a known peer, and they are counted as the refusals they were. */
  lemma AttemptsNeverDecide(lower: Lower, h: seq<Event>, e: Event, key: string)
    requires Lowers(lower) && key in Run(lower, h) && key != [] && e.Attempt?
    ensures key in Run(lower, h + [e]) && Run(lower, h + [e])[key].status == Run(lower, h)[key].status
    ensures Run(lower, h + [e])[key].attempts == Refusals(lower, h + [e], key)
  {
    assert (h + [e])[..|h|] == h;
    RunAgrees(lower, h, key);
    RunAgrees(lower, h + [e], key);
  }

  /**
    The refusals counted are refusals of the gate: an event raises the count by one exactly when
    it is an attempt with that fingerprint and an alias that the gate refuses while the peer is
    not blocked.
   */
  lemma RefusalsAreRefused(lower: Lower, h: seq<Event>, e: Event, key: string)
    requires Lowers(lower) && key != []
    ensures var s := Run(lower, h);
            Refusals(lower, h + [e], key) == Refusals(lower, h, key) +
              if NamedAttempt(lower, e, key) && Refused(lower, s, e) && !(key in s && s[key].status == Blocked)
              then 1 else 0
  {
    assert (h + [e])[..|h|] == h;
    RunAgrees(lower, h, key);
    if NamedAttempt(lower, e, key) { GateAccepts(lower, Run(lower, h), e.listed, e.fp, e.alias, e.now, e.ip); }
  }

  /**
    Why the static lists matter: a peer first seen while listed stays trusted after it is taken
    off the list, although no operator ever approved it.
   */
  lemma ListedOnceStaysTrusted(lower: Lower, listed: set<string>, fp: string, alias: string, now: int)
    requires Lowers(lower) && Normalize(lower, fp) != [] && !Text.Blank(alias) && Normalize(lower, fp) in listed
    ensures var h := [Attempt(now, fp, alias, None, listed)];
            && Decision(lower, h, Normalize(lower, fp)).None?
            && Gate(lower, Run(lower, h), {}, fp, alias, now, None).1.None?
  {
    var h := [Attempt(now, fp, alias, None, listed)];
    assert h[..0] == [];
    LatestDecisionRules(lower, h, {}, fp, alias, now, None);
  }
}
