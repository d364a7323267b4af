/**
  LocalSend upload sessions (`session.rs`): sessions with one token per file, a lifetime, and
  lazy pruning. Session ids and tokens are drawn by the caller.
 */
module Uploads {
  import opened Prelude
  import Text

  datatype FileMeta = FileMeta(id: string, fileName: string, size: U64, sha256: Option<string>)

  datatype SessionFile = SessionFile(token: string, meta: FileMeta, uploaded: bool)

  datatype Session = Session(expiresAt: nat, files: map<string, SessionFile>)

  type Sessions = map<string, Session>

  datatype SessionError = IdMismatch | DuplicateId | UnknownSession | UnknownFile | AlreadyUploaded | BadToken

  // ----- the operations on the table -----

  predicate IdsMatch(files: map<string, FileMeta>) { forall f :: f in files ==> files[f].id == f }

  function Opened(now: nat, ttl: nat, tokens: string -> string, files: map<string, FileMeta>): Session {
    Session(now + ttl, map f | f in files :: SessionFile(tokens(f), files[f], false))
  }

  function Prepare(s: Sessions, ttl: nat, now: nat, id: string, tokens: string -> string, files: map<string, FileMeta>)
      : (Sessions, Option<SessionError>)
  {
    if IdsMatch(files) then (s[id := Opened(now, ttl, tokens, files)], None) else (s, Some(IdMismatch))
  }

  function Prune(s: Sessions, now: nat): Sessions {
    map id | id in s && s[id].expiresAt > now :: s[id]
  }

  /** `authorize_upload`, after its pruning. */
  function Authorized(s: Sessions, id: string, file: string, token: string): Result<FileMeta, SessionError> {
    if id !in s then Err(UnknownSession)
    else if file !in s[id].files then Err(UnknownFile)
    else if s[id].files[file].uploaded then Err(AlreadyUploaded)
    else if s[id].files[file].token != token then Err(BadToken)
    else Ok(s[id].files[file].meta)
  }

  function Authorize(s: Sessions, now: nat, id: string, file: string, token: string)
      : (Sessions, Result<FileMeta, SessionError>)
  {
    (Prune(s, now), Authorized(Prune(s, now), id, file, token))
  }

  function Mark(s: Sessions, now: nat, id: string, file: string): (Sessions, Option<SessionError>) {
    var p := Prune(s, now);
    if id !in p then (p, Some(UnknownSession))
    else if file !in p[id].files then (p, Some(UnknownFile))
    else (p[id := p[id].(files := p[id].files[file := p[id].files[file].(uploaded := true)])], None)
  }

  function Cancel(s: Sessions, now: nat, id: string): (Sessions, bool) {
    (Prune(s, now) - {id}, id in Prune(s, now))
  }

  // ----- the manager -----

  /** The keys of a map in map order. */
  ghost predicate Keyed<T>(pairs: seq<(string, T)>, m: map<string, T>) {
    && (forall i, j :: 0 <= i < j < |pairs| ==> pairs[i].0 != pairs[j].0)
    && (forall i :: 0 <= i < |pairs| ==> pairs[i].0 in m && m[pairs[i].0] == pairs[i].1)
    && (forall k :: k in m ==> exists i :: 0 <= i < |pairs| && pairs[i].0 == k)
  }

  /**
    `validate_file_ids`: the check for a repeated id can never fire, because by then every id
    seen is a distinct map key.
   */
  method ValidateFileIds(pairs: seq<(string, FileMeta)>, ghost files: map<string, FileMeta>)
      returns (r: Option<SessionError>)
    requires Keyed(pairs, files)
    ensures r == if IdsMatch(files) then None else Some(IdMismatch)
  {
    var seen: set<string> := {};
    for i := 0 to |pairs|
      invariant forall k :: 0 <= k < i ==> pairs[k].1.id == pairs[k].0
      invariant seen == set k | 0 <= k < i :: pairs[k].0
    {
      if pairs[i].0 != pairs[i].1.id { return Some(IdMismatch); }
      if pairs[i].1.id in seen { return Some(DuplicateId); }
      seen := seen + {pairs[i].1.id};
    }
    r := None;
  }

  /** The token loop of `prepare`: one token per file, in map order, stored and handed back. */
  method IssueTokens(tokens: string -> string, pairs: seq<(string, FileMeta)>, ghost files: map<string, FileMeta>)
      returns (prepared: map<string, string>, issued: map<string, SessionFile>)
    requires Keyed(pairs, files)
    ensures prepared == map f | f in files :: tokens(f)
    ensures issued == map f | f in files :: SessionFile(tokens(f), files[f], false)
  {
    prepared, issued := map[], map[];
    for i := 0 to |pairs|
      invariant forall k :: 0 <= k < i ==> pairs[k].0 in prepared && pairs[k].0 in issued
      invariant forall f :: f in prepared ==> f in files && prepared[f] == tokens(f)
      invariant forall f :: f in issued ==> f in files && issued[f] == SessionFile(tokens(f), files[f], false)
    {
      var token := tokens(pairs[i].0);
      prepared := prepared[pairs[i].0 := token];
      issued := issued[pairs[i].0 := SessionFile(token, pairs[i].1, false)];
    }
  }

  class SessionManager {
    const ttl: nat
    var sessions: Sessions

    constructor (ttl: nat)
      ensures this.ttl == ttl && sessions == map[]
    {
      this.ttl, sessions := ttl, map[];
    }

    /** `prepare`: validates, issues the tokens, and stores the session under its fresh id. */
    method PrepareSession(
      now: nat, id: string, tokens: string -> string, pairs: seq<(string, FileMeta)>,
      ghost files: map<string, FileMeta>)
        returns (r: Option<SessionError>, prepared: map<string, string>)
      requires Keyed(pairs, files)
      modifies this
      ensures (sessions, r) == Prepare(old(sessions), ttl, now, id, tokens, files)
      ensures r.None? <==> forall f :: f in files ==> files[f].id == f
      ensures r.None? ==> prepared == map f | f in files :: tokens(f)
      ensures r.Some? ==> sessions == old(sessions)
      ensures r.None? ==>
                && id in sessions && sessions[id].expiresAt == now + ttl && sessions[id].files.Keys == files.Keys
                && (forall f :: f in files ==> sessions[id].files[f] == SessionFile(tokens(f), files[f], false))
                && sessions - {id} == old(sessions) - {id}
    {
      prepared := map[];
      r := ValidateFileIds(pairs, files);
      if r.Some? { return; }
      var issued: map<string, SessionFile>;
      prepared, issued := IssueTokens(tokens, pairs, files);
      sessions := sessions[id := Session(now + ttl, issued)];
    }

    /** `prune_expired_locked`: keeps exactly the sessions that have not run out, and counts the others. */
    method PruneExpired(now: nat) returns (pruned: nat)
      modifies this
      ensures forall id :: id in sessions <==> id in old(sessions) && old(sessions)[id].expiresAt > now
      ensures forall id :: id in sessions ==> sessions[id] == old(sessions)[id]
      ensures pruned == |old(sessions)| - |sessions|
      ensures sessions == Prune(old(sessions), now)
    {
      var todo := sessions.Keys;
      pruned := 0;
      while todo != {}
        invariant todo <= sessions.Keys <= old(sessions).Keys
        invariant forall id :: id in sessions ==> sessions[id] == old(sessions)[id]
        invariant forall id :: id in old(sessions) && id !in todo ==>
                    (id in sessions <==> old(sessions)[id].expiresAt > now)
        invariant pruned + |sessions| == |old(sessions)|
        decreases |todo|
      {
        var id :| id in todo;
        todo := todo - {id};
        if sessions[id].expiresAt <= now {
          RemoveOne(sessions, id);
          sessions := sessions - {id};
          pruned := pruned + 1;
        }
      }
    }

    method AuthorizeUpload(now: nat, id: string, file: string, token: string)
        returns (r: Result<FileMeta, SessionError>)
      modifies this
      ensures (sessions, r) == Authorize(old(sessions), now, id, file, token)
      ensures id !in sessions ==> r == Err(UnknownSession)
      ensures id in sessions && file !in sessions[id].files ==> r == Err(UnknownFile)
      ensures id in sessions && file in sessions[id].files ==>
                r == if sessions[id].files[file].uploaded then Err(AlreadyUploaded)
                     else if sessions[id].files[file].token != token then Err(BadToken)
                     else Ok(sessions[id].files[file].meta)
    {
      var _ := PruneExpired(now);
      if id !in sessions { return Err(UnknownSession); }
      if file !in sessions[id].files { return Err(UnknownFile); }
      var f := sessions[id].files[file];
      if f.uploaded { return Err(AlreadyUploaded); }
      if f.token != token { return Err(BadToken); }
      r := Ok(f.meta);
    }

    method MarkUploaded(now: nat, id: string, file: string) returns (r: Option<SessionError>)
      modifies this
      ensures (sessions, r) == Mark(old(sessions), now, id, file)
      ensures r.None? <==> id in old(sessions) && old(sessions)[id].expiresAt > now && file in old(sessions)[id].files
      ensures r.None? ==> id in sessions && file in sessions[id].files && sessions[id].files[file].uploaded
    {
      var _ := PruneExpired(now);
      if id !in sessions { return Some(UnknownSession); }
      if file !in sessions[id].files { return Some(UnknownFile); }
      var session := sessions[id];
      sessions := sessions[id := session.(files := session.files[file := session.files[file].(uploaded := true)])];
      r := None;
    }

    method CancelSession(now: nat, id: string) returns (removed: bool)
      modifies this
      ensures (sessions, removed) == Cancel(old(sessions), now, id)
      ensures removed <==> id in old(sessions) && old(sessions)[id].expiresAt > now
      ensures forall k :: k in sessions <==> k in old(sessions) && k != id && old(sessions)[k].expiresAt > now
      ensures forall k :: k in sessions ==> sessions[k] == old(sessions)[k]
    {
      var _ := PruneExpired(now);
      removed := id in sessions;
      sessions := sessions - {id};
    }

    /** `session_id_for_file`: the first live session in id order that lists the file. */
    method SessionIdForFile(now: nat, file: string) returns (r: Option<string>)
      modifies this
      ensures sessions == Prune(old(sessions), now)
      ensures r.None? ==> forall id :: id in sessions ==> file !in sessions[id].files
      ensures r.Some? ==> r.value in sessions && file in sessions[r.value].files
      ensures r.Some? ==> forall id :: id in sessions && file in sessions[id].files ==> Text.Le(r.value, id)
    {
      var _ := PruneExpired(now);
      var todo := sessions.Keys;
      r := None;
      while todo != {}
        invariant sessions == Prune(old(sessions), now) && todo <= sessions.Keys
        invariant r.None? ==> forall id :: id in sessions.Keys - todo ==> file !in sessions[id].files
        invariant r.Some? ==> r.value in sessions && file in sessions[r.value].files
        invariant r.Some? ==>
            forall id :: id in sessions.Keys - todo && file in sessions[id].files ==> Text.Le(r.value, id)
        decreases |todo|
      {
        var id :| id in todo;
        todo := todo - {id};
        if file in sessions[id].files && (r.None? || !Text.Le(r.value, id)) {
          LeastChanges(sessions, todo, file, r, id);
          r := Some(id);
        }
      }
    }

    method CancelAll() returns (count: nat)
      modifies this
      ensures sessions == map[] && count == |old(sessions)|
    {
      count := |sessions|;
      sessions := map[];
    }
  }

  lemma LeastChanges(sessions: Sessions, todo: set<string>, file: string, r: Option<string>, id: string)
    requires r.Some? ==> !Text.Le(r.value, id)
    requires r.Some? ==> forall k :: k in sessions.Keys - todo - {id} && file in sessions[k].files ==>
             Text.Le(r.value, k)
    requires r.None? ==> forall k :: k in sessions.Keys - todo - {id} ==> file !in sessions[k].files
    ensures forall k :: k in sessions.Keys - todo && file in sessions[k].files ==> Text.Le(id, k)
  {
    Text.LeTotal(id, id);
    forall k | k in sessions.Keys - todo && file in sessions[k].files ensures Text.Le(id, k) {
      if k != id {
        Text.LeTotal(r.value, id);
        Text.LeTransitive(id, r.value, k);
      }
    }
  }

  lemma RemoveOne(s: Sessions, id: string)
    requires id in s
    ensures |s - {id}| == |s| - 1
  {
    assert (s - {id}).Keys == s.Keys - {id};
    assert |s - {id}| == |(s - {id}).Keys| && |s| == |s.Keys|;
  }

  // ----- runs -----

  datatype Event =
    | Preparing(now: nat, id: string, tokens: string -> string, files: map<string, FileMeta>)
    | Authorizing(now: nat, id: string, file: string, token: string)
    | Marking(now: nat, id: string, file: string)
    | Cancelling(now: nat, id: string)
    | CancellingAll(now: nat)
    | Pruning(now: nat)

  function Step(ttl: nat, s: Sessions, e: Event): Sessions {
    match e
    case Preparing(now, id, tokens, files) => Prepare(s, ttl, now, id, tokens, files).0
    case Authorizing(now, id, file, token) => Authorize(s, now, id, file, token).0
    case Marking(now, id, file) => Mark(s, now, id, file).0
    case Cancelling(now, id) => Cancel(s, now, id).0
    case CancellingAll(_) => map[]
    case Pruning(now) => Prune(s, now)
  }

  function Run(ttl: nat, h: seq<Event>): Sessions {
    if h == [] then map[] else Step(ttl, Run(ttl, h[..|h| - 1]), h[|h| - 1])
  }

  function Clock(h: seq<Event>): nat { if h == [] then 0 else h[|h| - 1].now }

  ghost predicate Monotone(h: seq<Event>) {
    forall i, j :: 0 <= i < j < |h| ==> h[i].now <= h[j].now
  }

  // ----- the reference: what the history grants -----

  datatype Grant = Grant(token: string, meta: FileMeta, expiresAt: nat)

  /**
    The grant for a file of a session, if any: issued by the last prepare of that session, and
    withdrawn by a later cancel, cancel-all, or mark that reached it in time. Pruning and
    authorizing do not appear.
   */
  function Granted(ttl: nat, h: seq<Event>, id: string, file: string): Option<Grant> {
    if h == [] then None
    else
      var g, e := h[..|h| - 1], h[|h| - 1];
      var before := Granted(ttl, g, id, file);
      match e
      case Preparing(now, eid, tokens, files) =>
        if eid == id && IdsMatch(files)
        then (if file in files then Some(Grant(tokens(file), files[file], now + ttl)) else None)
        else before
      case Cancelling(_, eid) => if eid == id then None else before
      case CancellingAll(_) => None
      case Marking(now, eid, efile) =>
        if eid == id && efile == file && before.Some? && before.value.expiresAt > now then None else before
      case _ => before
  }

  /** The table agrees with the grant of one file, except that it may have dropped expired ones. */
  ghost predicate Agrees(ttl: nat, h: seq<Event>, s: Sessions, id: string, file: string) {
    var g := Granted(ttl, h, id, file);
    if id in s then
      if file !in s[id].files || s[id].files[file].uploaded then g.None?
      else g == Some(Grant(s[id].files[file].token, s[id].files[file].meta, s[id].expiresAt))
    else g.Some? ==> g.value.expiresAt <= Clock(h)
  }

  lemma StepAgrees(ttl: nat, h: seq<Event>, s: Sessions, e: Event, id: string, file: string)
    requires Agrees(ttl, h, s, id, file) && Clock(h) <= e.now
    ensures Agrees(ttl, h + [e], Step(ttl, s, e), id, file)
  {
    assert (h + [e])[..|h|] == h;
  }

  lemma {:induction false} RunAgrees(ttl: nat, h: seq<Event>, id: string, file: string)
    requires Monotone(h)
    ensures Agrees(ttl, h, Run(ttl, h), id, file)
  {
    if h != [] {
      var g := h[..|h| - 1];
      RunAgrees(ttl, g, id, file);
      assert g != [] ==> Clock(g) == h[|h| - 2].now;
      StepAgrees(ttl, g, Run(ttl, g), h[|h| - 1], id, file);
      assert g + [h[|h| - 1]] == h;
    }
  }

  /**
    Upload authorization equals its history: after any run with a monotone clock, a token opens
    a file of a session iff it is the token granted for it and the grant has not run out, and
    what is returned is the metadata that was prepared.
   */
  lemma AuthorizedIffGranted(ttl: nat, h: seq<Event>, now: nat, id: string, file: string, token: string)
    requires Monotone(h) && Clock(h) <= now
    ensures var g := Granted(ttl, h, id, file);
            var r := Authorize(Run(ttl, h), now, id, file, token).1;
            && (r.Ok? <==> g.Some? && g.value.token == token && g.value.expiresAt > now)
            && (r.Ok? ==> r.value == g.value.meta)
  {
    RunAgrees(ttl, h, id, file);
  }

  // ----- the same by event positions -----

  /** Event `i` is a valid prepare of session `id` that lists the file. */
  ghost predicate Issues(h: seq<Event>, i: nat, id: string, file: string) {
    i < |h| && h[i].Preparing? && h[i].id == id && IdsMatch(h[i].files) && file in h[i].files
  }

  /** Event `e` ends what a prepare issued for the file until `expiresAt`. */
  ghost predicate Withdraws(e: Event, id: string, file: string, expiresAt: nat) {
    || e.CancellingAll?
    || (e.Cancelling? && e.id == id)
    || (e.Preparing? && e.id == id && IdsMatch(e.files))
    || (e.Marking? && e.id == id && e.file == file && e.now < expiresAt)
  }

  /** Prepare `i` issued the file and nothing later withdrew it. */
  ghost predicate Stands(ttl: nat, h: seq<Event>, i: nat, id: string, file: string) {
    Issues(h, i, id, file) && forall j :: i < j < |h| ==> !Withdraws(h[j], id, file, h[i].now + ttl)
  }

  function GrantBy(ttl: nat, e: Event, file: string): Grant
    requires e.Preparing? && file in e.files
  {
    Grant(e.tokens(file), e.files[file], e.now + ttl)
  }

  /** A grant exists only if some prepare in the history issued exactly it and it still stands. */
  lemma {:induction false} GrantWasPrepared(ttl: nat, h: seq<Event>, id: string, file: string) returns (i: nat)
    requires Granted(ttl, h, id, file).Some?
    ensures Stands(ttl, h, i, id, file) && Granted(ttl, h, id, file) == Some(GrantBy(ttl, h[i], file))
  {
    var n := |h| - 1;
    if h[n].Preparing? && h[n].id == id && IdsMatch(h[n].files) {
      i := n;
    } else {
      i := GrantWasPrepared(ttl, h[..n], id, file);
      forall j | i < j < |h| ensures !Withdraws(h[j], id, file, h[i].now + ttl) {
        if j < n { assert h[..n][j] == h[j]; }
      }
    }
  }

  /** Conversely, a prepare that still stands is the grant. */
  lemma {:induction false} PreparedIsGranted(ttl: nat, h: seq<Event>, i: nat, id: string, file: string)
    requires Stands(ttl, h, i, id, file)
    ensures Granted(ttl, h, id, file) == Some(GrantBy(ttl, h[i], file))
  {
    var n := |h| - 1;
    if i < n {
      assert forall j :: i < j < n ==> h[..n][j] == h[j];
      PreparedIsGranted(ttl, h[..n], i, id, file);
      assert !Withdraws(h[n], id, file, h[i].now + ttl);
    }
  }

  /**
    Authorization by event positions: after any run with a monotone clock an upload is authorized
    iff some prepare issued that token for the file, its time has not run out, and no later
    cancel, cancel-all, timely mark or valid prepare of the session withdrew it. What is returned
    is the metadata of that prepare.
   */
  lemma AuthorizedIffPrepared(ttl: nat, h: seq<Event>, now: nat, id: string, file: string, token: string)
    requires Monotone(h) && Clock(h) <= now
    ensures var r := Authorize(Run(ttl, h), now, id, file, token).1;
            && (r.Ok? <==>
                  exists i: nat :: Stands(ttl, h, i, id, file) && h[i].tokens(file) == token && now < h[i].now + ttl)
            && (forall i: nat :: r.Ok? && Stands(ttl, h, i, id, file) ==> r.value == h[i].files[file])
  {
    AuthorizedIffGranted(ttl, h, now, id, file, token);
    if Granted(ttl, h, id, file).Some? {
      var i := GrantWasPrepared(ttl, h, id, file);
    }
    forall i: nat | Stands(ttl, h, i, id, file) ensures Granted(ttl, h, id, file) == Some(GrantBy(ttl, h[i], file)) {
      PreparedIsGranted(ttl, h, i, id, file);
    }
  }
}
