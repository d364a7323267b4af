/**
  Candidate endpoints for native connections (`candidates.rs`, `hole_punch.rs`): duplicates are
  dropped, lists are put in a fixed order, and every local and remote candidate is paired.
 */
module Candidates {
  import opened Bits
  import opened Prelude
  import opened Sorting

  datatype Kind = Local | ServerReflexive

  datatype SocketAddr =
    | V4(ip: U32, port: U16)
    | V6(wide: nat, port: U16, flow: U32, scope: U32)

  datatype Candidate = Candidate(kind: Kind, address: SocketAddr, priority: U32)

  // ----- orders -----

  function AddrKey(a: SocketAddr): seq<int> {
    match a
    case V4(ip, port) => [0, ip, port]
    case V6(ip, port, flow, scope) => [1, ip, port, flow, scope]
  }

  predicate LexLe(a: seq<int>, b: seq<int>) {
    a == [] || (b != [] && (a[0] < b[0] || (a[0] == b[0] && LexLe(a[1..], b[1..]))))
  }

  /** The derived order of socket addresses. */
  predicate AddrLe(a: SocketAddr, b: SocketAddr) { LexLe(AddrKey(a), AddrKey(b)) }

  lemma {:induction false} LexTotal(a: seq<int>, b: seq<int>)
    ensures LexLe(a, b) || LexLe(b, a)
    ensures LexLe(a, b) && LexLe(b, a) ==> a == b
  {
    if a != [] && b != [] {
      LexTotal(a[1..], b[1..]);
      assert a == [a[0]] + a[1..] && b == [b[0]] + b[1..];
    }
  }

  lemma {:induction false} LexTransitive(a: seq<int>, b: seq<int>, c: seq<int>)
    requires LexLe(a, b) && LexLe(b, c)
    ensures LexLe(a, c)
  {
    if a != [] && b != [] && c != [] && a[0] == b[0] == c[0] { LexTransitive(a[1..], b[1..], c[1..]); }
  }

  lemma AddrTotal(a: SocketAddr, b: SocketAddr)
    ensures AddrLe(a, b) || AddrLe(b, a)
    ensures AddrLe(a, b) && AddrLe(b, a) ==> a == b
  {
    LexTotal(AddrKey(a), AddrKey(b));
    if AddrKey(a) == AddrKey(b) {
      assert AddrKey(a)[0] == AddrKey(b)[0] && AddrKey(a)[1] == AddrKey(b)[1] && AddrKey(a)[2] == AddrKey(b)[2];
      if a.V6? && b.V6? { assert AddrKey(a)[3] == AddrKey(b)[3] && AddrKey(a)[4] == AddrKey(b)[4]; }
    }
  }

  /** IPv4 comes before IPv6; then address, port, flow and scope decide in turn. */
  lemma AddrOrder(a: SocketAddr, b: SocketAddr)
    ensures a.V4? && b.V6? ==> AddrLe(a, b) && !AddrLe(b, a)
    ensures a.V4? && b.V4? ==> (AddrLe(a, b) <==> a.ip < b.ip || (a.ip == b.ip && a.port <= b.port))
    ensures a.V6? && b.V6? ==>
              (AddrLe(a, b) <==>
                 || a.wide < b.wide
                 || (a.wide == b.wide && (a.port < b.port || (a.port == b.port &&
                     (a.flow < b.flow || (a.flow == b.flow && a.scope <= b.scope))))))
  {
    var p, q := AddrKey(a), AddrKey(b);
    LexUnfold(p, q);
    LexUnfold(p[1..], q[1..]);
    LexUnfold(p[2..], q[2..]);
    assert p[1..][1..] == p[2..] && q[1..][1..] == q[2..] && p[2..][1..] == p[3..] && q[2..][1..] == q[3..];
    if a.V6? && b.V6? {
      LexUnfold(p[3..], q[3..]);
      LexUnfold(p[4..], q[4..]);
      assert p[3..][1..] == p[4..] && q[3..][1..] == q[4..] && p[4..][1..] == [] && q[4..][1..] == [];
    }
  }

  lemma {:induction false} LexUnfold(a: seq<int>, b: seq<int>)
    requires a != [] && b != []
    ensures LexLe(a, b) <==> a[0] < b[0] || (a[0] == b[0] && LexLe(a[1..], b[1..]))
  {
  }

  function Rank(k: Kind): int { if k.Local? then 0 else 1 }

  /** The key of `sort_candidates`: priority descending, then kind, then address. */
  predicate CandidateLe(a: Candidate, b: Candidate) {
    || a.priority > b.priority
    || (a.priority == b.priority &&
        (Rank(a.kind) < Rank(b.kind) || (Rank(a.kind) == Rank(b.kind) && AddrLe(a.address, b.address))))
  }

  lemma CandidateTransitive(a: Candidate, b: Candidate, c: Candidate)
    requires CandidateLe(a, b) && CandidateLe(b, c)
    ensures CandidateLe(a, c)
  {
    if AddrLe(a.address, b.address) && AddrLe(b.address, c.address) {
      LexTransitive(AddrKey(a.address), AddrKey(b.address), AddrKey(c.address));
    }
  }

  lemma CandidateTotal(a: Candidate, b: Candidate)
    ensures CandidateLe(a, b) || CandidateLe(b, a)
    ensures CandidateLe(a, b) && CandidateLe(b, a) ==> a == b
  {
    AddrTotal(a.address, b.address);
  }

  lemma CandidateOrder()
    ensures TotalPreorder(CandidateLe) && Antisymmetric(CandidateLe)
  {
    forall a, b ensures CandidateLe(a, b) || CandidateLe(b, a) { CandidateTotal(a, b); }
    forall a, b | CandidateLe(a, b) && CandidateLe(b, a) ensures a == b { CandidateTotal(a, b); }
    forall a, b, c | CandidateLe(a, b) && CandidateLe(b, c) ensures CandidateLe(a, c) { CandidateTransitive(a, b, c); }
  }

  // ----- removing duplicates -----

  predicate SameEndpoint(a: Candidate, b: Candidate) { a.kind == b.kind && a.address == b.address }

  predicate Seen(c: Candidate, cs: seq<Candidate>) { exists d :: d in cs && SameEndpoint(c, d) }

  /** The first candidate of each endpoint, in order. */
  function Dedupe(cs: seq<Candidate>): seq<Candidate> {
    if cs == [] then []
    else
      var n := |cs| - 1;
      Dedupe(cs[..n]) + if Seen(cs[n], cs[..n]) then [] else [cs[n]]
  }

  /** The endpoints of the first `i` candidates. */
  ghost predicate SeenKeys(cs: seq<Candidate>, i: nat, seen: set<(Kind, SocketAddr)>)
    requires i <= |cs|
  {
    && (forall j :: 0 <= j < i ==> (cs[j].kind, cs[j].address) in seen)
    && forall key :: key in seen ==> exists j :: 0 <= j < i && (cs[j].kind, cs[j].address) == key
  }

  lemma SeenKeysNext(cs: seq<Candidate>, i: nat, seen: set<(Kind, SocketAddr)>)
    requires i < |cs| && SeenKeys(cs, i, seen)
    ensures (cs[i].kind, cs[i].address) in seen <==> Seen(cs[i], cs[..i])
    ensures SeenKeys(cs, i + 1, seen + {(cs[i].kind, cs[i].address)})
  {
    if (cs[i].kind, cs[i].address) in seen {
      var j :| 0 <= j < i && (cs[j].kind, cs[j].address) == (cs[i].kind, cs[i].address);
      assert cs[j] in cs[..i] && SameEndpoint(cs[i], cs[j]);
    }
    if Seen(cs[i], cs[..i]) {
      var d :| d in cs[..i] && SameEndpoint(cs[i], d);
      var j :| 0 <= j < i && cs[..i][j] == d;
      assert (cs[j].kind, cs[j].address) in seen;
    }
  }

  lemma DedupeNext(cs: seq<Candidate>, i: nat)
    requires i < |cs|
    ensures Dedupe(cs[..i + 1]) == Dedupe(cs[..i]) + if Seen(cs[i], cs[..i]) then [] else [cs[i]]
  {
    assert cs[..i + 1][..i] == cs[..i];
  }

  /** `dedupe_candidates`: a set of endpoints decides, the first occurrence is kept. */
  method DedupeCandidates(cs: seq<Candidate>) returns (deduped: seq<Candidate>)
    ensures deduped == Dedupe(cs)
  {
    var seen: set<(Kind, SocketAddr)> := {};
    deduped := [];
    for i := 0 to |cs|
      invariant deduped == Dedupe(cs[..i])
      invariant SeenKeys(cs, i, seen)
    {
      DedupeNext(cs, i);
      SeenKeysNext(cs, i, seen);
      var key := (cs[i].kind, cs[i].address);
      if key !in seen {
        seen := seen + {key};
        deduped := deduped + [cs[i]];
      }
    }
    assert cs[..|cs|] == cs;
  }

  ghost predicate DistinctEndpoints(cs: seq<Candidate>) {
    forall i, j :: 0 <= i < j < |cs| ==> !SameEndpoint(cs[i], cs[j])
  }

  lemma {:induction false} DedupeSubset(cs: seq<Candidate>, c: Candidate)
    requires c in Dedupe(cs)
    ensures c in cs
  {
    if cs != [] {
      var n := |cs| - 1;
      assert cs == cs[..n] + [cs[n]];
      if c in Dedupe(cs[..n]) { DedupeSubset(cs[..n], c); }
    }
  }

  /** Every endpoint keeps a candidate. */
  lemma {:induction false} DedupeCovers(cs: seq<Candidate>, c: Candidate)
    requires c in cs
    ensures Seen(c, Dedupe(cs))
  {
    var n := |cs| - 1;
    assert cs == cs[..n] + [cs[n]];
    if c in cs[..n] {
      DedupeCovers(cs[..n], c);
      SeenMore(c, Dedupe(cs[..n]), Dedupe(cs));
    } else if Seen(c, cs[..n]) {
      var b :| b in cs[..n] && SameEndpoint(c, b);
      DedupeCovers(cs[..n], b);
      SeenMore(b, Dedupe(cs[..n]), Dedupe(cs));
    } else {
      assert c in Dedupe(cs) && SameEndpoint(c, c);
    }
  }

  lemma SeenMore(c: Candidate, a: seq<Candidate>, b: seq<Candidate>)
    requires Seen(c, a) && a <= b
    ensures Seen(c, b)
  {
    var d :| d in a && SameEndpoint(c, d);
    assert d in b;
  }

  lemma {:induction false} DedupeDistinct(cs: seq<Candidate>)
    ensures DistinctEndpoints(Dedupe(cs))
  {
    if cs != [] {
      var n := |cs| - 1;
      var d := Dedupe(cs[..n]);
      DedupeDistinct(cs[..n]);
      forall i | 0 <= i < |d| ensures Seen(cs[n], cs[..n]) || !SameEndpoint(d[i], cs[n]) {
        DedupeSubset(cs[..n], d[i]);
        assert SameEndpoint(d[i], cs[n]) == SameEndpoint(cs[n], d[i]);
      }
    }
  }

  /** Dedupe keeps only candidates of the input, one for each endpoint of it. */
  lemma DedupeKeeps(cs: seq<Candidate>)
    ensures forall c :: c in Dedupe(cs) ==> c in cs
    ensures forall c :: c in cs ==> Seen(c, Dedupe(cs))
    ensures DistinctEndpoints(Dedupe(cs))
  {
    forall c | c in Dedupe(cs) ensures c in cs { DedupeSubset(cs, c); }
    forall c | c in cs ensures Seen(c, Dedupe(cs)) { DedupeCovers(cs, c); }
    DedupeDistinct(cs);
  }

  /** Position `i` is the first with its kind and address. */
  predicate FirstAt(cs: seq<Candidate>, i: nat)
    requires i < |cs|
  {
    forall j :: 0 <= j < i ==> cs[j].kind != cs[i].kind || cs[j].address != cs[i].address
  }

  /** The candidates at the first positions, in order. */
  function Firsts(cs: seq<Candidate>, n: nat): seq<Candidate>
    requires n <= |cs|
  {
    if n == 0 then [] else Firsts(cs, n - 1) + if FirstAt(cs, n - 1) then [cs[n - 1]] else []
  }

  /** What is kept is, in order, exactly the first candidate of each kind and address. */
  lemma {:induction false} DedupeIsFirsts(cs: seq<Candidate>, n: nat)
    requires n <= |cs|
    ensures Dedupe(cs[..n]) == Firsts(cs, n)
  {
    if n > 0 {
      DedupeIsFirsts(cs, n - 1);
      assert cs[..n][..n - 1] == cs[..n - 1];
      SeenIffNotFirst(cs, n - 1);
    }
  }

  lemma SeenIffNotFirst(cs: seq<Candidate>, i: nat)
    requires i < |cs|
    ensures Seen(cs[i], cs[..i]) <==> !FirstAt(cs, i)
  {
    if Seen(cs[i], cs[..i]) {
      var d :| d in cs[..i] && SameEndpoint(cs[i], d);
      var j :| 0 <= j < i && cs[..i][j] == d;
      assert cs[j] == d;
    }
    if !FirstAt(cs, i) {
      var j :| 0 <= j < i && cs[j].kind == cs[i].kind && cs[j].address == cs[i].address;
      assert cs[j] in cs[..i] && SameEndpoint(cs[i], cs[j]);
    }
  }

  /** The candidate kept for the first position's endpoint is the first one. */
  lemma {:induction false} DedupeFirst(cs: seq<Candidate>)
    requires cs != []
    ensures Dedupe(cs) != [] && Dedupe(cs)[0] == cs[0]
  {
    if |cs| > 1 { DedupeFirst(cs[..|cs| - 1]); } else { assert cs[..0] == []; }
  }

  // ----- dedupe, then sort -----

  /** `sort_candidates`: the array becomes the only sorted arrangement of its elements. */
  method SortCandidates(cs: array<Candidate>)
    modifies cs
    ensures SortedBy(cs[..], CandidateLe) && multiset(cs[..]) == multiset(old(cs[..]))
    ensures forall i, j :: 0 <= i < j < cs.Length ==>
              && cs[i].priority >= cs[j].priority
              && (cs[i].priority == cs[j].priority ==> !(cs[i].kind.ServerReflexive? && cs[j].kind.Local?))
              && (cs[i].priority == cs[j].priority && cs[i].kind == cs[j].kind ==> AddrLe(cs[i].address, cs[j].address))
    ensures forall s :: SortedBy(s, CandidateLe) && multiset(s) == multiset(old(cs[..])) ==> s == cs[..]
  {
    var sorted := Sort(cs[..], CandidateLe);
    SortedArrangement(cs[..]);
    forall i | 0 <= i < cs.Length { cs[i] := sorted[i]; }
    assert cs[..] == sorted;
    forall i, j | 0 <= i < j < cs.Length ensures CandidateLe(cs[i], cs[j]) {
      assert cs[i] == sorted[i] && cs[j] == sorted[j];
    }
  }

  lemma SortedArrangement(cs: seq<Candidate>)
    ensures var sorted := Sort(cs, CandidateLe);
            && |sorted| == |cs| && SortedBy(sorted, CandidateLe) && multiset(sorted) == multiset(cs)
            && forall s :: SortedBy(s, CandidateLe) && multiset(s) == multiset(cs) ==> s == sorted
  {
    CandidateOrder();
    SortPermutes(cs, CandidateLe);
    SortSorts(cs, CandidateLe);
    forall s | SortedBy(s, CandidateLe) && multiset(s) == multiset(cs) ensures s == Sort(cs, CandidateLe) {
      SortedUnique(s, Sort(cs, CandidateLe), CandidateLe);
    }
  }

  function Gathered(cs: seq<Candidate>): seq<Candidate> { Sort(Dedupe(cs), CandidateLe) }

  /** Equal endpoints carry equal priorities. */
  predicate Consistent(cs: seq<Candidate>) {
    forall c, d :: c in cs && d in cs && SameEndpoint(c, d) ==> c.priority == d.priority
  }

  lemma ConsistentMembers(cs: seq<Candidate>, c: Candidate)
    requires Consistent(cs)
    ensures c in Dedupe(cs) <==> c in cs
  {
    DedupeKeeps(cs);
    if c in cs {
      var d :| d in Dedupe(cs) && SameEndpoint(c, d);
      assert d == c;
    }
  }

  lemma {:induction false} DistinctOnce(cs: seq<Candidate>, c: Candidate)
    requires DistinctEndpoints(cs)
    ensures multiset(cs)[c] == if c in cs then 1 else 0
  {
    if cs != [] {
      assert cs == [cs[0]] + cs[1..];
      DistinctOnce(cs[1..], c);
      forall d | d in cs[1..] ensures d != cs[0] {
        var i :| 0 <= i < |cs[1..]| && cs[1..][i] == d;
        assert !SameEndpoint(cs[0], cs[i + 1]);
      }
    }
  }

  lemma PermutedSame(a: seq<Candidate>, b: seq<Candidate>)
    requires Consistent(a) && multiset(a) == multiset(b)
    ensures Gathered(a) == Gathered(b)
  {
    assert forall c :: c in a <==> c in multiset(a);
    assert forall c :: c in b <==> c in multiset(b);
    forall c ensures multiset(Dedupe(a))[c] == multiset(Dedupe(b))[c] {
      DedupeKeeps(a);
      DedupeKeeps(b);
      DistinctOnce(Dedupe(a), c);
      DistinctOnce(Dedupe(b), c);
      ConsistentMembers(a, c);
      ConsistentMembers(b, c);
    }
    assert multiset(Dedupe(a)) == multiset(Dedupe(b));
    CandidateOrder();
    SortPermutes(Dedupe(a), CandidateLe);
    SortPermutes(Dedupe(b), CandidateLe);
    SortSorts(Dedupe(a), CandidateLe);
    SortSorts(Dedupe(b), CandidateLe);
    SortedUnique(Gathered(a), Gathered(b), CandidateLe);
  }

  /** The permutation of `cs` that starts with its element `i`. */
  function Fronted(cs: seq<Candidate>, i: nat): seq<Candidate>
    requires i < |cs|
  {
    [cs[i]] + cs[..i] + cs[i + 1..]
  }

  lemma FrontedPermutes(cs: seq<Candidate>, i: nat)
    requires i < |cs|
    ensures multiset(Fronted(cs, i)) == multiset(cs)
  {
    assert cs == cs[..i] + [cs[i]] + cs[i + 1..];
  }

  /** An element put first survives, and no other candidate of its endpoint does. */
  lemma FrontedSurvives(cs: seq<Candidate>, i: nat, c: Candidate)
    requires i < |cs| && c != cs[i] && SameEndpoint(c, cs[i])
    ensures cs[i] in Gathered(Fronted(cs, i)) && c !in Gathered(Fronted(cs, i))
  {
    var f := Fronted(cs, i);
    DedupeFirst(f);
    DedupeKeeps(f);
    SortMembers(Dedupe(f), CandidateLe);
    var d := Dedupe(f);
    forall k | 0 <= k < |d| ensures d[k] != c { if k > 0 { assert !SameEndpoint(d[0], d[k]); } }
  }

  /**
    Dedupe followed by sort gives one and the same list for every permutation of the input
    exactly when equal endpoints carry equal priorities.
   */
  lemma GatheredDeterminedIff(a: seq<Candidate>)
    ensures (forall b :: multiset(b) == multiset(a) ==> Gathered(b) == Gathered(a)) <==> Consistent(a)
  {
    if Consistent(a) {
      forall b | multiset(b) == multiset(a) ensures Gathered(b) == Gathered(a) { PermutedSame(a, b); }
    } else {
      var c, d :| c in a && d in a && SameEndpoint(c, d) && c.priority != d.priority;
      var i :| 0 <= i < |a| && a[i] == c;
      var j :| 0 <= j < |a| && a[j] == d;
      FrontedPermutes(a, i);
      FrontedPermutes(a, j);
      FrontedSurvives(a, i, d);
      FrontedSurvives(a, j, c);
      assert Gathered(Fronted(a, i)) != Gathered(Fronted(a, j));
    }
  }

  // ----- pairs -----

  datatype Pair = Pair(local: Candidate, remote: Candidate, priority: U64)

  /** `(u64::from(local) << 32) | u64::from(remote)`. */
  function CombinedPriority(local: U32, remote: U32): (r: U64)
    ensures r == local * TWO_32 + remote
  {
    CombinedSum(local, remote);
    Or(Shl(local, 32, 64), remote, 64)
  }

  lemma CombinedSum(local: nat, remote: nat)
    requires local < TWO_32 && remote < TWO_32
    ensures Pow2(64) > 0 && Or(Shl(local, 32, 64), remote, 64) == local * TWO_32 + remote < TWO_64
  {
    Pow2Wide();
    var high := local * Pow2(32);
    assert high == local * TWO_32 < TWO_64;
    assert high % Pow2(64) == high;
    OrIsSum(local, remote, 32, 64);
  }

  /** Packed priorities order exactly like the pairs (local, remote). */
  lemma PackingIsLexicographic(l: U32, r: U32, l': U32, r': U32)
    ensures CombinedPriority(l, r) > CombinedPriority(l', r') <==> l > l' || (l == l' && r > r')
    ensures CombinedPriority(l, r) == CombinedPriority(l', r') <==> l == l' && r == r'
  {
  }

  function PairOf(l: Candidate, r: Candidate): Pair { Pair(l, r, CombinedPriority(l.priority, r.priority)) }

  function Row(l: Candidate, remotes: seq<Candidate>): seq<Pair> {
    seq(|remotes|, j requires 0 <= j < |remotes| => PairOf(l, remotes[j]))
  }

  /** The cross product, local by local. */
  function Product(locals: seq<Candidate>, remotes: seq<Candidate>): seq<Pair> {
    if locals == [] then [] else Row(locals[0], remotes) + Product(locals[1..], remotes)
  }

  /** Position `i * |remotes| + j` of the product pairs local `i` with remote `j`; there is nothing else. */
  lemma {:induction false} ProductAt(locals: seq<Candidate>, remotes: seq<Candidate>, i: nat, j: nat)
    requires i < |locals| && j < |remotes|
    ensures |Product(locals, remotes)| == |locals| * |remotes|
    ensures i * |remotes| + j < |Product(locals, remotes)|
    ensures Product(locals, remotes)[i * |remotes| + j] == PairOf(locals[i], remotes[j])
    ensures PairOf(locals[i], remotes[j]).local == locals[i] && PairOf(locals[i], remotes[j]).remote == remotes[j]
  {
    ProductSize(locals, remotes);
    ProductSize(locals[1..], remotes);
    assert |locals| * |remotes| == |remotes| + (|locals| - 1) * |remotes|;
    if i > 0 {
      ProductAt(locals[1..], remotes, i - 1, j);
      assert i * |remotes| == |remotes| + (i - 1) * |remotes|;
    }
  }

  lemma {:induction false} ProductSize(locals: seq<Candidate>, remotes: seq<Candidate>)
    ensures |Product(locals, remotes)| == |locals| * |remotes|
  {
    if locals != [] {
      ProductSize(locals[1..], remotes);
      assert |locals| * |remotes| == |remotes| + (|locals| - 1) * |remotes|;
    }
  }

  /** The comparator of `candidate_pairs`. */
  predicate PairLe(p: Pair, q: Pair) {
    p.priority > q.priority || (p.priority == q.priority && AddrLe(p.remote.address, q.remote.address))
  }

  lemma PairTransitive(p: Pair, q: Pair, r: Pair)
    requires PairLe(p, q) && PairLe(q, r)
    ensures PairLe(p, r)
  {
    if AddrLe(p.remote.address, q.remote.address) && AddrLe(q.remote.address, r.remote.address) {
      LexTransitive(AddrKey(p.remote.address), AddrKey(q.remote.address), AddrKey(r.remote.address));
    }
  }

  lemma PairOrder()
    ensures TotalPreorder(PairLe)
  {
    forall p, q ensures PairLe(p, q) || PairLe(q, p) { AddrTotal(p.remote.address, q.remote.address); }
    forall p, q, r | PairLe(p, q) && PairLe(q, r) ensures PairLe(p, r) { PairTransitive(p, q, r); }
  }

  /** `candidate_pairs`: the product, built pair by pair, then sorted. */
  method CandidatePairs(locals: seq<Candidate>, remotes: seq<Candidate>) returns (pairs: seq<Pair>)
    ensures pairs == Sort(Product(locals, remotes), PairLe)
  {
    var product: seq<Pair> := [];
    for i := 0 to |locals|
      invariant product + Product(locals[i..], remotes) == Product(locals, remotes)
    {
      var row: seq<Pair> := [];
      for j := 0 to |remotes|
        invariant row == Row(locals[i], remotes)[..j]
      {
        row := row + [PairOf(locals[i], remotes[j])];
      }
      assert row == Row(locals[i], remotes) && locals[i..][1..] == locals[i + 1..];
      product := product + row;
    }
    assert product == Product(locals, remotes);
    pairs := Sort(product, PairLe);
  }

  /** Priorities descend lexicographically, local before remote; then remote addresses ascend. */
  predicate PairsInOrder(p: Pair, q: Pair) {
    || p.local.priority > q.local.priority
    || (p.local.priority == q.local.priority &&
        (p.remote.priority > q.remote.priority ||
         (p.remote.priority == q.remote.priority && AddrLe(p.remote.address, q.remote.address))))
  }

  lemma {:induction false} ProductPacked(locals: seq<Candidate>, remotes: seq<Candidate>, p: Pair)
    requires p in Product(locals, remotes)
    ensures p.priority == CombinedPriority(p.local.priority, p.remote.priority)
    ensures p.local in locals && p.remote in remotes
  {
    var row := Row(locals[0], remotes);
    if p in row {
      var j :| 0 <= j < |row| && row[j] == p;
    } else {
      ProductPacked(locals[1..], remotes, p);
    }
  }

  ghost predicate AllInOrder(pairs: seq<Pair>) {
    forall a, b :: 0 <= a < b < |pairs| ==> PairsInOrder(pairs[a], pairs[b])
  }

  /** For pairs of the product, the declared order is the order the sort uses. */
  lemma InOrderIffSorted(locals: seq<Candidate>, remotes: seq<Candidate>, pairs: seq<Pair>)
    requires multiset(pairs) == multiset(Product(locals, remotes))
    ensures AllInOrder(pairs) <==> SortedBy(pairs, PairLe)
  {
    forall a, b | 0 <= a < b < |pairs| ensures PairsInOrder(pairs[a], pairs[b]) <==> PairLe(pairs[a], pairs[b]) {
      var p, q := pairs[a], pairs[b];
      assert p in multiset(pairs) && q in multiset(pairs);
      ProductPacked(locals, remotes, p);
      ProductPacked(locals, remotes, q);
      PackingIsLexicographic(p.local.priority, p.remote.priority, q.local.priority, q.remote.priority);
    }
  }

  /** A permutation of the product in order, in which pairs that tie keep their product order. */
  ghost predicate PairList(locals: seq<Candidate>, remotes: seq<Candidate>, pairs: seq<Pair>) {
    && multiset(pairs) == multiset(Product(locals, remotes))
    && AllInOrder(pairs)
    && forall k :: Ties(pairs, PairLe, k) == Ties(Product(locals, remotes), PairLe, k)
  }

  /**
    The pair list is a permutation of the full cross product, sorted by priorities taken
    lexicographically and then by remote address, and pairs that tie keep their product order;
    no other list is.
   */
  lemma PairListDetermined(locals: seq<Candidate>, remotes: seq<Candidate>, pairs: seq<Pair>)
    ensures PairList(locals, remotes, pairs) <==> pairs == Sort(Product(locals, remotes), PairLe)
  {
    var product := Product(locals, remotes);
    var sorted := Sort(product, PairLe);
    PairOrder();
    SortPermutes(product, PairLe);
    SortSorts(product, PairLe);
    InOrderIffSorted(locals, remotes, sorted);
    forall k ensures Ties(sorted, PairLe, k) == Ties(product, PairLe, k) { SortStable(product, PairLe, k); }
    if PairList(locals, remotes, pairs) {
      InOrderIffSorted(locals, remotes, pairs);
      StableUnique(pairs, sorted, PairLe);
    }
  }
}
