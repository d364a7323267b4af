/**
  The stable sort behind `sort_by`, `sort_by_key` and `ORDER BY`, over a caller-supplied
  total preorder.
 */
module Sorting {
  ghost predicate TotalPreorder<T(!new)>(le: (T, T) -> bool) {
    && (forall x, y :: le(x, y) || le(y, x))
    && (forall x, y, z :: le(x, y) && le(y, z) ==> le(x, z))
  }

  ghost predicate SortedBy<T>(s: seq<T>, le: (T, T) -> bool) {
    forall i, j :: 0 <= i < j < |s| ==> le(s[i], s[j])
  }

  function Insert<T>(x: T, s: seq<T>, le: (T, T) -> bool): seq<T> {
    if s == [] then [x]
    else if le(x, s[0]) then [x] + s
    else [s[0]] + Insert(x, s[1..], le)
  }

  /** Insertion from the back keeps equal elements in their input order. */
  function Sort<T>(s: seq<T>, le: (T, T) -> bool): seq<T> {
    if s == [] then [] else Insert(s[0], Sort(s[1..], le), le)
  }

  lemma {:induction false} InsertPermutes<T>(x: T, s: seq<T>, le: (T, T) -> bool)
    ensures multiset(Insert(x, s, le)) == multiset([x]) + multiset(s)
  {
    if s != [] && !le(x, s[0]) {
      InsertPermutes(x, s[1..], le);
      assert s == [s[0]] + s[1..];
    }
  }

  lemma {:induction false} SortPermutes<T>(s: seq<T>, le: (T, T) -> bool)
    ensures multiset(Sort(s, le)) == multiset(s)
    ensures |Sort(s, le)| == |s|
  {
    if s != [] {
      SortPermutes(s[1..], le);
      InsertPermutes(s[0], Sort(s[1..], le), le);
      assert s == [s[0]] + s[1..];
      assert multiset(Sort(s, le)) == multiset(s);
    }
    assert |multiset(Sort(s, le))| == |multiset(s)|;
  }

  lemma SortMembers<T>(s: seq<T>, le: (T, T) -> bool)
    ensures forall x :: x in Sort(s, le) <==> x in s
  {
    SortPermutes(s, le);
    assert forall x :: x in s <==> x in multiset(s);
    assert forall x :: x in Sort(s, le) <==> x in multiset(Sort(s, le));
  }

  lemma {:induction false} InsertSorts<T(!new)>(x: T, s: seq<T>, le: (T, T) -> bool)
    requires TotalPreorder(le) && SortedBy(s, le)
    ensures SortedBy(Insert(x, s, le), le)
  {
    if s != [] && !le(x, s[0]) {
      var tail := s[1..];
      InsertSorts(x, tail, le);
      InsertPermutes(x, tail, le);
      var r := Insert(x, tail, le);
      forall i | 0 <= i < |r| ensures le(s[0], r[i]) {
        assert r[i] in multiset(r);
        assert r[i] == x || r[i] in tail;
      }
    }
  }

  lemma {:induction false} SortSorts<T(!new)>(s: seq<T>, le: (T, T) -> bool)
    requires TotalPreorder(le)
    ensures SortedBy(Sort(s, le), le)
  {
    if s != [] {
      SortSorts(s[1..], le);
      InsertSorts(s[0], Sort(s[1..], le), le);
    }
  }

  // ----- stability -----

  /** The elements of `s` that compare equal to `k`, in order. */
  function Ties<T>(s: seq<T>, le: (T, T) -> bool, k: T): seq<T> {
    if s == [] then []
    else (if le(s[0], k) && le(k, s[0]) then [s[0]] else []) + Ties(s[1..], le, k)
  }

  /** The element itself if it compares equal to `k`. */
  function Tie<T>(x: T, le: (T, T) -> bool, k: T): seq<T> { if le(x, k) && le(k, x) then [x] else [] }

  lemma TiesCons<T>(x: T, s: seq<T>, le: (T, T) -> bool, k: T)
    ensures Ties([x] + s, le, k) == Tie(x, le, k) + Ties(s, le, k)
  {
    assert ([x] + s)[1..] == s;
  }

  lemma TiesSwap<T(!new)>(x: T, y: T, le: (T, T) -> bool, k: T, rest: seq<T>)
    requires TotalPreorder(le) && !le(x, y)
    ensures Tie(x, le, k) + (Tie(y, le, k) + rest) == Tie(y, le, k) + (Tie(x, le, k) + rest)
  {
    if le(x, k) && le(k, x) { assert !(le(y, k) && le(k, y)); }
  }

  lemma {:induction false} InsertStable<T(!new)>(x: T, s: seq<T>, le: (T, T) -> bool, k: T)
    requires TotalPreorder(le)
    ensures Ties(Insert(x, s, le), le, k) == Ties([x] + s, le, k)
  {
    if s != [] && !le(x, s[0]) {
      InsertStable(x, s[1..], le, k);
      assert s == [s[0]] + s[1..];
      TiesCons(s[0], Insert(x, s[1..], le), le, k);
      TiesCons(x, s[1..], le, k);
      TiesCons(x, s, le, k);
      TiesCons(s[0], s[1..], le, k);
      TiesSwap(x, s[0], le, k, Ties(s[1..], le, k));
    }
  }

  /** Equal elements keep their input order. */
  lemma {:induction false} SortStable<T(!new)>(s: seq<T>, le: (T, T) -> bool, k: T)
    requires TotalPreorder(le)
    ensures Ties(Sort(s, le), le, k) == Ties(s, le, k)
  {
    if s != [] {
      SortStable(s[1..], le, k);
      InsertStable(s[0], Sort(s[1..], le), le, k);
      assert ([s[0]] + Sort(s[1..], le))[1..] == Sort(s[1..], le);
    }
  }

  // ----- uniqueness -----

  ghost predicate Antisymmetric<T(!new)>(le: (T, T) -> bool) {
    forall x, y :: le(x, y) && le(y, x) ==> x == y
  }

  lemma SortedHead<T(!new)>(a: seq<T>, b: seq<T>, le: (T, T) -> bool)
    requires a != [] && SortedBy(a, le) && multiset(a) == multiset(b) && b != []
    ensures a[0] == b[0] || le(a[0], b[0])
  {
    assert b[0] in multiset(a);
    var j :| 0 <= j < |a| && a[j] == b[0];
    assert j == 0 || le(a[0], a[j]);
  }

  lemma SameTail<T>(a: seq<T>, b: seq<T>)
    requires a != [] && b != [] && a[0] == b[0] && multiset(a) == multiset(b)
    ensures multiset(a[1..]) == multiset(b[1..])
  {
    assert a == [a[0]] + a[1..] && b == [b[0]] + b[1..];
    assert multiset(a[1..]) == multiset(a) - multiset{a[0]};
    assert multiset(b[1..]) == multiset(b) - multiset{b[0]};
  }

  /** Under a strict enough order, the sorted arrangement of given elements is unique. */
  lemma {:induction false} SortedUnique<T(!new)>(a: seq<T>, b: seq<T>, le: (T, T) -> bool)
    requires Antisymmetric(le) && SortedBy(a, le) && SortedBy(b, le) && multiset(a) == multiset(b)
    ensures a == b
  {
    assert |a| == |multiset(a)| == |multiset(b)| == |b|;
    if a != [] {
      SortedHead(a, b, le);
      SortedHead(b, a, le);
      SameTail(a, b);
      SortedUnique(a[1..], b[1..], le);
      assert a == [a[0]] + a[1..] && b == [b[0]] + b[1..];
    }
  }

  lemma TiesOfHead<T(!new)>(a: seq<T>, b: seq<T>, le: (T, T) -> bool)
    requires TotalPreorder(le) && SortedBy(a, le) && SortedBy(b, le) && multiset(a) == multiset(b) && a != [] && b != []
    requires Ties(a, le, a[0]) == Ties(b, le, a[0])
    ensures a[0] == b[0]
  {
    SortedHead(a, b, le);
    SortedHead(b, a, le);
    assert le(a[0], a[0]);
    assert Ties(a, le, a[0])[0] == a[0];
    assert le(a[0], b[0]) && le(b[0], a[0]);
    assert Ties(b, le, a[0])[0] == b[0];
  }

  /** Where elements may tie, the sorted arrangement that keeps the ties in order is unique. */
  lemma {:induction false} StableUnique<T(!new)>(a: seq<T>, b: seq<T>, le: (T, T) -> bool)
    requires TotalPreorder(le) && SortedBy(a, le) && SortedBy(b, le) && multiset(a) == multiset(b)
    requires forall k :: Ties(a, le, k) == Ties(b, le, k)
    ensures a == b
  {
    assert |a| == |multiset(a)| == |multiset(b)| == |b|;
    if a != [] {
      TiesOfHead(a, b, le);
      SameTail(a, b);
      forall k ensures Ties(a[1..], le, k) == Ties(b[1..], le, k) {
        var head := if le(a[0], k) && le(k, a[0]) then [a[0]] else [];
        assert Ties(a, le, k) == head + Ties(a[1..], le, k) && Ties(b, le, k) == head + Ties(b[1..], le, k);
        assert Ties(a[1..], le, k) == Ties(a, le, k)[|head|..];
      }
      StableUnique(a[1..], b[1..], le);
      assert a == [a[0]] + a[1..] && b == [b[0]] + b[1..];
    }
  }
}
