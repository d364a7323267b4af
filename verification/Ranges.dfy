/**
  Chunk planning and range arithmetic: the checked versions of `chunk.rs` and the
  unchecked versions of `manifest.rs`, both proved against one declarative reading of
  "which bytes are covered".
 */
module Ranges {
  import opened Prelude
  import Sorting

  datatype Range = Range(offset: nat, length: nat) {
    /** The exclusive end as a mathematical integer; it may exceed 64 bits. */
    function End(): nat { offset + length }

    predicate Has(p: int) { offset <= p < End() }
  }

  datatype RangeError = ZeroChunkSize | EmptyRange | PastEnd | Overflow

  ghost predicate Covers(rs: seq<Range>, p: int) {
    exists r :: r in rs && r.Has(p)
  }

  ghost predicate SameCover(a: seq<Range>, b: seq<Range>) {
    forall p :: Covers(a, p) <==> Covers(b, p)
  }

  predicate Fits(r: Range) { r.End() < TWO_64 }

  predicate AllFit(rs: seq<Range>) { forall r :: r in rs ==> Fits(r) }

  predicate AllPositive(rs: seq<Range>) { forall r :: r in rs ==> r.length > 0 }

  /** Sorted, non-empty ranges with a strict gap between neighbours. */
  ghost predicate Canonical(rs: seq<Range>) {
    && (forall i :: 0 <= i < |rs| ==> rs[i].length > 0)
    && (forall i, j :: 0 <= i < j < |rs| ==> rs[i].End() < rs[j].offset)
  }

  // ----- canonical form -----

  lemma CoversAt(rs: seq<Range>, i: int, p: int)
    requires 0 <= i < |rs| && rs[i].Has(p)
    ensures Covers(rs, p)
  {
    assert rs[i] in rs;
  }

  /** In canonical form the byte just past a range is uncovered. */
  lemma CanonicalGap(rs: seq<Range>, i: int)
    requires Canonical(rs) && 0 <= i < |rs|
    ensures !Covers(rs, rs[i].End())
  {
    forall r | r in rs ensures !r.Has(rs[i].End()) {
      var j :| 0 <= j < |rs| && rs[j] == r;
    }
  }

  lemma CanonicalHeads(a: seq<Range>, b: seq<Range>)
    requires Canonical(a) && Canonical(b) && SameCover(a, b) && a != [] && b != []
    ensures a[0].offset <= b[0].offset
    ensures a[0].offset == b[0].offset ==> a[0].length <= b[0].length
  {
    CoversAt(b, 0, b[0].offset);
    assert Covers(a, b[0].offset);
    var r :| r in a && r.Has(b[0].offset);
    var j :| 0 <= j < |a| && a[j] == r;
    assert j == 0 || a[0].End() < a[j].offset;
    CanonicalGap(b, 0);
    assert !Covers(a, b[0].End());
    assert a[0] in a && !a[0].Has(b[0].End());
  }

  /** Two lists in canonical form are equal exactly when they cover the same bytes. */
  lemma {:induction false} CanonicalUnique(a: seq<Range>, b: seq<Range>)
    requires Canonical(a) && Canonical(b)
    ensures a == b <==> SameCover(a, b)
  {
    if SameCover(a, b) {
      if a == [] || b == [] {
        if a != [] { CoversAt(a, 0, a[0].offset); }
        if b != [] { CoversAt(b, 0, b[0].offset); }
      } else {
        CanonicalHeads(a, b);
        CanonicalHeads(b, a);
        assert a[0] == b[0];
        TailCover(a, b);
        TailCover(b, a);
        CanonicalUnique(a[1..], b[1..]);
        assert a == [a[0]] + a[1..] && b == [b[0]] + b[1..];
      }
    }
  }

  lemma TailCover(a: seq<Range>, b: seq<Range>)
    requires Canonical(a) && Canonical(b) && SameCover(a, b) && a != [] && b != [] && a[0] == b[0]
    ensures Canonical(a[1..])
    ensures forall p :: Covers(a[1..], p) ==> Covers(b[1..], p)
  {
    forall p | Covers(a[1..], p) ensures Covers(b[1..], p) {
      var r :| r in a[1..] && r.Has(p);
      assert r in a;
      assert Covers(a, p);
      assert Covers(b, p);
      var s :| s in b && s.Has(p);
      var i :| 0 <= i < |a[1..]| && a[1..][i] == r;
      assert a[i + 1] == r;
      assert s != b[0];
      assert s in b[1..];
    }
  }

  // ----- merging -----

  /** One iteration of either merge loop, in exact arithmetic. */
  function Absorb(merged: seq<Range>, r: Range): seq<Range> {
    if r.length == 0 then merged
    else if merged == [] then [r]
    else
      var init, last := merged[..|merged| - 1], merged[|merged| - 1];
      if r.offset <= last.End()
      then init + [Range(last.offset, Max(r.End(), last.End()) - last.offset)]
      else merged + [r]
  }

  function Merged(sorted: seq<Range>): seq<Range> {
    if sorted == [] then []
    else Absorb(Merged(sorted[..|sorted| - 1]), sorted[|sorted| - 1])
  }

  lemma MergedNext(sorted: seq<Range>, i: nat)
    requires i < |sorted|
    ensures Merged(sorted[..i + 1]) == Absorb(Merged(sorted[..i]), sorted[i])
  {
    assert sorted[..i + 1][..i] == sorted[..i];
  }

  lemma AppendCover(rs: seq<Range>, r: Range, p: int)
    ensures Covers(rs + [r], p) <==> Covers(rs, p) || r.Has(p)
  {
    if Covers(rs, p) {
      var s :| s in rs && s.Has(p);
      assert s in rs + [r];
    }
    if r.Has(p) { assert r in rs + [r]; }
  }

  lemma AbsorbCover(merged: seq<Range>, r: Range, p: int)
    requires merged != [] ==> merged[|merged| - 1].offset <= r.offset
    ensures Covers(Absorb(merged, r), p) <==> Covers(merged, p) || r.Has(p)
  {
    if merged == [] {
      AppendCover([], r, p);
      assert [] + [r] == [r];
    } else {
      var init, last := merged[..|merged| - 1], merged[|merged| - 1];
      assert merged == init + [last];
      AppendCover(init, last, p);
      AppendCover(init, Range(last.offset, Max(r.End(), last.End()) - last.offset), p);
      AppendCover(merged, r, p);
    }
  }

  ghost predicate SortedByOffset(rs: seq<Range>) {
    forall i, j :: 0 <= i < j < |rs| ==> rs[i].offset <= rs[j].offset
  }

  lemma {:induction false} MergedCanonical(sorted: seq<Range>)
    requires SortedByOffset(sorted)
    ensures Canonical(Merged(sorted))
    ensures Merged(sorted) != [] ==> Merged(sorted)[|Merged(sorted)| - 1].offset <= sorted[|sorted| - 1].offset
  {
    if sorted != [] {
      var n := |sorted| - 1;
      MergedCanonical(sorted[..n]);
      var m := Merged(sorted[..n]);
      if m != [] { assert sorted[n - 1].offset <= sorted[n].offset; }
      AbsorbCanonical(m, sorted[n]);
    }
  }

  lemma AbsorbCanonical(merged: seq<Range>, r: Range)
    requires Canonical(merged) && (merged != [] ==> merged[|merged| - 1].offset <= r.offset)
    ensures Canonical(Absorb(merged, r))
    ensures Absorb(merged, r) != [] ==> Absorb(merged, r)[|Absorb(merged, r)| - 1].offset <= r.offset
  {
  }

  lemma {:induction false} MergedCover(sorted: seq<Range>, p: int)
    requires SortedByOffset(sorted)
    ensures Covers(Merged(sorted), p) <==> Covers(sorted, p)
  {
    if sorted != [] {
      var n := |sorted| - 1;
      MergedCover(sorted[..n], p);
      MergedCanonical(sorted[..n]);
      AbsorbCover(Merged(sorted[..n]), sorted[n], p);
      AppendCover(sorted[..n], sorted[n], p);
      assert sorted == sorted[..n] + [sorted[n]];
    }
  }

  lemma AbsorbFits(merged: seq<Range>, r: Range)
    requires AllFit(merged) && Fits(r)
    ensures AllFit(Absorb(merged, r))
  {
  }

  lemma {:induction false} MergedFits(sorted: seq<Range>)
    requires AllFit(sorted)
    ensures AllFit(Merged(sorted))
    ensures Merged(sorted) != [] ==> Fits(Merged(sorted)[|Merged(sorted)| - 1])
  {
    if sorted != [] {
      MergedFits(sorted[..|sorted| - 1]);
      AbsorbFits(Merged(sorted[..|sorted| - 1]), sorted[|sorted| - 1]);
    }
  }

  /** The `checked_add` form of one iteration. */
  function AbsorbChecked(merged: seq<Range>, r: Range): Option<seq<Range>> {
    if merged == [] then Some([r])
    else
      var init, last := merged[..|merged| - 1], merged[|merged| - 1];
      match (CheckedAdd(last.offset, last.length), CheckedAdd(r.offset, r.length))
      case (Some(lastEnd), Some(rangeEnd)) =>
        if r.offset <= lastEnd
        then Some(init + [Range(last.offset, Max(rangeEnd, lastEnd) - last.offset)])
        else Some(merged + [r])
      case (_, _) => None
  }

  /** The wrapping form of one iteration; `u64` subtraction wraps too. */
  function AbsorbWrapping(merged: seq<Range>, r: Range): seq<Range> {
    if r.length == 0 then merged
    else if merged == [] then [r]
    else
      var init, last := merged[..|merged| - 1], merged[|merged| - 1];
      var lastEnd := WrapAdd(last.offset, last.length);
      var rangeEnd := WrapAdd(r.offset, r.length);
      if r.offset <= lastEnd
      then init + [Range(last.offset, (Max(rangeEnd, lastEnd) - last.offset) % TWO_64)]
      else merged + [r]
  }

  lemma AbsorbAgrees(merged: seq<Range>, r: Range)
    requires Fits(r) && (merged != [] ==> Fits(merged[|merged| - 1]))
    ensures AbsorbWrapping(merged, r) == Absorb(merged, r)
    ensures r.length > 0 ==> AbsorbChecked(merged, r) == Some(Absorb(merged, r))
  {
    if merged != [] { EndsAgree(merged[|merged| - 1], r); }
  }

  lemma EndsAgree(last: Range, r: Range)
    requires Fits(last) && Fits(r)
    ensures WrapAdd(last.offset, last.length) == last.End() && WrapAdd(r.offset, r.length) == r.End()
    ensures CheckedAdd(last.offset, last.length) == Some(last.End()) && CheckedAdd(r.offset, r.length) == Some(r.End())
    ensures (Max(r.End(), last.End()) - last.offset) % TWO_64 == Max(r.End(), last.End()) - last.offset
  {
  }

  function OffsetOrder(): (Range, Range) -> bool {
    (a: Range, b: Range) => a.offset <= b.offset
  }

  /** `sort_by_key(|range| range.offset)`. */
  function SortByOffset(rs: seq<Range>): seq<Range> {
    Sorting.Sort(rs, OffsetOrder())
  }

  lemma SortByOffsetSorts(rs: seq<Range>)
    ensures SortedByOffset(SortByOffset(rs))
    ensures |SortByOffset(rs)| == |rs|
    ensures forall x :: x in SortByOffset(rs) <==> x in rs
  {
    Sorting.SortSorts(rs, OffsetOrder());
    Sorting.SortMembers(rs, OffsetOrder());
    Sorting.SortPermutes(rs, OffsetOrder());
    var s := SortByOffset(rs);
    forall i, j | 0 <= i < j < |s| ensures s[i].offset <= s[j].offset {
      assert OffsetOrder()(s[i], s[j]);
    }
  }

  /** What both merge loops produce from positive ranges that end inside 64 bits. */
  ghost function MergeOf(rs: seq<Range>): seq<Range> {
    Merged(SortByOffset(rs))
  }

  /**
    Merging is a canonical form: sorted with strict gaps, covering exactly the same bytes,
    and staying inside 64 bits.
   */
  lemma MergeIsCanonical(rs: seq<Range>)
    ensures Canonical(MergeOf(rs)) && SameCover(MergeOf(rs), rs)
    ensures AllFit(rs) ==> AllFit(MergeOf(rs))
  {
    SortByOffsetSorts(rs);
    var sorted := SortByOffset(rs);
    MergedCanonical(sorted);
    forall p ensures Covers(MergeOf(rs), p) <==> Covers(rs, p) {
      MergedCover(sorted, p);
    }
    if AllFit(rs) { MergedFits(sorted); }
  }

  /** Two inputs merge to the same list exactly when they cover the same bytes. */
  lemma MergeEqualIffSameCover(a: seq<Range>, b: seq<Range>)
    ensures MergeOf(a) == MergeOf(b) <==> SameCover(a, b)
  {
    MergeIsCanonical(a);
    MergeIsCanonical(b);
    CanonicalUnique(MergeOf(a), MergeOf(b));
    assert SameCover(a, b) <==> SameCover(MergeOf(a), MergeOf(b));
  }

  /**
    `chunk.rs` merge: every end is computed with `checked_add`. The result covers the same bytes;
    without empty ranges, which both callers have rejected, it is the canonical form.
   */
  method MergeChecked(ranges: seq<Range>) returns (r: Result<seq<Range>, RangeError>)
    ensures r.Err? <==> |ranges| >= 2 && !AllFit(ranges)
    ensures r.Ok? ==> SameCover(r.value, ranges)
    ensures r.Ok? && AllPositive(ranges) ==> r.value == MergeOf(ranges)
  {
    SortByOffsetSorts(ranges);
    var sorted := SortByOffset(ranges);
    ghost var positive := AllPositive(ranges);
    var merged: seq<Range> := [];
    var i := 0;
    while i < |sorted|
      invariant 0 <= i <= |sorted|
      invariant MergedSoFar(sorted, i, merged)
      invariant positive ==> merged == Merged(sorted[..i])
    {
      CheckedStep(sorted, i, merged);
      if positive {
        assert sorted[i] in sorted;
        CheckedIsAbsorb(sorted, i, merged);
      }
      var step := AbsorbChecked(merged, sorted[i]);
      if step.None? {
        assert sorted[i] in sorted && sorted[0] in sorted;
        return Err(Overflow);
      }
      merged := step.value;
      i := i + 1;
    }
    assert sorted[..i] == sorted;
    r := Ok(merged);
  }

  /** What the checked loop has after `i` ranges: their bytes, and no end past 64 bits unless alone. */
  ghost predicate MergedSoFar(sorted: seq<Range>, i: nat, merged: seq<Range>)
    requires i <= |sorted|
  {
    && SameCover(merged, sorted[..i])
    && (i == 0 ==> merged == []) && (i == 1 ==> merged == [sorted[0]])
    && (i >= 1 ==> merged != [] && merged[|merged| - 1].offset <= sorted[i - 1].offset)
    && (i >= 2 ==> AllFit(sorted[..i]) && Fits(merged[|merged| - 1]))
  }

  lemma CheckedCover(merged: seq<Range>, r: Range, p: int)
    requires AbsorbChecked(merged, r).Some? && (merged != [] ==> merged[|merged| - 1].offset <= r.offset)
    ensures Covers(AbsorbChecked(merged, r).value, p) <==> Covers(merged, p) || r.Has(p)
  {
    if merged == [] {
      AppendCover([], r, p);
      assert [] + [r] == [r];
    } else {
      var init, last := merged[..|merged| - 1], merged[|merged| - 1];
      assert merged == init + [last];
      AppendCover(init, last, p);
      AppendCover(init, Range(last.offset, Max(r.End(), last.End()) - last.offset), p);
      AppendCover(merged, r, p);
    }
  }

  lemma CheckedStep(sorted: seq<Range>, i: nat, merged: seq<Range>)
    requires i < |sorted| && SortedByOffset(sorted) && MergedSoFar(sorted, i, merged)
    ensures var step := AbsorbChecked(merged, sorted[i]);
            if step.Some? then MergedSoFar(sorted, i + 1, step.value)
            else i >= 1 && (!Fits(sorted[i]) || !Fits(sorted[0]))
  {
    var step := AbsorbChecked(merged, sorted[i]);
    assert sorted[..i + 1] == sorted[..i] + [sorted[i]];
    if step.Some? {
      if i >= 1 { assert sorted[i - 1].offset <= sorted[i].offset; }
      forall p ensures Covers(step.value, p) <==> Covers(sorted[..i + 1], p) {
        CheckedCover(merged, sorted[i], p);
        AppendCover(sorted[..i], sorted[i], p);
      }
    }
  }

  lemma CheckedIsAbsorb(sorted: seq<Range>, i: nat, merged: seq<Range>)
    requires i < |sorted| && sorted[i].length > 0 && merged == Merged(sorted[..i]) && MergedSoFar(sorted, i, merged)
    ensures AbsorbChecked(merged, sorted[i]).Some? ==> AbsorbChecked(merged, sorted[i]).value == Merged(sorted[..i + 1])
  {
    MergedNext(sorted, i);
  }

  /** The wrapping merge of sorted ranges, whatever their ends. */
  function MergedWrapping(sorted: seq<Range>): seq<Range> {
    if sorted == [] then []
    else AbsorbWrapping(MergedWrapping(sorted[..|sorted| - 1]), sorted[|sorted| - 1])
  }

  lemma {:induction false} WrappingIsMerged(sorted: seq<Range>)
    requires AllFit(sorted)
    ensures MergedWrapping(sorted) == Merged(sorted)
  {
    if sorted != [] {
      var n := |sorted| - 1;
      WrappingIsMerged(sorted[..n]);
      MergedFits(sorted[..n]);
      AbsorbAgrees(Merged(sorted[..n]), sorted[n]);
    }
  }

  /**
    `manifest.rs` merge: plain `+` and `-`, which wrap, and empty ranges are skipped. On ranges
    that end inside 64 bits it is the canonical form.
   */
  method MergeWrapping(ranges: seq<Range>) returns (merged: seq<Range>)
    ensures merged == MergedWrapping(SortByOffset(ranges))
    ensures AllFit(ranges) ==> merged == MergeOf(ranges)
  {
    var sorted := SortByOffset(ranges);
    merged := [];
    var i := 0;
    while i < |sorted|
      invariant 0 <= i <= |sorted|
      invariant merged == MergedWrapping(sorted[..i])
    {
      assert sorted[..i + 1][..i] == sorted[..i];
      merged := AbsorbWrapping(merged, sorted[i]);
      i := i + 1;
    }
    assert sorted[..i] == sorted;
    if AllFit(ranges) {
      SortByOffsetSorts(ranges);
      WrappingIsMerged(sorted);
    }
  }

  // ----- the chunk grid -----

  /** The fixed-size chunks from `offset` to the end of the file. */
  function GridFrom(offset: nat, size: nat, chunkSize: nat): seq<Range>
    requires chunkSize > 0
    decreases size - offset
  {
    if offset >= size then []
    else
      var length := Min(chunkSize, size - offset);
      [Range(offset, length)] + GridFrom(offset + length, size, chunkSize)
  }

  function Grid(size: nat, chunkSize: nat): seq<Range>
    requires chunkSize > 0
  {
    GridFrom(0, size, chunkSize)
  }

  /** Chunk `k` of a grid starts where chunk `k - 1` ended, `k` chunk sizes in. */
  lemma {:induction false} GridAt(offset: nat, size: nat, chunkSize: nat, k: nat)
    requires chunkSize > 0 && k < |GridFrom(offset, size, chunkSize)|
    ensures var r := GridFrom(offset, size, chunkSize)[k];
            && r.offset == offset + k * chunkSize && r.offset < size
            && r.length == Min(chunkSize, size - r.offset) && r.length > 0
    decreases k
  {
    if k > 0 {
      var length := Min(chunkSize, size - offset);
      GridAt(offset + length, size, chunkSize, k - 1);
      assert length == chunkSize;
      assert chunkSize + (k - 1) * chunkSize == k * chunkSize;
    }
  }

  /** Every byte of the file lies in some chunk of the grid. */
  lemma {:induction false} GridCovers(offset: nat, size: nat, chunkSize: nat, p: int)
    requires chunkSize > 0
    ensures Covers(GridFrom(offset, size, chunkSize), p) <==> offset <= p < size
    decreases size - offset
  {
    if offset < size {
      var r := Range(offset, Min(chunkSize, size - offset));
      var tail := GridFrom(r.End(), size, chunkSize);
      GridCovers(r.End(), size, chunkSize, p);
      ConsCover(r, tail, p);
    }
  }

  lemma ConsCover(r: Range, rs: seq<Range>, p: int)
    ensures Covers([r] + rs, p) <==> r.Has(p) || Covers(rs, p)
  {
    if r.Has(p) { assert r in [r] + rs; }
    if Covers(rs, p) {
      var s :| s in rs && s.Has(p);
      assert s in [r] + rs;
    }
  }

  lemma DivStep(n: nat, d: nat)
    requires d > 0 && n >= d
    ensures (n + d - 1) / d == (n - d + d - 1) / d + 1
  {
    var a := n - 1;
    assert (a + d) / d == a / d + 1 by {
      var q, m := a / d, a % d;
      assert a + d == (q + 1) * d + m;
      DivUnique(a + d, d, q + 1, m);
    }
  }

  /** The grid has exactly `size.div_ceil(chunk_size)` chunks. */
  lemma {:induction false} GridCount(offset: nat, size: nat, chunkSize: nat)
    requires chunkSize > 0 && offset <= size
    ensures |GridFrom(offset, size, chunkSize)| == (size - offset + chunkSize - 1) / chunkSize
    decreases size - offset
  {
    var n := size - offset;
    if n == 0 {
      DivUnique(chunkSize - 1, chunkSize, 0, chunkSize - 1);
    } else if n <= chunkSize {
      DivUnique(n + chunkSize - 1, chunkSize, 1, n - 1);
    } else {
      GridCount(offset + chunkSize, size, chunkSize);
      DivStep(n, chunkSize);
    }
  }

  /** `plan_chunks`: the grid, computed by advancing an offset that never leaves 64 bits. */
  method PlanChunks(fileSize: U64, chunkSize: U64) returns (r: Result<seq<Range>, RangeError>)
    ensures r.Err? <==> chunkSize == 0
    ensures r.Ok? ==> r.value == Grid(fileSize, chunkSize)
  {
    if chunkSize == 0 {
      return Err(ZeroChunkSize);
    }
    var chunks: seq<Range> := [];
    var offset: U64 := 0;
    while offset < fileSize
      invariant offset <= fileSize
      invariant chunks + GridFrom(offset, fileSize, chunkSize) == Grid(fileSize, chunkSize)
    {
      var length := Min(chunkSize, fileSize - offset);
      chunks := chunks + [Range(offset, length)];
      offset := offset + length;
    }
    r := Ok(chunks);
  }

  // ----- what is still missing -----

  ghost predicate Whole(r: Range, rs: seq<Range>) {
    forall p :: r.Has(p) ==> Covers(rs, p)
  }

  /** The grid chunks that have at least one uncovered byte, in order. */
  ghost function MissingOf(grid: seq<Range>, rs: seq<Range>): seq<Range> {
    if grid == [] then []
    else (if Whole(grid[0], rs) then [] else [grid[0]]) + MissingOf(grid[1..], rs)
  }

  ghost function Missing(size: nat, chunkSize: nat, rs: seq<Range>): seq<Range>
    requires chunkSize > 0
  {
    MissingOf(Grid(size, chunkSize), rs)
  }

  /** A grid chunk is listed exactly when some byte of it is uncovered. */
  lemma {:induction false} MissingMembers(grid: seq<Range>, rs: seq<Range>, r: Range)
    ensures r in MissingOf(grid, rs) <==> r in grid && exists p :: r.Has(p) && !Covers(rs, p)
  {
    if grid != [] {
      MissingMembers(grid[1..], rs, r);
      assert grid == [grid[0]] + grid[1..];
    }
  }

  /** Only the coverage of the verified ranges matters, not how it is cut. */
  lemma {:induction false} MissingByCover(grid: seq<Range>, a: seq<Range>, b: seq<Range>)
    requires SameCover(a, b)
    ensures MissingOf(grid, a) == MissingOf(grid, b)
  {
    if grid != [] { MissingByCover(grid[1..], a, b); }
  }

  /** `range_fully_covered` of `chunk.rs`: false when an end overflows. */
  predicate FullyCoveredChecked(r: Range, verified: seq<Range>) {
    CheckedAdd(r.offset, r.length).Some? &&
    exists v :: v in verified && v.offset <= r.offset &&
      CheckedAdd(v.offset, v.length).Some? && v.End() >= r.End()
  }

  /** `range_fully_covered` of `manifest.rs`: both ends wrap. */
  predicate FullyCoveredWrapping(r: Range, verified: seq<Range>) {
    exists v :: v in verified && v.offset <= r.offset &&
      WrapAdd(v.offset, v.length) >= WrapAdd(r.offset, r.length)
  }

  lemma {:induction false} ContiguousInOne(merged: seq<Range>, v: Range, r: Range, q: nat)
    requires Canonical(merged) && v in merged && v.Has(r.offset) && r.offset <= q < r.End()
    requires Whole(r, merged)
    ensures v.Has(q)
    decreases q
  {
    if q > r.offset {
      ContiguousInOne(merged, v, r, q - 1);
      var i :| 0 <= i < |merged| && merged[i] == v;
      CanonicalGap(merged, i);
      assert Covers(merged, q);
    }
  }

  predicate InsideOne(r: Range, verified: seq<Range>) {
    exists v :: v in verified && v.offset <= r.offset && v.End() >= r.End()
  }

  /** On a canonical list, one range contains the chunk iff every byte of it is covered. */
  lemma InsideOneIffWhole(r: Range, merged: seq<Range>)
    requires Canonical(merged) && r.length > 0
    ensures InsideOne(r, merged) <==> Whole(r, merged)
  {
    if Whole(r, merged) {
      assert r.Has(r.offset);
      var v :| v in merged && v.Has(r.offset);
      ContiguousInOne(merged, v, r, r.End() - 1);
    }
    if InsideOne(r, merged) {
      var v :| v in merged && v.offset <= r.offset && v.End() >= r.End();
      forall p | r.Has(p) ensures Covers(merged, p) { assert v.Has(p); }
    }
  }

  lemma WrapFits(r: Range)
    requires Fits(r)
    ensures WrapAdd(r.offset, r.length) == r.End()
  {
  }

  lemma FullyCoveredIffWhole(r: Range, merged: seq<Range>)
    requires Canonical(merged) && AllFit(merged) && r.length > 0 && Fits(r)
    ensures FullyCoveredChecked(r, merged) <==> Whole(r, merged)
    ensures FullyCoveredWrapping(r, merged) <==> Whole(r, merged)
  {
    InsideOneIffWhole(r, merged);
    WrapFits(r);
    forall v | v in merged ensures WrapAdd(v.offset, v.length) == v.End() { WrapFits(v); }
    assert FullyCoveredChecked(r, merged) <==> InsideOne(r, merged);
    assert FullyCoveredWrapping(r, merged) <==> InsideOne(r, merged);
  }

  // ----- the public planning functions -----

  ghost predicate Within(size: nat, rs: seq<Range>) {
    forall r :: r in rs ==> r.length > 0 && r.End() <= size
  }

  /** Every byte of the file is covered. */
  ghost predicate Complete(size: nat, rs: seq<Range>) {
    forall p :: 0 <= p < size ==> Covers(rs, p)
  }

  lemma WithinCovers(size: nat, rs: seq<Range>, p: int)
    requires Within(size, rs) && Covers(rs, p)
    ensures 0 <= p < size
  {
  }

  function Problem(size: nat, r: Range): Option<RangeError> {
    if r.length == 0 then Some(EmptyRange)
    else if CheckedAdd(r.offset, r.length).None? then Some(Overflow)
    else if r.End() > size then Some(PastEnd)
    else None
  }

  /** `validate_verified_ranges`: the first offending range decides the error. */
  method ValidateRanges(fileSize: U64, ranges: seq<Range>) returns (r: Option<RangeError>)
    ensures r.None? <==> Within(fileSize, ranges)
    ensures r.Some? ==> exists i :: 0 <= i < |ranges| && Problem(fileSize, ranges[i]) == r &&
                          Within(fileSize, ranges[..i])
  {
    for i := 0 to |ranges|
      invariant Within(fileSize, ranges[..i])
    {
      var problem := Problem(fileSize, ranges[i]);
      if problem.Some? {
        assert ranges[i] in ranges;
        return problem;
      }
      assert ranges[..i + 1] == ranges[..i] + [ranges[i]];
    }
    assert ranges[..|ranges|] == ranges;
    r := None;
  }

  lemma WithinFits(size: U64, rs: seq<Range>)
    requires Within(size, rs)
    ensures AllFit(rs) && AllPositive(rs)
  {
  }

  lemma GridFits(size: U64, chunkSize: nat)
    requires chunkSize > 0
    ensures Within(size, Grid(size, chunkSize)) && AllFit(Grid(size, chunkSize))
  {
    var g := Grid(size, chunkSize);
    forall r | r in g ensures r.length > 0 && r.End() <= size {
      var k :| 0 <= k < |g| && g[k] == r;
      GridAt(0, size, chunkSize, k);
    }
    WithinFits(size, g);
  }

  lemma MissingNext(grid: seq<Range>, i: nat, rs: seq<Range>)
    requires i < |grid|
    ensures MissingOf(grid[..i + 1], rs) ==
            MissingOf(grid[..i], rs) + if Whole(grid[i], rs) then [] else [grid[i]]
    decreases i
  {
    if i == 0 {
      assert grid[..1] == [grid[0]];
    } else {
      MissingNext(grid[1..], i - 1, rs);
      assert grid[..i + 1][1..] == grid[1..][..i] && grid[..i][1..] == grid[1..][..i - 1];
    }
  }

  /** `plan_missing_chunks`: the filter over the grid, in checked arithmetic. */
  method PlanMissingChunks(fileSize: U64, chunkSize: U64, verified: seq<Range>)
      returns (r: Result<seq<Range>, RangeError>)
    ensures r.Err? <==> !Within(fileSize, verified) || chunkSize == 0
    ensures r.Ok? ==> r.value == Missing(fileSize, chunkSize, verified)
  {
    var problem := ValidateRanges(fileSize, verified);
    if problem.Some? { return Err(problem.value); }
    WithinFits(fileSize, verified);
    var merge := MergeChecked(verified);
    var merged := merge.value;
    var plan := PlanChunks(fileSize, chunkSize);
    if plan.Err? { return plan; }
    var chunks := plan.value;
    GridFits(fileSize, chunkSize);
    MergeIsCanonical(verified);
    var missing: seq<Range> := [];
    for i := 0 to |chunks|
      invariant missing == MissingOf(chunks[..i], merged)
    {
      MissingNext(chunks, i, merged);
      assert chunks[i] in chunks;
      FullyCoveredIffWhole(chunks[i], merged);
      if !FullyCoveredChecked(chunks[i], merged) { missing := missing + [chunks[i]]; }
    }
    assert chunks[..|chunks|] == chunks;
    MissingByCover(chunks, merged, verified);
    r := Ok(missing);
  }

  /** The plan from `offset` on is this chunk, unless it is covered, and then the rest. */
  /**
    `missing_ranges_for` of `manifest.rs`, in unchecked arithmetic; its caller has rejected
    a zero chunk size. On ranges that end inside 64 bits it is the same plan.
   */
  method MissingRangesFor(fileSize: U64, chunkSize: U64, verified: seq<Range>) returns (missing: seq<Range>)
    requires chunkSize > 0
    ensures missing == Unmet(Grid(fileSize, chunkSize), MergedWrapping(SortByOffset(verified)))
    ensures AllFit(verified) ==> missing == Missing(fileSize, chunkSize, verified)
  {
    var merged := MergeWrapping(verified);
    missing := MissingLoop(fileSize, chunkSize, merged);
    if AllFit(verified) {
      MergeIsCanonical(verified);
      GridFits(fileSize, chunkSize);
      UnmetIsMissing(Grid(fileSize, chunkSize), merged);
      MissingByCover(Grid(fileSize, chunkSize), merged, verified);
    }
  }

  /** The chunks that the wrapping test does not find covered. */
  function Unmet(grid: seq<Range>, merged: seq<Range>): seq<Range> {
    if grid == [] then []
    else (if FullyCoveredWrapping(grid[0], merged) then [] else [grid[0]]) + Unmet(grid[1..], merged)
  }

  lemma {:induction false} UnmetIsMissing(grid: seq<Range>, merged: seq<Range>)
    requires Canonical(merged) && AllFit(merged) && AllFit(grid) && AllPositive(grid)
    ensures Unmet(grid, merged) == MissingOf(grid, merged)
  {
    if grid != [] {
      assert grid[0] in grid;
      FullyCoveredIffWhole(grid[0], merged);
      UnmetIsMissing(grid[1..], merged);
    }
  }

  lemma UnmetNext(offset: nat, size: nat, chunkSize: nat, merged: seq<Range>)
    requires chunkSize > 0 && offset < size
    ensures var r := Range(offset, Min(chunkSize, size - offset));
            Unmet(GridFrom(offset, size, chunkSize), merged) ==
            (if FullyCoveredWrapping(r, merged) then [] else [r]) + Unmet(GridFrom(r.End(), size, chunkSize), merged)
  {
    var r := Range(offset, Min(chunkSize, size - offset));
    assert GridFrom(offset, size, chunkSize)[1..] == GridFrom(r.End(), size, chunkSize);
  }

  /** The loop of `missing_ranges_for` over the merged ranges. */
  method MissingLoop(fileSize: U64, chunkSize: U64, merged: seq<Range>) returns (missing: seq<Range>)
    requires chunkSize > 0
    ensures missing == Unmet(Grid(fileSize, chunkSize), merged)
  {
    missing := [];
    var offset: U64 := 0;
    ghost var rest := Unmet(Grid(fileSize, chunkSize), merged);
    while offset < fileSize
      invariant offset <= fileSize && rest == Unmet(GridFrom(offset, fileSize, chunkSize), merged)
      invariant missing + rest == Unmet(Grid(fileSize, chunkSize), merged)
    {
      var chunk := Range(offset, Min(chunkSize, fileSize - offset));
      UnmetNext(offset, fileSize, chunkSize, merged);
      rest := Unmet(GridFrom(chunk.End(), fileSize, chunkSize), merged);
      if !FullyCoveredWrapping(chunk, merged) {
        JoinAssociates(missing, [chunk], rest);
        missing := missing + [chunk];
      } else {
        assert [] + rest == rest;
      }
      WrapFits(chunk);
      offset := WrapAdd(offset, chunk.length);
    }
  }

  /** A merged list is the single range `[0, size)` iff exactly the file's bytes are covered. */
  lemma MergedIsWholeFile(size: nat, rs: seq<Range>)
    requires size > 0
    ensures MergeOf(rs) == [Range(0, size)] <==> forall p :: Covers(rs, p) <==> 0 <= p < size
  {
    var whole := [Range(0, size)];
    MergeIsCanonical(rs);
    CanonicalUnique(MergeOf(rs), whole);
    forall p ensures Covers(whole, p) <==> 0 <= p < size {
      if 0 <= p < size { assert whole[0] in whole && whole[0].Has(p); }
    }
  }

  /** `ranges_cover_file`: true iff every byte of the file is covered. */
  method RangesCoverFile(fileSize: U64, verified: seq<Range>) returns (r: Result<bool, RangeError>)
    ensures r.Err? <==> !Within(fileSize, verified)
    ensures r.Ok? ==> (r.value <==> Complete(fileSize, verified))
  {
    var problem := ValidateRanges(fileSize, verified);
    if problem.Some? { return Err(problem.value); }
    if fileSize == 0 { return Ok(true); }
    WithinFits(fileSize, verified);
    MergedIsWholeFile(fileSize, verified);
    var merged := MergeChecked(verified);
    r := Ok(merged.value == [Range(0, fileSize)]);
    forall p | Covers(verified, p) ensures 0 <= p < fileSize { WithinCovers(fileSize, verified, p); }
  }

  /** `ranges_cover` of `manifest.rs`: on ranges that end inside 64 bits, exactly the file's bytes are covered. */
  method RangesCover(size: U64, ranges: seq<Range>) returns (b: bool)
    ensures AllFit(ranges) ==> (b <==> size == 0 || forall p :: Covers(ranges, p) <==> 0 <= p < size)
    ensures Within(size, ranges) ==> (b <==> Complete(size, ranges))
  {
    if size == 0 { return true; }
    var merged := MergeWrapping(ranges);
    b := merged == [Range(0, size)];
    MergedIsWholeFile(size, ranges);
    if Within(size, ranges) {
      WithinFits(size, ranges);
      forall p | Covers(ranges, p) ensures 0 <= p < size { WithinCovers(size, ranges, p); }
    }
  }
}
