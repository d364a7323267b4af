/**
  Resume makes progress: recording chunks taken from the missing plan never loses coverage
  although a row at the same offset is replaced, and recording the whole plan completes the
  file.
 */
module Progress {
  import opened Prelude
  import opened Ranges
  import opened Manifest

  /** No stored row that a range of `plan` would replace reaches further than that range. */
  ghost predicate Growing(rows: seq<ChunkRow>, plan: seq<Range>) {
    forall r, c :: r in plan && c in rows && c.ToRange().offset == r.offset ==> c.ToRange().End() <= r.End()
  }

  ghost predicate DistinctOffsets(plan: seq<Range>) {
    forall i, j :: 0 <= i < j < |plan| ==> plan[i].offset < plan[j].offset
  }

  function RecordAll(rows: seq<ChunkRow>, plan: seq<Range>): seq<ChunkRow>
    requires AllFit(plan)
    decreases |plan|
  {
    if plan == [] then rows
    else
      assert Fits(plan[0]);
      RecordAll(Upsert(rows, RowOf(plan[0].offset, plan[0].length)), plan[1..])
  }

  lemma RecordOneGrows(rows: seq<ChunkRow>, r: Range, p: int)
    requires SortedRows(rows) && Fits(r) && Growing(rows, [r])
    ensures Covers(ToRanges(rows), p) || r.Has(p) ==>
              Covers(ToRanges(Upsert(rows, RowOf(r.offset, r.length))), p)
  {
    UpsertCover(rows, r.offset, r.length, p);
    if Covers(ToRanges(rows), p) {
      var s :| s in ToRanges(rows) && s.Has(p);
      ToRangesMembers(rows, s);
      var c :| c in rows && c.ToRange() == s;
      assert r in [r];
    }
  }

  lemma GrowingNext(rows: seq<ChunkRow>, plan: seq<Range>)
    requires SortedRows(rows) && plan != [] && Fits(plan[0]) && Growing(rows, plan) && DistinctOffsets(plan)
    ensures Growing(Upsert(rows, RowOf(plan[0].offset, plan[0].length)), plan[1..])
    ensures Growing(rows, [plan[0]])
  {
    var row := RowOf(plan[0].offset, plan[0].length);
    forall r, c | r in plan[1..] && c in Upsert(rows, row) && c.ToRange().offset == r.offset
      ensures c.ToRange().End() <= r.End()
    {
      var i :| 0 <= i < |plan[1..]| && plan[1..][i] == r;
      assert plan[0].offset < plan[i + 1].offset;
      UpsertMembers(rows, row, c);
      assert r in plan;
    }
    assert plan[0] in plan;
  }

  lemma {:induction false} RecordAllGrows(rows: seq<ChunkRow>, plan: seq<Range>, p: int)
    requires SortedRows(rows) && AllFit(plan) && Growing(rows, plan) && DistinctOffsets(plan)
    requires Covers(ToRanges(rows), p) || Covers(plan, p)
    ensures Covers(ToRanges(RecordAll(rows, plan)), p)
    decreases |plan|
  {
    if plan != [] {
      assert plan[0] in plan;
      var rows' := Upsert(rows, RowOf(plan[0].offset, plan[0].length));
      GrowingNext(rows, plan);
      UpsertSorted(rows, RowOf(plan[0].offset, plan[0].length));
      RecordOneGrows(rows, plan[0], p);
      if Covers(plan, p) {
        ConsCover(plan[0], plan[1..], p);
        assert plan == [plan[0]] + plan[1..];
      }
      RecordAllGrows(rows', plan[1..], p);
    }
  }

  /** A planned chunk reaches past any row stored at its offset. */
  lemma PlannedReachesFurther(rows: seq<ChunkRow>, r: Range, c: ChunkRow)
    requires !Whole(r, ToRanges(rows)) && c in rows && c.ToRange().offset == r.offset
    ensures c.ToRange().End() < r.End()
  {
    ToRangesMembers(rows, c.ToRange());
    var p :| r.Has(p) && !Covers(ToRanges(rows), p);
    assert !c.ToRange().Has(p);
  }

  lemma {:induction false} MissingSorted(offset: nat, size: nat, chunkSize: nat, rs: seq<Range>)
    requires chunkSize > 0
    ensures var m := MissingOf(GridFrom(offset, size, chunkSize), rs);
            && DistinctOffsets(m)
            && forall r :: r in m ==> r.offset >= offset && r.length > 0 && r.End() <= size && !Whole(r, rs)
    decreases size - offset
  {
    if offset < size {
      var r := Range(offset, Min(chunkSize, size - offset));
      MissingSorted(r.End(), size, chunkSize, rs);
      var m := MissingOf(GridFrom(r.End(), size, chunkSize), rs);
      assert GridFrom(offset, size, chunkSize)[1..] == GridFrom(r.End(), size, chunkSize);
      assert forall i :: 0 <= i < |m| ==> m[i] in m;
    }
  }

  lemma PlanGrowing(rows: seq<ChunkRow>, size: U64, chunkSize: nat)
    requires chunkSize > 0
    ensures var plan := Missing(size, chunkSize, ToRanges(rows));
            && DistinctOffsets(plan) && Within(size, plan) && AllFit(plan) && Growing(rows, plan)
  {
    var plan := Missing(size, chunkSize, ToRanges(rows));
    MissingSorted(0, size, chunkSize, ToRanges(rows));
    WithinFits(size, plan);
    forall r, c | r in plan && c in rows && c.ToRange().offset == r.offset
      ensures c.ToRange().End() <= r.End()
    {
      PlannedReachesFurther(rows, r, c);
    }
  }

  /** Recording every chunk of the plan, in order, completes the file. */
  lemma PlanCompletes(rows: seq<ChunkRow>, size: U64, chunkSize: nat)
    requires chunkSize > 0 && SortedRows(rows)
    ensures var plan := Missing(size, chunkSize, ToRanges(rows));
            AllFit(plan) && Complete(size, ToRanges(RecordAll(rows, plan)))
  {
    PlanGrowing(rows, size, chunkSize);
    var rs := ToRanges(rows);
    var plan := Missing(size, chunkSize, rs);
    forall p | 0 <= p < size ensures Covers(ToRanges(RecordAll(rows, plan)), p) {
      GridCovers(0, size, chunkSize, p);
      var g :| g in Grid(size, chunkSize) && g.Has(p);
      MissingMembers(Grid(size, chunkSize), rs, g);
      if !Covers(rs, p) { assert g in plan; }
      RecordAllGrows(rows, plan, p);
    }
  }

  ghost function Uncovered(size: nat, rs: seq<Range>): set<int> {
    set p | 0 <= p < size && !Covers(rs, p)
  }

  /**
    Recording one chunk of the missing plan never uncovers a byte and strictly lowers the
    number of uncovered bytes.
   */
  lemma PlannedChunkProgresses(rows: seq<ChunkRow>, size: U64, chunkSize: nat, r: Range)
    requires chunkSize > 0 && SortedRows(rows) && r in Missing(size, chunkSize, ToRanges(rows))
    ensures Fits(r)
    ensures var rs' := ToRanges(Upsert(rows, RowOf(r.offset, r.length)));
            && (forall p :: Covers(ToRanges(rows), p) ==> Covers(rs', p))
            && |Uncovered(size, rs')| < |Uncovered(size, ToRanges(rows))|
  {
    PlanGrowing(rows, size, chunkSize);
    MissingSorted(0, size, chunkSize, ToRanges(rows));
    var rs, rs' := ToRanges(rows), ToRanges(Upsert(rows, RowOf(r.offset, r.length)));
    forall p ensures (Covers(rs, p) ==> Covers(rs', p)) && (r.Has(p) ==> Covers(rs', p)) {
      RecordOneGrows(rows, r, p);
    }
    var q :| r.Has(q) && !Covers(rs, q);
    assert q in Uncovered(size, rs) && q !in Uncovered(size, rs');
    assert Uncovered(size, rs') <= Uncovered(size, rs) - {q};
    SubsetSize(Uncovered(size, rs'), Uncovered(size, rs) - {q});
  }

  /**
    Why the plan matters: a chunk that is not from the plan can uncover bytes. Recording
    `[0, 4)` over a row for `[0, 8)` leaves byte 5 uncovered.
   */
  lemma UnplannedChunkCanUncover()
    ensures var rows := [RowOf(0, 8)];
            && Covers(ToRanges(rows), 5) && !Covers(ToRanges(Upsert(rows, RowOf(0, 4))), 5)
  {
    var rows := [RowOf(0, 8)];
    assert ToRanges(rows)[0] in ToRanges(rows);
    UpsertCover(rows, 0, 4, 5);
  }

  ghost predicate CoveredElsewhere(rows: seq<ChunkRow>, offset: nat, p: int) {
    exists d :: d in rows && d.ToRange().offset != offset && d.ToRange().Has(p)
  }

  /**
    Exactly when recording keeps coverage: every byte of the replaced row past the new end
    is covered by a row at another offset.
   */
  lemma RecordKeepsCoverIff(rows: seq<ChunkRow>, r: Range)
    requires SortedRows(rows) && Fits(r)
    ensures (forall p :: Covers(ToRanges(rows), p) ==>
                           Covers(ToRanges(Upsert(rows, RowOf(r.offset, r.length))), p)) <==>
            (forall c, p :: c in rows && c.ToRange().offset == r.offset && c.ToRange().Has(p) && p >= r.End() ==>
                              CoveredElsewhere(rows, r.offset, p))
  {
    var rs' := ToRanges(Upsert(rows, RowOf(r.offset, r.length)));
    forall p ensures Covers(rs', p) <==> r.Has(p) || CoveredElsewhere(rows, r.offset, p) {
      UpsertCover(rows, r.offset, r.length, p);
    }
    forall c, p | c in rows && c.ToRange().Has(p) ensures Covers(ToRanges(rows), p) {
      ToRangesMembers(rows, c.ToRange());
    }
    forall p | Covers(ToRanges(rows), p) ensures exists c :: c in rows && c.ToRange().Has(p) {
      var s :| s in ToRanges(rows) && s.Has(p);
      ToRangesMembers(rows, s);
    }
    if forall p :: Covers(ToRanges(rows), p) ==> Covers(rs', p) {
      forall c, p | c in rows && c.ToRange().offset == r.offset && c.ToRange().Has(p) && p >= r.End()
        ensures CoveredElsewhere(rows, r.offset, p)
      {
        assert Covers(ToRanges(rows), p);
      }
    } else {
      var p :| Covers(ToRanges(rows), p) && !Covers(rs', p);
      var c :| c in rows && c.ToRange().Has(p);
      assert c.ToRange().offset == r.offset;
    }
  }
}
