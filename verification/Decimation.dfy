/**
 * Metric decimation: raw samples below a cutoff are aggregated into archive buckets and deleted,
 * slice by slice (internal/store/metrics_store.go).
 */
module Decimation {
  import opened Grouping

  const SLICE_BUCKETS: nat := 6

  // ---------------------------------------------------------------- one slice

  datatype Tables = Tables(recent: seq<Row>, archive: seq<ArchiveRow>)

  datatype Sliced = Sliced(tables: Tables, done: bool, deleted: nat)

  function MinTs(rows: seq<Row>): (t: int)
    requires rows != []
    ensures exists r :: r in rows && r.ts == t
    ensures forall r :: r in rows ==> t <= r.ts
  {
    if |rows| == 1 then rows[0].ts else
    var t := MinTs(rows[1..]);
    if rows[0].ts < t then rows[0].ts else t
  }

  function SliceEnd(start: int, cutoff: int, b: int): int {
    if start + SLICE_BUCKETS * b > cutoff then cutoff else start + SLICE_BUCKETS * b
  }

  /** The effect of one locked transaction. */
  function Slice(t: Tables, cutoff: int, b: int): Sliced
    requires b > 0
  {
    var below := Filter(t.recent, Before(cutoff));
    if below == [] then Sliced(t, true, 0) else
    var start := Bucket(MinTs(below), b);
    var end := SliceEnd(start, cutoff, b);
    var picked := Filter(t.recent, Within(start, end));
    Sliced(
      Tables(Filter(t.recent, Not(Within(start, end))), t.archive + GroupBy(picked, b)),
      end >= cutoff,
      |picked|)
  }

  function Backlog(t: Tables, cutoff: int): seq<Row> {
    Filter(t.recent, Before(cutoff))
  }

  /** Which rows a slice takes: those from the bucket of the earliest backlog row up to its end. */
  lemma SliceRange(t: Tables, cutoff: int, b: int) returns (first: int, start: int, end: int)
    requires b > 0 && Backlog(t, cutoff) != []
    ensures first == MinTs(Backlog(t, cutoff)) && start == Bucket(first, b) && end == SliceEnd(start, cutoff, b)
    ensures start <= first <==> Aligns(first, b)
    ensures first < end <= cutoff && first < start + SLICE_BUCKETS * b
    ensures exists r :: r in t.recent && r.ts == first
    ensures forall r :: r in t.recent && r.ts < cutoff ==> first <= r.ts
    ensures Slice(t, cutoff, b) == Sliced(
              Tables(Filter(t.recent, Not(Within(start, end))),
                     t.archive + GroupBy(Filter(t.recent, Within(start, end)), b)),
              end >= cutoff, |Filter(t.recent, Within(start, end))|)
  {
    first := MinTs(Backlog(t, cutoff));
    start := Bucket(first, b);
    end := SliceEnd(start, cutoff, b);
    FilterKeeps(t.recent, Before(cutoff));
    AlignsIff(first, b);
    BucketBounds(first, b);
    hide Bucket, GroupBy;
  }

  /**
   * With rows below the cutoff, a slice deletes the earliest of them, and when it reports done has
   * left none behind, exactly if that row's timestamp is not rounded up to its bucket.
   */
  lemma SliceProgressIff(t: Tables, cutoff: int, b: int)
    requires b > 0 && Backlog(t, cutoff) != []
    ensures var s, first := Slice(t, cutoff, b), MinTs(Backlog(t, cutoff));
            && ((forall r :: r in s.tables.recent ==> r.ts != first) <==> Aligns(first, b))
            && (s.done ==> (Backlog(s.tables, cutoff) == [] <==> Aligns(first, b)))
            && (Aligns(first, b) ==> s.deleted > 0)
  {
    var first, start, end := SliceRange(t, cutoff, b);
    var s := Slice(t, cutoff, b);
    hide Slice, GroupBy, Bucket, Aligns, MinTs, SliceEnd;
    FilterKeeps(t.recent, Not(Within(start, end)));
    FilterEmpty(t.recent, Within(start, end));
    FilterEmpty(s.tables.recent, Before(cutoff));
  }

  /** Otherwise every later slice repeats this one without effect: unless it reported done, none ever will. */
  lemma StuckOtherwise(t: Tables, cutoff: int, b: int)
    requires b > 0 && Backlog(t, cutoff) != [] && !Aligns(MinTs(Backlog(t, cutoff)), b)
    ensures var s := Slice(t, cutoff, b);
            Slice(s.tables, cutoff, b) == Sliced(s.tables, s.done, 0)
  {
    var first, start, end := SliceRange(t, cutoff, b);
    var u := Slice(t, cutoff, b).tables;
    assert end == SliceEnd(start, cutoff, b);
    FilterKeeps(t.recent, Not(Within(start, end)));
    hide Slice, Bucket, Aligns, SliceEnd, GroupBy, Filter, MinTs, Backlog;
    SameEarliest(t, u, cutoff);
    NothingPicked(u, start, end, b);
    hide *;
    var first', start', end' := SliceRange(u, cutoff, b);
    assert start' == start && end' == end;
  }

  /** Losing later rows only leaves the earliest backlog row in place. */
  lemma SameEarliest(t: Tables, u: Tables, cutoff: int)
    requires Backlog(t, cutoff) != []
    requires forall r :: r in u.recent ==> r in t.recent
    requires forall r :: r in t.recent && r.ts == MinTs(Backlog(t, cutoff)) ==> r in u.recent
    ensures Backlog(u, cutoff) != [] && MinTs(Backlog(u, cutoff)) == MinTs(Backlog(t, cutoff))
  {
    hide Filter, MinTs;
    FilterKeeps(t.recent, Before(cutoff));
    FilterKeeps(u.recent, Before(cutoff));
    FilterEmpty(u.recent, Before(cutoff));
    var first := MinTs(Backlog(t, cutoff));
    var r :| r in Backlog(t, cutoff) && r.ts == first;
    assert r in Backlog(u, cutoff);
  }

  lemma NothingPicked(t: Tables, start: int, end: int, b: int)
    requires b > 0 && forall r :: r in t.recent ==> !(start <= r.ts < end)
    ensures Filter(t.recent, Within(start, end)) == []
    ensures Tables(Filter(t.recent, Not(Within(start, end))),
                   t.archive + GroupBy(Filter(t.recent, Within(start, end)), b)) == t
  {
    FilterEmpty(t.recent, Within(start, end));
    FilterAll(t.recent, Not(Within(start, end)));
  }

  // ---------------------------------------------------------------- groups cut in two

  /**
   * A slice that ends at `end` takes row `r` and leaves row `s` of the same group behind. Rounding
   * toward zero makes the buckets below 0 open at their lower end, and the one at 0 twice as wide,
   * so this happens at negative ends and at 0.
   */
  predicate Cuts(r: Row, s: Row, end: int, b: int) {
    && r.series == s.series && end <= 0 && end - b < r.ts < end
    && (s.ts == end || (end == 0 && 0 <= s.ts < b))
  }

  /** A multiple of `b` in the open range around 0 is 0. */
  lemma MultipleNearZero(q: int, b: int)
    requires b > 0 && -b < q * b < b
    ensures q == 0
  {
    MulOrder(0, q, b);
    MulOrder(q, 0, b);
  }

  lemma SameMultiple(p: int, q: int, b: int)
    requires b > 0 && -b < p * b - q * b < b
    ensures p == q
  {
    assert (p - q) * b == p * b - q * b;
    MultipleNearZero(p - q, b);
  }

  /** The bucket of a negative timestamp is the next multiple at or above it. */
  lemma NegativeBucketIff(ts: int, q: int, b: int)
    requires b > 0 && ts < 0
    ensures Bucket(ts, b) == q * b <==> q * b - b < ts <= q * b
  {
    BucketBounds(ts, b);
    hide TruncDiv;
    if q * b - b < ts <= q * b {
      SameMultiple(TruncDiv(ts, b), q, b);
    }
  }

  lemma CutIff(r: Row, s: Row, q: int, b: int)
    requires b > 0
    ensures r.ts < q * b <= s.ts && KeyOf(r, b) == KeyOf(s, b) <==> Cuts(r, s, q * b, b)
  {
    var end := q * b;
    if r.ts < end <= s.ts {
      if r.ts >= 0 {
        BucketSide(r.ts, b, q);
        BucketSide(s.ts, b, q);
      } else if s.ts >= 0 {
        CutAtZeroIff(r.ts, s.ts, q, b);
      } else {
        CutBelowZeroIff(r.ts, s.ts, q, b);
      }
    }
  }

  lemma CutAtZeroIff(x: int, y: int, q: int, b: int)
    requires b > 0 && x < 0 <= y && x < q * b <= y
    ensures Bucket(x, b) == Bucket(y, b) <==> q == 0 && -b < x && y < b
  {
    NegativeBucketIff(x, 0, b);
    BucketBounds(x, b);
    BucketBounds(y, b);
    BucketSide(y, b, 1);
    hide TruncDiv;
    if Bucket(x, b) == Bucket(y, b) {
      BucketSigns(x, y, b);
      MultipleNearZero(q, b);
    }
    if y < b && q == 0 {
      BucketSigns(x, y, b);
      MultipleNearZero(TruncDiv(y, b), b);
    }
  }

  lemma BucketSigns(x: int, y: int, b: int)
    requires b > 0 && x < 0 <= y
    ensures Bucket(x, b) <= 0 <= Bucket(y, b)
  {
    assert -(-x / b) <= 0 <= y / b;
    Product(-x / b, b);
    Product(y / b, b);
    assert (-(-x / b)) * b == -((-x / b) * b);
  }

  lemma CutBelowZeroIff(x: int, y: int, q: int, b: int)
    requires b > 0 && x < y < 0 && x < q * b <= y
    ensures Bucket(x, b) == Bucket(y, b) <==> q * b - b < x && y == q * b
  {
    NegativeBucketIff(x, q, b);
    NegativeBucketIff(y, q, b);
    BucketBounds(x, b);
    BucketBounds(y, b);
    hide TruncDiv;
    if Bucket(x, b) == Bucket(y, b) {
      SameMultiple(TruncDiv(x, b), q, b);
    }
  }

  /** The end of a slice that starts at the earliest of `rows`. */
  function EndOf(rows: seq<Row>, cutoff: int, b: int): int
    requires b > 0 && rows != []
  {
    SliceEnd(Bucket(MinTs(rows), b), cutoff, b)
  }

  ghost predicate CutsNone(rows: seq<Row>, end: int, b: int) {
    forall r, s :: r in rows && s in rows ==> !Cuts(r, s, end, b)
  }

  /** The next slice of a backlog starts at its earliest row and ends between groups. */
  ghost predicate Clean(rows: seq<Row>, cutoff: int, b: int)
    requires b > 0
  {
    rows == [] || (Aligns(MinTs(rows), b) && CutsNone(rows, EndOf(rows, cutoff, b), b))
  }

  /** A slice that ends before the cutoff ends at a multiple of the bucket size. */
  lemma EndIsMultiple(first: int, cutoff: int, b: int) returns (q: int)
    requires b > 0
    ensures var end := SliceEnd(Bucket(first, b), cutoff, b); end == cutoff || end == q * b
  {
    q := TruncDiv(first, b) + 6;
    assert q * b == TruncDiv(first, b) * b + 6 * b;
    hide TruncDiv;
  }

  /** Whether some group of a backlog is cut, told by keys or by timestamps. */
  lemma CutsNoneIff(rows: seq<Row>, cutoff: int, b: int)
    requires b > 0 && rows != [] && forall r :: r in rows ==> r.ts < cutoff
    ensures var end := EndOf(rows, cutoff, b);
            CutsNone(rows, end, b) <==>
            forall r, s :: r in rows && s in rows && KeyOf(r, b) == KeyOf(s, b) ==> (r.ts < end <==> s.ts < end)
  {
    var end := EndOf(rows, cutoff, b);
    var q := EndIsMultiple(MinTs(rows), cutoff, b);
    hide KeyOf, EndOf, Cuts;
    forall r, s | r in rows && s in rows
      ensures r.ts < end <= s.ts && KeyOf(r, b) == KeyOf(s, b) <==> Cuts(r, s, end, b)
    {
      if end == q * b {
        CutIff(r, s, q, b);
      } else {
        NoCutAtCutoff(r, s, cutoff, b);
      }
    }
  }

  lemma NoCutAtCutoff(r: Row, s: Row, cutoff: int, b: int)
    requires r.ts < cutoff && s.ts < cutoff
    ensures !(r.ts < cutoff <= s.ts)
    ensures !Cuts(r, s, cutoff, b)
  {
  }

  /** What one slice removes: the backlog rows of the six buckets from the earliest row's on, and no others. */
  lemma SliceTakesSixBuckets(t: Tables, cutoff: int, b: int, first: Row, start: int, r: Row)
    requires b > 0 && first in t.recent && first.ts < cutoff && r in t.recent
    requires IsBucket(start, first.ts, b) && forall s :: s in t.recent && s.ts < cutoff ==> first.ts <= s.ts
    ensures r in Slice(t, cutoff, b).tables.recent <==> !(start <= r.ts < start + 6 * b && r.ts < cutoff)
  {
    FilterKeeps(t.recent, Before(cutoff));
    BucketIff(start, first.ts, b);
    var below := Filter(t.recent, Before(cutoff));
    var end := SliceEnd(start, cutoff, b);
    assert first in below && MinTs(below) == first.ts;
    FilterKeeps(t.recent, Not(Within(start, end)));
    hide GroupBy, Filter, Bucket, IsBucket;
  }

  /** A clean slice takes whole groups out of the backlog: archived plus pending archive rows do not change. */
  lemma SliceTakesWholeGroups(t: Tables, cutoff: int, b: int)
    requires b > 0 && Clean(Backlog(t, cutoff), cutoff, b)
    ensures var s := Slice(t, cutoff, b);
            && t.archive <= s.tables.archive
            && multiset(GroupBy(Backlog(t, cutoff), b))
               == multiset(s.tables.archive[|t.archive|..]) + multiset(GroupBy(Backlog(s.tables, cutoff), b))
            && Filter(s.tables.recent, Not(Before(cutoff))) == Filter(t.recent, Not(Before(cutoff)))
            && s.deleted + |Backlog(s.tables, cutoff)| == |Backlog(t, cutoff)|
  {
    hide GroupBy, KeyOf;
    var below := Backlog(t, cutoff);
    if below != [] {
      var first, start, end := SliceRange(t, cutoff, b);
      FilterKeeps(t.recent, Before(cutoff));
      CutsNoneIff(below, cutoff, b);
      var p := Within(start, end);
      var s := Slice(t, cutoff, b);
      hide Slice, Bucket, Aligns, MinTs, SliceEnd, CutsNone;
      GroupBySplit(below, p, b);
      FilterAbsorb(t.recent, Before(cutoff), p);
      FilterCommute(t.recent, Before(cutoff), Not(p));
      FilterAbsorb(t.recent, Not(p), Not(Before(cutoff)));
      FilterCounts(below, p);
      assert s.tables.archive[|t.archive|..] == GroupBy(Filter(t.recent, p), b);
    } else {
      assert t.archive[|t.archive|..] == [];
    }
  }

  // ---------------------------------------------------------------- slices one after the other

  /** What a backlog is after a slice that starts at its earliest row. */
  function Rest(rows: seq<Row>, end: int): (rest: seq<Row>)
    ensures |rest| <= |rows|
  {
    Filter(rows, Not(Before(end)))
  }

  lemma RestShorter(rows: seq<Row>, cutoff: int, b: int)
    requires b > 0 && rows != [] && forall r :: r in rows ==> r.ts < cutoff
    ensures MinTs(rows) < EndOf(rows, cutoff, b)
    ensures |Rest(rows, EndOf(rows, cutoff, b))| < |rows|
    ensures forall r :: r in Rest(rows, EndOf(rows, cutoff, b)) ==> r in rows
  {
    var end := EndOf(rows, cutoff, b);
    BucketBounds(MinTs(rows), b);
    hide Bucket;
    FilterCounts(rows, Before(end));
    FilterEmpty(rows, Before(end));
    FilterKeeps(rows, Not(Before(end)));
  }

  /** The slices of a backlog come to an end: each but the last starts at the earliest row. */
  ghost predicate Ends(rows: seq<Row>, cutoff: int, b: int)
    requires b > 0 && forall r :: r in rows ==> r.ts < cutoff
    decreases |rows|
  {
    rows == [] ||
    var end := EndOf(rows, cutoff, b);
    RestShorter(rows, cutoff, b);
    end >= cutoff || (Aligns(MinTs(rows), b) && Ends(Rest(rows, end), cutoff, b))
  }

  /** Every slice of a backlog is clean. */
  ghost predicate Sliceable(rows: seq<Row>, cutoff: int, b: int)
    requires b > 0 && forall r :: r in rows ==> r.ts < cutoff
    decreases |rows|
  {
    rows == [] ||
    (RestShorter(rows, cutoff, b);
     Clean(rows, cutoff, b) && Sliceable(Rest(rows, EndOf(rows, cutoff, b)), cutoff, b))
  }

  lemma BacklogBelow(t: Tables, cutoff: int)
    ensures forall r :: r in Backlog(t, cutoff) ==> r.ts < cutoff && r in t.recent
  {
    FilterKeeps(t.recent, Before(cutoff));
  }

  ghost predicate RunEnds(t: Tables, cutoff: int, b: int)
    requires b > 0
  {
    BacklogBelow(t, cutoff);
    Ends(Backlog(t, cutoff), cutoff, b)
  }

  ghost predicate RunSliceable(t: Tables, cutoff: int, b: int)
    requires b > 0
  {
    BacklogBelow(t, cutoff);
    Sliceable(Backlog(t, cutoff), cutoff, b)
  }

  lemma {:induction false} SliceableEnds(rows: seq<Row>, cutoff: int, b: int)
    requires b > 0 && (forall r :: r in rows ==> r.ts < cutoff) && Sliceable(rows, cutoff, b)
    ensures Ends(rows, cutoff, b)
    decreases |rows|
  {
    if rows != [] {
      RestShorter(rows, cutoff, b);
      hide Rest, EndOf, CutsNone, MinTs;
      SliceableEnds(Rest(rows, EndOf(rows, cutoff, b)), cutoff, b);
    }
  }

  /** Without negative timestamps every slice is clean. */
  lemma {:induction false} NonNegativeSliceable(rows: seq<Row>, cutoff: int, b: int)
    requires b > 0 && forall r :: r in rows ==> 0 <= r.ts < cutoff
    ensures Sliceable(rows, cutoff, b)
    decreases |rows|
  {
    if rows != [] {
      RestShorter(rows, cutoff, b);
      hide Rest, EndOf, MinTs;
      NonNegativeSliceable(Rest(rows, EndOf(rows, cutoff, b)), cutoff, b);
    }
  }

  lemma NonNegativeRun(t: Tables, cutoff: int, b: int)
    requires b > 0 && forall r :: r in t.recent && r.ts < cutoff ==> r.ts >= 0
    ensures RunSliceable(t, cutoff, b) && RunEnds(t, cutoff, b)
  {
    BacklogBelow(t, cutoff);
    hide Backlog;
    NonNegativeSliceable(Backlog(t, cutoff), cutoff, b);
    SliceableEnds(Backlog(t, cutoff), cutoff, b);
  }

  /** After a slice that starts at the earliest row. */
  lemma NextBacklog(t: Tables, cutoff: int, b: int)
    requires b > 0 && Backlog(t, cutoff) != [] && Aligns(MinTs(Backlog(t, cutoff)), b)
    ensures Backlog(Slice(t, cutoff, b).tables, cutoff)
            == Rest(Backlog(t, cutoff), EndOf(Backlog(t, cutoff), cutoff, b))
    ensures Slice(t, cutoff, b).done <==> EndOf(Backlog(t, cutoff), cutoff, b) >= cutoff
  {
    var first, start, end := SliceRange(t, cutoff, b);
    BacklogBelow(t, cutoff);
    hide Slice, GroupBy, Bucket, Aligns, SliceEnd;
    FilterCommute(t.recent, Before(cutoff), Not(Within(start, end)));
    FilterSame(Backlog(t, cutoff), Not(Within(start, end)), Not(Before(end)));
  }

  /** Nothing is left of a backlog beyond the cutoff. */
  lemma NothingBeyond(rows: seq<Row>, cutoff: int, end: int)
    requires end >= cutoff && forall r :: r in rows ==> r.ts < cutoff
    ensures Rest(rows, end) == []
  {
    FilterEmpty(rows, Not(Before(end)));
  }

  lemma EmptySlice(t: Tables, cutoff: int, b: int)
    requires b > 0 && Backlog(t, cutoff) == []
    ensures Slice(t, cutoff, b) == Sliced(t, true, 0) && RunEnds(t, cutoff, b) && RunSliceable(t, cutoff, b)
  {
  }

  lemma EndsUnfold(t: Tables, cutoff: int, b: int)
    requires b > 0 && Backlog(t, cutoff) != []
    ensures var s := Slice(t, cutoff, b);
            && (RunEnds(t, cutoff, b) <==>
                s.done || (Aligns(MinTs(Backlog(t, cutoff)), b) && RunEnds(s.tables, cutoff, b)))
            && (Aligns(MinTs(Backlog(t, cutoff)), b) ==> |Backlog(s.tables, cutoff)| < |Backlog(t, cutoff)|)
  {
    var below := Backlog(t, cutoff);
    var first, start, end := SliceRange(t, cutoff, b);
    BacklogBelow(t, cutoff);
    BacklogBelow(Slice(t, cutoff, b).tables, cutoff);
    RestShorter(below, cutoff, b);
    if Aligns(first, b) {
      NextBacklog(t, cutoff, b);
    }
    assert end == EndOf(below, cutoff, b);
    hide Slice, Rest, EndOf, MinTs, Aligns, Filter, Backlog;
  }

  lemma SliceableRows(rows: seq<Row>, cutoff: int, b: int)
    requires b > 0 && rows != [] && forall r :: r in rows ==> r.ts < cutoff
    ensures forall r :: r in Rest(rows, EndOf(rows, cutoff, b)) ==> r.ts < cutoff
    ensures Sliceable(rows, cutoff, b)
            <==> Clean(rows, cutoff, b) && Sliceable(Rest(rows, EndOf(rows, cutoff, b)), cutoff, b)
    ensures EndOf(rows, cutoff, b) >= cutoff ==> Rest(rows, EndOf(rows, cutoff, b)) == []
    ensures Sliceable([], cutoff, b)
  {
    RestShorter(rows, cutoff, b);
    if EndOf(rows, cutoff, b) >= cutoff {
      NothingBeyond(rows, cutoff, EndOf(rows, cutoff, b));
    }
    hide Rest, EndOf, Clean;
  }

  lemma SliceableUnfold(t: Tables, cutoff: int, b: int)
    requires b > 0 && Backlog(t, cutoff) != []
    ensures var s := Slice(t, cutoff, b);
            && (RunSliceable(t, cutoff, b) <==>
                Clean(Backlog(t, cutoff), cutoff, b) && (s.done || RunSliceable(s.tables, cutoff, b)))
            && (Clean(Backlog(t, cutoff), cutoff, b) && s.done ==> Backlog(s.tables, cutoff) == [])
  {
    var below := Backlog(t, cutoff);
    BacklogBelow(t, cutoff);
    BacklogBelow(Slice(t, cutoff, b).tables, cutoff);
    hide Slice, Rest, EndOf, MinTs, Aligns, CutsNone, Backlog, Sliceable;
    SliceableRows(below, cutoff, b);
    if Clean(below, cutoff, b) {
      NextBacklog(t, cutoff, b);
    }
  }

  /** Up to `n` slices, until one reports done. */
  function Iterate(t: Tables, cutoff: int, b: int, n: nat): Sliced
    requires b > 0
    decreases n
  {
    if n == 0 then Sliced(t, false, 0) else
    var s := Slice(t, cutoff, b);
    if s.done then s else
    var r := Iterate(s.tables, cutoff, b, n - 1);
    Sliced(r.tables, r.done, s.deleted + r.deleted)
  }

  lemma {:induction false} IterateOneMore(t: Tables, cutoff: int, b: int, n: nat)
    requires b > 0 && !Iterate(t, cutoff, b, n).done
    ensures var r := Iterate(t, cutoff, b, n);
            var s := Slice(r.tables, cutoff, b);
            Iterate(t, cutoff, b, n + 1) == Sliced(s.tables, s.done, r.deleted + s.deleted)
    decreases n
  {
    hide Slice;
    if n > 0 {
      IterateOneMore(Slice(t, cutoff, b).tables, cutoff, b, n - 1);
    }
  }

  /** Once a slice leaves its earliest row behind, no later one does anything. */
  lemma StuckForever(t: Tables, cutoff: int, b: int, n: nat)
    requires b > 0 && n > 0 && Backlog(t, cutoff) != [] && !Aligns(MinTs(Backlog(t, cutoff)), b)
    ensures var s := Slice(t, cutoff, b);
            Iterate(t, cutoff, b, n).tables == s.tables && (Iterate(t, cutoff, b, n).done <==> s.done)
  {
    hide *;
    StuckOtherwise(t, cutoff, b);
    IterateStuck(t, Slice(t, cutoff, b), cutoff, b, n);
  }

  lemma IterateStuck(t: Tables, s: Sliced, cutoff: int, b: int, n: nat)
    requires b > 0 && n > 0 && s == Slice(t, cutoff, b) && Slice(s.tables, cutoff, b) == Sliced(s.tables, s.done, 0)
    ensures Iterate(t, cutoff, b, n).tables == s.tables && (Iterate(t, cutoff, b, n).done <==> s.done)
  {
    hide *;
    IterateFirst(t, cutoff, b, n);
    if !s.done {
      FixedPoint(s.tables, cutoff, b, n - 1);
    }
  }

  lemma {:induction false} FixedPoint(t: Tables, cutoff: int, b: int, n: nat)
    requires b > 0 && Slice(t, cutoff, b) == Sliced(t, Slice(t, cutoff, b).done, 0)
    ensures Iterate(t, cutoff, b, n).tables == t
    ensures Iterate(t, cutoff, b, n).done ==> Slice(t, cutoff, b).done
  {
    hide Slice;
    if n > 0 {
      FixedPoint(t, cutoff, b, n - 1);
    }
  }

  lemma {:induction false} EndsWithin(t: Tables, cutoff: int, b: int)
    requires b > 0 && RunEnds(t, cutoff, b)
    ensures Iterate(t, cutoff, b, |Backlog(t, cutoff)| + 1).done
    decreases |Backlog(t, cutoff)|
  {
    hide Slice, RunEnds, Aligns, Backlog;
    if Backlog(t, cutoff) == [] {
      EmptySlice(t, cutoff, b);
    } else {
      EndsUnfold(t, cutoff, b);
      var s := Slice(t, cutoff, b);
      if !s.done {
        EndsWithin(s.tables, cutoff, b);
        IterateStays(s.tables, cutoff, b, |Backlog(s.tables, cutoff)| + 1, |Backlog(t, cutoff)|);
      }
    }
  }

  /** A run that is done stays so. */
  lemma {:induction false} IterateStays(t: Tables, cutoff: int, b: int, m: nat, n: nat)
    requires b > 0 && m <= n && Iterate(t, cutoff, b, m).done
    ensures Iterate(t, cutoff, b, n) == Iterate(t, cutoff, b, m)
    decreases n
  {
    hide Slice;
    if m > 0 && !Slice(t, cutoff, b).done {
      IterateStays(Slice(t, cutoff, b).tables, cutoff, b, m - 1, n - 1);
    }
  }

  lemma {:induction false} EndedEnds(t: Tables, cutoff: int, b: int, n: nat)
    requires b > 0 && Iterate(t, cutoff, b, n).done
    ensures RunEnds(t, cutoff, b)
    decreases n
  {
    hide Slice, RunEnds, Aligns, Backlog;
    if Backlog(t, cutoff) == [] {
      EmptySlice(t, cutoff, b);
    } else {
      EndsUnfold(t, cutoff, b);
      if !Slice(t, cutoff, b).done {
        if Aligns(MinTs(Backlog(t, cutoff)), b) {
          EndedEnds(Slice(t, cutoff, b).tables, cutoff, b, n - 1);
        } else {
          StuckForever(t, cutoff, b, n);
        }
      }
    }
  }

  /** Slicing comes to an end exactly if every slice but the last starts at the earliest row. */
  lemma RunEndsIff(t: Tables, cutoff: int, b: int)
    requires b > 0
    ensures (exists n :: Iterate(t, cutoff, b, n).done) <==> RunEnds(t, cutoff, b)
  {
    hide RunEnds, Iterate;
    if RunEnds(t, cutoff, b) {
      EndsWithin(t, cutoff, b);
    }
    if n :| Iterate(t, cutoff, b, n).done {
      EndedEnds(t, cutoff, b, n);
    }
  }

  // ---------------------------------------------------------------- the one-shot equality

  /** How a run that began at `from` stands at `t`, with `total` rows deleted. */
  ghost predicate Sofar(from: Tables, t: Tables, total: nat, cutoff: int, b: int)
    requires b > 0
  {
    && from.archive <= t.archive
    && multiset(t.archive[|from.archive|..]) + multiset(GroupBy(Backlog(t, cutoff), b))
       == multiset(GroupBy(Backlog(from, cutoff), b))
    && Filter(t.recent, Not(Before(cutoff))) == Filter(from.recent, Not(Before(cutoff)))
    && total + |Backlog(t, cutoff)| == |Backlog(from, cutoff)|
  }

  lemma SofarStart(t: Tables, cutoff: int, b: int)
    requires b > 0
    ensures Sofar(t, t, 0, cutoff, b)
  {
    hide GroupBy, Filter;
    assert t.archive[|t.archive|..] == [];
  }

  lemma SofarSlice(from: Tables, t: Tables, total: nat, cutoff: int, b: int)
    requires b > 0 && Clean(Backlog(t, cutoff), cutoff, b) && Sofar(from, t, total, cutoff, b)
    ensures var s := Slice(t, cutoff, b);
            Sofar(from, s.tables, total + s.deleted, cutoff, b)
  {
    hide GroupBy, Filter, Slice;
    SliceTakesWholeGroups(t, cutoff, b);
    var archive := Slice(t, cutoff, b).tables.archive;
    assert archive[|from.archive|..] == t.archive[|from.archive|..] + archive[|t.archive|..];
  }

  lemma SofarMeans(from: Tables, t: Tables, total: nat, cutoff: int, b: int)
    requires b > 0 && Sofar(from, t, total, cutoff, b)
    ensures from.archive <= t.archive
    ensures multiset(t.archive[|from.archive|..]) + multiset(GroupBy(Backlog(t, cutoff), b))
            == multiset(GroupBy(Backlog(from, cutoff), b))
    ensures Filter(t.recent, Not(Before(cutoff))) == Filter(from.recent, Not(Before(cutoff)))
    ensures total + |Backlog(t, cutoff)| == |Backlog(from, cutoff)|
  {
  }

  lemma EmptyBacklog(t: Tables, cutoff: int, b: int)
    requires b > 0 && Backlog(t, cutoff) == []
    ensures GroupBy(Backlog(t, cutoff), b) == [] && Filter(t.recent, Not(Before(cutoff))) == t.recent
  {
    FilterEmpty(t.recent, Before(cutoff));
    FilterAll(t.recent, Not(Before(cutoff)));
  }

  lemma {:induction false} IterateSofar(from: Tables, t: Tables, total: nat, cutoff: int, b: int, n: nat)
    requires b > 0 && RunSliceable(t, cutoff, b) && Sofar(from, t, total, cutoff, b)
    ensures var r := Iterate(t, cutoff, b, n);
            Sofar(from, r.tables, total + r.deleted, cutoff, b) && (r.done ==> Backlog(r.tables, cutoff) == [])
    decreases n
  {
    hide Sofar, Slice, RunSliceable, Clean, Backlog;
    if n > 0 {
      if Backlog(t, cutoff) == [] {
        EmptySlice(t, cutoff, b);
      } else {
        SliceableUnfold(t, cutoff, b);
        SofarSlice(from, t, total, cutoff, b);
        var s := Slice(t, cutoff, b);
        if !s.done {
          IterateSofar(from, s.tables, total + s.deleted, cutoff, b, n - 1);
        }
      }
    }
  }

  /** A finished run has done exactly the one GROUP BY and DELETE of everything below the cutoff. */
  ghost predicate IsOneShot(t: Tables, r: Sliced, cutoff: int, b: int)
    requires b > 0
  {
    && r.done && t.archive <= r.tables.archive
    && r.tables.recent == Filter(t.recent, Not(Before(cutoff)))
    && multiset(r.tables.archive[|t.archive|..]) == multiset(GroupBy(Backlog(t, cutoff), b))
  }

  lemma SliceableIsOneShot(t: Tables, cutoff: int, b: int, n: nat)
    requires b > 0 && RunSliceable(t, cutoff, b) && Iterate(t, cutoff, b, n).done
    ensures IsOneShot(t, Iterate(t, cutoff, b, n), cutoff, b)
  {
    hide Iterate, RunSliceable, Sofar, IsOneShot, Backlog;
    SofarStart(t, cutoff, b);
    IterateSofar(t, t, 0, cutoff, b, n);
    SofarOneShot(t, Iterate(t, cutoff, b, n), cutoff, b);
  }

  lemma SofarOneShot(t: Tables, r: Sliced, cutoff: int, b: int)
    requires b > 0 && r.done && Sofar(t, r.tables, r.deleted, cutoff, b) && Backlog(r.tables, cutoff) == []
    ensures IsOneShot(t, r, cutoff, b)
  {
    EmptyBacklog(r.tables, cutoff, b);
    hide GroupBy, Filter, Not, Before, Backlog;
  }

  lemma {:induction false} IterateGrows(t: Tables, cutoff: int, b: int, n: nat)
    requires b > 0
    ensures t.archive <= Iterate(t, cutoff, b, n).tables.archive
    decreases n
  {
    hide Slice, Iterate;
    if n == 0 {
      IterateNone(t, cutoff, b);
    } else {
      SliceGrows(t, cutoff, b);
      IterateFirst(t, cutoff, b, n);
      var s := Slice(t, cutoff, b);
      if !s.done {
        IterateGrows(s.tables, cutoff, b, n - 1);
        PrefixOfPrefix(t.archive, s.tables.archive, Iterate(s.tables, cutoff, b, n - 1).tables.archive);
      }
    }
  }

  lemma IterateFirst(t: Tables, cutoff: int, b: int, n: nat)
    requires b > 0 && n > 0
    ensures var s := Slice(t, cutoff, b);
            var r := Iterate(s.tables, cutoff, b, n - 1);
            Iterate(t, cutoff, b, n) == if s.done then s else Sliced(r.tables, r.done, s.deleted + r.deleted)
  {
    hide Slice;
  }

  lemma PrefixOfPrefix(a: seq<ArchiveRow>, b: seq<ArchiveRow>, c: seq<ArchiveRow>)
    requires a <= b <= c
    ensures a <= c
  {
  }

  lemma SliceGrows(t: Tables, cutoff: int, b: int)
    requires b > 0
    ensures t.archive <= Slice(t, cutoff, b).tables.archive
  {
    hide Bucket, GroupBy, Filter, MinTs;
  }

  ghost predicate HasKey(xs: seq<ArchiveRow>, k: Key) {
    exists x :: x in xs && ArchiveKey(x) == k
  }

  lemma GroupHasKey(rows: seq<Row>, b: int, r: Row)
    requires b > 0 && r in rows
    ensures HasKey(GroupBy(rows, b), KeyOf(r, b))
  {
    var k := KeyOf(r, b);
    var group := Filter(rows, OfKey(k, b));
    FilterKeeps(rows, OfKey(k, b));
    FilterEmpty(rows, OfKey(k, b));
    GroupByIsGroups(rows, b);
    hide GroupBy, KeyOf;
    assert IsGroup(Aggregate(group, k, b), rows, b);
  }

  /** One slice leaves a backlog row where it is or archives its group. */
  lemma SliceCovers(t: Tables, cutoff: int, b: int, p: Row)
    requires b > 0 && p in Backlog(t, cutoff)
    ensures var s := Slice(t, cutoff, b);
            && t.archive <= s.tables.archive
            && (p in Backlog(s.tables, cutoff) || HasKey(s.tables.archive[|t.archive|..], KeyOf(p, b)))
  {
    BacklogBelow(t, cutoff);
    var first, start, end := SliceRange(t, cutoff, b);
    hide Slice, KeyOf, GroupBy, Bucket, Aligns, MinTs, SliceEnd, HasKey;
    var u := Slice(t, cutoff, b).tables;
    FilterKeeps(t.recent, Within(start, end));
    FilterKeeps(t.recent, Not(Within(start, end)));
    FilterKeeps(u.recent, Before(cutoff));
    var picked := Filter(t.recent, Within(start, end));
    assert u.archive[|t.archive|..] == GroupBy(picked, b);
    if p in picked {
      GroupHasKey(picked, b, p);
    }
  }

  lemma HasKeyWithin(a: seq<ArchiveRow>, b: seq<ArchiveRow>, c: seq<ArchiveRow>, k: Key)
    requires a <= b <= c
    ensures HasKey(b[|a|..], k) || HasKey(c[|b|..], k) ==> HasKey(c[|a|..], k)
  {
    assert c[|a|..] == b[|a|..] + c[|b|..];
    hide ArchiveKey;
  }

  /** So do any number of slices. */
  lemma {:induction false} IterateCovers(t: Tables, cutoff: int, b: int, n: nat, p: Row)
    requires b > 0 && p in Backlog(t, cutoff)
    ensures var r := Iterate(t, cutoff, b, n);
            && t.archive <= r.tables.archive
            && (p in Backlog(r.tables, cutoff) || HasKey(r.tables.archive[|t.archive|..], KeyOf(p, b)))
    decreases n
  {
    hide Slice, KeyOf, Backlog, HasKey, Iterate;
    IterateGrows(t, cutoff, b, n);
    if n == 0 {
      IterateNone(t, cutoff, b);
    } else {
      IterateFirst(t, cutoff, b, n);
      SliceCovers(t, cutoff, b, p);
      var s := Slice(t, cutoff, b);
      if !s.done {
        IterateGrows(s.tables, cutoff, b, n - 1);
        HasKeyWithin(t.archive, s.tables.archive, Iterate(t, cutoff, b, n).tables.archive, KeyOf(p, b));
        if p in Backlog(s.tables, cutoff) {
          IterateCovers(s.tables, cutoff, b, n - 1, p);
        }
      }
    }
  }

  lemma OneRowPerKey(all: seq<ArchiveRow>, x: ArchiveRow, y: ArchiveRow)
    requires DistinctKeys(all) && x in all && y in all && ArchiveKey(x) == ArchiveKey(y)
    ensures x == y
  {
    var i :| 0 <= i < |all| && all[i] == x;
    var j :| 0 <= j < |all| && all[j] == y;
  }

  /** Rows with distinct keys are not made up of two parts that share one. */
  lemma SharedKey(xs: seq<ArchiveRow>, ys: seq<ArchiveRow>, all: seq<ArchiveRow>, k: Key)
    requires HasKey(xs, k) && HasKey(ys, k) && DistinctKeys(all)
    ensures multiset(xs) + multiset(ys) != multiset(all)
  {
    var x :| x in xs && ArchiveKey(x) == k;
    var y :| y in ys && ArchiveKey(y) == k;
    hide ArchiveKey, DistinctKeys;
    if multiset(xs) + multiset(ys) == multiset(all) {
      assert x in multiset(all) && y in multiset(all);
      OneRowPerKey(all, x, y);
      assert multiset(all)[x] == multiset(xs)[x] + multiset(ys)[x];
      DistinctCount(all, x);
    }
  }

  lemma MisalignedKeeps(t: Tables, cutoff: int, b: int)
    requires b > 0 && Backlog(t, cutoff) != [] && !Aligns(MinTs(Backlog(t, cutoff)), b)
    ensures Backlog(Slice(t, cutoff, b).tables, cutoff) != []
  {
    var first, start, end := SliceRange(t, cutoff, b);
    SliceProgressIff(t, cutoff, b);
    hide Slice, Aligns, SliceEnd, Bucket;
    FilterEmpty(Slice(t, cutoff, b).tables.recent, Before(cutoff));
  }

  /** A one-shot run's first slice starts at the earliest row. */
  lemma OneShotAligned(t: Tables, cutoff: int, b: int, n: nat)
    requires b > 0 && Backlog(t, cutoff) != [] && IsOneShot(t, Iterate(t, cutoff, b, n), cutoff, b)
    ensures n > 0 && Aligns(MinTs(Backlog(t, cutoff)), b)
  {
    hide Aligns, Slice;
    NoneLeft(t, Iterate(t, cutoff, b, n).tables, cutoff);
    assert n > 0;
    hide IsOneShot, Backlog;
    if !Aligns(MinTs(Backlog(t, cutoff)), b) {
      StuckForever(t, cutoff, b, n);
      MisalignedKeeps(t, cutoff, b);
    }
  }

  /** The archive rows a longer run adds are those of its first slice and those of the rest. */
  lemma AddedAfterFirst(t: Tables, cutoff: int, b: int, n: nat)
    requires b > 0 && n > 0 && !Slice(t, cutoff, b).done && t.archive <= Slice(t, cutoff, b).tables.archive
    ensures var s, r := Slice(t, cutoff, b), Iterate(t, cutoff, b, n);
            && r.tables == Iterate(s.tables, cutoff, b, n - 1).tables
            && r.done == Iterate(s.tables, cutoff, b, n - 1).done
            && s.tables.archive <= r.tables.archive
            && multiset(r.tables.archive[|t.archive|..])
               == multiset(s.tables.archive[|t.archive|..]) + multiset(r.tables.archive[|s.tables.archive|..])
  {
    hide Slice;
    var s, r := Slice(t, cutoff, b), Iterate(t, cutoff, b, n);
    IterateGrows(s.tables, cutoff, b, n - 1);
    assert r.tables.archive[|t.archive|..] == s.tables.archive[|t.archive|..] + r.tables.archive[|s.tables.archive|..];
  }

  lemma RestHas(rows: seq<Row>, end: int, r: Row)
    ensures r in Rest(rows, end) <==> r in rows && r.ts >= end
  {
    FilterKeeps(rows, Not(Before(end)));
  }

  lemma GroupKeysDistinct(rows: seq<Row>, b: int)
    requires b > 0
    ensures DistinctKeys(GroupBy(rows, b))
  {
    GroupByIsGroups(rows, b);
  }

  /** When a slice archives a group of which a row is left behind, the run is not one-shot. */
  lemma CutNotOneShot(t: Tables, cutoff: int, b: int, n: nat, p: Row, q: Row)
    requires b > 0 && n > 0 && !Slice(t, cutoff, b).done && KeyOf(p, b) == KeyOf(q, b)
    requires p in Backlog(t, cutoff) && p !in Backlog(Slice(t, cutoff, b).tables, cutoff)
    requires q in Backlog(Slice(t, cutoff, b).tables, cutoff)
    ensures !IsOneShot(t, Iterate(t, cutoff, b, n), cutoff, b)
  {
    hide Slice, KeyOf, GroupBy, Iterate, HasKey, DistinctKeys, IsGroup, Backlog, Filter;
    var s, r := Slice(t, cutoff, b), Iterate(t, cutoff, b, n);
    SliceCovers(t, cutoff, b, p);
    AddedAfterFirst(t, cutoff, b, n);
    GroupKeysDistinct(Backlog(t, cutoff), b);
    IterateCovers(s.tables, cutoff, b, n - 1, q);
    if r.tables.recent == Filter(t.recent, Not(Before(cutoff))) {
      NoneLeft(t, r.tables, cutoff);
      SharedKey(s.tables.archive[|t.archive|..], r.tables.archive[|s.tables.archive|..],
                GroupBy(Backlog(t, cutoff), b), KeyOf(p, b));
    }
  }

  /** The first slice of a one-shot run cuts no group. */
  lemma OneShotCutsNone(t: Tables, cutoff: int, b: int, n: nat)
    requires b > 0 && Backlog(t, cutoff) != [] && n > 0 && !Slice(t, cutoff, b).done
    requires Aligns(MinTs(Backlog(t, cutoff)), b) && IsOneShot(t, Iterate(t, cutoff, b, n), cutoff, b)
    ensures CutsNone(Backlog(t, cutoff), EndOf(Backlog(t, cutoff), cutoff, b), b)
  {
    var below := Backlog(t, cutoff);
    var end := EndOf(below, cutoff, b);
    BacklogBelow(t, cutoff);
    CutsNoneIff(below, cutoff, b);
    NextBacklog(t, cutoff, b);
    hide Slice, KeyOf, GroupBy, Iterate, EndOf, Aligns, CutsNone, IsOneShot, Rest, Backlog, MinTs;
    forall p, q | p in below && q in below && KeyOf(p, b) == KeyOf(q, b) && p.ts < end
      ensures q.ts < end
    {
      RestHas(below, end, p);
      RestHas(below, end, q);
      if q.ts >= end {
        CutNotOneShot(t, cutoff, b, n, p, q);
      }
    }
  }

  lemma NoneLeft(t: Tables, u: Tables, cutoff: int)
    requires u.recent == Filter(t.recent, Not(Before(cutoff)))
    ensures Backlog(u, cutoff) == []
  {
    FilterKeeps(t.recent, Not(Before(cutoff)));
    FilterEmpty(u.recent, Before(cutoff));
  }

  /** After a clean first slice, the rest of a one-shot run is a one-shot run. */
  lemma OneShotRest(t: Tables, cutoff: int, b: int, n: nat)
    requires b > 0 && n > 0 && !Slice(t, cutoff, b).done && Clean(Backlog(t, cutoff), cutoff, b)
    requires IsOneShot(t, Iterate(t, cutoff, b, n), cutoff, b)
    ensures IsOneShot(Slice(t, cutoff, b).tables, Iterate(Slice(t, cutoff, b).tables, cutoff, b, n - 1), cutoff, b)
  {
    SliceTakesWholeGroups(t, cutoff, b);
    AddedAfterFirst(t, cutoff, b, n);
    var s, r := Slice(t, cutoff, b), Iterate(t, cutoff, b, n);
    hide Slice, Iterate, Clean, GroupBy, Filter, Not, Before, Backlog;
    Cancel(multiset(s.tables.archive[|t.archive|..]), multiset(r.tables.archive[|s.tables.archive|..]),
           multiset(GroupBy(Backlog(s.tables, cutoff), b)));
  }

  lemma Cancel(a: multiset<ArchiveRow>, x: multiset<ArchiveRow>, y: multiset<ArchiveRow>)
    requires a + x == a + y
    ensures x == y
  {
    forall e
      ensures x[e] == y[e]
    {
      assert (a + x)[e] == (a + y)[e];
    }
  }

  lemma {:induction false} OneShotSliceable(t: Tables, cutoff: int, b: int, n: nat)
    requires b > 0 && IsOneShot(t, Iterate(t, cutoff, b, n), cutoff, b)
    ensures RunSliceable(t, cutoff, b)
    decreases n
  {
    hide Slice, Iterate, IsOneShot, RunSliceable, Aligns, EndOf, CutsNone, Backlog;
    if Backlog(t, cutoff) == [] {
      EmptySlice(t, cutoff, b);
    } else {
      OneShotAligned(t, cutoff, b, n);
      SliceableUnfold(t, cutoff, b);
      if Slice(t, cutoff, b).done {
        BacklogBelow(t, cutoff);
        NextBacklog(t, cutoff, b);
        LastCutsNone(Backlog(t, cutoff), cutoff, b);
      } else {
        OneShotCutsNone(t, cutoff, b, n);
        OneShotRest(t, cutoff, b, n);
        OneShotSliceable(Slice(t, cutoff, b).tables, cutoff, b, n - 1);
      }
    }
  }

  lemma LastCutsNone(rows: seq<Row>, cutoff: int, b: int)
    requires b > 0 && rows != [] && (forall r :: r in rows ==> r.ts < cutoff) && EndOf(rows, cutoff, b) >= cutoff
    ensures CutsNone(rows, EndOf(rows, cutoff, b), b)
  {
    CutsNoneIff(rows, cutoff, b);
    hide EndOf, CutsNone;
  }

  /**
   * Slicing reports done having done exactly the one GROUP BY and DELETE of everything below the
   * cutoff, if and only if every slice starts at the earliest row and ends between groups.
   */
  lemma OneShotIff(t: Tables, cutoff: int, b: int)
    requires b > 0
    ensures (exists n :: IsOneShot(t, Iterate(t, cutoff, b, n), cutoff, b)) <==> RunSliceable(t, cutoff, b)
  {
    BacklogBelow(t, cutoff);
    if RunSliceable(t, cutoff, b) {
      SliceableEnds(Backlog(t, cutoff), cutoff, b);
      EndsWithin(t, cutoff, b);
      SliceableIsOneShot(t, cutoff, b, |Backlog(t, cutoff)| + 1);
    }
    hide RunSliceable, IsOneShot;
    if n :| IsOneShot(t, Iterate(t, cutoff, b, n), cutoff, b) {
      OneShotSliceable(t, cutoff, b, n);
    }
  }

  // ---------------------------------------------------------------- conservation

  function OfSeries(s: Series): Row -> bool {
    (r: Row) => r.series == s
  }

  function RawCount(rows: seq<Row>, s: Series): nat {
    |Filter(rows, OfSeries(s))|
  }

  function RawSum(rows: seq<Row>, s: Series): real {
    Sum(Filter(rows, OfSeries(s)))
  }

  function ArchivedCount(xs: seq<ArchiveRow>, s: Series): nat {
    if xs == [] then 0 else (if xs[0].series == s then xs[0].count else 0) + ArchivedCount(xs[1..], s)
  }

  /** The sum an archive row stands for. */
  function Total(x: ArchiveRow): real {
    x.avg * x.count as real
  }

  function ArchivedSum(xs: seq<ArchiveRow>, s: Series): real {
    if xs == [] then 0.0 else
    (if xs[0].series == s then Total(xs[0]) else 0.0) + ArchivedSum(xs[1..], s)
  }

  lemma {:induction false} ArchivedAppend(xs: seq<ArchiveRow>, ys: seq<ArchiveRow>, s: Series)
    ensures ArchivedCount(xs + ys, s) == ArchivedCount(xs, s) + ArchivedCount(ys, s)
    ensures ArchivedSum(xs + ys, s) == ArchivedSum(xs, s) + ArchivedSum(ys, s)
  {
    if xs == [] {
      assert xs + ys == ys;
    } else {
      assert (xs + ys)[1..] == xs[1..] + ys;
      ArchivedAppend(xs[1..], ys, s);
    }
  }

  lemma {:induction false} FilterSums(rows: seq<Row>, p: Row -> bool)
    ensures Sum(Filter(rows, p)) + Sum(Filter(rows, Not(p))) == Sum(rows)
  {
    if rows != [] {
      FilterSums(rows[1..], p);
    }
  }

  /** One series' rows, split by any condition. */
  lemma SeriesSplit(rows: seq<Row>, p: Row -> bool, s: Series)
    ensures RawCount(rows, s) == RawCount(Filter(rows, p), s) + RawCount(Filter(rows, Not(p)), s)
    ensures RawSum(rows, s) == RawSum(Filter(rows, p), s) + RawSum(Filter(rows, Not(p)), s)
  {
    var mine := Filter(rows, OfSeries(s));
    FilterCounts(mine, p);
    FilterSums(mine, p);
    FilterCommute(rows, OfSeries(s), p);
    FilterCommute(rows, OfSeries(s), Not(p));
  }

  lemma TotalOfAverage(x: ArchiveRow, sum: real)
    requires x.count > 0 && x.avg == sum / x.count as real
    ensures Total(x) == sum
  {
  }

  lemma AggregateConserves(group: seq<Row>, k: Key, b: int)
    requires group != []
    ensures var x := Aggregate(group, k, b);
            x.series == k.series && x.count == |group| && Total(x) == Sum(group)
  {
    hide Total, Sum, MinValue, MaxValue;
    TotalOfAverage(Aggregate(group, k, b), Sum(group));
  }

  /** Aggregation keeps every series' sample count and value sum. */
  lemma {:induction false} GroupByConserves(rows: seq<Row>, b: int, s: Series)
    requires b > 0
    ensures ArchivedCount(GroupBy(rows, b), s) == RawCount(rows, s)
    ensures ArchivedSum(GroupBy(rows, b), s) == RawSum(rows, s)
    decreases |rows|
  {
    if rows != [] {
      var k := KeyOf(rows[0], b);
      Shrinks(rows, k, b);
      hide KeyOf, Aggregate, Filter, Total, Sum;
      var group, rest := Filter(rows, OfKey(k, b)), Filter(rows, Not(OfKey(k, b)));
      SeriesSplit(rows, OfKey(k, b), s);
      GroupByConserves(rest, b, s);
      AggregateConserves(group, k, b);
      GroupOfOneSeries(rows, k, b, s);
      assert GroupBy(rows, b)[1..] == GroupBy(rest, b);
    }
  }

  lemma GroupOfOneSeries(rows: seq<Row>, k: Key, b: int, s: Series)
    requires b > 0
    ensures Filter(Filter(rows, OfKey(k, b)), OfSeries(s)) == if k.series == s then Filter(rows, OfKey(k, b)) else []
  {
    var group := Filter(rows, OfKey(k, b));
    FilterKeeps(rows, OfKey(k, b));
    FilterEmpty(group, OfSeries(s));
    if k.series == s {
      FilterAll(group, OfSeries(s));
    }
  }

  /** What can happen to the tables between two looks at them, in any order. */
  datatype Op = Insert(rows: seq<Row>) | RunSlice(cutoff: int, b: int)

  function Step(t: Tables, op: Op): Tables {
    match op
    case Insert(rows) => t.(recent := t.recent + rows)
    case RunSlice(cutoff, b) => if b > 0 then Slice(t, cutoff, b).tables else t
  }

  function Run(ops: seq<Op>): Tables {
    if ops == [] then Tables([], []) else Step(Run(ops[..|ops| - 1]), ops[|ops| - 1])
  }

  function Inserted(ops: seq<Op>): seq<Row> {
    if ops == [] then [] else
    Inserted(ops[..|ops| - 1]) + match ops[|ops| - 1] case Insert(rows) => rows case RunSlice(_, _) => []
  }

  lemma SliceConserves(t: Tables, cutoff: int, b: int, s: Series)
    requires b > 0
    ensures var u := Slice(t, cutoff, b).tables;
            && ArchivedCount(u.archive, s) + RawCount(u.recent, s)
               == ArchivedCount(t.archive, s) + RawCount(t.recent, s)
            && ArchivedSum(u.archive, s) + RawSum(u.recent, s) == ArchivedSum(t.archive, s) + RawSum(t.recent, s)
  {
    if Backlog(t, cutoff) != [] {
      var _, start, end := SliceRange(t, cutoff, b);
      hide Slice;
      var picked := Filter(t.recent, Within(start, end));
      SeriesSplit(t.recent, Within(start, end), s);
      GroupByConserves(picked, b, s);
      ArchivedAppend(t.archive, GroupBy(picked, b), s);
    }
  }

  /**
   * Over every interleaving of inserts and slices, with any cutoffs and bucket sizes, each series'
   * archived samples plus raw rows are the rows ever inserted, by count and by sum of values.
   */
  lemma {:induction false} Conservation(ops: seq<Op>, s: Series)
    ensures var t := Run(ops);
            && ArchivedCount(t.archive, s) + RawCount(t.recent, s) == RawCount(Inserted(ops), s)
            && ArchivedSum(t.archive, s) + RawSum(t.recent, s) == RawSum(Inserted(ops), s)
  {
    if ops != [] {
      var before := ops[..|ops| - 1];
      Conservation(before, s);
      match ops[|ops| - 1]
      case Insert(rows) =>
        FilterAppend(Run(before).recent, rows, OfSeries(s));
        FilterAppend(Inserted(before), rows, OfSeries(s));
        SumAppend(Filter(Run(before).recent, OfSeries(s)), Filter(rows, OfSeries(s)));
        SumAppend(Filter(Inserted(before), OfSeries(s)), Filter(rows, OfSeries(s)));
      case RunSlice(cutoff, b) =>
        assert Inserted(ops) == Inserted(before);
        if b > 0 {
          SliceConserves(Run(before), cutoff, b, s);
        }
    }
  }

  lemma {:induction false} SumAppend(a: seq<Row>, b: seq<Row>)
    ensures Sum(a + b) == Sum(a) + Sum(b)
  {
    if a == [] {
      assert a + b == b;
    } else {
      assert (a + b)[1..] == a[1..] + b;
      SumAppend(a[1..], b);
    }
  }

  // ---------------------------------------------------------------- the store

  /** The rows one report of metrics amounts to, in some order. */
  ghost predicate RowsOf(rows: seq<Row>, node: string, server: string, metrics: map<string, real>, ts: int) {
    && |rows| == |metrics|
    && forall name :: name in metrics ==> Row(Series(node, server, name), metrics[name], ts) in rows
  }

  class MetricsStore {
    var recent: seq<Row>
    var archive: seq<ArchiveRow>

    ghost function View(): Tables
      reads this
    {
      Tables(recent, archive)
    }

    constructor ()
      ensures View() == Tables([], [])
    {
      recent, archive := [], [];
    }

    /** All of the report or, when the transaction fails, none of it. */
    method InsertNodeMetrics(node: string, server: string, metrics: map<string, real>, ts: int)
      returns (ok: bool, ghost rows: seq<Row>)
      modifies this`recent
      ensures RowsOf(rows, node, server, metrics, ts)
      ensures View() == if ok then Step(old(View()), Insert(rows)) else old(View())
    {
      rows := [];
      var tx := recent;
      var names := metrics.Keys;
      while names != {}
        invariant names <= metrics.Keys && |rows| + |names| == |metrics|
        invariant forall name :: name in metrics && name !in names ==>
                  Row(Series(node, server, name), metrics[name], ts) in rows
        invariant tx == recent + rows
      {
        var name :| name in names;
        names := names - {name};
        var row := Row(Series(node, server, name), metrics[name], ts);
        tx := tx + [row];
        rows := rows + [row];
      }
      ok := *;
      if ok {
        recent := tx;
      }
    }

    /** One locked slice; a failing statement or commit rolls the transaction back. */
    method DecimateSlice(cutoff: int, bucketSecs: int, sliceSpan: int) returns (done: bool, n: nat, ok: bool)
      requires bucketSecs > 0 && sliceSpan == SLICE_BUCKETS * bucketSecs
      modifies this
      ensures if ok then Sliced(View(), done, n) == Slice(old(View()), cutoff, bucketSecs)
              else View() == old(View()) && n == 0
    {
      hide GroupBy, Filter, Bucket, MinTs;
      ok := *;
      if !ok {
        return false, 0, false;
      }
      var below := Filter(recent, Before(cutoff));
      if below == [] {
        return true, 0, true;
      }
      var sliceStart := Bucket(MinTs(below), bucketSecs);
      var sliceEnd := sliceStart + sliceSpan;
      if sliceEnd > cutoff {
        sliceEnd := cutoff;
      }
      var picked := Filter(recent, Within(sliceStart, sliceEnd));
      archive := archive + GroupBy(picked, bucketSecs);
      recent := Filter(recent, Not(Within(sliceStart, sliceEnd)));
      return sliceEnd >= cutoff, |picked|, true;
    }

    /**
     * A whole run without concurrent inserts, on any timestamps for which the loop ends: `k` slices
     * were committed. While every slice is clean, also when it stops on an error, what it archived
     * plus the GROUP BY of the remaining backlog is the GROUP BY of the original backlog; a run that
     * succeeds has thus done exactly the one-shot GROUP BY and DELETE.
     */
    method Decimate(cutoff: int, bucketSize: int) returns (total: nat, ok: bool, ghost k: nat)
      requires RunEnds(View(), cutoff, BucketSecs(bucketSize))
      modifies this
      ensures Sliced(View(), ok, total) == Iterate(old(View()), cutoff, BucketSecs(bucketSize), k)
      ensures RunSliceable(old(View()), cutoff, BucketSecs(bucketSize)) ==>
                var b := BucketSecs(bucketSize);
                && Sofar(old(View()), View(), total, cutoff, b)
                && (ok ==> IsOneShot(old(View()), Sliced(View(), ok, total), cutoff, b))
    {
      var bucketSecs := bucketSize;
      if bucketSecs <= 0 {
        bucketSecs := 300;
      }
      hide GroupBy, Slice, Iterate, RunEnds, RunSliceable, Sofar, IsOneShot, Backlog;
      total, ok, k := 0, true, 0;
      var done := false;
      ghost var start := View();
      IterateNone(start, cutoff, bucketSecs);
      while !done
        invariant ok && Sliced(View(), done, total) == Iterate(start, cutoff, bucketSecs, k)
        invariant !done ==> RunEnds(View(), cutoff, bucketSecs)
        decreases !done, |Backlog(View(), cutoff)|
      {
        SliceAdvances(View(), cutoff, bucketSecs);
        IterateOneMore(start, cutoff, bucketSecs, k);
        var n;
        done, n, ok := DecimateSlice(cutoff, bucketSecs, bucketSecs * SLICE_BUCKETS);
        if !ok {
          SofarAfter(start, cutoff, bucketSecs, k);
          return;
        }
        total, k := total + n, k + 1;
      }
      SofarAfter(start, cutoff, bucketSecs, k);
    }
  }

  function BucketSecs(bucketSize: int): (b: int)
    ensures b > 0
  {
    if bucketSize <= 0 then 300 else bucketSize
  }

  lemma IterateNone(t: Tables, cutoff: int, b: int)
    requires b > 0
    ensures Iterate(t, cutoff, b, 0) == Sliced(t, false, 0)
  {
  }

  lemma SofarAfter(t: Tables, cutoff: int, b: int, k: nat)
    requires b > 0
    ensures RunSliceable(t, cutoff, b) ==>
              var r := Iterate(t, cutoff, b, k);
              Sofar(t, r.tables, r.deleted, cutoff, b) && (r.done ==> IsOneShot(t, r, cutoff, b))
  {
    hide RunSliceable, Iterate, IsOneShot, Sofar;
    if RunSliceable(t, cutoff, b) {
      SofarStart(t, cutoff, b);
      IterateSofar(t, t, 0, cutoff, b, k);
      if Iterate(t, cutoff, b, k).done {
        SliceableIsOneShot(t, cutoff, b, k);
      }
    }
  }

  /** What keeps a run going: each slice that is not the last one shrinks the backlog. */
  lemma SliceAdvances(t: Tables, cutoff: int, b: int)
    requires b > 0 && RunEnds(t, cutoff, b)
    ensures var s := Slice(t, cutoff, b);
            !s.done ==> RunEnds(s.tables, cutoff, b) && |Backlog(s.tables, cutoff)| < |Backlog(t, cutoff)|
  {
    hide Slice, RunEnds, Aligns, Backlog;
    if Backlog(t, cutoff) == [] {
      EmptySlice(t, cutoff, b);
    } else {
      EndsUnfold(t, cutoff, b);
    }
  }

  // ---------------------------------------------------------------- negative timestamps

  /** A row just below 0, with the cutoff more than a slice above it: no slice does anything, and none is the last. */
  lemma NegativeNeverEnds(r: Row, cutoff: int, b: int)
    requires b > 1 && r.ts == -1 && cutoff > 6 * b
    ensures var t := Tables([r], []);
            && Slice(t, cutoff, b) == Sliced(t, false, 0)
            && !RunEnds(t, cutoff, b)
  {
    var t := Tables([r], []);
    BacklogBelow(t, cutoff);
    assert Backlog(t, cutoff) == [r];
    var first, start, end := SliceRange(t, cutoff, b);
    assert start == 0 by {
      NegativeBucketIff(-1, 0, b);
    }
    hide Slice, Bucket;
    NothingPicked(t, start, end, b);
    assert !Aligns(-1, b);
  }

  /** Every slice starts at its earliest row, yet the first one cuts a group: the run ends, but not as one GROUP BY. */
  lemma AlignedYetCut(series: Series, v: real)
    ensures var t := Tables([Row(series, v, -3000), Row(series, v, -1201), Row(series, v, -1200)], []);
            RunEnds(t, 0, 300) && !RunSliceable(t, 0, 300)
  {
    var rows := [Row(series, v, -3000), Row(series, v, -1201), Row(series, v, -1200)];
    FilterAll(rows, Before(0));
    BacklogBelow(Tables(rows, []), 0);
    RestShorter(rows, 0, 300);
    assert MinTs(rows) == -3000 && EndOf(rows, 0, 300) == -1200;
    assert rows[1] in rows && rows[2] in rows && Cuts(rows[1], rows[2], -1200, 300);
    var rest := Rest(rows, -1200);
    forall r: Row
      ensures r in rest ==> r.ts == -1200
    {
      RestHas(rows, -1200, r);
    }
    assert rest != [] ==> MinTs(rest) == -1200 && EndOf(rest, 0, 300) == 0;
  }
}
