/**
 * Rows of metrics, selected and grouped into buckets as the decimation's SQL does it
 * (internal/store/metrics_store.go).
 */
module Grouping {
  datatype Series = Series(node: string, server: string, metric: string)

  datatype Row = Row(series: Series, value: real, ts: int)

  datatype ArchiveRow = ArchiveRow(series: Series, avg: real, min: real, max: real, count: nat, start: int, end: int)

  // ---------------------------------------------------------------- selecting rows

  function Filter(rows: seq<Row>, p: Row -> bool): (kept: seq<Row>)
    ensures |kept| <= |rows|
  {
    if rows == [] then [] else
    if p(rows[0]) then [rows[0]] + Filter(rows[1..], p) else Filter(rows[1..], p)
  }

  lemma {:induction false} FilterKeeps(rows: seq<Row>, p: Row -> bool)
    ensures forall r :: r in Filter(rows, p) <==> r in rows && p(r)
  {
    if rows != [] {
      FilterKeeps(rows[1..], p);
      assert rows == [rows[0]] + rows[1..];
    }
  }

  lemma FilterEmpty(rows: seq<Row>, p: Row -> bool)
    ensures Filter(rows, p) == [] <==> forall r :: r in rows ==> !p(r)
  {
    FilterKeeps(rows, p);
    if Filter(rows, p) != [] {
      assert Filter(rows, p)[0] in Filter(rows, p);
    }
  }

  function Not(p: Row -> bool): Row -> bool {
    (r: Row) => !p(r)
  }

  function Before(t: int): Row -> bool {
    (r: Row) => r.ts < t
  }

  function Within(from: int, to: int): Row -> bool {
    (r: Row) => from <= r.ts < to
  }

  lemma {:induction false} FilterAppend(a: seq<Row>, b: seq<Row>, p: Row -> bool)
    ensures Filter(a + b, p) == Filter(a, p) + Filter(b, p)
  {
    if a == [] {
      assert a + b == b;
    } else {
      assert (a + b)[1..] == a[1..] + b;
      FilterAppend(a[1..], b, p);
    }
  }

  lemma FilterCons(r: Row, rows: seq<Row>, p: Row -> bool)
    ensures Filter([r] + rows, p) == if p(r) then [r] + Filter(rows, p) else Filter(rows, p)
  {
    assert ([r] + rows)[1..] == rows;
  }

  /** Filtering by `p` first changes nothing when every row that passes `q` passes `p`. */
  lemma {:induction false} FilterAbsorb(rows: seq<Row>, p: Row -> bool, q: Row -> bool)
    requires forall r :: r in rows && q(r) ==> p(r)
    ensures Filter(Filter(rows, p), q) == Filter(rows, q)
  {
    if rows != [] {
      FilterAbsorb(rows[1..], p, q);
      FilterCons(rows[0], Filter(rows[1..], p), q);
    }
  }

  lemma {:induction false} FilterSame(rows: seq<Row>, p: Row -> bool, q: Row -> bool)
    requires forall r :: r in rows ==> p(r) == q(r)
    ensures Filter(rows, p) == Filter(rows, q)
  {
    if rows != [] {
      FilterSame(rows[1..], p, q);
    }
  }

  lemma {:induction false} FilterAll(rows: seq<Row>, p: Row -> bool)
    requires forall r :: r in rows ==> p(r)
    ensures Filter(rows, p) == rows
  {
    if rows != [] {
      FilterAll(rows[1..], p);
    }
  }

  lemma {:induction false} FilterCommute(rows: seq<Row>, p: Row -> bool, q: Row -> bool)
    ensures Filter(Filter(rows, p), q) == Filter(Filter(rows, q), p)
  {
    if rows != [] {
      FilterCommute(rows[1..], p, q);
      FilterCons(rows[0], Filter(rows[1..], p), q);
      FilterCons(rows[0], Filter(rows[1..], q), p);
    }
  }

  lemma {:induction false} FilterCounts(rows: seq<Row>, p: Row -> bool)
    ensures |Filter(rows, p)| + |Filter(rows, Not(p))| == |rows|
  {
    if rows != [] {
      FilterCounts(rows[1..], p);
    }
  }

  // ---------------------------------------------------------------- buckets

  /** SQLite and Go integer division: toward zero. */
  function TruncDiv(a: int, b: int): int
    requires b > 0
  {
    if a >= 0 then a / b else -(-a / b)
  }

  function Bucket(ts: int, b: int): int
    requires b > 0
  {
    TruncDiv(ts, b) * b
  }

  lemma BucketBounds(ts: int, b: int)
    requires b > 0
    ensures ts >= 0 ==> Bucket(ts, b) <= ts < Bucket(ts, b) + b
    ensures ts < 0 ==> ts <= Bucket(ts, b) < ts + b
  {
    var n := if ts >= 0 then ts else -ts;
    assert n == n / b * b + n % b;
    assert (-(n / b)) * b == -(n / b * b);
  }

  /** Rounding toward zero moves only negative timestamps between bucket boundaries up. */
  predicate Aligns(ts: int, b: int)
    requires b > 0
  {
    ts >= 0 || -ts % b == 0
  }

  lemma AlignsIff(ts: int, b: int)
    requires b > 0
    ensures Aligns(ts, b) <==> Bucket(ts, b) <= ts
  {
    BucketBounds(ts, b);
    var n := -ts;
    assert n == n / b * b + n % b;
    assert (-(n / b)) * b == -(n / b * b);
  }

  lemma Product(d: int, b: int)
    ensures d >= 0 && b > 0 ==> d * b >= 0
  {
  }

  lemma MulOrder(p: int, q: int, b: int)
    requires b > 0
    ensures p < q ==> p * b + b <= q * b
    ensures p >= q ==> p * b >= q * b
  {
    assert (q - p) * b == q * b - p * b;
    assert (q - p - 1) * b == (q - p) * b - b;
    Product(q - p - 1, b);
    Product(p - q, b);
  }

  /** A bucket of non-negative timestamps lies on one side of every multiple of the bucket size. */
  lemma BucketSide(ts: int, b: int, q: int)
    requires b > 0 && ts >= 0
    ensures Bucket(ts, b) < q * b <==> ts < q * b
  {
    BucketBounds(ts, b);
    MulOrder(TruncDiv(ts, b), q, b);
  }

  // ---------------------------------------------------------------- GROUP BY

  datatype Key = Key(series: Series, start: int)

  function KeyOf(r: Row, b: int): Key
    requires b > 0
  {
    Key(r.series, Bucket(r.ts, b))
  }

  function OfKey(k: Key, b: int): Row -> bool
    requires b > 0
  {
    (r: Row) => KeyOf(r, b) == k
  }

  function Sum(rows: seq<Row>): real {
    if rows == [] then 0.0 else rows[0].value + Sum(rows[1..])
  }

  function Mean(rows: seq<Row>): real
    requires rows != []
  {
    Sum(rows) / |rows| as real
  }

  function MinValue(rows: seq<Row>): (m: real)
    requires rows != []
    ensures exists r :: r in rows && r.value == m
    ensures forall r :: r in rows ==> m <= r.value
  {
    if |rows| == 1 then rows[0].value else
    var m := MinValue(rows[1..]);
    if rows[0].value < m then rows[0].value else m
  }

  function MaxValue(rows: seq<Row>): (m: real)
    requires rows != []
    ensures exists r :: r in rows && r.value == m
    ensures forall r :: r in rows ==> r.value <= m
  {
    if |rows| == 1 then rows[0].value else
    var m := MaxValue(rows[1..]);
    if rows[0].value > m then rows[0].value else m
  }

  /** The archive row for the rows of one group. */
  function Aggregate(rows: seq<Row>, k: Key, b: int): ArchiveRow
    requires rows != []
  {
    ArchiveRow(k.series, Mean(rows), MinValue(rows), MaxValue(rows), |rows|, k.start, k.start + b)
  }

  /** One archive row per (series, bucket), in order of first appearance. */
  function GroupBy(rows: seq<Row>, b: int): seq<ArchiveRow>
    requires b > 0
    decreases |rows|
  {
    if rows == [] then [] else
    var k := KeyOf(rows[0], b);
    Shrinks(rows, k, b);
    [Aggregate(Filter(rows, OfKey(k, b)), k, b)] + GroupBy(Filter(rows, Not(OfKey(k, b))), b)
  }

  lemma Shrinks(rows: seq<Row>, k: Key, b: int)
    requires b > 0 && rows != [] && k == KeyOf(rows[0], b)
    ensures Filter(rows, OfKey(k, b)) != [] && |Filter(rows, Not(OfKey(k, b)))| < |rows|
  {
    hide KeyOf;
  }

  function ArchiveKey(x: ArchiveRow): Key {
    Key(x.series, x.start)
  }

  /** `x` is the archive row of its whole group in `rows`. */
  ghost predicate IsGroup(x: ArchiveRow, rows: seq<Row>, b: int)
    requires b > 0
  {
    var group := Filter(rows, OfKey(ArchiveKey(x), b));
    group != [] && x == Aggregate(group, ArchiveKey(x), b)
  }

  ghost predicate DistinctKeys(xs: seq<ArchiveRow>) {
    forall i, j :: 0 <= i < j < |xs| ==> ArchiveKey(xs[i]) != ArchiveKey(xs[j])
  }

  /** GROUP BY yields exactly the archive rows of the groups, each once. */
  lemma {:induction false} GroupByIsGroups(rows: seq<Row>, b: int)
    requires b > 0
    ensures forall x :: x in GroupBy(rows, b) <==> IsGroup(x, rows, b)
    ensures DistinctKeys(GroupBy(rows, b))
    decreases |rows|
  {
    if rows != [] {
      var head, rest := GroupByUnfold(rows, b);
      hide GroupBy, IsGroup, ArchiveKey;
      GroupByIsGroups(rest, b);
      forall x: ArchiveRow
        ensures IsGroup(x, rows, b) <==> x == head || IsGroup(x, rest, b)
        ensures IsGroup(x, rest, b) ==> ArchiveKey(x) != ArchiveKey(head)
      {
        GroupOfRest(rows, b, x);
      }
      DistinctCons(head, GroupBy(rest, b));
    } else {
      assert forall x :: !IsGroup(x, rows, b);
    }
  }

  lemma DistinctCons(head: ArchiveRow, rest: seq<ArchiveRow>)
    requires DistinctKeys(rest) && forall x :: x in rest ==> ArchiveKey(x) != ArchiveKey(head)
    ensures DistinctKeys([head] + rest)
  {
    hide ArchiveKey;
  }

  /** The first archive row, and the rows that the others stand for. */
  lemma GroupByUnfold(rows: seq<Row>, b: int) returns (head: ArchiveRow, rest: seq<Row>)
    requires b > 0 && rows != []
    ensures var k := KeyOf(rows[0], b);
            && Filter(rows, OfKey(k, b)) != []
            && head == Aggregate(Filter(rows, OfKey(k, b)), k, b)
            && rest == Filter(rows, Not(OfKey(k, b)))
    ensures |rest| < |rows|
    ensures GroupBy(rows, b) == [head] + GroupBy(rest, b)
  {
    var k := KeyOf(rows[0], b);
    Shrinks(rows, k, b);
    hide KeyOf, Filter, Aggregate;
    head := Aggregate(Filter(rows, OfKey(k, b)), k, b);
    rest := Filter(rows, Not(OfKey(k, b)));
  }

  lemma GroupOfRest(rows: seq<Row>, b: int, x: ArchiveRow)
    requires b > 0 && rows != []
    ensures var k := KeyOf(rows[0], b);
            var group, rest := Filter(rows, OfKey(k, b)), Filter(rows, Not(OfKey(k, b)));
            && group != []
            && (IsGroup(x, rest, b) ==> ArchiveKey(x) != k)
            && ArchiveKey(Aggregate(group, k, b)) == k
            && (IsGroup(x, rows, b) <==> x == Aggregate(group, k, b) || IsGroup(x, rest, b))
  {
    var k := KeyOf(rows[0], b);
    Shrinks(rows, k, b);
    hide KeyOf, Sum, MinValue, MaxValue;
    var rest := Filter(rows, Not(OfKey(k, b)));
    var q := OfKey(ArchiveKey(x), b);
    if ArchiveKey(x) != k {
      FilterAbsorb(rows, Not(OfKey(k, b)), q);
    } else {
      FilterKeeps(rows, Not(OfKey(k, b)));
      FilterEmpty(rest, q);
    }
  }

  lemma {:induction false} DistinctCount(xs: seq<ArchiveRow>, x: ArchiveRow)
    requires DistinctKeys(xs)
    ensures multiset(xs)[x] == if x in xs then 1 else 0
  {
    if xs != [] {
      assert xs == [xs[0]] + xs[1..];
      DistinctCount(xs[1..], x);
    }
  }

  /** When no group has rows on both sides of `p`, grouping the sides apart gives the same archive rows. */
  lemma GroupBySplit(rows: seq<Row>, p: Row -> bool, b: int)
    requires b > 0
    requires forall r, s :: r in rows && s in rows && KeyOf(r, b) == KeyOf(s, b) ==> p(r) == p(s)
    ensures multiset(GroupBy(rows, b)) ==
            multiset(GroupBy(Filter(rows, p), b)) + multiset(GroupBy(Filter(rows, Not(p)), b))
  {
    hide KeyOf, GroupBy, IsGroup;
    var yes, no := Filter(rows, p), Filter(rows, Not(p));
    GroupByIsGroups(rows, b);
    GroupByIsGroups(yes, b);
    GroupByIsGroups(no, b);
    forall x
      ensures multiset(GroupBy(rows, b))[x] == multiset(GroupBy(yes, b))[x] + multiset(GroupBy(no, b))[x]
    {
      GroupOnOneSide(rows, p, b, x);
      DistinctCount(GroupBy(rows, b), x);
      DistinctCount(GroupBy(yes, b), x);
      DistinctCount(GroupBy(no, b), x);
    }
  }

  lemma GroupOnOneSide(rows: seq<Row>, p: Row -> bool, b: int, x: ArchiveRow)
    requires b > 0
    requires forall r, s :: r in rows && s in rows && KeyOf(r, b) == KeyOf(s, b) ==> p(r) == p(s)
    ensures IsGroup(x, rows, b) <==> IsGroup(x, Filter(rows, p), b) || IsGroup(x, Filter(rows, Not(p)), b)
    ensures !(IsGroup(x, Filter(rows, p), b) && IsGroup(x, Filter(rows, Not(p)), b))
  {
    hide KeyOf, Aggregate;
    var q := OfKey(ArchiveKey(x), b);
    var yes, no := Filter(rows, p), Filter(rows, Not(p));
    FilterKeeps(rows, p);
    FilterKeeps(rows, Not(p));
    FilterEmpty(rows, q);
    FilterEmpty(yes, q);
    FilterEmpty(no, q);
    if r :| r in rows && q(r) {
      if p(r) {
        FilterAbsorb(rows, p, q);
      } else {
        FilterAbsorb(rows, Not(p), q);
      }
    }
  }

  /** Every row is inside the value range and the time range of the archive row of its group. */
  lemma RowInItsBucket(rows: seq<Row>, b: int, r: Row)
    requires b > 0 && r in rows && r.ts >= 0
    ensures exists x :: x in GroupBy(rows, b) && x.series == r.series
                        && x.start <= r.ts < x.end && x.min <= r.value <= x.max
  {
    var k := KeyOf(r, b);
    var group := Filter(rows, OfKey(k, b));
    FilterKeeps(rows, OfKey(k, b));
    FilterEmpty(rows, OfKey(k, b));
    BucketBounds(r.ts, b);
    GroupByIsGroups(rows, b);
    assert IsGroup(Aggregate(group, k, b), rows, b);
  }

  // ---------------------------------------------------------------- what an archive row says

  /** The multiple of `b` next to `ts` toward zero. */
  predicate IsBucket(start: int, ts: int, b: int)
    requires b > 0
  {
    start % b == 0 && if ts >= 0 then start <= ts < start + b else start - b < ts <= start
  }

  lemma MultipleOf(q: int, b: int)
    requires b > 0
    ensures q * b % b == 0
  {
    var m := q * b;
    var p, r := m / b, m % b;
    assert m == p * b + r && 0 <= r < b;
    MulOrder(p, q, b);
    MulOrder(q, p, b);
  }

  lemma BucketIff(start: int, ts: int, b: int)
    requires b > 0
    ensures start == Bucket(ts, b) <==> IsBucket(start, ts, b)
  {
    BucketBounds(ts, b);
    MultipleOf(TruncDiv(ts, b), b);
    if IsBucket(start, ts, b) {
      var p, q := TruncDiv(ts, b), start / b;
      assert start == q * b;
      MulOrder(p, q, b);
      MulOrder(q, p, b);
    }
  }

  /** A row of the group that the archive row stands for. */
  predicate InGroup(x: ArchiveRow, r: Row, b: int)
    requires b > 0
  {
    r.series == x.series && IsBucket(x.start, r.ts, b)
  }

  function CountOf(rows: seq<Row>, x: ArchiveRow, b: int): nat
    requires b > 0
  {
    if rows == [] then 0 else (if InGroup(x, rows[0], b) then 1 else 0) + CountOf(rows[1..], x, b)
  }

  function TotalOf(rows: seq<Row>, x: ArchiveRow, b: int): real
    requires b > 0
  {
    if rows == [] then 0.0 else (if InGroup(x, rows[0], b) then rows[0].value else 0.0) + TotalOf(rows[1..], x, b)
  }

  /** What an archive row says of the rows of its series and bucket, of which there is at least one. */
  ghost predicate Summarises(x: ArchiveRow, rows: seq<Row>, b: int)
    requires b > 0
  {
    && x.end == x.start + b
    && x.count == CountOf(rows, x, b) && IsMean(x.avg, x.count, TotalOf(rows, x, b))
    && (forall r :: r in rows && InGroup(x, r, b) ==> x.min <= r.value <= x.max)
    && (exists r :: r in rows && InGroup(x, r, b) && r.value == x.min)
    && (exists r :: r in rows && InGroup(x, r, b) && r.value == x.max)
  }

  lemma InGroupIff(x: ArchiveRow, r: Row, b: int)
    requires b > 0
    ensures InGroup(x, r, b) <==> OfKey(ArchiveKey(x), b)(r)
  {
    BucketIff(x.start, r.ts, b);
  }

  lemma {:induction false} CountsGroup(rows: seq<Row>, x: ArchiveRow, b: int)
    requires b > 0
    ensures |Filter(rows, OfKey(ArchiveKey(x), b))| == CountOf(rows, x, b)
    ensures Sum(Filter(rows, OfKey(ArchiveKey(x), b))) == TotalOf(rows, x, b)
  {
    if rows != [] {
      InGroupIff(x, rows[0], b);
      CountsGroup(rows[1..], x, b);
      hide InGroup, OfKey;
    }
  }

  /** The average, told without division. */
  predicate IsMean(avg: real, count: nat, total: real) {
    avg * count as real == total
  }

  lemma MeanIff(group: seq<Row>, avg: real)
    requires group != []
    ensures avg == Mean(group) <==> IsMean(avg, |group|, Sum(group))
  {
    hide Sum;
  }

  lemma MinIff(group: seq<Row>, m: real)
    requires group != []
    ensures m == MinValue(group) <==> Attained(group, m) && forall r :: r in group ==> m <= r.value
  {
  }

  lemma MaxIff(group: seq<Row>, m: real)
    requires group != []
    ensures m == MaxValue(group) <==> Attained(group, m) && forall r :: r in group ==> r.value <= m
  {
  }

  ghost predicate Attained(group: seq<Row>, v: real) {
    exists r :: r in group && r.value == v
  }

  lemma AggregateIff(x: ArchiveRow, group: seq<Row>, b: int)
    requires group != []
    ensures x == Aggregate(group, ArchiveKey(x), b) <==>
            && x.end == x.start + b
            && x.count == |group| && IsMean(x.avg, x.count, Sum(group))
            && (forall r :: r in group ==> x.min <= r.value <= x.max)
            && Attained(group, x.min) && Attained(group, x.max)
  {
    MeanIff(group, x.avg);
    MinIff(group, x.min);
    MaxIff(group, x.max);
    hide Sum, Mean, IsMean, MinValue, MaxValue, Attained;
  }

  lemma AttainedIff(group: seq<Row>, rows: seq<Row>, x: ArchiveRow, b: int, v: real)
    requires b > 0 && forall r :: r in group <==> r in rows && InGroup(x, r, b)
    ensures Attained(group, v) <==> exists r :: r in rows && InGroup(x, r, b) && r.value == v
    ensures Attained(group, v) ==> group != []
  {
    hide InGroup;
  }

  lemma SummaryIsGroup(rows: seq<Row>, x: ArchiveRow, b: int)
    requires b > 0
    ensures IsGroup(x, rows, b) <==> Summarises(x, rows, b)
  {
    var group := Filter(rows, OfKey(ArchiveKey(x), b));
    CountsGroup(rows, x, b);
    forall r
      ensures r in group <==> r in rows && InGroup(x, r, b)
    {
      InGroupIff(x, r, b);
      FilterKeeps(rows, OfKey(ArchiveKey(x), b));
    }
    hide Filter, OfKey, InGroup, Sum, Aggregate, CountOf, TotalOf, ArchiveKey, IsMean;
    AttainedIff(group, rows, x, b, x.min);
    AttainedIff(group, rows, x, b, x.max);
    if group != [] {
      AggregateIff(x, group, b);
    }
    hide Attained;
  }

  /**
   * GROUP BY yields exactly the rows that say, for a series and a bucket with at least one sample, where
   * the bucket ends, how many samples it has, their average and their attained minimum and maximum.
   */
  lemma GroupByMeaning(rows: seq<Row>, b: int, x: ArchiveRow)
    requires b > 0
    ensures x in GroupBy(rows, b) <==> Summarises(x, rows, b)
  {
    GroupByIsGroups(rows, b);
    SummaryIsGroup(rows, x, b);
    hide GroupBy, IsGroup, Summarises;
  }
}
