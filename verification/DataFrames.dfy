/** The column kernels of the runtime's data frames, with scores as reals. */
module DataFrames {
  import opened Division
  import opened Words

  datatype Row = Row(id: int, group: int, score: real)

  /** Three columns of one length; freshly allocated columns hold anything. */
  class DataFrame {
    const len: nat
    const ids: array<int>
    const groups: array<int>
    const scores: array<real>

    constructor (len: nat)
      ensures this.len == len && Valid()
      ensures fresh(ids) && fresh(groups) && fresh(scores)
    {
      this.len := len;
      ids := new int[len];
      groups := new int[len];
      scores := new real[len];
    }

    predicate Valid() {
      ids.Length == len && groups.Length == len && scores.Length == len && ids != groups
    }

    ghost function RowAt(i: nat): Row
      requires Valid() && i < len
      reads ids, groups, scores
    {
      Row(ids[i], groups[i], scores[i])
    }

    /** The rows before `n`. */
    ghost function Prefix(n: nat): (rows: seq<Row>)
      requires Valid() && n <= len
      reads ids, groups, scores
      ensures |rows| == n && forall i | 0 <= i < n :: rows[i] == RowAt(i)
    {
      if n == 0 then [] else Prefix(n - 1) + [RowAt(n - 1)]
    }

    ghost function Rows(): seq<Row>
      requires Valid()
      reads ids, groups, scores
    {
      Prefix(len)
    }

    method Put(i: nat, row: Row)
      requires Valid() && i < len
      modifies ids, groups, scores
      ensures Prefix(i) == old(Prefix(i)) && Prefix(i + 1) == old(Prefix(i)) + [row]
    {
      ids[i], groups[i], scores[i] := row.id, row.group, row.score;
      assert Prefix(i) == old(Prefix(i));
    }
  }

  // ----- filter

  function Above(rows: seq<Row>, threshold: real): seq<Row> {
    if rows == [] then [] else
    var last := rows[|rows| - 1];
    Above(rows[..|rows| - 1], threshold) + if last.score > threshold then [last] else []
  }

  function NotAbove(rows: seq<Row>, threshold: real): seq<Row> {
    if rows == [] then [] else
    var last := rows[|rows| - 1];
    NotAbove(rows[..|rows| - 1], threshold) + if last.score > threshold then [] else [last]
  }

  /** Filtering splits the rows: nothing is lost, duplicated or put on the wrong side. */
  lemma {:induction false} FilterSplits(rows: seq<Row>, threshold: real)
    ensures multiset(Above(rows, threshold)) + multiset(NotAbove(rows, threshold)) == multiset(rows)
    ensures forall r | r in Above(rows, threshold) :: r.score > threshold
    ensures forall r | r in NotAbove(rows, threshold) :: !(r.score > threshold)
  {
    if rows != [] {
      FilterSplits(rows[..|rows| - 1], threshold);
      assert rows == rows[..|rows| - 1] + [rows[|rows| - 1]];
    }
  }

  lemma AboveStep(rows: seq<Row>, i: nat, threshold: real)
    requires i < |rows|
    ensures Above(rows[..i + 1], threshold)
         == Above(rows[..i], threshold) + if rows[i].score > threshold then [rows[i]] else []
  {
    assert rows[..i + 1][..i] == rows[..i];
  }

  lemma {:induction false} AboveGrows(rows: seq<Row>, i: nat, threshold: real)
    requires i <= |rows|
    ensures |Above(rows[..i], threshold)| <= |Above(rows, threshold)|
    decreases |rows| - i
  {
    hide Above;
    if i < |rows| {
      AboveStep(rows, i, threshold);
      AboveGrows(rows, i + 1, threshold);
    } else {
      assert rows[..i] == rows;
    }
  }

  /** Counts the rows first, then copies them: the second pass fills exactly the slots of the first. */
  method FilterGt(df: DataFrame?, threshold: real) returns (filtered: DataFrame?)
    requires df != null ==> df.Valid()
    ensures df == null <==> filtered == null
    ensures df != null ==> fresh(filtered) && filtered.Valid() && filtered.Rows() == Above(df.Rows(), threshold)
  {
    if df == null {
      return null;
    }
    ghost var rows := df.Rows();
    assert rows[..0] == [] && Above([], threshold) == [];
    hide Above, DataFrame.Prefix;
    var count := 0;
    for i := 0 to df.len
      invariant count == |Above(rows[..i], threshold)|
    {
      AboveStep(rows, i, threshold);
      if df.scores[i] > threshold {
        count := count + 1;
      }
    }
    assert rows[..df.len] == rows;
    var result := new DataFrame(count);
    var outIndex := 0;
    for i := 0 to df.len
      invariant fresh(result.ids) && fresh(result.groups) && fresh(result.scores) && df.Rows() == rows
      invariant outIndex == |Above(rows[..i], threshold)| <= result.len
      invariant result.Prefix(outIndex) == Above(rows[..i], threshold)
    {
      AboveStep(rows, i, threshold);
      AboveGrows(rows, i + 1, threshold);
      if df.scores[i] > threshold {
        result.Put(outIndex, Row(df.ids[i], df.groups[i], df.scores[i]));
        outIndex := outIndex + 1;
      }
    }
    filtered := result;
  }

  // ----- group by

  /** C's remainder, shifted up when negative. */
  function BucketOf(group: int, n: int): int
    requires 0 < n
  {
    var bucket := TruncRem(group, n);
    if bucket < 0 then bucket + n else bucket
  }

  /** The bucket is the Euclidean remainder of the group. */
  lemma BucketIsEuclidean(group: int, n: int)
    requires 0 < n
    ensures BucketOf(group, n) == group % n && 0 <= BucketOf(group, n) < n
  {
    var m, q := Magnitude(group), Magnitude(group) / n;
    DivMod(m, n);
    assert Magnitude(n) == n;
    if group >= 0 {
      assert TruncRem(group, n) == group - n * q;
      assert n * q == q * n;
      DivisionUnique(group, q, m % n, n);
    } else {
      assert TruncRem(group, n) == group - n * -q;
      NegateProduct(n, q);
      MulSub(-q, 1, n);
      if m % n == 0 {
        DivisionUnique(group, -q, 0, n);
      } else {
        DivisionUnique(group, -q - 1, n - m % n, n);
      }
    }
  }

  lemma NegateProduct(n: int, q: int)
    ensures n * -q == -(q * n) && (-q) * n == -(q * n)
  {
  }

  function CountIn(rows: seq<Row>, bucket: int, n: int): (c: nat)
    requires 0 < n
    ensures c <= |rows|
  {
    if rows == [] then 0 else
    CountIn(rows[..|rows| - 1], bucket, n) + if rows[|rows| - 1].group % n == bucket then 1 else 0
  }

  function SumIn(rows: seq<Row>, bucket: int, n: int): real
    requires 0 < n
  {
    if rows == [] then 0.0 else
    var last := rows[|rows| - 1];
    SumIn(rows[..|rows| - 1], bucket, n) + if last.group % n == bucket then last.score else 0.0
  }

  function Mean(sum: real, count: int): real
    requires count > 0
  {
    sum / count as real
  }

  /** One output row for each inhabited bucket below `k`: its number, twice, and its mean. */
  function Means(rows: seq<Row>, n: int, k: nat): seq<Row>
    requires 0 < n
  {
    if k == 0 then [] else
    Means(rows, n, k - 1)
    + if CountIn(rows, k - 1, n) > 0
      then [Row(k - 1, k - 1, Mean(SumIn(rows, k - 1, n), CountIn(rows, k - 1, n)))] else []
  }

  /** The two accumulators after a pass over the rows. */
  ghost predicate Tallied(rows: seq<Row>, n: nat, sums: seq<real>, counts: seq<int>)
    requires 0 < n
  {
    && |sums| == n && |counts| == n
    && forall b | 0 <= b < n :: sums[b] == SumIn(rows, b, n) && counts[b] == CountIn(rows, b, n)
  }

  lemma TallyStep(rows: seq<Row>, i: nat, n: nat, sums: seq<real>, counts: seq<int>)
    requires i < |rows| && 0 < n && Tallied(rows[..i], n, sums, counts)
    ensures var b := BucketOf(rows[i].group, n);
            && 0 <= b < n && |sums| == |counts| == n
            && Tallied(rows[..i + 1], n, sums[b := sums[b] + rows[i].score], counts[b := counts[b] + 1])
  {
    BucketIsEuclidean(rows[i].group, n);
    assert rows[..i + 1][..i] == rows[..i];
    hide BucketOf;
  }

  lemma TallyStart(n: nat, sums: seq<real>, counts: seq<int>)
    requires 0 < n == |sums| == |counts| && forall b | 0 <= b < n :: sums[b] == 0.0 && counts[b] == 0
    ensures Tallied([], n, sums, counts)
  {
  }

  method Tally(df: DataFrame, n: nat) returns (sums: array<real>, counts: array<int>)
    requires df.Valid() && 0 < n
    ensures fresh(sums) && fresh(counts) && Tallied(df.Rows(), n, sums[..], counts[..])
  {
    sums := new real[n](i => 0.0);
    counts := new int[n](i => 0);
    ghost var rows := df.Rows();
    TallyStart(n, sums[..], counts[..]);
    assert rows[..0] == [];
    hide Tallied, TruncRem, DataFrame.Prefix;
    for i := 0 to df.len
      invariant df.Rows() == rows && Tallied(rows[..i], n, sums[..], counts[..])
    {
      ghost var ss, cs := sums[..], counts[..];
      TallyStep(rows, i, n, ss, cs);
      var bucket := TruncRem(df.groups[i], n);
      if bucket < 0 {
        bucket := bucket + n;
      }
      sums[bucket] := sums[bucket] + df.scores[i];
      counts[bucket] := counts[bucket] + 1;
      assert sums[..] == ss[bucket := ss[bucket] + rows[i].score];
      assert counts[..] == cs[bucket := cs[bucket] + 1];
    }
    assert rows[..df.len] == rows;
  }

  /** What the tally says about the next bucket; the output so far leaves room for it. */
  lemma MeansStep(rows: seq<Row>, n: nat, k: nat, sums: seq<real>, counts: seq<int>)
    requires 0 < n && k < n && Tallied(rows, n, sums, counts)
    ensures |sums| == |counts| == n
    ensures Means(rows, n, k + 1)
         == Means(rows, n, k) + if counts[k] > 0 then [Row(k, k, Mean(sums[k], counts[k]))] else []
    ensures |Means(rows, n, k + 1)| <= |Means(rows, n, n)|
  {
    MeansLength(rows, n, k + 1, n);
    hide SumIn, CountIn;
  }

  lemma {:induction false} MeansLength(rows: seq<Row>, n: int, k: nat, top: nat)
    requires 0 < n && k <= top
    ensures |Means(rows, n, k)| <= |Means(rows, n, top)|
    decreases top - k
  {
    if k < top {
      MeansLength(rows, n, k + 1, top);
    }
    hide SumIn, CountIn;
  }

  /** The second loop: how many buckets hold a row. */
  method UsedBuckets(ghost rows: seq<Row>, n: nat, ghost sums: seq<real>, counts: array<int>) returns (used: nat)
    requires 0 < n && Tallied(rows, n, sums, counts[..])
    ensures used == |Means(rows, n, n)|
  {
    assert Means(rows, n, 0) == [];
    hide Tallied, Means, Mean;
    used := 0;
    for i := 0 to n
      invariant used == |Means(rows, n, i)|
    {
      MeansStep(rows, n, i, sums, counts[..]);
      if counts[i] > 0 {
        used := used + 1;
      }
    }
  }

  /** The third loop: every slot of the output is filled once. */
  method FillMeans(ghost rows: seq<Row>, n: nat, sums: array<real>, counts: array<int>, used: nat)
    returns (result: DataFrame)
    requires 0 < n && Tallied(rows, n, sums[..], counts[..]) && used == |Means(rows, n, n)|
    ensures fresh(result) && result.Valid() && result.Rows() == Means(rows, n, n)
  {
    result := new DataFrame(used);
    assert Means(rows, n, 0) == [];
    hide Tallied, Means, Mean, DataFrame.Prefix;
    var outIndex := 0;
    for i := 0 to n
      invariant fresh(result.ids) && fresh(result.groups) && fresh(result.scores)
      invariant outIndex == |Means(rows, n, i)| <= used && result.Prefix(outIndex) == Means(rows, n, i)
    {
      MeansStep(rows, n, i, sums[..], counts[..]);
      if counts[i] > 0 {
        result.Put(outIndex, Row(i, i, Mean(sums[i], counts[i])));
        outIndex := outIndex + 1;
      }
    }
  }

  /** `agam_dataframe_group_by`: exactly as many slots as inhabited buckets, each filled once. */
  method GroupBy(df: DataFrame?, groupCount: int) returns (grouped: DataFrame?)
    requires df != null ==> df.Valid()
    ensures df == null <==> grouped == null
    ensures df != null ==> fresh(grouped) && grouped.Valid()
    ensures df != null ==> var n := if groupCount <= 0 then 1 else groupCount;
                           grouped.Rows() == Means(df.Rows(), n, n)
  {
    if df == null {
      return null;
    }
    var n := if groupCount <= 0 then 1 else groupCount;
    var sums, counts := Tally(df, n);
    ghost var rows := df.Rows();
    var used := UsedBuckets(rows, n, sums[..], counts);
    grouped := FillMeans(rows, n, sums, counts, used);
    hide Tallied, Means;
  }

  // ----- conservation

  function TotalCount(rows: seq<Row>, n: int, k: nat): nat
    requires 0 < n
  {
    if k == 0 then 0 else TotalCount(rows, n, k - 1) + CountIn(rows, k - 1, n)
  }

  function TotalSum(rows: seq<Row>, n: int, k: nat): real
    requires 0 < n
  {
    if k == 0 then 0.0 else TotalSum(rows, n, k - 1) + SumIn(rows, k - 1, n)
  }

  function Scores(rows: seq<Row>): real {
    if rows == [] then 0.0 else Scores(rows[..|rows| - 1]) + rows[|rows| - 1].score
  }

  lemma {:induction false} TotalsStep(rows: seq<Row>, row: Row, n: int, k: nat)
    requires 0 < n
    ensures TotalCount(rows + [row], n, k) == TotalCount(rows, n, k) + if row.group % n < k then 1 else 0
    ensures TotalSum(rows + [row], n, k) == TotalSum(rows, n, k) + if row.group % n < k then row.score else 0.0
    decreases k
  {
    if k > 0 {
      TotalsStep(rows, row, n, k - 1);
      assert (rows + [row])[..|rows|] == rows;
    }
  }

  lemma {:induction false} NoTotals(n: int, k: nat)
    requires 0 < n
    ensures TotalCount([], n, k) == 0 && TotalSum([], n, k) == 0.0
  {
    if k > 0 {
      NoTotals(n, k - 1);
    }
  }

  /** Over all buckets the counts add up to the rows and the sums to all scores. */
  lemma {:induction false} TotalsConserved(rows: seq<Row>, n: nat)
    requires 0 < n
    ensures TotalCount(rows, n, n) == |rows| && TotalSum(rows, n, n) == Scores(rows)
    decreases |rows|
  {
    if rows == [] {
      NoTotals(n, n);
    } else {
      var front, last := rows[..|rows| - 1], rows[|rows| - 1];
      TotalsConserved(front, n);
      TotalsStep(front, last, n, n);
      assert rows == front + [last];
    }
  }

  /** The rows an output frame stands for, and the scores when each mean is weighted by its count. */
  function WeightedCount(output: seq<Row>, rows: seq<Row>, n: int): nat
    requires 0 < n
  {
    if output == [] then 0 else
    WeightedCount(output[..|output| - 1], rows, n) + CountIn(rows, output[|output| - 1].id, n)
  }

  function WeightedScore(output: seq<Row>, rows: seq<Row>, n: int): real
    requires 0 < n
  {
    if output == [] then 0.0 else
    var last := output[|output| - 1];
    WeightedScore(output[..|output| - 1], rows, n) + Times(last.score, CountIn(rows, last.id, n))
  }

  function Times(mean: real, count: nat): real {
    mean * count as real
  }

  lemma MeanTimesCount(sum: real, count: nat)
    requires count > 0
    ensures Times(Mean(sum, count), count) == sum
  {
  }

  lemma {:induction false} EmptyBucketHasNoScore(rows: seq<Row>, bucket: int, n: int)
    requires 0 < n && CountIn(rows, bucket, n) == 0
    ensures SumIn(rows, bucket, n) == 0.0
  {
    if rows != [] {
      EmptyBucketHasNoScore(rows[..|rows| - 1], bucket, n);
    }
  }

  lemma WeightedStep(output: seq<Row>, o: Row, rows: seq<Row>, n: int)
    requires 0 < n
    ensures WeightedCount(output + [o], rows, n) == WeightedCount(output, rows, n) + CountIn(rows, o.id, n)
    ensures WeightedScore(output + [o], rows, n)
         == WeightedScore(output, rows, n) + Times(o.score, CountIn(rows, o.id, n))
  {
    assert (output + [o])[..|output|] == output;
    hide CountIn, Times;
  }

  lemma {:induction false} MeansWeigh(rows: seq<Row>, n: int, k: nat)
    requires 0 < n
    ensures WeightedCount(Means(rows, n, k), rows, n) == TotalCount(rows, n, k)
    ensures WeightedScore(Means(rows, n, k), rows, n) == TotalSum(rows, n, k)
  {
    hide CountIn, SumIn, Times, Mean;
    if k > 0 {
      MeansWeigh(rows, n, k - 1);
      var count, sum := CountIn(rows, k - 1, n), SumIn(rows, k - 1, n);
      if count > 0 {
        WeightedStep(Means(rows, n, k - 1), Row(k - 1, k - 1, Mean(sum, count)), rows, n);
        MeanTimesCount(sum, count);
      } else {
        EmptyBucketHasNoScore(rows, k - 1, n);
        assert Means(rows, n, k) == Means(rows, n, k - 1);
      }
    }
  }

  /** Grouping loses no row and no score: counts add up to the length, means times counts to the total. */
  lemma GroupingConserves(rows: seq<Row>, n: nat)
    requires 0 < n
    ensures WeightedCount(Means(rows, n, n), rows, n) == |rows|
    ensures WeightedScore(Means(rows, n, n), rows, n) == Scores(rows)
  {
    MeansWeigh(rows, n, n);
    TotalsConserved(rows, n);
  }

  ghost predicate FallsInto(rows: seq<Row>, bucket: int, n: int)
    requires 0 < n
  {
    exists r :: r in rows && r.group % n == bucket
  }

  ghost predicate Listed(output: seq<Row>, id: int) {
    exists o :: o in output && o.id == id
  }

  lemma FallsIntoStep(rows: seq<Row>, row: Row, bucket: int, n: int)
    requires 0 < n
    ensures FallsInto(rows + [row], bucket, n) <==> FallsInto(rows, bucket, n) || row.group % n == bucket
  {
    assert forall r :: r in rows + [row] <==> r in rows || r == row;
  }

  lemma ListedStep(output: seq<Row>, o: Row, id: int)
    ensures Listed(output + [o], id) <==> Listed(output, id) || o.id == id
  {
    assert forall r :: r in output + [o] <==> r in output || r == o;
  }

  lemma {:induction false} CountedExactly(rows: seq<Row>, bucket: int, n: int)
    requires 0 < n
    ensures CountIn(rows, bucket, n) > 0 <==> FallsInto(rows, bucket, n)
  {
    if rows != [] {
      var front, last := rows[..|rows| - 1], rows[|rows| - 1];
      CountedExactly(front, bucket, n);
      FallsIntoStep(front, last, bucket, n);
      assert rows == front + [last];
      hide FallsInto;
    }
  }

  lemma {:induction false} ListedExactly(rows: seq<Row>, n: int, k: nat, b: int)
    requires 0 < n
    ensures Listed(Means(rows, n, k), b) <==> 0 <= b < k && CountIn(rows, b, n) > 0
  {
    if k > 0 {
      hide CountIn, SumIn;
      ListedExactly(rows, n, k - 1, b);
      if CountIn(rows, k - 1, n) > 0 {
        ListedStep(Means(rows, n, k - 1), Row(k - 1, k - 1, Mean(SumIn(rows, k - 1, n), CountIn(rows, k - 1, n))), b);
      }
      hide Listed;
    }
  }

  ghost predicate Ascending(output: seq<Row>, top: int) {
    && (forall i | 0 <= i < |output| :: output[i].id < top && output[i].group == output[i].id)
    && forall i, j | 0 <= i < j < |output| :: output[i].id < output[j].id
  }

  lemma {:induction false} IdsIncrease(rows: seq<Row>, n: int, k: nat)
    requires 0 < n
    ensures Ascending(Means(rows, n, k), k)
  {
    hide CountIn, SumIn;
    if k > 0 {
      IdsIncrease(rows, n, k - 1);
    }
  }

  /** The output ids are exactly the buckets some row falls into, in strictly increasing order. */
  lemma IdsAreInhabitedBuckets(rows: seq<Row>, n: nat)
    requires 0 < n
    ensures Ascending(Means(rows, n, n), n)
    ensures forall b :: Listed(Means(rows, n, n), b) <==> FallsInto(rows, b, n)
  {
    IdsIncrease(rows, n, n);
    forall b
      ensures Listed(Means(rows, n, n), b) <==> FallsInto(rows, b, n)
    {
      CountedExactly(rows, b, n);
      ListedExactly(rows, n, n, b);
      if FallsInto(rows, b, n) {
        BucketsBelow(rows, b, n);
      }
      hide Listed, FallsInto, Means, CountIn;
    }
  }

  lemma BucketsBelow(rows: seq<Row>, b: int, n: int)
    requires 0 < n && FallsInto(rows, b, n)
    ensures 0 <= b < n
  {
  }
}
