/** The embedding provider benchmark: cyclic batches over a pool of texts and nearest-rank
    percentiles of the measured times. */
module ProviderBenchmark {
  import opened DecimalAverage

  // ---------------------------------------------------------------- cyclic batches

  /** The batch of one iteration, counted from 1: batchSize consecutive pool positions,
      wrapping around. */
  function Batch(texts: seq<string>, batchSize: nat, iteration: nat): seq<string>
    requires texts != [] && iteration > 0
  {
    var offset := (iteration - 1) * batchSize;
    seq(batchSize, index requires 0 <= index < batchSize => texts[(offset + index) % |texts|])
  }

  /** The pool repeated in order, cut after n texts. */
  function Repeated(texts: seq<string>, n: nat): (r: seq<string>)
    requires texts != []
    ensures |r| == n && forall i :: 0 <= i < n ==> r[i] == texts[i % |texts|]
  {
    seq(n, i requires 0 <= i < n => texts[i % |texts|])
  }

  /** The requests of a benchmark, one batch per iteration: concatenated, they are the pool
      repeated in order. */
  method SendBatches(texts: seq<string>, batchSize: nat, iterations: nat)
    returns (batches: seq<seq<string>>, ghost sent: seq<string>)
    requires texts != [] && batchSize > 0
    ensures |batches| == iterations && forall i :: 0 <= i < iterations ==> |batches[i]| == batchSize
    ensures sent == Flatten(batches) == Repeated(texts, iterations * batchSize)
  {
    batches, sent := [], [];
    for i := 0 to iterations
      invariant |batches| == i && forall j :: 0 <= j < i ==> |batches[j]| == batchSize
      invariant sent == Flatten(batches) == Repeated(texts, i * batchSize)
    {
      var batch := Batch(texts, batchSize, i + 1);
      NextBatch(texts, batchSize, i);
      FlattenSnoc(batches, batch);
      batches, sent := batches + [batch], sent + batch;
    }
  }

  function Flatten(batches: seq<seq<string>>): seq<string> {
    if batches == [] then [] else Flatten(batches[..|batches| - 1]) + batches[|batches| - 1]
  }

  lemma FlattenSnoc(batches: seq<seq<string>>, batch: seq<string>)
    ensures Flatten(batches + [batch]) == Flatten(batches) + batch
  {
    assert (batches + [batch])[..|batches|] == batches;
  }

  lemma NextBatch(texts: seq<string>, batchSize: nat, i: nat)
    requires texts != []
    ensures Repeated(texts, (i + 1) * batchSize) == Repeated(texts, i * batchSize) + Batch(texts, batchSize, i + 1)
  {
    assert (i + 1) * batchSize == i * batchSize + batchSize;
  }

  /** The pool positions one iteration reads. */
  function Positions(poolSize: nat, batchSize: nat, iteration: nat): seq<nat>
    requires poolSize > 0 && iteration > 0
  {
    var offset := (iteration - 1) * batchSize;
    seq(batchSize, index requires 0 <= index < batchSize => (offset + index) % poolSize)
  }

  /** The pool positions all iterations read, one batch after the other. */
  function AllPositions(poolSize: nat, batchSize: nat, iterations: nat): seq<nat>
    requires poolSize > 0
  {
    if iterations == 0 then []
    else AllPositions(poolSize, batchSize, iterations - 1) + Positions(poolSize, batchSize, iterations)
  }

  /** A batch holds the texts at its positions. */
  lemma BatchReadsItsPositions(texts: seq<string>, batchSize: nat, iteration: nat)
    requires texts != [] && iteration > 0
    ensures var batch, positions := Batch(texts, batchSize, iteration), Positions(|texts|, batchSize, iteration);
      && |batch| == |positions|
      && forall i :: 0 <= i < |batch| ==> positions[i] < |texts| && batch[i] == texts[positions[i]]
  {
  }

  /** The positions read go round the pool. */
  lemma {:induction false} PositionsGoRound(poolSize: nat, batchSize: nat, iterations: nat)
    requires poolSize > 0
    ensures AllPositions(poolSize, batchSize, iterations) == GoingRound(poolSize, iterations * batchSize)
  {
    if iterations > 0 {
      var before, n := (iterations - 1) * batchSize, iterations * batchSize;
      PositionsGoRound(poolSize, batchSize, iterations - 1);
      assert n == before + batchSize;
      RoundContinues(poolSize, before, batchSize);
    }
  }

  function GoingRound(poolSize: nat, n: nat): seq<nat>
    requires poolSize > 0
  {
    seq(n, i requires 0 <= i < n => i % poolSize)
  }

  lemma RoundContinues(poolSize: nat, before: nat, more: nat)
    requires poolSize > 0
    ensures GoingRound(poolSize, before + more)
         == GoingRound(poolSize, before) + seq(more, i requires 0 <= i < more => (before + i) % poolSize)
  {
  }

  /** How often a pool position is read. */
  function Uses(positions: seq<nat>, p: nat): nat {
    if positions == [] then 0
    else Uses(positions[..|positions| - 1], p) + if positions[|positions| - 1] == p then 1 else 0
  }

  lemma {:induction false} RoundIsFair(poolSize: nat, n: nat, p: nat)
    requires p < poolSize
    ensures Uses(GoingRound(poolSize, n), p) == n / poolSize + if p < n % poolSize then 1 else 0
  {
    if n > 0 {
      RoundIsFair(poolSize, n - 1, p);
      assert GoingRound(poolSize, n)[..n - 1] == GoingRound(poolSize, n - 1);
      NextQuotient(n - 1, poolSize);
    }
  }

  /** Cyclic batching is fair: of the n texts that a benchmark sends, every pool position
      supplies floor(n / L) or ceil(n / L), the first n mod L positions once more than the
      others. */
  lemma CyclingIsFair(poolSize: nat, batchSize: nat, iterations: nat, p: nat)
    requires p < poolSize
    ensures var n := iterations * batchSize;
      Uses(AllPositions(poolSize, batchSize, iterations), p) == n / poolSize + if p < n % poolSize then 1 else 0
  {
    PositionsGoRound(poolSize, batchSize, iterations);
    RoundIsFair(poolSize, iterations * batchSize, p);
  }

  lemma NextQuotient(m: nat, d: nat)
    requires d > 0
    ensures m % d + 1 < d ==> (m + 1) / d == m / d && (m + 1) % d == m % d + 1
    ensures m % d + 1 == d ==> (m + 1) / d == m / d + 1 && (m + 1) % d == 0
  {
    var q, r := m / d, m % d;
    if r + 1 < d {
      QuotientIs(m + 1, d, q, r + 1);
    } else {
      assert (q + 1) * d == q * d + d;
      QuotientIs(m + 1, d, q + 1, 0);
    }
  }

  lemma QuotientIs(n: nat, d: nat, q: nat, r: nat)
    requires r < d && n == q * d + r
    ensures n / d == q && n % d == r
  {
    if n / d < q {
      MulGap(n / d, q, d);
    } else if q < n / d {
      MulGap(q, n / d, d);
    }
  }

  // ---------------------------------------------------------------- percentiles

  function InsertInt(x: int, s: seq<int>): seq<int> {
    if s == [] || x < s[0] then [x] + s else [s[0]] + InsertInt(x, s[1..])
  }

  function SortInts(s: seq<int>): seq<int> {
    if s == [] then [] else InsertInt(s[|s| - 1], SortInts(s[..|s| - 1]))
  }

  ghost predicate Ascends(s: seq<int>) {
    forall i, j :: 0 <= i < j < |s| ==> s[i] <= s[j]
  }

  lemma {:induction false} InsertIntKeeps(x: int, s: seq<int>)
    ensures multiset(InsertInt(x, s)) == multiset(s) + multiset{x}
  {
    if !(s == [] || x < s[0]) {
      InsertIntKeeps(x, s[1..]);
      assert s == [s[0]] + s[1..];
    }
  }

  lemma {:induction false} InsertIntSorted(x: int, s: seq<int>)
    requires Ascends(s)
    ensures Ascends(InsertInt(x, s))
  {
    if !(s == [] || x < s[0]) {
      InsertIntSorted(x, s[1..]);
      InsertIntKeeps(x, s[1..]);
      var rest := InsertInt(x, s[1..]);
      forall i | 0 <= i < |rest|
        ensures s[0] <= rest[i]
      {
        assert rest[i] in multiset(rest);
        if rest[i] != x { assert rest[i] in s[1..]; }
      }
    }
  }

  lemma {:induction false} SortIntsSorted(s: seq<int>)
    ensures Ascends(SortInts(s)) && multiset(SortInts(s)) == multiset(s) && |SortInts(s)| == |s|
  {
    if s != [] {
      var init, last := s[..|s| - 1], s[|s| - 1];
      SortIntsSorted(init);
      InsertIntSorted(last, SortInts(init));
      InsertIntKeeps(last, SortInts(init));
      assert s == init + [last];
      assert multiset(s) == multiset(init) + multiset{last};
    }
    SameMultisetSameLength(SortInts(s), s);
  }

  lemma SameMultisetSameLength(s: seq<int>, t: seq<int>)
    requires multiset(s) == multiset(t)
    ensures |s| == |t|
  {
    assert |s| == |multiset(s)| == |multiset(t)|;
  }

  /** The rank asked for: percentile / 100 of the sample size, rounded half to even, at
      least 1. */
  function Rank(n: nat, percentile: nat): (rank: nat)
    ensures rank >= 1
  {
    var r := RoundHalfEven(percentile * n, 100);
    if r < 1 then 1 else r
  }

  function RankIndex(n: nat, percentile: nat): (i: nat)
    requires n > 0
    ensures i < n
  {
    var rank := Rank(n, percentile);
    if rank - 1 < n - 1 then rank - 1 else n - 1
  }

  function NearestRankPercentile(values: seq<int>, percentile: nat): int {
    if values == [] then 0
    else
      var sorted := SortInts(values);
      SortIntsSorted(values);
      sorted[RankIndex(|sorted|, percentile)]
  }

  /** How many values are below a bound. */
  function CountBelow(s: seq<int>, bound: int): nat {
    if s == [] then 0 else (if s[0] < bound then 1 else 0) + CountBelow(s[1..], bound)
  }

  lemma {:induction false} CountInserted(x: int, s: seq<int>, bound: int)
    ensures CountBelow(InsertInt(x, s), bound) == CountBelow(s, bound) + if x < bound then 1 else 0
  {
    if s == [] || x < s[0] {
      assert ([x] + s)[1..] == s;
    } else {
      CountInserted(x, s[1..], bound);
      assert ([s[0]] + InsertInt(x, s[1..]))[1..] == InsertInt(x, s[1..]);
    }
  }

  lemma {:induction false} CountSnoc(s: seq<int>, x: int, bound: int)
    ensures CountBelow(s + [x], bound) == CountBelow(s, bound) + if x < bound then 1 else 0
  {
    if s == [] {
      assert [x][1..] == [] && s + [x] == [x];
    } else {
      assert (s + [x])[1..] == s[1..] + [x];
      CountSnoc(s[1..], x, bound);
    }
  }

  lemma {:induction false} SortingKeepsCounts(s: seq<int>, bound: int)
    ensures CountBelow(SortInts(s), bound) == CountBelow(s, bound)
  {
    if s != [] {
      var init, last := s[..|s| - 1], s[|s| - 1];
      SortingKeepsCounts(init, bound);
      CountInserted(last, SortInts(init), bound);
      CountSnoc(init, last, bound);
      assert s == init + [last];
    }
  }

  lemma {:induction false} FrontIsBelow(s: seq<int>, bound: int, k: nat)
    requires k <= |s| && forall i :: 0 <= i < k ==> s[i] < bound
    ensures CountBelow(s, bound) >= k
  {
    if k > 0 { FrontIsBelow(s[1..], bound, k - 1); }
  }

  lemma {:induction false} OnlyFrontIsBelow(s: seq<int>, bound: int, k: nat)
    requires k <= |s| && forall i :: k <= i < |s| ==> s[i] >= bound
    ensures CountBelow(s, bound) <= k
  {
    if s != [] { OnlyFrontIsBelow(s[1..], bound, if k == 0 then 0 else k - 1); }
  }

  lemma TimesMonotone(a: nat, b: nat, c: nat)
    requires a <= b
    ensures a * c <= b * c
  {
  }

  lemma RankWithinSample(n: nat, percentile: nat)
    requires n > 0 && percentile <= 100
    ensures Rank(n, percentile) <= n
  {
    TimesMonotone(percentile, 100, n);
    RoundHalfEvenBetween(percentile * n, 100, 0, n);
  }

  /** A member of the sample with fewer than `rank` values below it and at least `rank`
      values that are at most it. */
  ghost predicate HasRank(values: seq<int>, v: int, rank: nat) {
    v in values && CountBelow(values, v) < rank <= CountBelow(values, v + 1)
  }

  lemma KthInOrder(sorted: seq<int>, k: nat)
    requires Ascends(sorted) && k < |sorted|
    ensures CountBelow(sorted, sorted[k]) <= k < CountBelow(sorted, sorted[k] + 1)
  {
    OnlyFrontIsBelow(sorted, sorted[k], k);
    FrontIsBelow(sorted, sorted[k] + 1, k + 1);
  }

  lemma KthSmallest(values: seq<int>, k: nat)
    requires k < |values|
    ensures |SortInts(values)| == |values|
    ensures HasRank(values, SortInts(values)[k], k + 1)
  {
    SortIntsSorted(values);
    var v := SortInts(values)[k];
    assert v in multiset(SortInts(values));
    KthInOrder(SortInts(values), k);
    SortingKeepsCounts(values, v);
    SortingKeepsCounts(values, v + 1);
  }

  lemma PercentileAtRank(values: seq<int>, percentile: nat, rank: nat)
    requires rank == Rank(|values|, percentile) <= |values|
    ensures |SortInts(values)| == |values|
    ensures NearestRankPercentile(values, percentile) == SortInts(values)[rank - 1]
  {
    SortIntsSorted(values);
  }

  /** The percentile is a member of the sample and, by count, the value of that rank. */
  lemma PercentileHasItsRank(values: seq<int>, percentile: nat)
    requires values != [] && percentile <= 100
    ensures HasRank(values, NearestRankPercentile(values, percentile), Rank(|values|, percentile))
  {
    var rank := Rank(|values|, percentile);
    RankWithinSample(|values|, percentile);
    KthSmallest(values, rank - 1);
    PercentileAtRank(values, percentile, rank);
  }

  /** The larger of 1 and the nearest integer to percentile / 100 of the sample size, ties to
      even. */
  ghost predicate IsPercentileRank(n: nat, percentile: nat, rank: nat) {
    || (IsNearestEven(percentile * n, 100, rank) && rank >= 1)
    || (IsNearestEven(percentile * n, 100, 0) && rank == 1)
  }

  lemma RankIsThePercentileRank(n: nat, percentile: nat, rank: nat)
    ensures IsPercentileRank(n, percentile, rank) <==> rank == Rank(n, percentile)
  {
    RoundHalfEvenIsCorrectRounding(percentile * n, 100, rank);
    RoundHalfEvenIsCorrectRounding(percentile * n, 100, 0);
  }

  /** The percentile is the one value of that rank in the sample. */
  lemma PercentileExactlyWhen(values: seq<int>, percentile: nat, v: int, rank: nat)
    requires values != [] && percentile <= 100 && IsPercentileRank(|values|, percentile, rank)
    ensures v == NearestRankPercentile(values, percentile) <==> HasRank(values, v, rank)
  {
    RankIsThePercentileRank(|values|, percentile, rank);
    PercentileHasItsRank(values, percentile);
    if HasRank(values, v, rank) { OneValueOfARank(values, v, NearestRankPercentile(values, percentile), rank); }
  }

  lemma {:induction false} CountBelowMonotone(s: seq<int>, low: int, high: int)
    requires low <= high
    ensures CountBelow(s, low) <= CountBelow(s, high)
  {
    if s != [] { CountBelowMonotone(s[1..], low, high); }
  }

  lemma OneValueOfARank(values: seq<int>, v: int, w: int, rank: nat)
    requires HasRank(values, v, rank) && HasRank(values, w, rank)
    ensures v == w
  {
    if v < w { CountBelowMonotone(values, v + 1, w); }
    if w < v { CountBelowMonotone(values, w + 1, v); }
  }

  /** What p50 and p95 promise by count: fewer than half of the times are below the median
      and at most half of one more than their number above it; at most 95 and a half percent
      are below p95 or it is the least, and at most 5 and a half above it. */
  lemma MedianAndTail(values: seq<int>)
    requires values != []
    ensures var n, v := |values|, NearestRankPercentile(values, 50);
      2 * CountBelow(values, v) < n && 2 * (n - CountBelow(values, v + 1)) <= n + 1
    ensures var n, v := |values|, NearestRankPercentile(values, 95);
      && (CountBelow(values, v) == 0 || 100 * CountBelow(values, v) <= 95 * n - 50)
      && 100 * (n - CountBelow(values, v + 1)) <= 5 * n + 50
  {
    PercentileHasItsRank(values, 50);
    PercentileHasItsRank(values, 95);
    RankIsThePercentileRank(|values|, 50, Rank(|values|, 50));
    RankIsThePercentileRank(|values|, 95, Rank(|values|, 95));
  }

  lemma RankIndexMonotone(n: nat, low: nat, high: nat)
    requires n > 0 && low <= high
    ensures RankIndex(n, low) <= RankIndex(n, high)
  {
    TimesMonotone(low, high, n);
    RoundHalfEvenMonotone(low * n, high * n, 100);
  }

  /** Percentiles are monotone, so p50 never exceeds p95. */
  lemma PercentilesAreMonotone(values: seq<int>, low: nat, high: nat)
    requires low <= high
    ensures NearestRankPercentile(values, low) <= NearestRankPercentile(values, high)
  {
    if values != [] {
      SortIntsSorted(values);
      RankIndexMonotone(|values|, low, high);
    }
  }
}
