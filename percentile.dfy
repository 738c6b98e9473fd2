/**
 * The exact strategy (`PercentileCalculator` of lre_client/analytics/percentile.py):
 * per-key parallel arrays of response times and counts grown chunk by chunk,
 * then resolved by sorted cumulative-weight interpolation.
 */
module Percentile {
  import opened Wrappers
  import opened Rows
  import opened Sorting
  import opened Interpolation

  /** `self.percentiles`: the targets every group is resolved at. */
  const Targets: seq<real> := [50.0, 90.0, 95.0, 99.0]

  // ------------------------------------------------------------ the estimator

  function Sum(s: seq<real>): real
  {
    if s == [] then 0.0 else Sum(s[..|s| - 1]) + s[|s| - 1]
  }

  lemma {:induction false} SumCons(x: real, s: seq<real>)
    ensures Sum([x] + s) == x + Sum(s)
    decreases |s|
  {
    if s != [] {
      var t := [x] + s;
      assert t[..|t| - 1] == [x] + s[..|s| - 1];
      SumCons(x, s[..|s| - 1]);
    }
  }

  /** `np.cumsum`: element i is the sum of the first i + 1 weights. */
  function CumSum(ws: seq<real>): (c: seq<real>)
    ensures |c| == |ws|
    ensures |ws| > 0 ==> c[|ws| - 1] == Sum(ws)
  {
    assert ws[..|ws|] == ws;
    seq(|ws|, i requires 0 <= i < |ws| => Sum(ws[..i + 1]))
  }

  lemma {:induction false} PrefixSumsGrow(ws: seq<real>, m: nat, n: nat)
    requires m <= n <= |ws|
    requires forall i :: 0 <= i < |ws| ==> ws[i] >= 0.0
    ensures Sum(ws[..m]) <= Sum(ws[..n])
    ensures (forall i :: 0 <= i < |ws| ==> ws[i] > 0.0) && m < n ==> Sum(ws[..m]) < Sum(ws[..n])
    decreases n - m
  {
    if m < n {
      PrefixSumsGrow(ws, m, n - 1);
      assert ws[..n][..n - 1] == ws[..n - 1];
    }
  }

  /** With non-negative weights the cumulative sums never decrease; with positive ones they increase. */
  lemma CumSumOrdered(ws: seq<real>)
    requires forall i :: 0 <= i < |ws| ==> ws[i] >= 0.0
    ensures NonDecreasing(CumSum(ws))
    ensures (forall i :: 0 <= i < |ws| ==> ws[i] > 0.0) ==> Increasing(CumSum(ws))
  {
    forall i, j | 0 <= i < j < |ws| ensures CumSum(ws)[i] <= CumSum(ws)[j] {
      PrefixSumsGrow(ws, i + 1, j + 1);
    }
    if forall i :: 0 <= i < |ws| ==> ws[i] > 0.0 {
      forall i, j | 0 <= i < j < |ws| ensures CumSum(ws)[i] < CumSum(ws)[j] {
        PrefixSumsGrow(ws, i + 1, j + 1);
      }
    }
  }

  /** `cum_weights / total_weight * 100`. */
  function Normalise(cum: seq<real>, total: real): (r: seq<real>)
    requires total > 0.0
    ensures |r| == |cum|
  {
    seq(|cum|, i requires 0 <= i < |cum| => cum[i] / total * 100.0)
  }

  lemma ScaleMonotone(a: real, b: real, total: real)
    requires total > 0.0 && a <= b
    ensures a / total * 100.0 <= b / total * 100.0
    ensures a < b ==> a / total * 100.0 < b / total * 100.0
  {
  }

  lemma ScaleOfTotal(total: real)
    requires total > 0.0
    ensures total / total * 100.0 == 100.0
  {
  }

  lemma NormaliseOrdered(cum: seq<real>, total: real)
    requires total > 0.0
    ensures NonDecreasing(cum) ==> NonDecreasing(Normalise(cum, total))
    ensures Increasing(cum) ==> Increasing(Normalise(cum, total))
  {
    forall i, j | 0 <= i < j < |cum| && cum[i] <= cum[j]
      ensures Normalise(cum, total)[i] <= Normalise(cum, total)[j]
      ensures cum[i] < cum[j] ==> Normalise(cum, total)[i] < Normalise(cum, total)[j]
    {
      ScaleMonotone(cum[i], cum[j], total);
    }
  }

  /** `data[argsort(data)]` zipped with the matching weights. */
  function SortedPairs(data: seq<real>, weights: seq<real>): (s: seq<Pair>)
    requires |weights| >= |data|
    ensures |s| == |data|
  {
    SortByValue(Zip(data, weights))
  }

  /** `cum_weights`: cumulative sums of the weights in sorted-value order. */
  function CumWeights(data: seq<real>, weights: seq<real>): (c: seq<real>)
    requires |weights| >= |data|
    ensures |c| == |data|
  {
    CumSum(Weights(SortedPairs(data, weights)))
  }

  /** `total_weight = cum_weights[-1]`. */
  function TotalWeight(data: seq<real>, weights: seq<real>): real
    requires |data| >= 1 && |weights| >= |data|
  {
    CumWeights(data, weights)[|data| - 1]
  }

  /** The curve's abscissae: cumulative weights normalised to 0..100. */
  function Xs(data: seq<real>, weights: seq<real>): (xs: seq<real>)
    requires |data| >= 1 && |weights| >= |data|
    requires TotalWeight(data, weights) > 0.0
    ensures |xs| == |data|
  {
    Normalise(CumWeights(data, weights), TotalWeight(data, weights))
  }

  /** The curve's ordinates: the values in sorted order. */
  function Ys(data: seq<real>, weights: seq<real>): (ys: seq<real>)
    requires |weights| >= |data|
    ensures |ys| == |data|
  {
    Values(SortedPairs(data, weights))
  }

  /** The estimate `_weighted_percentile` produces for one target `t`. */
  function Estimate(data: seq<real>, weights: seq<real>, t: real): real
    requires |data| <= 1 || |weights| >= |data|
  {
    if |data| == 0 then 0.0
    else if |data| == 1 then data[0]
    else if TotalWeight(data, weights) <= 0.0 then 0.0
    else Interp(t, Xs(data, weights), Ys(data, weights))
  }

  /**
   * `_weighted_percentile(data, weights, percentiles)`. None stands for the
   * IndexError NumPy raises when fewer weights than values are given to
   * more than one value; any extra weights are ignored, as fancy indexing
   * with the sort order ignores them.
   */
  function WeightedPercentile(data: seq<real>, weights: seq<real>, targets: seq<real>): (r: Option<seq<real>>)
    ensures r.None? <==> |data| >= 2 && |weights| < |data|
    ensures r.Some? ==> |r.value| == |targets|
    ensures |data| == 0 ==> r.Some? && forall i :: 0 <= i < |targets| ==> r.value[i] == 0.0
    ensures |data| == 1 ==> r.Some? && forall i :: 0 <= i < |targets| ==> r.value[i] == data[0]
  {
    if |data| >= 2 && |weights| < |data| then None
    else Some(seq(|targets|, i requires 0 <= i < |targets| => Estimate(data, weights, targets[i])))
  }

  // ------------------------------------------------------ estimator properties

  predicate PositiveWeights(data: seq<real>, weights: seq<real>)
  {
    |weights| == |data| && forall i :: 0 <= i < |weights| ==> weights[i] > 0.0
  }

  /** One output per target, in request order: each output depends only on its own target. */
  lemma OnePerTarget(data: seq<real>, weights: seq<real>, targets: seq<real>, i: nat)
    requires WeightedPercentile(data, weights, targets).Some?
    requires i < |targets|
    ensures WeightedPercentile(data, weights, [targets[i]]).Some?
    ensures WeightedPercentile(data, weights, targets).value[i]
         == WeightedPercentile(data, weights, [targets[i]]).value[0]
  {
  }

  lemma {:induction false} InsertWeightSum(x: Pair, s: seq<Pair>)
    requires SortedByValue(s)
    ensures Sum(Weights(Insert(x, s))) == x.1 + Sum(Weights(s))
    decreases |s|
  {
    if s == [] {
      assert Weights([x]) == [] + [x.1];
    } else if x.0 <= s[0].0 {
      assert Weights([x] + s) == [x.1] + Weights(s);
      SumCons(x.1, Weights(s));
    } else {
      var rest := Insert(x, s[1..]);
      InsertWeightSum(x, s[1..]);
      assert Insert(x, s) == [s[0]] + rest;
      assert Weights([s[0]] + rest) == [s[0].1] + Weights(rest);
      assert Weights(s) == [s[0].1] + Weights(s[1..]);
      SumCons(s[0].1, Weights(rest));
      SumCons(s[0].1, Weights(s[1..]));
    }
  }

  /** Sorting does not change the total weight. */
  lemma {:induction false} SortWeightSum(s: seq<Pair>)
    ensures Sum(Weights(SortByValue(s))) == Sum(Weights(s))
  {
    if s != [] {
      SortWeightSum(s[1..]);
      InsertWeightSum(s[0], SortByValue(s[1..]));
      assert Weights(s) == [s[0].1] + Weights(s[1..]);
      SumCons(s[0].1, Weights(s[1..]));
    }
  }

  /** `total_weight` is the sum of the weights given for the values. */
  lemma TotalWeightIsSum(data: seq<real>, weights: seq<real>)
    requires |data| >= 1 && |weights| >= |data|
    ensures TotalWeight(data, weights) == Sum(weights[..|data|])
  {
    SortWeightSum(Zip(data, weights));
    assert Weights(Zip(data, weights)) == weights[..|data|];
  }

  /** Two or more values whose weights sum to at most 0 give 0 at every target. */
  lemma NonPositiveTotalGivesZeros(data: seq<real>, weights: seq<real>, targets: seq<real>)
    requires |data| >= 2 && |weights| >= |data|
    requires Sum(weights[..|data|]) <= 0.0
    ensures forall i :: 0 <= i < |targets| ==> WeightedPercentile(data, weights, targets).value[i] == 0.0
  {
    TotalWeightIsSum(data, weights);
  }

  /** Every sorted pair is some given (value, weight) pair and every given pair is sorted somewhere. */
  lemma SortedPairsFromData(data: seq<real>, weights: seq<real>)
    requires |weights| >= |data|
    ensures forall m :: 0 <= m < |data| ==> exists i :: 0 <= i < |data| && SortedPairs(data, weights)[m] == (data[i], weights[i])
    ensures forall i :: 0 <= i < |data| ==> exists m :: 0 <= m < |data| && SortedPairs(data, weights)[m] == (data[i], weights[i])
  {
    PermutedZip(data, weights, SortedPairs(data, weights));
  }

  /** Where the m-th sorted pair came from. */
  lemma SourceOf(data: seq<real>, weights: seq<real>, m: nat) returns (i: nat)
    requires |weights| >= |data| && m < |data|
    ensures i < |data| && SortedPairs(data, weights)[m] == (data[i], weights[i])
  {
    var s := SortedPairs(data, weights);
    PermutedZip(data, weights, s);
    i :| 0 <= i < |data| && s[m] == (data[i], weights[i]);
  }

  /** Where the i-th given pair went. */
  lemma TargetOf(data: seq<real>, weights: seq<real>, i: nat) returns (m: nat)
    requires |weights| >= |data| && i < |data|
    ensures m < |data| && SortedPairs(data, weights)[m] == (data[i], weights[i])
  {
    var s := SortedPairs(data, weights);
    PermutedZip(data, weights, s);
    m :| 0 <= m < |data| && s[m] == (data[i], weights[i]);
  }

  /** The sorted weights are the given ones, permuted: they keep the sign the given ones share. */
  lemma SortedWeightsSign(data: seq<real>, weights: seq<real>)
    requires |weights| >= |data|
    ensures (forall i :: 0 <= i < |data| ==> weights[i] >= 0.0) ==>
              forall m :: 0 <= m < |data| ==> Weights(SortedPairs(data, weights))[m] >= 0.0
    ensures (forall i :: 0 <= i < |data| ==> weights[i] > 0.0) ==>
              forall m :: 0 <= m < |data| ==> Weights(SortedPairs(data, weights))[m] > 0.0
  {
    var s := SortedPairs(data, weights);
    forall m | 0 <= m < |data| ensures exists i :: 0 <= i < |data| && Weights(s)[m] == weights[i] {
      var i := SourceOf(data, weights, m);
    }
  }

  /** The curve's ordinates are sorted and are exactly the data values. */
  lemma YsAreSortedData(data: seq<real>, weights: seq<real>)
    requires |weights| >= |data|
    ensures NonDecreasing(Ys(data, weights))
    ensures forall m :: 0 <= m < |data| ==> Ys(data, weights)[m] in data
    ensures forall i :: 0 <= i < |data| ==> data[i] in Ys(data, weights)
  {
    YsSorted(data, weights);
    YsFromData(data, weights);
    DataInYs(data, weights);
  }

  lemma YsSorted(data: seq<real>, weights: seq<real>)
    requires |weights| >= |data|
    ensures NonDecreasing(Ys(data, weights))
  {
    var s := SortedPairs(data, weights);
    var ys := Ys(data, weights);
    assert SortedByValue(s);
    forall i, j | 0 <= i < j < |ys| ensures ys[i] <= ys[j] {
      assert ys[i] == s[i].0 && ys[j] == s[j].0;
    }
  }

  lemma YsFromData(data: seq<real>, weights: seq<real>)
    requires |weights| >= |data|
    ensures forall m :: 0 <= m < |data| ==> Ys(data, weights)[m] in data
  {
    forall m | 0 <= m < |data| ensures Ys(data, weights)[m] in data {
      var i := SourceOf(data, weights, m);
      assert Ys(data, weights)[m] == data[i];
    }
  }

  lemma DataInYs(data: seq<real>, weights: seq<real>)
    requires |weights| >= |data|
    ensures forall i :: 0 <= i < |data| ==> data[i] in Ys(data, weights)
  {
    forall i | 0 <= i < |data| ensures data[i] in Ys(data, weights) {
      var m := TargetOf(data, weights, i);
      assert Ys(data, weights)[m] == data[i];
    }
  }

  /** The first and last ordinates are the minimum and the maximum of the data. */
  lemma YsEnds(data: seq<real>, weights: seq<real>)
    requires |data| >= 1 && |weights| >= |data|
    ensures var ys := Ys(data, weights);
            ys[0] in data && ys[|data| - 1] in data
            && forall i :: 0 <= i < |data| ==> ys[0] <= data[i] <= ys[|data| - 1]
  {
    YsAreSortedData(data, weights);
    var ys := Ys(data, weights);
    forall i | 0 <= i < |data| ensures ys[0] <= data[i] <= ys[|data| - 1] {
      var m :| 0 <= m < |data| && ys[m] == data[i];
    }
  }

  /** With non-negative weights summing above 0 the abscissae never decrease. */
  lemma XsNonDecreasing(data: seq<real>, weights: seq<real>)
    requires |data| >= 1 && |weights| >= |data|
    requires forall i :: 0 <= i < |data| ==> weights[i] >= 0.0
    requires TotalWeight(data, weights) > 0.0
    ensures NonDecreasing(Xs(data, weights))
  {
    SortedWeightsSign(data, weights);
    CumSumOrdered(Weights(SortedPairs(data, weights)));
    NormaliseOrdered(CumWeights(data, weights), TotalWeight(data, weights));
  }

  /** With positive weights the total is positive, the abscissae increase and end at 100. */
  lemma XsIncreasing(data: seq<real>, weights: seq<real>)
    requires |data| >= 1 && PositiveWeights(data, weights)
    ensures TotalWeight(data, weights) > 0.0
    ensures Increasing(Xs(data, weights))
    ensures Xs(data, weights)[|data| - 1] == 100.0
  {
    var ws := Weights(SortedPairs(data, weights));
    SortedWeightsSign(data, weights);
    CumSumOrdered(ws);
    PrefixSumsGrow(ws, 0, |ws|);
    assert ws[..0] == [] && ws[..|ws|] == ws;
    var total := TotalWeight(data, weights);
    NormaliseOrdered(CumWeights(data, weights), total);
    assert total == CumSum(ws)[|ws| - 1] == Sum(ws) > 0.0;
    ScaleOfTotal(total);
  }

  /** With positive weights every estimate lies between the smallest and the largest value. */
  lemma EstimateWithinData(data: seq<real>, weights: seq<real>, t: real)
    requires |data| >= 2 && PositiveWeights(data, weights)
    ensures exists i :: 0 <= i < |data| && data[i] <= Estimate(data, weights, t)
    ensures exists j :: 0 <= j < |data| && Estimate(data, weights, t) <= data[j]
  {
    XsIncreasing(data, weights);
    YsAreSortedData(data, weights);
    YsEnds(data, weights);
    var ys := Ys(data, weights);
    InterpRange(t, Xs(data, weights), ys);
    var a :| 0 <= a < |data| && data[a] == ys[0];
    var b :| 0 <= b < |data| && data[b] == ys[|data| - 1];
  }

  /** A target at or below the first curve point gives the minimum of the data. */
  lemma EstimateAtBottom(data: seq<real>, weights: seq<real>, t: real)
    requires |data| >= 2 && PositiveWeights(data, weights)
    requires TotalWeight(data, weights) > 0.0
    requires t <= Xs(data, weights)[0]
    ensures Estimate(data, weights, t) in data
    ensures forall i :: 0 <= i < |data| ==> Estimate(data, weights, t) <= data[i]
  {
    XsIncreasing(data, weights);
    YsEnds(data, weights);
    InterpAtBottom(t, Xs(data, weights), Ys(data, weights));
  }

  /** A target of 100 (or more) gives the maximum of the data. */
  lemma EstimateAtTop(data: seq<real>, weights: seq<real>, t: real)
    requires |data| >= 2 && PositiveWeights(data, weights)
    requires t >= 100.0
    ensures Estimate(data, weights, t) in data
    ensures forall i :: 0 <= i < |data| ==> data[i] <= Estimate(data, weights, t)
  {
    XsIncreasing(data, weights);
    XsNonDecreasing(data, weights);
    YsEnds(data, weights);
    InterpAtTop(t, Xs(data, weights), Ys(data, weights));
  }

  /** With non-negative weights a larger target never gives a smaller estimate. */
  lemma EstimateMonotone(data: seq<real>, weights: seq<real>, t1: real, t2: real)
    requires |data| <= 1 || |weights| >= |data|
    requires forall i :: 0 <= i < |weights| ==> weights[i] >= 0.0
    requires t1 <= t2
    ensures Estimate(data, weights, t1) <= Estimate(data, weights, t2)
  {
    if |data| >= 2 && TotalWeight(data, weights) > 0.0 {
      XsNonDecreasing(data, weights);
      YsAreSortedData(data, weights);
      InterpMonotone(t1, t2, Xs(data, weights), Ys(data, weights));
    }
  }

  /** With non-negative weights p50 <= p90 <= p95 <= p99. */
  lemma TargetsOrdered(data: seq<real>, weights: seq<real>)
    requires |data| <= 1 || |weights| >= |data|
    requires forall i :: 0 <= i < |weights| ==> weights[i] >= 0.0
    ensures var p := WeightedPercentile(data, weights, Targets).value;
            p[0] <= p[1] <= p[2] <= p[3]
  {
    EstimateMonotone(data, weights, 50.0, 90.0);
    EstimateMonotone(data, weights, 90.0, 95.0);
    EstimateMonotone(data, weights, 95.0, 99.0);
  }

  /** Stable sorting keeps the two 5s, and their weights, in input order. */
  lemma ThreeSampleSort(w1: real, w2: real)
    ensures SortedPairs([3.0, 5.0, 5.0], [1.0, w1, w2]) == [(3.0, 1.0), (5.0, w1), (5.0, w2)]
  {
    var z := Zip([3.0, 5.0, 5.0], [1.0, w1, w2]);
    assert z == [(3.0, 1.0), (5.0, w1), (5.0, w2)];
    assert z[1..][1..] == [(5.0, w2)];
    assert SortByValue(z[1..][1..]) == [(5.0, w2)];
    assert SortByValue(z[1..]) == [(5.0, w1), (5.0, w2)];
  }

  /** The curve of the three samples once sorted: abscissae from the cumulative weights. */
  lemma ThreeSampleCurve(w1: real, w2: real, cum: seq<real>)
    requires w1 >= 0.0 && w2 >= 0.0 && cum == [1.0, 1.0 + w1, 1.0 + w1 + w2]
    ensures CumWeights([3.0, 5.0, 5.0], [1.0, w1, w2]) == cum
    ensures Ys([3.0, 5.0, 5.0], [1.0, w1, w2]) == [3.0, 5.0, 5.0]
  {
    ThreeSampleSort(w1, w2);
    var ws := Weights(SortedPairs([3.0, 5.0, 5.0], [1.0, w1, w2]));
    assert ws == [1.0, w1, w2];
    assert ws[..1] == [1.0] && ws[..2] == [1.0, w1] && ws[..3] == ws;
    assert [1.0][..0] == [] && [1.0, w1][..1] == [1.0] && ws[..2] == [1.0, w1];
    assert Sum([1.0]) == 1.0;
    assert Sum([1.0, w1]) == 1.0 + w1;
    assert Sum(ws) == 1.0 + w1 + w2;
    var c := CumSum(ws);
    assert c[0] == cum[0] && c[1] == cum[1] && c[2] == cum[2];
  }

  /** The 30th percentile of the three samples with cumulative weights `cum`, total 5. */
  lemma ThreeSampleEstimate(w1: real, w2: real, cum: seq<real>, xs: seq<real>)
    requires w1 >= 0.0 && w2 >= 0.0 && w1 + w2 == 4.0 && cum == [1.0, 1.0 + w1, 5.0]
    requires xs == [20.0, (1.0 + w1) * 20.0, 100.0] && 30.0 < xs[1]
    ensures Estimate([3.0, 5.0, 5.0], [1.0, w1, w2], 30.0) == Lerp(3.0, 5.0, 20.0, xs[1], 30.0)
  {
    ThreeSampleCurve(w1, w2, cum);
    assert TotalWeight([3.0, 5.0, 5.0], [1.0, w1, w2]) == 5.0;
    var x := Xs([3.0, 5.0, 5.0], [1.0, w1, w2]);
    assert x[0] == xs[0] && x[1] == xs[1] && x[2] == xs[2];
    assert x == xs;
    assert LastAtMost(xs[..2], 30.0) == 0;
    assert LastAtMost(xs, 30.0) == 0;
  }

  /**
   * The order of equally valued samples changes the estimate: the same
   * three (value, weight) pairs, with the two 5s' weights in either order,
   * put the 30th percentile at 4 or at 10/3.
   */
  lemma TieOrderMatters()
    ensures multiset(Zip([3.0, 5.0, 5.0], [1.0, 1.0, 3.0])) == multiset(Zip([3.0, 5.0, 5.0], [1.0, 3.0, 1.0]))
    ensures Estimate([3.0, 5.0, 5.0], [1.0, 1.0, 3.0], 30.0) == 4.0
    ensures Estimate([3.0, 5.0, 5.0], [1.0, 3.0, 1.0], 30.0) == 10.0 / 3.0
  {
    assert Zip([3.0, 5.0, 5.0], [1.0, 1.0, 3.0]) == [(3.0, 1.0), (5.0, 1.0), (5.0, 3.0)];
    assert Zip([3.0, 5.0, 5.0], [1.0, 3.0, 1.0]) == [(3.0, 1.0), (5.0, 3.0), (5.0, 1.0)];
    ThreeSampleEstimate(1.0, 3.0, [1.0, 2.0, 5.0], [20.0, 40.0, 100.0]);
    ThreeSampleEstimate(3.0, 1.0, [1.0, 4.0, 5.0], [20.0, 80.0, 100.0]);
  }

  // ------------------------------------------------------------ the calculator

  /** `max(0.0, v)`. */
  function ClampAtZero(v: real): (r: real)
    ensures r >= 0.0 && r >= v
    ensures v >= 0.0 ==> r == v
  {
    if v > 0.0 then v else 0.0
  }

  /** The row a group with at least two samples resolves to; an estimator error gives zeros. */
  function ResolveRow(k: Key, s: Samples): (r: PercentileRow)
    ensures r.key == k
    ensures r.p50 >= 0.0 && r.p90 >= 0.0 && r.p95 >= 0.0 && r.p99 >= 0.0
  {
    match WeightedPercentile(s.times, s.weights, Targets)
    case Some(p) => PercentileRow(k, ClampAtZero(p[0]), ClampAtZero(p[1]), ClampAtZero(p[2]), ClampAtZero(p[3]))
    case None => PercentileRow(k, 0.0, 0.0, 0.0, 0.0)
  }

  /**
   * A group accumulated from valid rows resolves without error to its four
   * estimates, which are ordered and lie between the group's smallest and
   * largest response time.
   */
  lemma ResolveAccumulated(rows: seq<Row>, k: Key)
    requires SamplesOf(rows, k).Size() >= 2
    ensures var s := SamplesOf(rows, k);
            var r := ResolveRow(k, s);
            && WeightedPercentile(s.times, s.weights, Targets).Some?
            && r.p50 <= r.p90 <= r.p95 <= r.p99
            && r.p50 == Estimate(s.times, s.weights, 50.0)
            && r.p90 == Estimate(s.times, s.weights, 90.0)
            && r.p95 == Estimate(s.times, s.weights, 95.0)
            && r.p99 == Estimate(s.times, s.weights, 99.0)
            && (exists i :: 0 <= i < s.Size() && s.times[i] <= r.p50)
            && (exists j :: 0 <= j < s.Size() && r.p99 <= s.times[j])
  {
    var s := SamplesOf(rows, k);
    SamplesPositive(rows, k);
    assert PositiveWeights(s.times, s.weights);
    TargetsOrdered(s.times, s.weights);
    EstimateWithinData(s.times, s.weights, 50.0);
    EstimateWithinData(s.times, s.weights, 99.0);
    var i :| 0 <= i < s.Size() && s.times[i] <= Estimate(s.times, s.weights, 50.0);
    assert Estimate(s.times, s.weights, 50.0) > 0.0;
    var p := WeightedPercentile(s.times, s.weights, Targets).value;
    assert p[0] > 0.0 && p[1] > 0.0 && p[2] > 0.0 && p[3] > 0.0;
  }

  lemma ResolveRowCases(k: Key, s: Samples)
    ensures var p := WeightedPercentile(s.times, s.weights, Targets);
            && (p.Some? ==> |p.value| == 4 && ResolveRow(k, s) == PercentileRow(k, ClampAtZero(p.value[0]),
                   ClampAtZero(p.value[1]), ClampAtZero(p.value[2]), ClampAtZero(p.value[3])))
            && (p.None? ==> ResolveRow(k, s) == PercentileRow(k, 0.0, 0.0, 0.0, 0.0))
            && (p.Some? <==> |s.times| <= 1 || |s.weights| >= |s.times|)
  {
  }

  /** The keys, in dictionary order, of the groups with enough data to resolve. */
  function Eligible(order: seq<Key>, groups: map<Key, Samples>): seq<Key>
    requires forall k :: k in order ==> k in groups
  {
    if order == [] then []
    else (if groups[order[0]].Size() >= 2 then [order[0]] else []) + Eligible(order[1..], groups)
  }

  /** The keys that get a row are exactly those with at least two samples. */
  lemma {:induction false} EligibleMembers(order: seq<Key>, groups: map<Key, Samples>)
    requires forall k :: k in order ==> k in groups
    ensures forall k :: k in Eligible(order, groups) <==> k in order && groups[k].Size() >= 2
  {
    if order != [] {
      var tail := order[1..];
      assert forall k :: k in tail ==> k in order;
      EligibleMembers(tail, groups);
      var head := if groups[order[0]].Size() >= 2 then [order[0]] else [];
      assert Eligible(order, groups) == head + Eligible(tail, groups);
      assert order == [order[0]] + tail;
    }
  }

  /** No key gets two rows. */
  lemma {:induction false} EligibleDistinct(order: seq<Key>, groups: map<Key, Samples>)
    requires forall k :: k in order ==> k in groups
    requires Distinct(order)
    ensures Distinct(Eligible(order, groups))
  {
    if order != [] {
      var tail := order[1..];
      assert forall k :: k in tail ==> k in order;
      DistinctTail(order);
      EligibleDistinct(tail, groups);
      EligibleMembers(tail, groups);
      var head := if groups[order[0]].Size() >= 2 then [order[0]] else [];
      assert Eligible(order, groups) == head + Eligible(tail, groups);
      DistinctCons(head, Eligible(tail, groups));
    }
  }

  lemma {:induction false} EligibleSnoc(order: seq<Key>, k: Key, groups: map<Key, Samples>)
    requires forall x :: x in order + [k] ==> x in groups
    ensures Eligible(order + [k], groups) == Eligible(order, groups) + (if groups[k].Size() >= 2 then [k] else [])
  {
    var o := order + [k];
    assert forall x :: x in order ==> x in o;
    var t := if groups[k].Size() >= 2 then [k] else [];
    if order == [] {
      assert o == [k] && o[1..] == [];
      assert Eligible(o, groups) == t + [];
    } else {
      var tail := order[1..];
      assert o[0] == order[0] && o[1..] == tail + [k];
      assert forall x :: x in tail + [k] ==> x in o;
      EligibleSnoc(tail, k, groups);
      var h := if groups[order[0]].Size() >= 2 then [order[0]] else [];
      var e := Eligible(tail, groups);
      assert Eligible(o, groups) == h + (e + t);
      assert Eligible(order, groups) == h + e;
      assert h + (e + t) == (h + e) + t;
    }
  }

  /** `groups` holds, for every key of a valid row of `rows`, exactly that key's samples. */
  ghost predicate Accumulated(groups: map<Key, Samples>, rows: seq<Row>)
  {
    forall k :: (k in groups <==> k in ValidKeys(rows)) && (k in groups ==> groups[k] == SamplesOf(rows, k))
  }

  /** What the map holds after the keys in `done` of `chunk` were appended to `groups0`. */
  ghost predicate Merged(groups0: map<Key, Samples>, chunk: seq<Row>, done: set<Key>, groups: map<Key, Samples>)
  {
    forall k ::
      (k in groups <==> k in groups0 || k in done) &&
      (k in groups ==> groups[k] == if k !in done then groups0[k]
                                    else if k in groups0 then groups0[k].Append(SamplesOf(chunk, k))
                                    else SamplesOf(chunk, k))
  }

  lemma MergedStep(groups0: map<Key, Samples>, chunk: seq<Row>, done: set<Key>, groups: map<Key, Samples>, key: Key)
    requires Merged(groups0, chunk, done, groups) && key !in done
    ensures key in groups ==> Merged(groups0, chunk, done + {key}, groups[key := groups[key].Append(SamplesOf(chunk, key))])
    ensures key !in groups ==> Merged(groups0, chunk, done + {key}, groups[key := SamplesOf(chunk, key)])
  {
  }

  /** Appending one chunk to the accumulated samples of the rows before it gives those of both. */
  lemma AccumulatedStep(before: seq<Row>, chunk: seq<Row>, groups0: map<Key, Samples>, groups: map<Key, Samples>)
    requires Accumulated(groups0, before)
    requires Merged(groups0, chunk, ValidKeys(chunk), groups)
    ensures Accumulated(groups, before + chunk)
  {
    ValidKeysAppend(before, chunk);
    forall k ensures k in groups <==> k in ValidKeys(before + chunk) {
    }
    forall k | k in groups ensures groups[k] == SamplesOf(before + chunk, k) {
      if k !in ValidKeys(chunk) {
        SamplesOfUntouched(before, chunk, k);
      } else if k in groups0 {
        SamplesOfAppend(before, chunk, k);
      } else {
        SamplesOfFresh(before, chunk, k);
      }
    }
  }

  /** A key the chunk has no valid row for keeps its samples. */
  lemma SamplesOfUntouched(before: seq<Row>, chunk: seq<Row>, k: Key)
    requires k !in ValidKeys(chunk)
    ensures SamplesOf(before + chunk, k) == SamplesOf(before, k)
  {
    SamplesOfAppend(before, chunk, k);
    var a, b := SamplesOf(before, k), SamplesOf(chunk, k);
    SamplesOfNonEmpty(chunk, k);
    assert b.times == [] && b.weights == [];
    assert a.Append(b) == a;
  }

  /** A key first seen in the chunk gets the chunk's samples. */
  lemma SamplesOfFresh(before: seq<Row>, chunk: seq<Row>, k: Key)
    requires k !in ValidKeys(before)
    ensures SamplesOf(before + chunk, k) == SamplesOf(chunk, k)
  {
    SamplesOfAppend(before, chunk, k);
    var a, b := SamplesOf(before, k), SamplesOf(chunk, k);
    SamplesOfNonEmpty(before, k);
    assert |a.times| == 0 && |a.weights| == 0;
    assert a.times + b.times == b.times;
    assert a.weights + b.weights == b.weights;
  }

  /**
   * The body of the chunk loop of `compute_percentiles`: drop the chunk's
   * invalid rows, group the rest by key and append each group's columns to
   * that key's arrays, creating the entry (last in dictionary order) for a
   * key seen for the first time.
   */
  method AppendChunk(groups0: map<Key, Samples>, order0: seq<Key>, chunk: seq<Row>)
    returns (groups: map<Key, Samples>, order: seq<Key>)
    requires Ordered(order0, groups0)
    ensures Merged(groups0, chunk, ValidKeys(chunk), groups)
    ensures Ordered(order, groups)
  {
    groups, order := groups0, order0;
    var valid := ValidRows(chunk);
    var keys := GroupKeys(valid);
    ghost var done: set<Key> := {};
    var j := 0;
    while j < |keys|
      invariant 0 <= j <= |keys|
      invariant forall m :: 0 <= m < j ==> keys[m] in done
      invariant forall m :: j <= m < |keys| ==> keys[m] !in done
      invariant forall k :: k in done ==> k in keys
      invariant Merged(groups0, chunk, done, groups)
      invariant Ordered(order, groups)
    {
      var key := keys[j];
      var group := Columns(RowsOf(valid, key));
      MergedStep(groups0, chunk, done, groups, key);
      OrderedStep(order, groups, key, if key in groups then groups[key].Append(group) else group);
      if key !in groups {
        groups := groups[key := group];
        order := order + [key];
      } else {
        groups := groups[key := groups[key].Append(group)];
      }
      done := done + {key};
      j := j + 1;
    }
    assert done == ValidKeys(chunk) by {
      forall k | k in ValidKeys(chunk) ensures k in done {
        var x :| x in valid && x.GroupKey() == k;
        assert k in keys;
      }
      forall k | k in done ensures k in ValidKeys(chunk) {
        assert k in keys;
        var x :| x in valid && x.GroupKey() == k;
      }
    }
  }

  /**
   * The chunk loop of `compute_percentiles`. Afterwards each key of a valid
   * row holds exactly the response times and counts of its valid rows, in
   * row order, however the rows were split into chunks.
   */
  method AccumulateSamples(chunks: seq<seq<Row>>) returns (groups: map<Key, Samples>, order: seq<Key>, totalRows: nat, chunkCount: nat)
    ensures forall k :: k in groups <==> k in ValidKeys(Flatten(chunks))
    ensures forall k :: k in groups ==> groups[k] == SamplesOf(Flatten(chunks), k)
    ensures Distinct(order) && forall k :: k in order <==> k in groups
    ensures totalRows == |Flatten(chunks)| && chunkCount == |chunks|
  {
    groups, order, totalRows, chunkCount := map[], [], 0, 0;
    var i := 0;
    while i < |chunks|
      invariant 0 <= i <= |chunks|
      invariant Accumulated(groups, Flatten(chunks[..i]))
      invariant Ordered(order, groups)
      invariant totalRows == |Flatten(chunks[..i])| && chunkCount == i
    {
      ghost var before := Flatten(chunks[..i]);
      ghost var groups0 := groups;
      var chunk := chunks[i];
      totalRows := totalRows + |chunk|;
      chunkCount := chunkCount + 1;
      groups, order := AppendChunk(groups, order, chunk);
      AccumulatedStep(before, chunk, groups0, groups);
      assert chunks[..i + 1] == chunks[..i] + [chunk];
      FlattenSnoc(chunks[..i], chunk);
      i := i + 1;
    }
    assert chunks[..i] == chunks;
  }

  /**
   * The `try`/`except` around one group: the clamped estimates and a success
   * flag, or zeros when the estimator raised.
   */
  method ResolveGroup(key: Key, arrays: Samples) returns (row: PercentileRow, ok: bool)
    ensures row == ResolveRow(key, arrays)
    ensures ok <==> |arrays.times| <= 1 || |arrays.weights| >= |arrays.times|
  {
    var p := WeightedPercentile(arrays.times, arrays.weights, Targets);
    ResolveRowCases(key, arrays);
    if p.Some? {
      row := PercentileRow(key, ClampAtZero(p.value[0]), ClampAtZero(p.value[1]),
                           ClampAtZero(p.value[2]), ClampAtZero(p.value[3]));
      ok := true;
    } else {
      row := PercentileRow(key, 0.0, 0.0, 0.0, 0.0);
      ok := false;
    }
  }

  /** Every key's `times` and `weights` arrays have the same length. */
  ghost predicate Aligned(groups: map<Key, Samples>)
  {
    forall k :: k in groups ==> |groups[k].times| == |groups[k].weights|
  }

  lemma NotAligned(groups: map<Key, Samples>, key: Key)
    requires key in groups && |groups[key].times| != |groups[key].weights|
    ensures !Aligned(groups)
  {
  }

  /** Every row was resolved from its own key's arrays. */
  ghost predicate Resolved(results: seq<PercentileRow>, groups: map<Key, Samples>)
  {
    forall r :: r in results ==> r.key in groups && r == ResolveRow(r.key, groups[r.key])
  }

  lemma ResolvedSnoc(results: seq<PercentileRow>, groups: map<Key, Samples>, row: PercentileRow)
    requires Resolved(results, groups)
    requires row.key in groups && row == ResolveRow(row.key, groups[row.key])
    ensures Resolved(results + [row], groups)
    ensures RowKeys(results + [row]) == RowKeys(results) + [row.key]
  {
  }

  /**
   * The resolution loop of `compute_percentiles`: in dictionary order, skip
   * groups with fewer than two samples and resolve every other group to one
   * row, zero-filled if the estimator raised.
   */
  method ResolveGroups(order: seq<Key>, groups: map<Key, Samples>) returns (results: seq<PercentileRow>, successful: nat)
    requires Distinct(order) && forall k :: k in order <==> k in groups
    ensures RowKeys(results) == Eligible(order, groups)
    ensures Resolved(results, groups)
    ensures successful <= |results|
    ensures Aligned(groups) ==> successful == |results|
  {
    results, successful := [], 0;
    var i := 0;
    while i < |order|
      invariant 0 <= i <= |order|
      invariant RowKeys(results) == Eligible(order[..i], groups)
      invariant Resolved(results, groups)
      invariant successful <= |results|
      invariant Aligned(groups) ==> successful == |results|
    {
      var key := order[i];
      var arrays := groups[key];
      assert order[..i + 1] == order[..i] + [key];
      EligibleSnoc(order[..i], key, groups);
      if arrays.Size() >= 2 {
        var row, ok := ResolveGroup(key, arrays);
        if ok {
          successful := successful + 1;
        } else {
          NotAligned(groups, key);
        }
        ResolvedSnoc(results, groups, row);
        results := results + [row];
      }
      i := i + 1;
    }
    assert order[..i] == order;
  }

  /**
   * `compute_percentiles`: one row per key with at least two valid samples,
   * none for any other key, each the key's resolved estimates of its valid
   * rows (so independent of where the chunk boundaries fall).
   */
  method ComputePercentiles(chunks: seq<seq<Row>>) returns (results: seq<PercentileRow>)
    ensures Distinct(RowKeys(results))
    ensures forall k :: k in RowKeys(results) <==> SamplesOf(Flatten(chunks), k).Size() >= 2
    ensures forall r :: r in results ==> r == ResolveRow(r.key, SamplesOf(Flatten(chunks), r.key))
    ensures forall r :: r in results ==> 0.0 <= r.p50 <= r.p90 <= r.p95 <= r.p99
  {
    var groups, order, totalRows, chunkCount := AccumulateSamples(chunks);
    var successful;
    results, successful := ResolveGroups(order, groups);
    EligibleMembers(order, groups);
    EligibleDistinct(order, groups);
    forall k ensures k in RowKeys(results) <==> SamplesOf(Flatten(chunks), k).Size() >= 2 {
      SamplesOfNonEmpty(Flatten(chunks), k);
    }
    forall r | r in results ensures 0.0 <= r.p50 <= r.p90 <= r.p95 <= r.p99 {
      ResolveAccumulated(Flatten(chunks), r.key);
    }
  }
}
