/** Evaluation metrics of the TADPOLE challenge: the Hand & Till (2001) pairwise
    AUC approximation and its multi-class average, balanced classification accuracy,
    the weighted error score and the coverage probability accuracy.

    `None` stands for a call that raises (Python's ZeroDivisionError or IndexError)
    or yields no finite number (numpy's NaN or infinity). */
module Metrics {
  import opened Wrappers
  import opened Ranking

  /** One evaluated instance: its true class and the probability given to each class. */
  datatype Instance = Instance(cls: int, probs: seq<real>)

  /** Python list indexing: a negative index counts from the end, anything else out
      of range raises IndexError. */
  function ProbAt(probs: seq<real>, i: int): (r: Option<real>)
    ensures r.Some? <==> -|probs| <= i < |probs|
    ensures r.Some? ==> r.value == probs[if i < 0 then |probs| + i else i]
  {
    if 0 <= i < |probs| then Some(probs[i])
    else if -|probs| <= i < 0 then Some(probs[|probs| + i])
    else None
  }

  /** Whether the instance takes part in the comparison of `zero` against `one`. */
  predicate Kept(x: Instance, zero: int, one: int) {
    x.cls == zero || x.cls == one
  }

  /** Every kept instance has a probability at index `zero`. */
  ghost predicate Indexable(data: seq<Instance>, zero: int, one: int) {
    forall i :: 0 <= i < |data| && Kept(data[i], zero, one) ==> ProbAt(data[i].probs, zero).Some?
  }

  /** The kept instances, each reduced to its class and its `zero` probability, in
      input order; `None` when one of them has no such probability. */
  function Expand(data: seq<Instance>, zero: int, one: int): (r: Option<seq<Point>>)
    ensures r.Some? ==> |r.value| <= |data|
    ensures r.Some? ==> forall i :: 0 <= i < |r.value| ==> r.value[i].cls == zero || r.value[i].cls == one
  {
    if data == [] then Some([])
    else
      var x := data[|data| - 1];
      match Expand(data[..|data| - 1], zero, one)
      case None => None
      case Some(points) =>
        if !Kept(x, zero, one) then Some(points)
        else match ProbAt(x.probs, zero)
          case None => None
          case Some(p) => Some(points + [Point(x.cls, p)])
  }

  /** Hand & Till, equation 3, on points already in rank order: with n0 points of
      class `zero` and n1 of class `one`, (sum of the 1-based ranks of the class `zero`
      points - n0 (n0 + 1) / 2) / (n0 n1); undefined (division by zero) when either
      class is absent. It is the fraction of (class `one`, class `zero`) pairs in which
      the class `one` point is ranked below the class `zero` point. */
  function RankStatistic(ranked: seq<Point>, zero: int, one: int): (r: Option<real>)
    requires forall i :: 0 <= i < |ranked| ==> ranked[i].cls == zero || ranked[i].cls == one
    ensures r.Some? <==> Count(ranked, zero) > 0 && Count(ranked, one) > 0
    ensures r.Some? ==> r.value == PairsBelow(ranked, zero) as real / (Count(ranked, zero) * Count(ranked, one)) as real
    ensures r.Some? ==> 0.0 <= r.value <= 1.0
  {
    var n0, n1 := Count(ranked, zero), Count(ranked, one);
    if n0 * n1 == 0 then None
    else
      RankFacts(ranked, zero, one);
      RankFraction(RankSum(ranked, zero), n0, n1, PairsBelow(ranked, zero), |ranked|);
      Some((RankSum(ranked, zero) as real - (n0 * (n0 + 1)) as real / 2.0) / (n0 * n1) as real)
  }

  /** The statistic of kept points ranked by a stable ascending sort. */
  function RankAValue(points: seq<Point>, zero: int, one: int): (r: Option<real>)
    requires forall i :: 0 <= i < |points| ==> points[i].cls == zero || points[i].cls == one
    ensures r.Some? ==> 0.0 <= r.value <= 1.0
  {
    AllKeptAfterSort(points, zero, one);
    RankStatistic(StableSort(points), zero, one)
  }

  /** The A-value of the instances of classes `zero` and `one`, ranked by the probability
      they give to class `zero`; undefined when that probability cannot be indexed. */
  function AValue(data: seq<Instance>, zero: int, one: int): (r: Option<real>)
    ensures r.Some? ==> 0.0 <= r.value <= 1.0
  {
    match Expand(data, zero, one)
    case None => None
    case Some(points) => RankAValue(points, zero, one)
  }

  /** The rank facts behind the A-value, for ranked points of the two compared classes. */
  lemma RankFacts(ranked: seq<Point>, zero: int, one: int)
    requires forall i :: 0 <= i < |ranked| ==> ranked[i].cls == zero || ranked[i].cls == one
    ensures 2 * RankSum(ranked, zero) == Count(ranked, zero) * (Count(ranked, zero) + 1) + 2 * PairsBelow(ranked, zero)
    ensures PairsBelow(ranked, zero) <= Count(ranked, zero) * (|ranked| - Count(ranked, zero))
    ensures |ranked| - Count(ranked, zero) <= Count(ranked, one)
  {
    RankSumIsPairCount(ranked, zero);
    PairsBelowBound(ranked, zero);
    OthersAreOnes(ranked, zero, one);
  }

  /** Equation 3 rewritten: (rank sum - n0 (n0 + 1) / 2) / (n0 n1) is the pair count over
      n0 n1, and at most 1. */
  lemma RankFraction(rankSum: nat, n0: nat, n1: nat, pairs: nat, len: nat)
    requires n0 > 0 && n1 > 0
    requires 2 * rankSum == n0 * (n0 + 1) + 2 * pairs
    requires pairs <= n0 * (len - n0)
    requires len - n0 <= n1
    ensures (rankSum as real - (n0 * (n0 + 1)) as real / 2.0) / (n0 * n1) as real == pairs as real / (n0 * n1) as real
    ensures 0.0 <= pairs as real / (n0 * n1) as real <= 1.0
  {
    MulMonotone(n0, len - n0, n1);
    assert rankSum as real - (n0 * (n0 + 1)) as real / 2.0 == pairs as real;
    FractionAtMostOne(pairs as real, (n0 * n1) as real);
  }

  lemma MulMonotone(a: nat, b: int, c: int)
    requires b <= c
    ensures a * b <= a * c
  {
  }

  lemma FractionAtMostOne(x: real, d: real)
    requires 0.0 <= x <= d && d > 0.0
    ensures 0.0 <= x / d <= 1.0
  {
  }

  lemma AllKeptAfterSort(points: seq<Point>, zero: int, one: int)
    requires forall i :: 0 <= i < |points| ==> points[i].cls == zero || points[i].cls == one
    ensures forall i :: 0 <= i < |StableSort(points)| ==>
      StableSort(points)[i].cls == zero || StableSort(points)[i].cls == one
  {
    var ranked := StableSort(points);
    forall i | 0 <= i < |ranked|
      ensures ranked[i].cls == zero || ranked[i].cls == one
    {
      assert ranked[i] in multiset(points);
      var j :| 0 <= j < |points| && points[j] == ranked[i];
    }
  }

  /** The expansion succeeds exactly when every kept instance can be indexed. */
  lemma {:induction false} ExpandDefined(data: seq<Instance>, zero: int, one: int)
    ensures Expand(data, zero, one).Some? <==> Indexable(data, zero, one)
  {
    if data != [] {
      var init := data[..|data| - 1];
      ExpandDefined(init, zero, one);
      assert forall i :: 0 <= i < |init| ==> init[i] == data[i];
    }
  }

  /** The expansion holds as many class `z` points as the data has class `z` instances,
      for either of the two compared classes. */
  lemma {:induction false} ExpandCount(data: seq<Instance>, zero: int, one: int, z: int)
    requires z == zero || z == one
    requires Expand(data, zero, one).Some?
    ensures Count(Expand(data, zero, one).value, z) > 0 <==> exists i :: 0 <= i < |data| && data[i].cls == z
  {
    if data != [] {
      var init, x := data[..|data| - 1], data[|data| - 1];
      ExpandCount(init, zero, one, z);
      var points := Expand(init, zero, one).value;
      if Kept(x, zero, one) {
        CountAppend(points, Point(x.cls, ProbAt(x.probs, zero).value), z);
      }
      if exists i :: 0 <= i < |init| && init[i].cls == z {
        var i :| 0 <= i < |init| && init[i].cls == z;
        assert data[i].cls == z;
      }
      if exists i :: 0 <= i < |data| && data[i].cls == z {
        var i :| 0 <= i < |data| && data[i].cls == z;
        if i < |init| {
          assert init[i].cls == z;
        }
      }
    }
  }

  /** The A-value is defined exactly when every kept instance has a probability at
      index `zero`, and both compared classes occur among the true classes. */
  lemma AValueDefined(data: seq<Instance>, zero: int, one: int)
    ensures AValue(data, zero, one).Some? <==>
      Indexable(data, zero, one)
      && (exists i :: 0 <= i < |data| && data[i].cls == zero)
      && (exists i :: 0 <= i < |data| && data[i].cls == one)
  {
    ExpandDefined(data, zero, one);
    if Indexable(data, zero, one) {
      var points := Expand(data, zero, one).value;
      ExpandCount(data, zero, one, zero);
      ExpandCount(data, zero, one, one);
      CountStableSort(points, zero);
      CountStableSort(points, one);
      assert AValue(data, zero, one) == RankAValue(points, zero, one);
    }
  }

  /** An instance whose class is neither of the compared ones changes nothing. */
  lemma AValueIgnoresOtherClasses(data: seq<Instance>, x: Instance, zero: int, one: int)
    requires !Kept(x, zero, one)
    ensures AValue(data + [x], zero, one) == AValue(data, zero, one)
  {
    assert (data + [x])[..|data|] == data;
    assert Expand(data + [x], zero, one) == Expand(data, zero, one);
  }

  /** Only the class and the `zero` probability of each kept instance matter. */
  lemma AValueOnlyUsesZeroProbability(data: seq<Instance>, data': seq<Instance>, zero: int, one: int)
    requires |data| == |data'|
    requires forall i :: 0 <= i < |data| ==> data[i].cls == data'[i].cls
    requires forall i :: 0 <= i < |data| && Kept(data[i], zero, one) ==>
      ProbAt(data[i].probs, zero) == ProbAt(data'[i].probs, zero)
    ensures AValue(data, zero, one) == AValue(data', zero, one)
  {
    SameExpansion(data, data', zero, one);
  }

  lemma {:induction false} SameExpansion(data: seq<Instance>, data': seq<Instance>, zero: int, one: int)
    requires |data| == |data'|
    requires forall i :: 0 <= i < |data| ==> data[i].cls == data'[i].cls
    requires forall i :: 0 <= i < |data| && Kept(data[i], zero, one) ==>
      ProbAt(data[i].probs, zero) == ProbAt(data'[i].probs, zero)
    ensures Expand(data, zero, one) == Expand(data', zero, one)
  {
    if data != [] {
      var n := |data| - 1;
      SameExpansion(data[..n], data'[..n], zero, one);
    }
  }

  // ---------------------------------------------------------------------------
  // MAUC (Hand & Till, equation 7)

  /** The pairs (i, j'), j <= j' < n, j' != i, in increasing j'. */
  function PermutationRow(i: int, j: int, n: int): (r: seq<(int, int)>)
    requires 0 <= i < n && 0 <= j <= n
    ensures |r| == n - j - (if j <= i then 1 else 0)
    ensures forall k :: 0 <= k < |r| ==> r[k].0 == i && j <= r[k].1 < n && r[k].1 != i
    ensures forall b :: j <= b < n && b != i ==> (i, b) in r
    decreases n - j
  {
    if j == n then []
    else (if j == i then [] else [(i, j)]) + PermutationRow(i, j + 1, n)
  }

  /** The rows of first elements i..n-1. */
  function PermutationsFrom(i: int, n: int): (r: seq<(int, int)>)
    requires 0 <= i <= n
    ensures |r| == (n - i) * (n - 1)
    ensures forall k :: 0 <= k < |r| ==> i <= r[k].0 < n && 0 <= r[k].1 < n && r[k].0 != r[k].1
    ensures forall a, b :: i <= a < n && 0 <= b < n && a != b ==> (a, b) in r
    decreases n - i
  {
    if i == n then []
    else
      var row, rest := PermutationRow(i, 0, n), PermutationsFrom(i + 1, n);
      assert |row + rest| == (n - i) * (n - 1) by {
        calc {
          |row + rest|;
          (n - 1) + (n - i - 1) * (n - 1);
          (n - i) * (n - 1);
        }
      }
      row + rest
  }

  /** `itertools.permutations(range(n), 2)`: every ordered pair of distinct classes
      below `n`, each exactly once. */
  function Permutations(n: int): (ps: seq<(int, int)>)
    ensures |ps| == if n <= 1 then 0 else n * (n - 1)
    ensures forall k :: 0 <= k < |ps| ==> 0 <= ps[k].0 < n && 0 <= ps[k].1 < n && ps[k].0 != ps[k].1
    ensures forall a, b :: 0 <= a < n && 0 <= b < n && a != b ==> (a, b) in ps
  {
    if n <= 0 then [] else PermutationsFrom(0, n)
  }

  /** The A-value of each pair of `ps`, in order. */
  function AValues(data: seq<Instance>, ps: seq<(int, int)>): (vs: seq<Option<real>>)
    ensures |vs| == |ps|
    ensures forall k :: 0 <= k < |ps| ==> vs[k] == AValue(data, ps[k].0, ps[k].1)
  {
    seq(|ps|, k requires 0 <= k < |ps| => AValue(data, ps[k].0, ps[k].1))
  }

  /** Python's `sum` over the values: `None` as soon as one of them is undefined. */
  function SumDefined(vs: seq<Option<real>>): (r: Option<real>)
    ensures r.Some? <==> forall k :: 0 <= k < |vs| ==> vs[k].Some?
  {
    if vs == [] then Some(0.0)
    else
      var rest := SumDefined(vs[1..]);
      assert forall k :: 1 <= k < |vs| ==> vs[k] == vs[1..][k - 1];
      if vs[0].Some? && rest.Some? then Some(vs[0].value + rest.value) else None
  }

  /** A sum of defined values in [0, 1] lies in [0, |vs|]. */
  lemma {:induction false} SumDefinedBounds(vs: seq<Option<real>>)
    requires forall k :: 0 <= k < |vs| && vs[k].Some? ==> 0.0 <= vs[k].value <= 1.0
    ensures SumDefined(vs).Some? ==> 0.0 <= SumDefined(vs).value <= |vs| as real
  {
    if vs != [] {
      SumDefinedBounds(vs[1..]);
    }
  }

  /** The class count used by MAUC: the given one, or one less than the length of
      the first instance's probability vector; `None` when that instance does not exist. */
  function ClassCount(data: seq<Instance>, numClasses: Option<int>): (n: Option<int>)
    ensures numClasses.Some? ==> n == numClasses
    ensures numClasses.None? ==> (n.Some? <==> |data| > 0)
    ensures numClasses.None? && |data| > 0 ==> n.value < |data[0].probs|
  {
    match numClasses
    case Some(k) => Some(k)
    case None => if |data| == 0 then None else Some(|data[0].probs| - 1)
  }

  /** MAUC: the A-values of all ordered pairs of distinct classes, summed and divided by
      n (n - 1). Undefined when any A-value is, and for n = 0 or n = 1 (division by zero). */
  function MAUC(data: seq<Instance>, numClasses: Option<int>): (r: Option<real>)
    ensures r.Some? ==> 0.0 <= r.value <= 1.0
    ensures r.Some? ==> ClassCount(data, numClasses).Some? && ClassCount(data, numClasses).value !in {0, 1}
  {
    match ClassCount(data, numClasses)
    case None => None
    case Some(n) =>
      var avals := AValues(data, Permutations(n));
      SumDefinedBounds(avals);
      MaxPairCount(n);
      PairAverage(SumDefined(avals), n)
  }

  /** n (n - 1) is positive for every n but 0 and 1, and bounds the pair count. */
  lemma MaxPairCount(n: int)
    ensures n != 0 && n != 1 ==> n * (n - 1) > 0
    ensures (if n <= 1 then 0 else n * (n - 1)) <= n * (n - 1)
  {
    if n < 0 {
      assert n * (n - 1) == (-n) * (1 - n);
    }
  }

  /** The sum of the A-values divided by n (n - 1): `None` when the sum is, or when
      n (n - 1) is zero; a sum within [0, n (n - 1)] gives a value in [0, 1]. */
  function PairAverage(total: Option<real>, n: int): (r: Option<real>)
    ensures r.Some? <==> total.Some? && n !in {0, 1}
    ensures r.Some? && 0.0 <= total.value <= (n * (n - 1)) as real ==> 0.0 <= r.value <= 1.0
  {
    if total.None? || n == 0 || n == 1 then None
    else
      MaxPairCount(n);
      FractionBound(total.value, (n * (n - 1)) as real);
      Some(total.value / (n * (n - 1)) as real)
  }

  lemma FractionBound(x: real, d: real)
    requires d > 0.0
    ensures 0.0 <= x <= d ==> 0.0 <= x / d <= 1.0
  {
    if 0.0 <= x <= d {
      FractionAtMostOne(x, d);
    }
  }

  /** With two classes, MAUC is the mean of the two directed A-values. */
  lemma MAUCTwoClasses(data: seq<Instance>)
    ensures MAUC(data, Some(2)).Some? <==> AValue(data, 0, 1).Some? && AValue(data, 1, 0).Some?
    ensures MAUC(data, Some(2)).Some? ==>
              MAUC(data, Some(2)).value == (AValue(data, 0, 1).value + AValue(data, 1, 0).value) / 2.0
  {
    MAUCOfTwo(data);
    var vs := AValues(data, [(0, 1), (1, 0)]);
    assert vs[0] == AValue(data, 0, 1) && vs[1] == AValue(data, 1, 0);
    PairAverageOfTwo(vs);
    var m := PairAverage(SumDefined(vs), 2);
    assert MAUC(data, Some(2)) == m;
  }

  lemma MAUCOfTwo(data: seq<Instance>)
    ensures MAUC(data, Some(2)) == PairAverage(SumDefined(AValues(data, [(0, 1), (1, 0)])), 2)
  {
    PermutationsOfTwo();
  }

  lemma PairAverageOfTwo(vs: seq<Option<real>>)
    requires |vs| == 2
    ensures PairAverage(SumDefined(vs), 2) ==
      if vs[0].Some? && vs[1].Some? then Some((vs[0].value + vs[1].value) / 2.0) else None
  {
    SumOfTwo(vs);
  }

  lemma PermutationsOfTwo()
    ensures Permutations(2) == [(0, 1), (1, 0)]
  {
    assert PermutationRow(0, 0, 2) == [(0, 1)];
    assert PermutationRow(1, 0, 2) == [(1, 0)];
    assert PermutationsFrom(2, 2) == [];
  }

  lemma SumOfTwo(vs: seq<Option<real>>)
    requires |vs| == 2
    ensures SumDefined(vs) == if vs[0].Some? && vs[1].Some? then Some(vs[0].value + vs[1].value) else None
  {
    var tail := vs[1..];
    assert tail[1..] == [];
    assert SumDefined(tail[1..]) == Some(0.0);
    assert SumDefined(tail) == if vs[1].Some? then Some(vs[1].value + 0.0) else None;
  }

  lemma AValuesIgnore(data: seq<Instance>, x: Instance, ps: seq<(int, int)>)
    requires forall k :: 0 <= k < |ps| ==> !Kept(x, ps[k].0, ps[k].1)
    ensures AValues(data + [x], ps) == AValues(data, ps)
  {
    forall k | 0 <= k < |ps|
      ensures AValues(data + [x], ps)[k] == AValues(data, ps)[k]
    {
      AValueIgnoresOtherClasses(data, x, ps[k].0, ps[k].1);
    }
  }

  /** Without an explicit class count, the highest class index (the last entry of
      the probability vectors) is never compared: appending an instance of that class
      does not change MAUC. */
  lemma MAUCDefaultIgnoresTopClass(data: seq<Instance>, x: Instance)
    requires |data| > 0
    requires x.cls == |data[0].probs| - 1
    ensures MAUC(data + [x], None) == MAUC(data, None)
  {
    assert (data + [x])[0] == data[0];
    var n := |data[0].probs| - 1;
    assert ClassCount(data + [x], None) == ClassCount(data, None) == Some(n);
    AValuesIgnore(data, x, Permutations(n));
  }

  // ---------------------------------------------------------------------------
  // Balanced classification accuracy

  /** `np.sum((estim == e) & (truth == t))`: the items estimated `e` whose truth is `t`. */
  function Matches(estim: seq<int>, truth: seq<int>, e: int, t: int): (c: nat)
    requires |estim| == |truth|
    ensures c <= |estim|
    ensures c > 0 <==> exists i :: 0 <= i < |estim| && estim[i] == e && truth[i] == t
  {
    if estim == [] then 0
    else
      var n := |estim| - 1;
      var c' := Matches(estim[..n], truth[..n], e, t);
      assert c' > 0 <==> exists i :: 0 <= i < n && estim[i] == e && truth[i] == t by {
        assert forall i :: 0 <= i < n ==> estim[..n][i] == estim[i] && truth[..n][i] == truth[i];
      }
      c' + (if estim[n] == e && truth[n] == t then 1 else 0)
  }

  /** `hits / (hits + misses)`, or 0.5 when there is nothing to count. */
  function Rate(hits: nat, misses: nat): (r: real)
    ensures 0.0 <= r <= 1.0
    ensures hits + misses > 0 ==> r * (hits + misses) as real == hits as real
  {
    if hits + misses == 0 then 0.5 else hits as real / (hits + misses) as real
  }

  /** The score of one class pair as the source computes it, with c0 the positive and c1
      the negative class: its `sensitivity` divides TP by TP + #(estimated c0, true c1),
      its `specificity` TN by TN + #(estimated c1, true c0). */
  function PairBCA(estim: seq<int>, truth: seq<int>, c0: int, c1: int): (b: real)
    requires |estim| == |truth|
    ensures 0.0 <= b <= 1.0
  {
    var tp := Matches(estim, truth, c0, c0);
    var tn := Matches(estim, truth, c1, c1);
    var fp := Matches(estim, truth, c1, c0);
    var fn := Matches(estim, truth, c0, c1);
    0.5 * (Rate(tp, fn) + Rate(tn, fp))
  }

  /** The scores of the pairs (c0, c1'), c0 < c1' < c1, in loop order. */
  function RowScores(estim: seq<int>, truth: seq<int>, c0: int, c1: int): (r: seq<real>)
    requires |estim| == |truth|
    requires c0 < c1
    ensures |r| == c1 - c0 - 1
    decreases c1 - c0
  {
    if c1 == c0 + 1 then [] else RowScores(estim, truth, c0, c1 - 1) + [PairBCA(estim, truth, c0, c1 - 1)]
  }

  /** The scores appended by the first `c0` iterations of the outer loop. */
  function ScoresBefore(estim: seq<int>, truth: seq<int>, c0: int, n: int): (r: seq<real>)
    requires |estim| == |truth|
    requires 0 <= c0 <= n
  {
    if c0 == 0 then [] else ScoresBefore(estim, truth, c0 - 1, n) + RowScores(estim, truth, c0 - 1, n)
  }

  /** The pair scores `bcaAll` of `calcBCA`, one per pair c0 < c1 < nrClasses. */
  function BCAScores(estim: seq<int>, truth: seq<int>, nrClasses: int): seq<real>
    requires |estim| == |truth|
  {
    var n := if nrClasses < 0 then 0 else nrClasses;
    ScoresBefore(estim, truth, n, n)
  }

  function Sum(xs: seq<real>): real {
    if xs == [] then 0.0 else Sum(xs[..|xs| - 1]) + xs[|xs| - 1]
  }

  /** `np.mean`: undefined (NaN) for an empty list. */
  function Mean(xs: seq<real>): (r: Option<real>)
    ensures r.Some? <==> |xs| > 0
  {
    if xs == [] then None else Some(Sum(xs) / |xs| as real)
  }

  /** A sum of values in [lo, hi] lies between |xs| lo and |xs| hi. */
  lemma {:induction false} SumBounds(xs: seq<real>, lo: real, hi: real)
    requires forall i :: 0 <= i < |xs| ==> lo <= xs[i] <= hi
    ensures |xs| as real * lo <= Sum(xs) <= |xs| as real * hi
  {
    if xs != [] {
      SumBounds(xs[..|xs| - 1], lo, hi);
    }
  }

  /** The mean of values in [lo, hi] lies in [lo, hi]. */
  lemma MeanBounds(xs: seq<real>, lo: real, hi: real)
    requires forall i :: 0 <= i < |xs| ==> lo <= xs[i] <= hi
    ensures Mean(xs).Some? ==> lo <= Mean(xs).value <= hi
  {
    SumBounds(xs, lo, hi);
    if xs != [] {
      MeanOfBounds(Sum(xs), |xs| as real, lo, hi);
    }
  }

  lemma MeanOfBounds(sum: real, n: real, lo: real, hi: real)
    requires n > 0.0 && n * lo <= sum <= n * hi
    ensures lo <= sum / n <= hi
  {
  }

  /** When every pair score lies in [lo, hi], so does every entry of `ScoresBefore`. */
  lemma {:induction false} ScoresWithin(estim: seq<int>, truth: seq<int>, c0: int, n: int, lo: real, hi: real)
    requires |estim| == |truth|
    requires 0 <= c0 <= n
    requires forall a, b :: 0 <= a < b < n ==> lo <= PairBCA(estim, truth, a, b) <= hi
    ensures forall k :: 0 <= k < |ScoresBefore(estim, truth, c0, n)| ==> lo <= ScoresBefore(estim, truth, c0, n)[k] <= hi
  {
    if c0 > 0 {
      ScoresWithin(estim, truth, c0 - 1, n, lo, hi);
      RowWithin(estim, truth, c0 - 1, n, lo, hi);
    }
  }

  lemma {:induction false} RowWithin(estim: seq<int>, truth: seq<int>, c0: int, c1: int, lo: real, hi: real)
    requires |estim| == |truth|
    requires 0 <= c0 < c1
    requires forall b :: c0 < b < c1 ==> lo <= PairBCA(estim, truth, c0, b) <= hi
    ensures forall k :: 0 <= k < |RowScores(estim, truth, c0, c1)| ==> lo <= RowScores(estim, truth, c0, c1)[k] <= hi
    decreases c1 - c0
  {
    if c1 > c0 + 1 {
      RowWithin(estim, truth, c0, c1 - 1, lo, hi);
    }
  }

  /** There are c0 (2 n - c0 - 1) / 2 scores before row c0. */
  lemma {:induction false} ScoresBeforeCount(estim: seq<int>, truth: seq<int>, c0: int, n: int)
    requires |estim| == |truth|
    requires 0 <= c0 <= n
    ensures 2 * |ScoresBefore(estim, truth, c0, n)| == c0 * (2 * n - c0 - 1)
  {
    if c0 > 0 {
      ScoresBeforeCount(estim, truth, c0 - 1, n);
      CountStep(|ScoresBefore(estim, truth, c0 - 1, n)|, c0, n);
    }
  }

  lemma CountStep(x: int, c: int, n: int)
    requires 2 * x == (c - 1) * (2 * n - (c - 1) - 1)
    ensures 2 * (x + (n - c)) == c * (2 * n - c - 1)
  {
  }

  /** There are nrClasses (nrClasses - 1) / 2 pair scores, so there is one exactly when
      nrClasses >= 2, and each lies in [0, 1]. */
  lemma BCAScoresFacts(estim: seq<int>, truth: seq<int>, nrClasses: int)
    requires |estim| == |truth|
    ensures 2 * |BCAScores(estim, truth, nrClasses)| == if nrClasses <= 0 then 0 else nrClasses * (nrClasses - 1)
    ensures |BCAScores(estim, truth, nrClasses)| > 0 <==> nrClasses >= 2
    ensures forall k :: 0 <= k < |BCAScores(estim, truth, nrClasses)| ==> 0.0 <= BCAScores(estim, truth, nrClasses)[k] <= 1.0
  {
    var n := if nrClasses < 0 then 0 else nrClasses;
    ScoresBeforeCount(estim, truth, n, n);
    PositivePairs(n);
    ScoresWithin(estim, truth, n, n, 0.0, 1.0);
  }

  lemma PositivePairs(n: nat)
    ensures n * (n - 1) > 0 <==> n >= 2
  {
    if n >= 2 {
      assert n * (n - 1) >= 2 * 1;
    }
  }

  /** Balanced classification accuracy, as the nested loops of the source compute it:
      the mean of the pair scores over c0 < c1 < nrClasses, undefined (NaN) when there
      is no such pair. */
  method CalcBCA(estim: seq<int>, truth: seq<int>, nrClasses: int) returns (bca: Option<real>)
    requires |estim| == |truth|
    ensures bca == Mean(BCAScores(estim, truth, nrClasses))
    ensures bca.Some? <==> nrClasses >= 2
    ensures bca.Some? ==> 0.0 <= bca.value <= 1.0
  {
    ghost var n := if nrClasses < 0 then 0 else nrClasses;
    var all: seq<real> := [];
    var c0 := 0;
    while c0 < nrClasses
      invariant 0 <= c0 <= n
      invariant all == ScoresBefore(estim, truth, c0, n)
    {
      var row := PairScoresFrom(estim, truth, c0, nrClasses);
      all := all + row;
      c0 := c0 + 1;
    }
    bca := Mean(all);
    BCAScoresFacts(estim, truth, nrClasses);
    MeanBounds(all, 0.0, 1.0);
  }

  /** The inner loop of `calcBCA` for one positive class c0: the scores of the pairs
      (c0, c1), c0 < c1 < nrClasses, in loop order. */
  method PairScoresFrom(estim: seq<int>, truth: seq<int>, c0: int, nrClasses: int) returns (row: seq<real>)
    requires |estim| == |truth|
    requires 0 <= c0 < nrClasses
    ensures row == RowScores(estim, truth, c0, nrClasses)
  {
    row := [];
    var c1 := c0 + 1;
    while c1 < nrClasses
      invariant c0 + 1 <= c1 <= nrClasses
      invariant row == RowScores(estim, truth, c0, c1)
    {
      var tp := Matches(estim, truth, c0, c0);
      var tn := Matches(estim, truth, c1, c1);
      var fp := Matches(estim, truth, c1, c0);
      var fn := Matches(estim, truth, c0, c1);
      var sensitivity := Rate(tp, fn);
      var specificity := Rate(tn, fp);
      row := row + [0.5 * (sensitivity + specificity)];
      c1 := c1 + 1;
    }
  }

  /** When no estimated label is one of c0, c1, both rates fall back to 0.5. */
  lemma PairBCANoForecast(estim: seq<int>, truth: seq<int>, c0: int, c1: int)
    requires |estim| == |truth|
    requires forall i :: 0 <= i < |estim| ==> estim[i] != c0 && estim[i] != c1
    ensures PairBCA(estim, truth, c0, c1) == 0.5
  {
    assert Matches(estim, truth, c0, c0) == 0;
    assert Matches(estim, truth, c1, c1) == 0;
    assert Matches(estim, truth, c1, c0) == 0;
    assert Matches(estim, truth, c0, c1) == 0;
  }

  /** When no estimated label is a class below nrClasses, every sensitivity and
      specificity falls back to 0.5, and so does the result. */
  lemma BCANoForecastInRange(estim: seq<int>, truth: seq<int>, nrClasses: int)
    requires |estim| == |truth|
    requires nrClasses >= 2
    requires forall i :: 0 <= i < |estim| ==> !(0 <= estim[i] < nrClasses)
    ensures Mean(BCAScores(estim, truth, nrClasses)) == Some(0.5)
  {
    forall a, b | 0 <= a < b < nrClasses
      ensures 0.5 <= PairBCA(estim, truth, a, b) <= 0.5
    {
      PairBCANoForecast(estim, truth, a, b);
    }
    ScoresWithin(estim, truth, nrClasses, nrClasses, 0.5, 0.5);
    BCAScoresFacts(estim, truth, nrClasses);
    MeanBounds(BCAScores(estim, truth, nrClasses), 0.5, 0.5);
  }

  /** The pair score with the true counts: sensitivity is the share of true-c0 items
      estimated c0, specificity the share of true-c1 items estimated c1 (items estimated
      neither c0 nor c1 left aside, as in the source). */
  function BalancedPairAccuracy(estim: seq<int>, truth: seq<int>, c0: int, c1: int): (b: real)
    requires |estim| == |truth|
    ensures 0.0 <= b <= 1.0
  {
    var tp := Matches(estim, truth, c0, c0);
    var tn := Matches(estim, truth, c1, c1);
    var fp := Matches(estim, truth, c0, c1);
    var fn := Matches(estim, truth, c1, c0);
    0.5 * (Rate(tp, fn) + Rate(tn, fp))
  }

  /** A classifier that always answers c0 gets exactly chance level, 0.5, on a pair whose
      classes both occur in the truth: the defining property of balanced accuracy. */
  lemma ConstantGuessScoresHalf(estim: seq<int>, truth: seq<int>, c0: int, c1: int)
    requires |estim| == |truth|
    requires c0 != c1
    requires forall i :: 0 <= i < |estim| ==> estim[i] == c0
    requires exists i :: 0 <= i < |truth| && truth[i] == c0
    requires exists i :: 0 <= i < |truth| && truth[i] == c1
    ensures BalancedPairAccuracy(estim, truth, c0, c1) == 0.5
  {
    var i :| 0 <= i < |truth| && truth[i] == c0;
    var j :| 0 <= j < |truth| && truth[j] == c1;
    assert estim[i] == c0 && estim[j] == c0;
    var tp := Matches(estim, truth, c0, c0);
    var fp := Matches(estim, truth, c0, c1);
    assert tp > 0 && fp > 0;
    assert Matches(estim, truth, c1, c1) == 0;
    assert Matches(estim, truth, c1, c0) == 0;
    assert Rate(tp, 0) == 1.0;
    assert Rate(0, fp) == 0.0;
  }

  /** The source's pair score on that kind of input is not chance level: estimates
      [0, 0, 0] against truths [0, 0, 1] give 7/12 instead of 1/2. */
  lemma PairBCAConstantGuessCounterexample()
    ensures PairBCA([0, 0, 0], [0, 0, 1], 0, 1) == 7.0 / 12.0
    ensures BalancedPairAccuracy([0, 0, 0], [0, 0, 1], 0, 1) == 0.5
  {
    var e, t := [0, 0, 0], [0, 0, 1];
    assert Matches(e, t, 0, 0) == 2 by {
      assert e[..2] == [0, 0] && t[..2] == [0, 0];
      assert e[..2][..1] == [0] && t[..2][..1] == [0];
      assert e[..2][..1][..0] == [];
    }
    assert Matches(e, t, 0, 1) == 1 by {
      assert e[..2] == [0, 0] && t[..2] == [0, 0];
      assert e[..2][..1] == [0] && t[..2][..1] == [0];
      assert e[..2][..1][..0] == [];
    }
    assert Matches(e, t, 1, 1) == 0;
    assert Matches(e, t, 1, 0) == 0;
  }

  // ---------------------------------------------------------------------------
  // Interval forecasts: weighted error score and coverage probability accuracy

  predicate SameLength(estimates: seq<real>, lowers: seq<real>, uppers: seq<real>, trues: seq<real>) {
    |lowers| == |estimates| && |uppers| == |estimates| && |trues| == |estimates|
  }

  function Abs(x: real): real { if x < 0.0 then -x else x }

  /** The weight of one item: the inverse width of its interval. */
  function Weight(lower: real, upper: real): (w: real)
    requires upper != lower
    ensures lower < upper ==> w > 0.0
  {
    1.0 / (upper - lower)
  }

  /** The sum of the weights 1 / (upper - lower). */
  function WeightSum(lowers: seq<real>, uppers: seq<real>): real
    requires |lowers| == |uppers|
    requires forall i :: 0 <= i < |lowers| ==> uppers[i] != lowers[i]
  {
    if lowers == [] then 0.0
    else
      var n := |lowers| - 1;
      WeightSum(lowers[..n], uppers[..n]) + Weight(lowers[n], uppers[n])
  }

  /** The sum of weight times absolute error. */
  function WeightedErrorSum(estimates: seq<real>, lowers: seq<real>, uppers: seq<real>, trues: seq<real>): real
    requires SameLength(estimates, lowers, uppers, trues)
    requires forall i :: 0 <= i < |lowers| ==> uppers[i] != lowers[i]
  {
    if estimates == [] then 0.0
    else
      var n := |estimates| - 1;
      WeightedErrorSum(estimates[..n], lowers[..n], uppers[..n], trues[..n])
        + Weight(lowers[n], uppers[n]) * Abs(estimates[n] - trues[n])
  }

  /** Weighted error score: the average absolute error, each item weighted by the inverse
      width of its interval. Undefined when an interval has zero width (the weight is
      infinite) or the weights sum to zero. */
  function WES(estimates: seq<real>, lowers: seq<real>, uppers: seq<real>, trues: seq<real>): (r: Option<real>)
    requires SameLength(estimates, lowers, uppers, trues)
    ensures r.Some? ==> forall i :: 0 <= i < |lowers| ==> uppers[i] != lowers[i]
  {
    if exists i :: 0 <= i < |lowers| && uppers[i] == lowers[i] then None
    else
      var w := WeightSum(lowers, uppers);
      if w == 0.0 then None else Some(WeightedErrorSum(estimates, lowers, uppers, trues) / w)
  }

  lemma {:induction false} WeightSumPositive(lowers: seq<real>, uppers: seq<real>)
    requires |lowers| == |uppers|
    requires forall i :: 0 <= i < |lowers| ==> lowers[i] < uppers[i]
    ensures |lowers| > 0 ==> WeightSum(lowers, uppers) > 0.0
    ensures WeightSum(lowers, uppers) >= 0.0
  {
    if lowers != [] {
      var n := |lowers| - 1;
      WeightSumPositive(lowers[..n], uppers[..n]);
    }
  }

  /** c times x, as a function of its own so that scaled sums compare term by term. */
  function Scaled(c: real, x: real): real { c * x }

  /** With positive weights and every absolute error at least lo, the weighted error sum
      is at least lo times the weight sum. */
  lemma {:induction false} WeightedErrorSumAtLeast(estimates: seq<real>, lowers: seq<real>, uppers: seq<real>, trues: seq<real>, lo: real)
    requires SameLength(estimates, lowers, uppers, trues)
    requires forall i :: 0 <= i < |lowers| ==> lowers[i] < uppers[i]
    requires forall i :: 0 <= i < |estimates| ==> lo <= Abs(estimates[i] - trues[i])
    ensures Scaled(lo, WeightSum(lowers, uppers)) <= WeightedErrorSum(estimates, lowers, uppers, trues)
  {
    if estimates != [] {
      var n := |estimates| - 1;
      var es, ls, us, ts := estimates[..n], lowers[..n], uppers[..n], trues[..n];
      assert forall i :: 0 <= i < n ==> ls[i] == lowers[i] && us[i] == uppers[i] && es[i] == estimates[i] && ts[i] == trues[i];
      WeightedErrorSumAtLeast(es, ls, us, ts, lo);
      AtLeastStep(estimates, lowers, uppers, trues, lo);
    }
  }

  /** With positive weights and every absolute error at most hi, the weighted error sum
      is at most hi times the weight sum. */
  lemma {:induction false} WeightedErrorSumAtMost(estimates: seq<real>, lowers: seq<real>, uppers: seq<real>, trues: seq<real>, hi: real)
    requires SameLength(estimates, lowers, uppers, trues)
    requires forall i :: 0 <= i < |lowers| ==> lowers[i] < uppers[i]
    requires forall i :: 0 <= i < |estimates| ==> Abs(estimates[i] - trues[i]) <= hi
    ensures WeightedErrorSum(estimates, lowers, uppers, trues) <= Scaled(hi, WeightSum(lowers, uppers))
  {
    if estimates != [] {
      var n := |estimates| - 1;
      var es, ls, us, ts := estimates[..n], lowers[..n], uppers[..n], trues[..n];
      assert forall i :: 0 <= i < n ==> ls[i] == lowers[i] && us[i] == uppers[i] && es[i] == estimates[i] && ts[i] == trues[i];
      WeightedErrorSumAtMost(es, ls, us, ts, hi);
      AtMostStep(estimates, lowers, uppers, trues, hi);
    }
  }

  /** The lower bound carries over from all items but the last to all items. */
  lemma AtLeastStep(estimates: seq<real>, lowers: seq<real>, uppers: seq<real>, trues: seq<real>, lo: real)
    requires SameLength(estimates, lowers, uppers, trues) && |estimates| > 0
    requires forall i :: 0 <= i < |lowers| ==> lowers[i] < uppers[i]
    requires lo <= Abs(estimates[|estimates| - 1] - trues[|estimates| - 1])
    requires var n := |estimates| - 1;
      Scaled(lo, WeightSum(lowers[..n], uppers[..n])) <= WeightedErrorSum(estimates[..n], lowers[..n], uppers[..n], trues[..n])
    ensures Scaled(lo, WeightSum(lowers, uppers)) <= WeightedErrorSum(estimates, lowers, uppers, trues)
  {
    var n := |estimates| - 1;
    SumsStep(estimates, lowers, uppers, trues);
    LowerStep(lo, WeightSum(lowers[..n], uppers[..n]), WeightedErrorSum(estimates[..n], lowers[..n], uppers[..n], trues[..n]),
      Weight(lowers[n], uppers[n]), Abs(estimates[n] - trues[n]),
      WeightSum(lowers, uppers), WeightedErrorSum(estimates, lowers, uppers, trues));
  }

  /** The upper bound carries over from all items but the last to all items. */
  lemma AtMostStep(estimates: seq<real>, lowers: seq<real>, uppers: seq<real>, trues: seq<real>, hi: real)
    requires SameLength(estimates, lowers, uppers, trues) && |estimates| > 0
    requires forall i :: 0 <= i < |lowers| ==> lowers[i] < uppers[i]
    requires Abs(estimates[|estimates| - 1] - trues[|estimates| - 1]) <= hi
    requires var n := |estimates| - 1;
      WeightedErrorSum(estimates[..n], lowers[..n], uppers[..n], trues[..n]) <= Scaled(hi, WeightSum(lowers[..n], uppers[..n]))
    ensures WeightedErrorSum(estimates, lowers, uppers, trues) <= Scaled(hi, WeightSum(lowers, uppers))
  {
    var n := |estimates| - 1;
    SumsStep(estimates, lowers, uppers, trues);
    UpperStep(hi, WeightSum(lowers[..n], uppers[..n]), WeightedErrorSum(estimates[..n], lowers[..n], uppers[..n], trues[..n]),
      Weight(lowers[n], uppers[n]), Abs(estimates[n] - trues[n]),
      WeightSum(lowers, uppers), WeightedErrorSum(estimates, lowers, uppers, trues));
  }

  /** Both sums grow by the last item's term. */
  lemma SumsStep(estimates: seq<real>, lowers: seq<real>, uppers: seq<real>, trues: seq<real>)
    requires SameLength(estimates, lowers, uppers, trues) && |estimates| > 0
    requires forall i :: 0 <= i < |lowers| ==> uppers[i] != lowers[i]
    ensures var n := |estimates| - 1;
      WeightSum(lowers, uppers) == WeightSum(lowers[..n], uppers[..n]) + Weight(lowers[n], uppers[n]) &&
      WeightedErrorSum(estimates, lowers, uppers, trues) ==
        WeightedErrorSum(estimates[..n], lowers[..n], uppers[..n], trues[..n]) + Weight(lowers[n], uppers[n]) * Abs(estimates[n] - trues[n])
  {
  }

  /** Adding one item of positive weight v and error err keeps each bound. */
  lemma LowerStep(lo: real, w: real, e: real, v: real, err: real, w': real, e': real)
    requires Scaled(lo, w) <= e && v > 0.0 && lo <= err
    requires w' == w + v && e' == e + v * err
    ensures Scaled(lo, w') <= e'
  {
    assert lo * v <= v * err;
  }

  lemma UpperStep(hi: real, w: real, e: real, v: real, err: real, w': real, e': real)
    requires e <= Scaled(hi, w) && v > 0.0 && err <= hi
    requires w' == w + v && e' == e + v * err
    ensures e' <= Scaled(hi, w')
  {
    assert v * err <= hi * v;
  }

  /** With proper intervals (upper > lower) and at least one item, the score is
      defined and is a weighted average of the absolute errors: it lies between the
      smallest and the largest of them, so it is at least 0, and it is 0 when every
      estimate is exact. */
  lemma WESIsWeightedAverage(estimates: seq<real>, lowers: seq<real>, uppers: seq<real>, trues: seq<real>, lo: real, hi: real)
    requires SameLength(estimates, lowers, uppers, trues)
    requires |estimates| > 0
    requires forall i :: 0 <= i < |lowers| ==> lowers[i] < uppers[i]
    requires forall i :: 0 <= i < |estimates| ==> lo <= Abs(estimates[i] - trues[i]) <= hi
    ensures WES(estimates, lowers, uppers, trues).Some?
    ensures lo <= WES(estimates, lowers, uppers, trues).value <= hi
  {
    WeightSumPositive(lowers, uppers);
    WeightedErrorSumAtLeast(estimates, lowers, uppers, trues, lo);
    WeightedErrorSumAtMost(estimates, lowers, uppers, trues, hi);
    AverageBounds(WeightedErrorSum(estimates, lowers, uppers, trues), WeightSum(lowers, uppers), lo, hi);
  }

  lemma AverageBounds(e: real, w: real, lo: real, hi: real)
    requires w > 0.0 && Scaled(lo, w) <= e <= Scaled(hi, w)
    ensures lo <= e / w <= hi
  {
  }

  lemma {:induction false} ExactEstimatesNoError(estimates: seq<real>, lowers: seq<real>, uppers: seq<real>, trues: seq<real>)
    requires SameLength(estimates, lowers, uppers, trues)
    requires forall i :: 0 <= i < |lowers| ==> uppers[i] != lowers[i]
    requires forall i :: 0 <= i < |estimates| ==> estimates[i] == trues[i]
    ensures WeightedErrorSum(estimates, lowers, uppers, trues) == 0.0
  {
    if estimates != [] {
      var n := |estimates| - 1;
      ExactEstimatesNoError(estimates[..n], lowers[..n], uppers[..n], trues[..n]);
    }
  }

  /** Whenever the score is defined and every estimate equals its true value, it is 0,
      whatever the interval widths. */
  lemma WESExactIsZero(estimates: seq<real>, lowers: seq<real>, uppers: seq<real>, trues: seq<real>)
    requires SameLength(estimates, lowers, uppers, trues)
    requires forall i :: 0 <= i < |estimates| ==> estimates[i] == trues[i]
    ensures WES(estimates, lowers, uppers, trues).Some? ==> WES(estimates, lowers, uppers, trues).value == 0.0
  {
    if forall i :: 0 <= i < |lowers| ==> uppers[i] != lowers[i] {
      ExactEstimatesNoError(estimates, lowers, uppers, trues);
    }
  }

  /** The number of items whose true value lies strictly inside its interval. */
  function Covered(lowers: seq<real>, uppers: seq<real>, trues: seq<real>): (c: nat)
    requires |lowers| == |trues| && |uppers| == |trues|
    ensures c <= |trues|
  {
    if trues == [] then 0
    else
      var n := |trues| - 1;
      Covered(lowers[..n], uppers[..n], trues[..n]) + (if lowers[n] < trues[n] < uppers[n] then 1 else 0)
  }

  /** The distance of a coverage fraction c / n from one half. */
  lemma CoverageDistance(c: nat, n: nat)
    requires 0 < n && c <= n
    ensures 0.0 <= Abs(c as real / n as real - 0.5) <= 0.5
    ensures Abs(c as real / n as real - 0.5) == 0.0 <==> 2 * c == n
  {
    var f := c as real / n as real;
    assert f * n as real == c as real;
    assert 0.0 <= f <= 1.0;
    if f == 0.5 {
      assert 2 * c == n;
    }
  }

  /** Coverage probability accuracy of the 50% intervals: |coverage - 0.5|, where a true
      value on an interval bound is not covered. Undefined (NaN) for no items. */
  function CPA(estimates: seq<real>, lowers: seq<real>, uppers: seq<real>, trues: seq<real>): (r: Option<real>)
    requires SameLength(estimates, lowers, uppers, trues)
    ensures r.Some? <==> |trues| > 0
    ensures r.Some? ==> 0.0 <= r.value <= 0.5
    ensures r.Some? ==> (r.value == 0.0 <==> 2 * Covered(lowers, uppers, trues) == |trues|)
  {
    if |trues| == 0 then None
    else
      var covered := Covered(lowers, uppers, trues);
      CoverageDistance(covered, |trues|);
      Some(Abs(covered as real / |trues| as real - 0.5))
  }
}
