/** The stable ascending sort used to rank instances by one class probability
    (Python's `sorted` with a key function, which is guaranteed stable). */
module Ranking {

  /** One ranked instance: its true label and the probability it was given for
      the class that plays the role of "class 0". */
  datatype Point = Point(cls: int, p: real)

  ghost predicate Ascending(s: seq<Point>) {
    forall i, j :: 0 <= i < j < |s| ==> s[i].p <= s[j].p
  }

  /** The subsequence of the points whose key equals `k`, in their order in `s`.
      A sort is stable exactly when it keeps this subsequence for every key. */
  function WithKey(s: seq<Point>, k: real): (r: seq<Point>)
    ensures |r| <= |s|
  {
    if s == [] then []
    else WithKey(s[..|s| - 1], k) + (if s[|s| - 1].p == k then [s[|s| - 1]] else [])
  }

  /** Inserts `x` into an ascending sequence after every point whose key is at most `x.p`. */
  function Insert(s: seq<Point>, x: Point): (r: seq<Point>)
    requires Ascending(s)
    ensures Ascending(r)
    ensures multiset(r) == multiset(s) + multiset{x}
    ensures |r| == |s| + 1
    ensures forall i :: 0 <= i < |r| ==> r[i] == x || r[i] in s
  {
    if s == [] || s[|s| - 1].p <= x.p then
      AppendLargest(s, x);
      s + [x]
    else
      var r' := Insert(s[..|s| - 1], x);
      InsertBeforeLast(s, x, r', r' + [s[|s| - 1]]);
      r' + [s[|s| - 1]]
  }

  /** The step of `Insert` that keeps the last point of `s` last. */
  lemma InsertBeforeLast(s: seq<Point>, x: Point, r': seq<Point>, r: seq<Point>)
    requires Ascending(s) && s != [] && x.p < s[|s| - 1].p
    requires Ascending(r')
    requires multiset(r') == multiset(s[..|s| - 1]) + multiset{x}
    requires |r'| == |s|
    requires forall i :: 0 <= i < |r'| ==> r'[i] == x || r'[i] in s[..|s| - 1]
    requires r == r' + [s[|s| - 1]]
    ensures Ascending(r)
    ensures multiset(r) == multiset(s) + multiset{x}
    ensures |r| == |s| + 1
    ensures forall i :: 0 <= i < |r| ==> r[i] == x || r[i] in s
  {
    var init, last := s[..|s| - 1], s[|s| - 1];
    assert s == init + [last];
    forall i | 0 <= i < |r'|
      ensures r'[i].p <= last.p
    {
      if r'[i] != x {
        var j :| 0 <= j < |init| && init[j] == r'[i];
        assert s[j] == init[j];
      }
    }
    AppendLargest(r', last);
  }

  /** Appending a point whose key is at least every other key keeps the order. */
  lemma AppendLargest(s: seq<Point>, x: Point)
    requires Ascending(s)
    requires forall i :: 0 <= i < |s| ==> s[i].p <= x.p
    ensures Ascending(s + [x])
  {
  }

  /** Insertion of the elements of `s` one after the other, so that equal keys stay
      in input order. */
  function StableSort(s: seq<Point>): (r: seq<Point>)
    ensures Ascending(r)
    ensures multiset(r) == multiset(s)
    ensures |r| == |s|
  {
    if s == [] then []
    else
      assert s == s[..|s| - 1] + [s[|s| - 1]];
      Insert(StableSort(s[..|s| - 1]), s[|s| - 1])
  }

  lemma {:induction false} WithKeyAppend(s: seq<Point>, y: Point, k: real)
    ensures WithKey(s + [y], k) == WithKey(s, k) + (if y.p == k then [y] else [])
  {
    assert (s + [y])[..|s + [y]| - 1] == s;
  }

  /** Inserting `x` appends it to the points of its own key and leaves the others alone. */
  lemma {:induction false} InsertKeepsKeyOrder(s: seq<Point>, x: Point, k: real)
    requires Ascending(s)
    ensures WithKey(Insert(s, x), k) == WithKey(s, k) + (if x.p == k then [x] else [])
  {
    if s == [] || s[|s| - 1].p <= x.p {
      WithKeyAppend(s, x, k);
    } else {
      var init, last := s[..|s| - 1], s[|s| - 1];
      assert s == init + [last];
      assert Ascending(init);
      var r' := Insert(init, x);
      assert Insert(s, x) == r' + [last];
      InsertKeepsKeyOrder(init, x, k);
      WithKeyAppend(r', last, k);
      WithKeyAppend(init, last, k);
      if x.p == k {
        assert last.p != k;
        assert WithKey(Insert(s, x), k) == WithKey(init, k) + [x];
      } else {
        assert WithKey(r', k) == WithKey(init, k);
      }
    }
  }

  /** Stability: for every key, the points with that key appear in the sorted
      sequence in the same order as in the input. */
  lemma {:induction false} StableSortIsStable(s: seq<Point>, k: real)
    ensures WithKey(StableSort(s), k) == WithKey(s, k)
  {
    if s != [] {
      var init, last := s[..|s| - 1], s[|s| - 1];
      assert s == init + [last];
      StableSortIsStable(init, k);
      InsertKeepsKeyOrder(StableSort(init), last, k);
      WithKeyAppend(init, last, k);
    }
  }

  /** The number of points labelled `z`. */
  function Count(s: seq<Point>, z: int): (c: nat)
    ensures c <= |s|
  {
    if s == [] then 0
    else Count(s[..|s| - 1], z) + (if s[|s| - 1].cls == z then 1 else 0)
  }

  lemma {:induction false} CountAppend(s: seq<Point>, y: Point, z: int)
    ensures Count(s + [y], z) == Count(s, z) + (if y.cls == z then 1 else 0)
  {
    assert (s + [y])[..|s + [y]| - 1] == s;
  }

  lemma {:induction false} CountInsert(s: seq<Point>, x: Point, z: int)
    requires Ascending(s)
    ensures Count(Insert(s, x), z) == Count(s, z) + (if x.cls == z then 1 else 0)
  {
    if s == [] || s[|s| - 1].p <= x.p {
      CountAppend(s, x, z);
    } else {
      var init, last := s[..|s| - 1], s[|s| - 1];
      assert s == init + [last];
      assert Ascending(init);
      CountInsert(init, x, z);
      CountAppend(Insert(init, x), last, z);
      CountAppend(init, last, z);
    }
  }

  /** Sorting does not change how many points carry a label. */
  lemma {:induction false} CountStableSort(s: seq<Point>, z: int)
    ensures Count(StableSort(s), z) == Count(s, z)
  {
    if s != [] {
      var init, last := s[..|s| - 1], s[|s| - 1];
      assert s == init + [last];
      CountStableSort(init, z);
      CountInsert(StableSort(init), last, z);
      CountAppend(init, last, z);
    }
  }

  /** Sum of the 1-based positions of the points labelled `z`. */
  function RankSum(s: seq<Point>, z: int): nat {
    if s == [] then 0
    else RankSum(s[..|s| - 1], z) + (if s[|s| - 1].cls == z then |s| else 0)
  }

  /** Number of pairs i < j where `s[i]` is not labelled `z` and `s[j]` is: the
      pairs in which the other class is ranked below class `z`. */
  function PairsBelow(s: seq<Point>, z: int): nat {
    if s == [] then 0
    else
      var init := s[..|s| - 1];
      PairsBelow(init, z) + (if s[|s| - 1].cls == z then |init| - Count(init, z) else 0)
  }

  /** The rank-sum identity behind the Mann-Whitney statistic. */
  lemma {:induction false} RankSumIsPairCount(s: seq<Point>, z: int)
    ensures 2 * RankSum(s, z) == Count(s, z) * (Count(s, z) + 1) + 2 * PairsBelow(s, z)
  {
    if s != [] {
      var init := s[..|s| - 1];
      RankSumIsPairCount(init, z);
      if s[|s| - 1].cls == z {
        RankStep(RankSum(init, z), Count(init, z), PairsBelow(init, z), |init|);
      }
    }
  }

  lemma RankStep(rankSum: int, c: int, pairs: int, n: int)
    requires 2 * rankSum == c * (c + 1) + 2 * pairs
    ensures 2 * (rankSum + n + 1) == (c + 1) * (c + 1 + 1) + 2 * (pairs + (n - c))
  {
  }

  /** There are at most `c * (|s| - c)` such pairs, `c` points labelled `z`. */
  lemma {:induction false} PairsBelowBound(s: seq<Point>, z: int)
    ensures PairsBelow(s, z) <= Count(s, z) * (|s| - Count(s, z))
  {
    if s != [] {
      var init := s[..|s| - 1];
      PairsBelowBound(init, z);
      if s[|s| - 1].cls == z {
        PairStep(PairsBelow(init, z), Count(init, z), |init|);
      } else {
        PairStepOther(PairsBelow(init, z), Count(init, z), |init|);
      }
    }
  }

  lemma PairStep(pairs: int, c: nat, n: int)
    requires pairs <= c * (n - c)
    ensures pairs + (n - c) <= (c + 1) * (n + 1 - (c + 1))
  {
  }

  lemma PairStepOther(pairs: int, c: nat, n: int)
    requires pairs <= c * (n - c)
    ensures pairs <= c * (n + 1 - c)
  {
  }

  /** In a sequence where every point is labelled `z` or `o`, the points not labelled
      `z` are at most those labelled `o`. */
  lemma {:induction false} OthersAreOnes(s: seq<Point>, z: int, o: int)
    requires forall i :: 0 <= i < |s| ==> s[i].cls == z || s[i].cls == o
    ensures |s| - Count(s, z) <= Count(s, o)
  {
    if s != [] {
      OthersAreOnes(s[..|s| - 1], z, o);
    }
  }
}
