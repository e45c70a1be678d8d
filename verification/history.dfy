/** A subject's visit history as the two prediction strategies see it, ordered by
    exam date, and the selection of the most recent value of each field. */
module History {
  import opened Wrappers

  /** One visit: the exam date as a day number and the fields the forecasts read,
      each possibly missing. */
  datatype Visit = Visit(
    examDate: int,
    age: Option<real>,
    clinStat: Option<string>,
    adas13: Option<real>,
    ventriclesICV: Option<real>)

  /** `ordered` holds the visits of `history` in ascending exam date. The sort is not
      stable, so visits on the same date may come in any order. */
  predicate IsDateOrdering(history: seq<Visit>, ordered: seq<Visit>) {
    multiset(ordered) == multiset(history) &&
    forall i, j :: 0 <= i < j < |ordered| ==> ordered[i].examDate <= ordered[j].examDate
  }

  ghost predicate AscendingDates(s: seq<Visit>) {
    forall i, j :: 0 <= i < j < |s| ==> s[i].examDate <= s[j].examDate
  }

  /** Inserts `v` into a date-ordered sequence. */
  function InsertByDate(s: seq<Visit>, v: Visit): (r: seq<Visit>)
    requires AscendingDates(s)
    ensures AscendingDates(r)
    ensures multiset(r) == multiset(s) + multiset{v}
    ensures forall i :: 0 <= i < |r| ==> r[i] == v || r[i] in s
  {
    if s == [] || s[|s| - 1].examDate <= v.examDate then
      AppendLatest(s, v);
      s + [v]
    else
      var r' := InsertByDate(s[..|s| - 1], v);
      InsertBeforeLast(s, v, r', r' + [s[|s| - 1]]);
      r' + [s[|s| - 1]]
  }

  /** The step of `InsertByDate` that keeps the last visit of `s` last. */
  lemma InsertBeforeLast(s: seq<Visit>, v: Visit, r': seq<Visit>, r: seq<Visit>)
    requires AscendingDates(s) && s != [] && v.examDate < s[|s| - 1].examDate
    requires AscendingDates(r')
    requires multiset(r') == multiset(s[..|s| - 1]) + multiset{v}
    requires forall i :: 0 <= i < |r'| ==> r'[i] == v || r'[i] in s[..|s| - 1]
    requires r == r' + [s[|s| - 1]]
    ensures AscendingDates(r)
    ensures multiset(r) == multiset(s) + multiset{v}
    ensures forall i :: 0 <= i < |r| ==> r[i] == v || r[i] in s
  {
    var init, last := s[..|s| - 1], s[|s| - 1];
    assert s == init + [last];
    forall i | 0 <= i < |r'|
      ensures r'[i].examDate <= last.examDate
    {
      if r'[i] != v {
        var j :| 0 <= j < |init| && init[j] == r'[i];
        assert s[j] == init[j];
      }
    }
    AppendLatest(r', last);
  }

  /** Appending a visit no earlier than the others keeps the dates ascending. */
  lemma AppendLatest(s: seq<Visit>, v: Visit)
    requires AscendingDates(s)
    requires forall i :: 0 <= i < |s| ==> s[i].examDate <= v.examDate
    ensures AscendingDates(s + [v])
  {
  }

  /** One date ordering of a history, which shows that there always is one. */
  function SortByDate(history: seq<Visit>): (r: seq<Visit>)
    ensures IsDateOrdering(history, r)
  {
    if history == [] then []
    else
      assert history == history[..|history| - 1] + [history[|history| - 1]];
      InsertByDate(SortByDate(history[..|history| - 1]), history[|history| - 1])
  }

  /** The value of field `get` at the last visit of `ordered` that has one: pandas'
      `dropna().tail(1)`, empty when no visit has the field. */
  function MostRecent<T>(ordered: seq<Visit>, get: Visit -> Option<T>): (r: Option<T>)
    ensures r.None? <==> forall i :: 0 <= i < |ordered| ==> get(ordered[i]).None?
    ensures r.Some? ==> exists i :: 0 <= i < |ordered| && get(ordered[i]) == r &&
                          forall j :: i < j < |ordered| ==> get(ordered[j]).None?
  {
    if ordered == [] then None
    else
      var init, last := ordered[..|ordered| - 1], ordered[|ordered| - 1];
      assert forall i :: 0 <= i < |init| ==> init[i] == ordered[i];
      if get(last).Some? then get(last) else MostRecent(init, get)
  }

  /** Whatever order the sort leaves visits of the same date in, a field has a most
      recent value exactly when some visit of the history has that field. */
  lemma MostRecentExists<T>(history: seq<Visit>, ordered: seq<Visit>, get: Visit -> Option<T>)
    requires IsDateOrdering(history, ordered)
    ensures MostRecent(ordered, get).Some? <==> exists v :: v in history && get(v).Some?
  {
    if MostRecent(ordered, get).Some? {
      var i :| 0 <= i < |ordered| && get(ordered[i]) == MostRecent(ordered, get);
      assert ordered[i] in multiset(history);
    }
    forall v | v in history && get(v).Some?
      ensures MostRecent(ordered, get).Some?
    {
      assert v in multiset(ordered);
      var i :| 0 <= i < |ordered| && ordered[i] == v;
    }
  }

  /** The most recent value of a field comes from a visit of the history that has the
      field and whose exam date is the latest among the visits that have it. */
  lemma MostRecentIsLatest<T>(history: seq<Visit>, ordered: seq<Visit>, get: Visit -> Option<T>)
    requires IsDateOrdering(history, ordered)
    requires MostRecent(ordered, get).Some?
    ensures exists v :: v in history && get(v) == MostRecent(ordered, get) &&
                        forall w :: w in history && get(w).Some? ==> w.examDate <= v.examDate
  {
    var r := MostRecent(ordered, get);
    var i :| 0 <= i < |ordered| && get(ordered[i]) == r && forall j :: i < j < |ordered| ==> get(ordered[j]).None?;
    var v := ordered[i];
    assert v in multiset(history);
    forall w | w in history && get(w).Some?
      ensures w.examDate <= v.examDate
    {
      assert w in multiset(ordered);
      var j :| 0 <= j < |ordered| && ordered[j] == w;
    }
  }

  /** No two different visits of the history share an exam date (a visit may be
      recorded twice). */
  ghost predicate DistinctDates(history: seq<Visit>) {
    forall v, w :: v in history && w in history && v.examDate == w.examDate ==> v == w
  }

  /** Two date orderings of the same visits end with the same visit, the one with the
      latest date. */
  lemma LastEqual(o1: seq<Visit>, o2: seq<Visit>)
    requires multiset(o1) == multiset(o2) && o1 != [] && |o1| == |o2|
    requires AscendingDates(o1) && AscendingDates(o2)
    requires DistinctDates(o1)
    ensures o1[|o1| - 1] == o2[|o2| - 1]
  {
    var n := |o1|;
    var x1, x2 := o1[n - 1], o2[n - 1];
    assert x2 in multiset(o1) && x1 in multiset(o2);
    var i :| 0 <= i < n && o1[i] == x2;
    var j :| 0 <= j < n && o2[j] == x1;
  }

  lemma DropLast(o: seq<Visit>)
    requires o != []
    ensures multiset(o[..|o| - 1]) == multiset(o) - multiset{o[|o| - 1]}
    ensures AscendingDates(o) ==> AscendingDates(o[..|o| - 1])
    ensures DistinctDates(o) ==> DistinctDates(o[..|o| - 1])
  {
    assert o == o[..|o| - 1] + [o[|o| - 1]];
    forall v | v in o[..|o| - 1]
      ensures v in o
    {
    }
  }

  lemma {:induction false} AscendingUnique(o1: seq<Visit>, o2: seq<Visit>)
    requires multiset(o1) == multiset(o2)
    requires AscendingDates(o1) && AscendingDates(o2)
    requires DistinctDates(o1)
    ensures o1 == o2
  {
    SameSize(o1, o2);
    if o1 != [] {
      var n := |o1|;
      LastEqual(o1, o2);
      DropLast(o1);
      DropLast(o2);
      AscendingUnique(o1[..n - 1], o2[..n - 1]);
      SameByParts(o1, o2);
    }
  }

  lemma SameSize(o1: seq<Visit>, o2: seq<Visit>)
    requires multiset(o1) == multiset(o2)
    ensures |o1| == |o2|
  {
    assert |o1| == |multiset(o1)|;
    assert |o2| == |multiset(o2)|;
  }

  lemma SameByParts(o1: seq<Visit>, o2: seq<Visit>)
    requires o1 != [] && |o1| == |o2|
    requires o1[..|o1| - 1] == o2[..|o2| - 1] && o1[|o1| - 1] == o2[|o2| - 1]
    ensures o1 == o2
  {
    assert o1 == o1[..|o1| - 1] + [o1[|o1| - 1]];
    assert o2 == o2[..|o2| - 1] + [o2[|o2| - 1]];
  }

  /** When no two different visits share an exam date, the unstable sort has nothing to
      choose: there is exactly one date ordering of the history. */
  lemma DateOrderingUnique(history: seq<Visit>, o1: seq<Visit>, o2: seq<Visit>)
    requires IsDateOrdering(history, o1) && IsDateOrdering(history, o2)
    requires DistinctDates(history)
    ensures o1 == o2
  {
    forall v, w | v in o1 && w in o1 && v.examDate == w.examDate
      ensures v == w
    {
      assert v in multiset(history) && w in multiset(history);
    }
    AscendingUnique(o1, o2);
  }
}
