/** Selection of the subjects to forecast: the leaderboard rows flagged LB2. */
module Validation {
  import opened Wrappers

  /** One row of the leaderboard table: the subject and its LB2 flag, possibly empty. */
  datatype LeaderboardRow = LeaderboardRow(rid: int, lb2: Option<int>)

  predicate StrictlyIncreasing(s: seq<int>) {
    forall i, j :: 0 <= i < j < |s| ==> s[i] < s[j]
  }

  /** The subject IDs of the rows flagged LB2, in table order and with repeats. */
  function Lb2Rids(rows: seq<LeaderboardRow>): (r: seq<int>)
    ensures forall x :: x in r <==> exists i :: 0 <= i < |rows| && rows[i].lb2 == Some(1) && rows[i].rid == x
  {
    if rows == [] then []
    else
      var init, last := rows[..|rows| - 1], rows[|rows| - 1];
      assert forall i :: 0 <= i < |init| ==> init[i] == rows[i];
      Lb2Rids(init) + (if last.lb2 == Some(1) then [last.rid] else [])
  }

  /** Inserts `x` into a strictly increasing sequence unless it is already there. */
  function InsertUnique(s: seq<int>, x: int): (r: seq<int>)
    requires StrictlyIncreasing(s)
    ensures StrictlyIncreasing(r)
    ensures forall y :: y in r <==> y in s || y == x
  {
    if s == [] then [x]
    else if x < s[0] then [x] + s
    else if x == s[0] then s
    else
      var rest := InsertUnique(s[1..], x);
      assert s == [s[0]] + s[1..];
      assert forall y :: y in s[1..] ==> y > s[0] by {
        forall y | y in s[1..]
          ensures y > s[0]
        {
          var j :| 0 <= j < |s[1..]| && s[1..][j] == y;
          assert s[j + 1] == y;
        }
      }
      assert forall i :: 0 <= i < |rest| ==> rest[i] > s[0] by {
        forall i | 0 <= i < |rest|
          ensures rest[i] > s[0]
        {
          assert rest[i] in rest;
        }
      }
      var r := [s[0]] + rest;
      assert forall y :: y in r <==> y == s[0] || y in rest;
      r
  }

  /** `numpy.unique`: the distinct values, ascending. */
  function Unique(xs: seq<int>): (r: seq<int>)
    ensures StrictlyIncreasing(r)
    ensures forall y :: y in r <==> y in xs
  {
    if xs == [] then []
    else
      var init := xs[..|xs| - 1];
      assert xs == init + [xs[|xs| - 1]];
      InsertUnique(Unique(init), xs[|xs| - 1])
  }

  /** `get_test_subjects`: the test subjects are ascending without repeats, and a
      subject is among them exactly when some row of the table flags it with LB2 = 1. */
  function TestSubjects(rows: seq<LeaderboardRow>): (r: seq<int>)
    ensures StrictlyIncreasing(r)
    ensures forall x :: x in r <==>
              exists i :: 0 <= i < |rows| && rows[i].lb2 == Some(1) && rows[i].rid == x
  {
    Unique(Lb2Rids(rows))
  }

  /** A strictly increasing sequence is determined by its elements. */
  lemma {:induction false} IncreasingByElements(s: seq<int>, t: seq<int>)
    requires StrictlyIncreasing(s) && StrictlyIncreasing(t)
    requires forall y :: y in s <==> y in t
    ensures s == t
  {
    if s != [] {
      assert s[0] in s;
    }
    if t != [] {
      assert t[0] in t;
    }
    if s != [] && t != [] {
      HeadsAgree(s, t);
      TailsAgree(s, t);
      IncreasingByElements(s[1..], t[1..]);
      assert s == [s[0]] + s[1..] && t == [t[0]] + t[1..];
    }
  }

  lemma HeadsAgree(s: seq<int>, t: seq<int>)
    requires StrictlyIncreasing(s) && StrictlyIncreasing(t) && s != [] && t != []
    requires forall y :: y in s <==> y in t
    ensures s[0] == t[0]
  {
    assert s[0] in s && t[0] in t;
  }

  lemma TailsAgree(s: seq<int>, t: seq<int>)
    requires StrictlyIncreasing(s) && StrictlyIncreasing(t) && s != [] && t != []
    requires forall y :: y in s <==> y in t
    requires s[0] == t[0]
    ensures StrictlyIncreasing(s[1..]) && StrictlyIncreasing(t[1..])
    ensures forall y :: y in s[1..] <==> y in t[1..]
  {
    forall y
      ensures y in s[1..] <==> y in t[1..]
    {
      if y in s[1..] {
        var i :| 1 <= i < |s| && s[i] == y;
        assert y in s && y != t[0];
        var j :| 0 <= j < |t| && t[j] == y;
        assert t[1..][j - 1] == y;
      }
      if y in t[1..] {
        var i :| 1 <= i < |t| && t[i] == y;
        assert y in t && y != s[0];
        var j :| 0 <= j < |s| && s[j] == y;
        assert s[1..][j - 1] == y;
      }
    }
  }

  /** The selection does not depend on the order of the table's rows, nor on rows that
      are not flagged. */
  lemma TestSubjectsIgnoreOrder(rows1: seq<LeaderboardRow>, rows2: seq<LeaderboardRow>)
    requires multiset(rows1) == multiset(rows2)
    ensures TestSubjects(rows1) == TestSubjects(rows2)
  {
    forall x
      ensures x in TestSubjects(rows1) <==> x in TestSubjects(rows2)
    {
      if x in TestSubjects(rows1) {
        var i :| 0 <= i < |rows1| && rows1[i].lb2 == Some(1) && rows1[i].rid == x;
        assert rows1[i] in multiset(rows2);
        var j :| 0 <= j < |rows2| && rows2[j] == rows1[i];
      }
      if x in TestSubjects(rows2) {
        var i :| 0 <= i < |rows2| && rows2[i].lb2 == Some(1) && rows2[i].rid == x;
        assert rows2[i] in multiset(rows1);
        var j :| 0 <= j < |rows1| && rows1[j] == rows2[i];
      }
    }
    IncreasingByElements(TestSubjects(rows1), TestSubjects(rows2));
  }
}
