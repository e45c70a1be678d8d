/** The fields derived while loading the leaderboard table: the clinical status from the
    diagnosis text, the ventricle volume relative to the intracranial volume, the age at
    each exam and the exam month. Exam dates are day numbers counted from 1 January 2000. */
module Loading {
  import opened Wrappers
  import opened History

  /** `str.split(' ')`: the pieces between single space characters, empty pieces kept. */
  function Split(s: string): (r: seq<string>)
    ensures |r| >= 1
    ensures forall i :: 0 <= i < |r| ==> ' ' !in r[i]
    ensures |r| == 1 <==> ' ' !in s
    ensures |r| == 1 ==> r[0] == s
    ensures |r| > 1 ==> exists k :: 1 <= k <= |s| && s[k - 1] == ' ' && s[k..] == r[|r| - 1]
  {
    if s == [] then [""]
    else
      var rest := Split(s[1..]);
      if s[0] == ' ' then
        SplitAtSpace(s, rest);
        [""] + rest
      else
        SplitAtOther(s, rest);
        [[s[0]] + rest[0]] + rest[1..]
  }

  /** What `Split` promises of the pieces `r` of `s`. */
  ghost predicate SplitProperties(s: string, r: seq<string>) {
    |r| >= 1 &&
    (forall i :: 0 <= i < |r| ==> ' ' !in r[i]) &&
    (|r| == 1 <==> ' ' !in s) &&
    (|r| == 1 ==> r[0] == s) &&
    (|r| > 1 ==> exists k :: 1 <= k <= |s| && s[k - 1] == ' ' && s[k..] == r[|r| - 1])
  }

  /** A leading space starts a new, empty first piece. */
  lemma SplitAtSpace(s: string, rest: seq<string>)
    requires s != [] && s[0] == ' ' && SplitProperties(s[1..], rest)
    ensures SplitProperties(s, [""] + rest)
  {
    var r := [""] + rest;
    assert forall i :: 1 <= i < |r| ==> r[i] == rest[i - 1];
    if |rest| == 1 {
      assert s[1..] == r[|r| - 1];
    } else {
      var k' :| 1 <= k' <= |s[1..]| && s[1..][k' - 1] == ' ' && s[1..][k'..] == rest[|rest| - 1];
      assert s[k' + 1..] == s[1..][k'..];
    }
  }

  /** Any other leading character joins the first piece. */
  lemma SplitAtOther(s: string, rest: seq<string>)
    requires s != [] && s[0] != ' ' && SplitProperties(s[1..], rest)
    ensures SplitProperties(s, [[s[0]] + rest[0]] + rest[1..])
  {
    var r := [[s[0]] + rest[0]] + rest[1..];
    assert forall i :: 1 <= i < |r| ==> r[i] == rest[i];
    assert s == [s[0]] + s[1..];
    if |rest| > 1 {
      var k' :| 1 <= k' <= |s[1..]| && s[1..][k' - 1] == ' ' && s[1..][k'..] == rest[|rest| - 1];
      assert s[k' + 1..] == s[1..][k'..] && s[k'] == ' ';
    }
  }

  /** `last_diagnosis`: the text after the last space of the diagnosis, or the whole
      text when it has no space; a missing diagnosis gives a missing status. */
  function LastDiagnosis(dx: Option<string>): (r: Option<string>)
    ensures r.None? <==> dx.None?
    ensures r.Some? ==> ' ' !in r.value
    ensures dx.Some? && ' ' !in dx.value ==> r == dx
    ensures dx.Some? && ' ' in dx.value ==>
              exists k :: 1 <= k <= |dx.value| && dx.value[k - 1] == ' ' && dx.value[k..] == r.value
  {
    match dx
    case None => None
    case Some(s) =>
      var pieces := Split(s);
      Some(pieces[|pieces| - 1])
  }

  /** The status is exactly the text after the last space: whatever follows a space
      and holds no space itself. */
  lemma {:induction false} LastDiagnosisAfterLastSpace(s: string, k: nat)
    requires 1 <= k <= |s| && s[k - 1] == ' ' && ' ' !in s[k..]
    ensures LastDiagnosis(Some(s)) == Some(s[k..])
  {
    var t := LastDiagnosis(Some(s)).value;
    var k2 :| 1 <= k2 <= |s| && s[k2 - 1] == ' ' && s[k2..] == t;
    if k2 != k {
      assert false;
    }
  }

  /** The status of a diagnosis that records a conversion is the diagnosis converted to. */
  lemma ConversionGivesLatestDiagnosis()
    ensures LastDiagnosis(Some("MCI to Dementia")) == Some("Dementia")
  {
    var s := "MCI to Dementia";
    assert s[7..] == "Dementia";
    assert ' ' !in s[7..];
    LastDiagnosisAfterLastSpace(s, 7);
  }

  /** The split is on the single space character, so a run of spaces leaves empty
      pieces between them but the status is still the last word. */
  lemma DoubleSpaceGivesLatestDiagnosis()
    ensures LastDiagnosis(Some("MCI  to Dementia")) == Some("Dementia")
  {
    var s := "MCI  to Dementia";
    assert s[8..] == "Dementia";
    assert ' ' !in s[8..];
    LastDiagnosisAfterLastSpace(s, 8);
  }

  /** A diagnosis ending in a space has the empty status. */
  lemma TrailingSpaceGivesEmpty(s: string)
    requires s != [] && s[|s| - 1] == ' '
    ensures LastDiagnosis(Some(s)) == Some("")
  {
    assert s[|s|..] == "";
    LastDiagnosisAfterLastSpace(s, |s|);
  }

  /** `Ventricles / ICV_bl`: missing when either volume is missing or the intracranial
      volume is zero; otherwise the fraction that, times the intracranial volume, gives
      the ventricle volume. */
  function VentriclesICV(ventricles: Option<real>, icv: Option<real>): (r: Option<real>)
    ensures r.Some? <==> ventricles.Some? && icv.Some? && icv.value != 0.0
    ensures r.Some? ==> r.value * icv.value == ventricles.value
    ensures r.Some? && 0.0 <= ventricles.value <= icv.value ==> 0.0 <= r.value <= 1.0
  {
    if ventricles.Some? && icv.Some? && icv.value != 0.0 then Some(ventricles.value / icv.value)
    else None
  }

  /** The earliest of a subject's exam days. */
  function FirstDay(days: seq<int>): (m: int)
    requires |days| > 0
    ensures m in days
    ensures forall i :: 0 <= i < |days| ==> m <= days[i]
  {
    if |days| == 1 then days[0]
    else
      var m := FirstDay(days[1..]);
      assert forall i :: 1 <= i < |days| ==> days[i] == days[1..][i - 1];
      if days[0] <= m then days[0] else m
  }

  /** `Series.min()` over the recorded ages, which skips missing values; missing when
      no age is recorded. */
  function MinAge(ages: seq<Option<real>>): (m: Option<real>)
    ensures m.None? <==> forall i :: 0 <= i < |ages| ==> ages[i].None?
    ensures m.Some? ==> Some(m.value) in ages
    ensures m.Some? ==> forall i :: 0 <= i < |ages| && ages[i].Some? ==> m.value <= ages[i].value
  {
    if ages == [] then None
    else
      var m := MinAge(ages[1..]);
      assert forall i :: 1 <= i < |ages| ==> ages[i] == ages[1..][i - 1];
      match ages[0]
      case None => m
      case Some(a) => if m.None? || a <= m.value then Some(a) else m
  }

  /** `add_age` for one subject: the age at each exam is the subject's smallest recorded
      age plus the years, of 365.25 days, since the subject's first exam. */
  function AgeAtExam(days: seq<int>, ages: seq<Option<real>>): (r: seq<Option<real>>)
    requires |days| == |ages|
    ensures |r| == |days|
    ensures forall i :: 0 <= i < |r| ==> (r[i].Some? <==> MinAge(ages).Some?)
    ensures forall i :: 0 <= i < |r| && r[i].Some? && days[i] == FirstDay(days) ==>
              r[i] == MinAge(ages)
    ensures forall i, j :: 0 <= i < |r| && 0 <= j < |r| && r[i].Some? ==>
              r[j].value - r[i].value == (days[j] - days[i]) as real / 365.25
  {
    if days == [] then []
    else
      var first := FirstDay(days);
      match MinAge(ages)
      case None => seq(|days|, i => None)
      case Some(a) => seq(|days|, i requires 0 <= i < |days| => Some((days[i] - first) as real / 365.25 + a))
  }

  /** Within a subject, a later exam never has a smaller age. */
  lemma AgeFollowsExamDate(days: seq<int>, ages: seq<Option<real>>, i: nat, j: nat)
    requires |days| == |ages| && i < |days| && j < |days|
    requires days[i] <= days[j] && MinAge(ages).Some?
    ensures AgeAtExam(days, ages)[i].value <= AgeAtExam(days, ages)[j].value
  {
    var r := AgeAtExam(days, ages);
    assert r[j].value - r[i].value == (days[j] - days[i]) as real / 365.25;
  }

  /** `astype(int)` of an age: truncation toward zero. */
  function AgeInt(x: real): (r: int)
    ensures x >= 0.0 ==> 0 <= r && r as real <= x < r as real + 1.0
    ensures x < 0.0 ==> r <= 0 && r as real - 1.0 < x <= r as real
  {
    if x >= 0.0 then x.Floor else -((-x).Floor)
  }

  /** `ExamMonth`: months since 1 January 2000, taking a year as 365 days of which each
      twelfth is a month. */
  function ExamMonth(day: int): (m: real)
    ensures day == 0 ==> m == 0.0
    ensures day >= 0 <==> m >= 0.0
  {
    day as real / 365.0 * 12.0
  }

  /** 365 days later is 12 months later, and later days give later months. */
  lemma ExamMonthShift(day: int, days: nat)
    ensures ExamMonth(day + days) == ExamMonth(day) + days as real * 12.0 / 365.0
    ensures days == 365 ==> ExamMonth(day + days) == ExamMonth(day) + 12.0
    ensures days > 0 ==> ExamMonth(day + days) > ExamMonth(day)
  {
  }

  /** One row of a subject's part of the leaderboard table, before derivation. */
  datatype Exam = Exam(examDay: int, age: Option<real>, dx: Option<string>, adas13: Option<real>,
                       ventricles: Option<real>, icv: Option<real>)

  function ExamDays(exams: seq<Exam>): (r: seq<int>)
    ensures |r| == |exams| && forall i :: 0 <= i < |r| ==> r[i] == exams[i].examDay
  {
    seq(|exams|, i requires 0 <= i < |exams| => exams[i].examDay)
  }

  function BaselineAges(exams: seq<Exam>): (r: seq<Option<real>>)
    ensures |r| == |exams| && forall i :: 0 <= i < |r| ==> r[i] == exams[i].age
  {
    seq(|exams|, i requires 0 <= i < |exams| => exams[i].age)
  }

  /** One subject's visits with the derived fields the strategies read. */
  function SubjectVisits(exams: seq<Exam>): (r: seq<Visit>)
    ensures |r| == |exams|
    ensures forall i :: 0 <= i < |r| ==>
              r[i].examDate == exams[i].examDay &&
              r[i].clinStat == LastDiagnosis(exams[i].dx) &&
              r[i].adas13 == exams[i].adas13 &&
              r[i].ventriclesICV == VentriclesICV(exams[i].ventricles, exams[i].icv)
    ensures forall i :: 0 <= i < |r| ==> r[i].age == AgeAtExam(ExamDays(exams), BaselineAges(exams))[i]
    ensures forall i, j :: (0 <= i < |r| && 0 <= j < |r| && r[i].examDate <= r[j].examDate &&
              r[i].age.Some?) ==> r[j].age.Some? && r[i].age.value <= r[j].age.value
  {
    var ages := AgeAtExam(ExamDays(exams), BaselineAges(exams));
    seq(|exams|, i requires 0 <= i < |exams| =>
      Visit(exams[i].examDay, ages[i], LastDiagnosis(exams[i].dx), exams[i].adas13,
            VentriclesICV(exams[i].ventricles, exams[i].icv)))
  }
}
