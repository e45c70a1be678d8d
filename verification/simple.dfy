/** The carry-forward strategy: every forecast month repeats the subject's most recent
    clinical status, ADAS13 score and Ventricles_ICV ratio. */
module SimpleModel {
  import opened Wrappers
  import opened Submission
  import opened History
  import opened Forecasts

  /** The ADAS13 band: one point either side of the score, never below 0. */
  function AdasInterval(a: real): (r: Interval)
    ensures r.upper == a + 1.0 && r.lower >= 0.0
    ensures a >= 0.0 ==> r.lower <= a <= r.upper
    ensures a >= 1.0 ==> a - r.lower == r.upper - a == 1.0
  {
    Interval(Max(0.0, a - 1.0), a + 1.0)
  }

  /** The three ADAS13 columns of a table of `rows` rows, every row alike. */
  function AdasColumns(rows: nat, a: real): (m: map<ValueColumn, seq<Option<real>>>)
    ensures m.Keys == {ADAS13, ADAS13Lower, ADAS13Upper}
    ensures forall c :: c in m ==> |m[c]| == rows
    ensures forall k :: 0 <= k < rows ==>
              m[ADAS13][k] == Some(a) && m[ADAS13Lower][k] == Some(AdasInterval(a).lower) &&
              m[ADAS13Upper][k] == Some(AdasInterval(a).upper)
  {
    map[ADAS13 := Constant(rows, a),
        ADAS13Lower := Constant(rows, AdasInterval(a).lower),
        ADAS13Upper := Constant(rows, AdasInterval(a).upper)]
  }

  /** What the strategy writes into a table of `rows` rows, given the visits in date
      order: the stages run in turn and the first missing field stops the run. */
  function CarryForward(rows: nat, ordered: seq<Visit>): (p: Prediction)
    ensures p.columns.Keys <= AllValueColumns
    ensures forall c :: c in p.columns ==> |p.columns[c]| == rows
  {
    match MostRecent(ordered, ClinStat)
    case None => Prediction(MissingValue(ClinStatField), map[])
    case Some(status) =>
      var probabilities := StatusColumns(rows, status);
      match MostRecent(ordered, Adas13)
      case None => Prediction(MissingValue(Adas13Field), probabilities)
      case Some(a) =>
        var adas := probabilities + AdasColumns(rows, a);
        match MostRecent(ordered, VentriclesRatio)
        case None => Prediction(MissingValue(VentriclesField), adas)
        case Some(v) => Prediction(Filled, FilledColumns(rows, status, a, v))
  }

  /** The nine columns of a table filled from a clinical status, an ADAS13 score and a
      Ventricles_ICV ratio. */
  function FilledColumns(rows: nat, status: string, a: real, v: real): (m: map<ValueColumn, seq<Option<real>>>)
    ensures m.Keys == AllValueColumns
  {
    StatusColumns(rows, status) + AdasColumns(rows, a) + VentriclesColumns(Constant(rows, v))
  }

  /** Writes the ADAS13 estimate and its band for the most recent score `a`. */
  method FillAdas(table: ForecastTable, a: real)
    requires table.Valid()
    modifies table
    ensures table.Valid()
    ensures table.rid == old(table.rid) && table.forecastMonth == old(table.forecastMonth)
    ensures table.forecastDate == old(table.forecastDate)
    ensures table.values == old(table.values) + AdasColumns(|table.rid|, a)
  {
    table.Fill(ADAS13, a);
    table.Fill(ADAS13Lower, Max(0.0, a - 1.0));
    table.Fill(ADAS13Upper, a + 1.0);
  }

  /** Writes the Ventricles_ICV estimate and its band for the most recent ratio `v`. */
  method FillVentricles(table: ForecastTable, v: real)
    requires table.Valid()
    modifies table
    ensures table.Valid()
    ensures table.rid == old(table.rid) && table.forecastMonth == old(table.forecastMonth)
    ensures table.forecastDate == old(table.forecastDate)
    ensures table.values == old(table.values) + VentriclesColumns(Constant(|table.rid|, v))
  {
    var rows := |table.rid|;
    table.Fill(VentriclesICV, v);
    table.Fill(VentriclesICVLower, Max(0.0, v - 0.01 * v));
    table.Fill(VentriclesICVUpper, Min(1.0, v + 0.01 * v));
    var vent := VentriclesColumns(Constant(rows, v));
    assert vent[VentriclesICVLower] == Constant(rows, Max(0.0, v - 0.01 * v));
    assert vent[VentriclesICVUpper] == Constant(rows, Min(1.0, v + 0.01 * v));
  }

  /** `create_prediction`: sorts the history by exam date and overwrites the forecast
      columns of `table` stage by stage, stopping at the first field the history lacks. */
  method CreatePrediction(history: seq<Visit>, table: ForecastTable) returns (ordered: seq<Visit>, outcome: Outcome)
    requires table.Valid()
    modifies table
    ensures table.Valid()
    ensures table.rid == old(table.rid) && table.forecastMonth == old(table.forecastMonth)
    ensures table.forecastDate == old(table.forecastDate)
    ensures IsDateOrdering(history, ordered)
    ensures outcome == CarryForward(|table.rid|, ordered).outcome
    ensures table.values == old(table.values) + CarryForward(|table.rid|, ordered).columns
  {
    assert IsDateOrdering(history, SortByDate(history));
    ordered :| IsDateOrdering(history, ordered);
    var rows := |table.rid|;
    ghost var before := table.values;

    var status := MostRecent(ordered, ClinStat);
    if status.None? {
      assert before + map[] == before;
      return ordered, MissingValue(ClinStatField);
    }
    FillStatus(table, status.value);
    ghost var probabilities := StatusColumns(rows, status.value);

    var adas := MostRecent(ordered, Adas13);
    if adas.None? {
      return ordered, MissingValue(Adas13Field);
    }
    FillAdas(table, adas.value);
    ghost var adasColumns := probabilities + AdasColumns(rows, adas.value);
    UnionAssociates(before, probabilities, AdasColumns(rows, adas.value));

    var ventricles := MostRecent(ordered, VentriclesRatio);
    if ventricles.None? {
      return ordered, MissingValue(VentriclesField);
    }
    FillVentricles(table, ventricles.value);
    UnionAssociates(before, adasColumns, VentriclesColumns(Constant(rows, ventricles.value)));
    outcome := Filled;
  }

  /** The run fills the whole table exactly when the history has a clinical status, an
      ADAS13 score and a Ventricles_ICV ratio, and otherwise stops at the first of these
      (in that order) that no visit has. */
  lemma CarryForwardOutcome(history: seq<Visit>, ordered: seq<Visit>, rows: nat)
    requires IsDateOrdering(history, ordered)
    ensures var o := CarryForward(rows, ordered).outcome;
      (o == Filled <==>
         HasField(history, ClinStat) && HasField(history, Adas13) && HasField(history, VentriclesRatio)) &&
      (o == MissingValue(ClinStatField) <==> !HasField(history, ClinStat)) &&
      (o == MissingValue(Adas13Field) <==> HasField(history, ClinStat) && !HasField(history, Adas13)) &&
      (o == MissingValue(VentriclesField) <==>
         HasField(history, ClinStat) && HasField(history, Adas13) && !HasField(history, VentriclesRatio))
  {
    MostRecentExists(history, ordered, ClinStat);
    MostRecentExists(history, ordered, Adas13);
    MostRecentExists(history, ordered, VentriclesRatio);
  }

  /** The columns a run writes: the stages before the failing one, all nine when it
      fills the table. */
  lemma CarryForwardColumns(rows: nat, ordered: seq<Visit>)
    ensures var p := CarryForward(rows, ordered);
      (p.outcome == Filled ==>
         (p.columns.Keys == AllValueColumns &&
          MostRecent(ordered, ClinStat).Some? && MostRecent(ordered, Adas13).Some? &&
          MostRecent(ordered, VentriclesRatio).Some? &&
          p.columns == FilledColumns(rows, MostRecent(ordered, ClinStat).value,
                                     MostRecent(ordered, Adas13).value, MostRecent(ordered, VentriclesRatio).value))) &&
      (p.outcome == MissingValue(ClinStatField) ==> p.columns == map[]) &&
      (p.outcome == MissingValue(Adas13Field) ==>
         p.columns.Keys == {CNProbability, MCIProbability, ADProbability} &&
         MostRecent(ordered, ClinStat).Some? &&
         p.columns == StatusColumns(rows, MostRecent(ordered, ClinStat).value)) &&
      (p.outcome == MissingValue(VentriclesField) ==>
         p.columns.Keys == {CNProbability, MCIProbability, ADProbability, ADAS13, ADAS13Lower, ADAS13Upper} &&
         MostRecent(ordered, ClinStat).Some? && MostRecent(ordered, Adas13).Some? &&
         p.columns == StatusColumns(rows, MostRecent(ordered, ClinStat).value) +
                      AdasColumns(rows, MostRecent(ordered, Adas13).value)) &&
      p.outcome.FitFailed? == false
  {
  }

  /** Every forecast month of a filled table carries the same forecast. */
  lemma FilledUniform(rows: nat, status: string, a: real, v: real, k: nat)
    requires k < rows
    ensures var m := FilledColumns(rows, status, a, v);
      forall c :: c in m ==> m[c][k].Some? && m[c][k] == m[c][0]
  {
    var m: map<ValueColumn, seq<Option<real>>> := FilledColumns(rows, status, a, v);
    var sc, ac, vc := StatusColumns(rows, status), AdasColumns(rows, a), VentriclesColumns(Constant(rows, v));
    forall c: ValueColumn | c in m
      ensures m[c][k].Some? && m[c][k] == m[c][0]
    {
      if c in vc {
        assert m[c] == vc[c];
      } else if c in ac {
        assert m[c] == ac[c];
      } else {
        assert m[c] == sc[c];
      }
    }
  }

  /** A filled row holds the given values themselves, probabilities that sum to 1, an
      ADAS13 band never below 0 and a Ventricles_ICV band inside [0, 1]; each band holds
      its estimate when the estimate is a valid score or ratio. */
  lemma FilledBands(rows: nat, status: string, a: real, v: real, k: nat)
    requires k < rows
    ensures var m := FilledColumns(rows, status, a, v);
      m[CNProbability][k].value + m[MCIProbability][k].value + m[ADProbability][k].value == 1.0 &&
      m[ADAS13][k] == Some(a) && m[VentriclesICV][k] == Some(v) &&
      m[ADAS13Lower][k].value >= 0.0 &&
      0.0 <= m[VentriclesICVLower][k].value && m[VentriclesICVUpper][k].value <= 1.0 &&
      (a >= 0.0 ==> m[ADAS13Lower][k].value <= a <= m[ADAS13Upper][k].value) &&
      (0.0 <= v <= 1.0 ==> m[VentriclesICVLower][k].value <= v <= m[VentriclesICVUpper][k].value)
  {
    var m: map<ValueColumn, seq<Option<real>>> := FilledColumns(rows, status, a, v);
    var sc, ac, vc := StatusColumns(rows, status), AdasColumns(rows, a), VentriclesColumns(Constant(rows, v));
    assert m[CNProbability] == sc[CNProbability] && m[MCIProbability] == sc[MCIProbability];
    assert m[ADProbability] == sc[ADProbability];
    assert m[ADAS13] == ac[ADAS13] && m[ADAS13Lower] == ac[ADAS13Lower] && m[ADAS13Upper] == ac[ADAS13Upper];
  }

  /** When no two visits share an exam date the order the sort leaves ties in cannot
      matter: every date ordering of the history gives the same forecast. */
  lemma CarryForwardIgnoresTies(history: seq<Visit>, o1: seq<Visit>, o2: seq<Visit>, rows: nat)
    requires IsDateOrdering(history, o1) && IsDateOrdering(history, o2)
    requires DistinctDates(history)
    ensures CarryForward(rows, o1) == CarryForward(rows, o2)
  {
    DateOrderingUnique(history, o1, o2);
  }

  /** Without distinct dates the unstable sort can matter: two complete visits on the
      same day with different ADAS13 scores give different forecasts depending on the
      order the sort leaves them in. */
  lemma TiesCanChangeForecast(v1: Visit, v2: Visit)
    requires v1.examDate == v2.examDate && v1.adas13 != v2.adas13
    requires v1.clinStat.Some? && v1.adas13.Some? && v1.ventriclesICV.Some?
    requires v2.clinStat.Some? && v2.adas13.Some? && v2.ventriclesICV.Some?
    ensures IsDateOrdering([v1, v2], [v1, v2]) && IsDateOrdering([v1, v2], [v2, v1])
    ensures CarryForward(1, [v1, v2]) != CarryForward(1, [v2, v1])
  {
    TieOrderings(v1, v2);
    LastOfTwoWins(v1, v2);
    LastOfTwoWins(v2, v1);
    FilledAdas(1, v2.clinStat.value, v2.adas13.value, v2.ventriclesICV.value);
    FilledAdas(1, v1.clinStat.value, v1.adas13.value, v1.ventriclesICV.value);
    assert CarryForward(1, [v1, v2]).columns[ADAS13][0] != CarryForward(1, [v2, v1]).columns[ADAS13][0];
  }

  /** The first row of a filled table holds the ADAS13 score it was filled from. */
  lemma FilledAdas(rows: nat, status: string, a: real, v: real)
    requires rows > 0
    ensures FilledColumns(rows, status, a, v)[ADAS13][0] == Some(a)
  {
    FilledBands(rows, status, a, v, 0);
  }

  /** Two visits on the same day may be left in either order. */
  lemma TieOrderings(v1: Visit, v2: Visit)
    requires v1.examDate == v2.examDate
    ensures IsDateOrdering([v1, v2], [v1, v2]) && IsDateOrdering([v1, v2], [v2, v1])
  {
    assert multiset([v1, v2]) == multiset([v2, v1]);
  }

  /** Of two visits that both record every field, the later one supplies the forecast. */
  lemma LastOfTwoWins(v1: Visit, v2: Visit)
    requires v2.clinStat.Some? && v2.adas13.Some? && v2.ventriclesICV.Some?
    ensures CarryForward(1, [v1, v2]) ==
      Prediction(Filled, FilledColumns(1, v2.clinStat.value, v2.adas13.value, v2.ventriclesICV.value))
  {
    assert [v1, v2][..1] == [v1];
  }
}
