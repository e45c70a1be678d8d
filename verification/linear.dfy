/** The linear-regression strategy: ADAS13 and Ventricles_ICV are extrapolated along a
    least-squares line over the subject's age; the clinical status is carried forward. */
module LinearModel {
  import opened Wrappers
  import opened Submission
  import opened History
  import opened Forecasts
  import opened LeastSquares

  /** The (age, value) points the regression uses: the visits, in date order, whose age and
      field value are both present and positive. */
  function FitPoints(ordered: seq<Visit>, get: Visit -> Option<real>): (pts: seq<(real, real)>)
    ensures forall i :: 0 <= i < |pts| ==> pts[i].0 > 0.0 && pts[i].1 > 0.0
    ensures forall i :: 0 <= i < |pts| ==>
              exists j :: (0 <= j < |ordered| && Usable(ordered[j], get) &&
                           pts[i] == (ordered[j].age.value, get(ordered[j]).value))
    ensures forall j :: 0 <= j < |ordered| && Usable(ordered[j], get) ==>
              (ordered[j].age.value, get(ordered[j]).value) in pts
  {
    if ordered == [] then []
    else
      var init, v := ordered[..|ordered| - 1], ordered[|ordered| - 1];
      assert forall j :: 0 <= j < |init| ==> init[j] == ordered[j];
      FitPoints(init, get) + (if Usable(v, get) then [(v.age.value, get(v).value)] else [])
  }

  /** A visit whose age and field value are both present and positive. */
  predicate Usable(v: Visit, get: Visit -> Option<real>) {
    v.age.Some? && v.age.value > 0.0 && get(v).Some? && get(v).value > 0.0
  }

  /** The regression raises only when no visit is usable: the usable ages are positive,
      so they are never all 0. */
  lemma FitFailsOnlyWithoutPoints(ordered: seq<Visit>, get: Visit -> Option<real>)
    ensures PolyFit(FitPoints(ordered, get)).None? <==> forall j :: 0 <= j < |ordered| ==> !Usable(ordered[j], get)
  {
    var pts := FitPoints(ordered, get);
    if pts != [] {
      assert !SameX(pts, 0.0) by {
        assert pts[0].0 > 0.0;
      }
    }
  }

  /** A successful regression implies some visit has an age, so the most recent age
      exists. */
  lemma FitNeedsAge(ordered: seq<Visit>, get: Visit -> Option<real>)
    requires PolyFit(FitPoints(ordered, get)).Some?
    ensures MostRecent(ordered, Age).Some?
  {
    var pts := FitPoints(ordered, get);
    var j :| 0 <= j < |ordered| && Usable(ordered[j], get) && pts[0] == (ordered[j].age.value, get(ordered[j]).value);
    assert Age(ordered[j]).Some?;
  }

  /** The most recent age, which exists once a regression has succeeded. */
  function LastAge(ordered: seq<Visit>, get: Visit -> Option<real>): (age: real)
    requires PolyFit(FitPoints(ordered, get)).Some?
    ensures MostRecent(ordered, Age) == Some(age)
  {
    FitNeedsAge(ordered, get);
    MostRecent(ordered, Age).value
  }

  lemma SameLengths(a: map<ValueColumn, seq<Option<real>>>, b: map<ValueColumn, seq<Option<real>>>, n: nat)
    requires forall c :: c in a ==> |a[c]| == n
    requires forall c :: c in b ==> |b[c]| == n
    ensures forall c :: c in a + b ==> |(a + b)[c]| == n
  {
  }

  /** The age `month` months after the last visit with an age. */
  function Horizon(lastAge: real, month: int): real {
    lastAge + month as real / 12.0
  }

  /** The line evaluated at each row's horizon; a row without a forecast month stays
      empty. */
  function Trend(months: seq<Option<int>>, line: Line, lastAge: real): (r: seq<Option<real>>)
    ensures |r| == |months|
    ensures forall k :: 0 <= k < |months| ==>
              (months[k].None? ==> r[k].None?) &&
              (months[k].Some? ==> r[k] == Some(At(line, Horizon(lastAge, months[k].value))))
  {
    seq(|months|, k requires 0 <= k < |months| =>
      if months[k].Some? then Some(At(line, Horizon(lastAge, months[k].value))) else None)
  }

  /** The ADAS13 estimate of each row: the trend, but never below the most recent score. */
  function AdasTrend(months: seq<Option<int>>, a: real, line: Line, lastAge: real): (r: seq<Option<real>>)
    ensures |r| == |months|
    ensures forall k :: 0 <= k < |months| ==>
              (months[k].None? ==> r[k].None?) &&
              (months[k].Some? ==>
                 (r[k].Some? && r[k].value >= a &&
                  r[k].value >= At(line, Horizon(lastAge, months[k].value)) &&
                  (r[k].value == a || r[k].value == At(line, Horizon(lastAge, months[k].value)))))
  {
    var t := Trend(months, line, lastAge);
    seq(|t|, k requires 0 <= k < |t| => if t[k].Some? then Some(Max(a, t[k].value)) else None)
  }

  /** Every present cell shifted by `d`. */
  function Offset(xs: seq<Option<real>>, d: real): (r: seq<Option<real>>)
    ensures |r| == |xs|
    ensures forall k :: 0 <= k < |xs| ==>
              (xs[k].None? ==> r[k].None?) && (xs[k].Some? ==> r[k] == Some(xs[k].value + d))
  {
    seq(|xs|, k requires 0 <= k < |xs| => if xs[k].Some? then Some(xs[k].value + d) else None)
  }

  /** The three ADAS13 columns: the estimate and one point either side of it, with no
      floor at 0. */
  function AdasColumns(estimates: seq<Option<real>>): (m: map<ValueColumn, seq<Option<real>>>)
    ensures m.Keys == {ADAS13, ADAS13Lower, ADAS13Upper}
    ensures forall c :: c in m ==> |m[c]| == |estimates|
    ensures m[ADAS13] == estimates && m[ADAS13Lower] == Offset(estimates, -1.0) && m[ADAS13Upper] == Offset(estimates, 1.0)
    ensures forall k :: 0 <= k < |estimates| ==>
              (estimates[k].None? ==> m[ADAS13Lower][k].None? && m[ADAS13Upper][k].None?) &&
              (estimates[k].Some? ==>
                 m[ADAS13Lower][k] == Some(estimates[k].value - 1.0) && m[ADAS13Upper][k] == Some(estimates[k].value + 1.0))
  {
    map[ADAS13 := estimates, ADAS13Lower := Offset(estimates, -1.0), ADAS13Upper := Offset(estimates, 1.0)]
  }

  /** What the strategy writes into a table with the given forecast months, given the
      visits in date order: the stages run in turn and the first failure stops the run. */
  function LinearForecast(months: seq<Option<int>>, ordered: seq<Visit>): (p: Prediction)
    ensures forall c :: c in p.columns ==> |p.columns[c]| == |months|
  {
    match MostRecent(ordered, ClinStat)
    case None => Prediction(MissingValue(ClinStatField), map[])
    case Some(status) => AdasStage(months, ordered, StatusColumns(|months|, status))
  }

  /** The ADAS13 stage, after the status columns `written`. */
  function AdasStage(months: seq<Option<int>>, ordered: seq<Visit>, written: map<ValueColumn, seq<Option<real>>>): (p: Prediction)
    requires forall c :: c in written ==> |written[c]| == |months|
    ensures forall c :: c in p.columns ==> |p.columns[c]| == |months|
  {
    if MostRecent(ordered, Adas13).None? then Prediction(MissingValue(Adas13Field), written)
    else if PolyFit(FitPoints(ordered, Adas13)).None? then Prediction(FitFailed(Adas13Field), written)
    else VentriclesStage(months, ordered, LastAge(ordered, Adas13), AdasWritten(months, ordered, written))
  }

  /** The columns after a successful ADAS13 stage: `written` and the three ADAS13 columns
      of the trend floored at the most recent score. */
  function AdasWritten(months: seq<Option<int>>, ordered: seq<Visit>, written: map<ValueColumn, seq<Option<real>>>): (r: map<ValueColumn, seq<Option<real>>>)
    requires forall c :: c in written ==> |written[c]| == |months|
    requires MostRecent(ordered, Adas13).Some? && PolyFit(FitPoints(ordered, Adas13)).Some?
    ensures forall c :: c in r ==> |r[c]| == |months|
  {
    var adas := AdasColumns(AdasTrend(months, MostRecent(ordered, Adas13).value,
                                      PolyFit(FitPoints(ordered, Adas13)).value, LastAge(ordered, Adas13)));
    SameLengths(written, adas, |months|);
    written + adas
  }

  /** The Ventricles_ICV stage, after the columns `written`. */
  function VentriclesStage(months: seq<Option<int>>, ordered: seq<Visit>, lastAge: real,
                           written: map<ValueColumn, seq<Option<real>>>): (p: Prediction)
    requires forall c :: c in written ==> |written[c]| == |months|
    ensures forall c :: c in p.columns ==> |p.columns[c]| == |months|
  {
    match MostRecent(ordered, VentriclesRatio)
    case None => Prediction(MissingValue(VentriclesField), written)
    case Some(_) =>
      match PolyFit(FitPoints(ordered, VentriclesRatio))
      case None => Prediction(FitFailed(VentriclesField), written)
      case Some(ventLine) => Prediction(Filled, written + VentriclesColumns(Trend(months, ventLine, lastAge)))
  }

  /** The Ventricles_ICV stage stops, leaving the earlier columns as they are, when no
      visit has a ratio or the regression fails; otherwise it fills the table, adding the
      three columns of the fitted line at each row's horizon. */
  lemma VentriclesStageResult(months: seq<Option<int>>, ordered: seq<Visit>, lastAge: real,
                              written: map<ValueColumn, seq<Option<real>>>)
    requires forall c :: c in written ==> |written[c]| == |months|
    ensures var p := VentriclesStage(months, ordered, lastAge, written);
      (p.outcome == MissingValue(VentriclesField) <==> MostRecent(ordered, VentriclesRatio).None?) &&
      (p.outcome == FitFailed(VentriclesField) <==>
         MostRecent(ordered, VentriclesRatio).Some? && PolyFit(FitPoints(ordered, VentriclesRatio)).None?) &&
      (p.outcome == Filled <==>
         MostRecent(ordered, VentriclesRatio).Some? && PolyFit(FitPoints(ordered, VentriclesRatio)).Some?) &&
      (p.outcome != Filled ==> p.columns == written) &&
      (p.outcome == Filled ==>
         p.columns == written + VentriclesColumns(Trend(months, PolyFit(FitPoints(ordered, VentriclesRatio)).value, lastAge)))
  {
  }

  /** The ADAS13 stage stops, leaving the earlier columns as they are, when no visit has
      a score or the regression fails; otherwise it adds the three ADAS13 columns of the
      floored trend and hands over to the Ventricles_ICV stage. */
  lemma AdasStageResult(months: seq<Option<int>>, ordered: seq<Visit>, written: map<ValueColumn, seq<Option<real>>>)
    requires forall c :: c in written ==> |written[c]| == |months|
    ensures var p := AdasStage(months, ordered, written);
      (p.outcome == MissingValue(Adas13Field) <==> MostRecent(ordered, Adas13).None?) &&
      (p.outcome == FitFailed(Adas13Field) <==>
         MostRecent(ordered, Adas13).Some? && PolyFit(FitPoints(ordered, Adas13)).None?) &&
      (MostRecent(ordered, Adas13).None? || PolyFit(FitPoints(ordered, Adas13)).None? ==> p.columns == written) &&
      (MostRecent(ordered, Adas13).Some? && PolyFit(FitPoints(ordered, Adas13)).Some? ==>
         p == VentriclesStage(months, ordered, LastAge(ordered, Adas13), AdasWritten(months, ordered, written)))
  {
    if MostRecent(ordered, Adas13).Some? && PolyFit(FitPoints(ordered, Adas13)).Some? {
      VentriclesStageResult(months, ordered, LastAge(ordered, Adas13), AdasWritten(months, ordered, written));
    }
  }

  /** The columns a run writes, for each way it can end: nothing without a status; the
      status columns when the ADAS13 stage stops; those and the ADAS13 columns of the
      floored trend when the Ventricles_ICV stage stops; all of these and the
      Ventricles_ICV columns of the fitted line when the table is filled. */
  lemma LinearForecastColumns(months: seq<Option<int>>, ordered: seq<Visit>)
    ensures var p := LinearForecast(months, ordered);
      (p.outcome == MissingValue(ClinStatField) ==> p.columns == map[]) &&
      (p.outcome == MissingValue(Adas13Field) || p.outcome == FitFailed(Adas13Field) ==>
         MostRecent(ordered, ClinStat).Some? &&
         p.columns == StatusColumns(|months|, MostRecent(ordered, ClinStat).value)) &&
      (p.outcome == MissingValue(VentriclesField) || p.outcome == FitFailed(VentriclesField) || p.outcome == Filled ==>
         MostRecent(ordered, ClinStat).Some? && MostRecent(ordered, Adas13).Some? &&
         PolyFit(FitPoints(ordered, Adas13)).Some?) &&
      (p.outcome == MissingValue(VentriclesField) || p.outcome == FitFailed(VentriclesField) ==>
         p.columns == StatusColumns(|months|, MostRecent(ordered, ClinStat).value) +
                      AdasColumns(AdasTrend(months, MostRecent(ordered, Adas13).value,
                                            PolyFit(FitPoints(ordered, Adas13)).value, LastAge(ordered, Adas13)))) &&
      (p.outcome == Filled ==>
         PolyFit(FitPoints(ordered, VentriclesRatio)).Some? &&
         p.columns == LinearColumns(months, MostRecent(ordered, ClinStat).value, MostRecent(ordered, Adas13).value,
                                    PolyFit(FitPoints(ordered, Adas13)).value,
                                    PolyFit(FitPoints(ordered, VentriclesRatio)).value, LastAge(ordered, Adas13)))
  {
    if MostRecent(ordered, ClinStat).Some? {
      var written := StatusColumns(|months|, MostRecent(ordered, ClinStat).value);
      AdasStageResult(months, ordered, written);
      if MostRecent(ordered, Adas13).Some? && PolyFit(FitPoints(ordered, Adas13)).Some? {
        VentriclesStageResult(months, ordered, LastAge(ordered, Adas13), AdasWritten(months, ordered, written));
      }
    }
  }

  /** Every row of a filled table holds the probabilities of the most recent status;
      every row with a forecast month holds an ADAS13 estimate never below the most
      recent score, with a band of exactly one point either side and no floor at 0, and
      a Ventricles_ICV band inside [0, 1] that holds its estimate whenever the estimate
      is a valid ratio. A row without a forecast month has no ADAS13 or Ventricles_ICV
      forecast. */
  lemma LinearFilledRows(months: seq<Option<int>>, ordered: seq<Visit>, k: nat)
    requires LinearForecast(months, ordered).outcome == Filled
    requires k < |months|
    ensures MostRecent(ordered, ClinStat).Some? && MostRecent(ordered, Adas13).Some?
    ensures LinearForecast(months, ordered).columns.Keys == AllValueColumns
    ensures var m := LinearForecast(months, ordered).columns;
      var probs := StatusProbabilities(MostRecent(ordered, ClinStat).value);
      m[CNProbability][k] == Some(probs.cn) && m[MCIProbability][k] == Some(probs.mci) &&
      m[ADProbability][k] == Some(probs.ad)
    ensures var m := LinearForecast(months, ordered).columns;
      months[k].None? ==>
        m[ADAS13][k].None? && m[ADAS13Lower][k].None? && m[ADAS13Upper][k].None? &&
        m[VentriclesICV][k].None? && m[VentriclesICVLower][k].None? && m[VentriclesICVUpper][k].None?
    ensures var m := LinearForecast(months, ordered).columns;
      months[k].Some? ==> m[ADAS13][k].Some? && m[ADAS13][k].value >= MostRecent(ordered, Adas13).value
    ensures var m := LinearForecast(months, ordered).columns;
      m[ADAS13Lower] == Offset(m[ADAS13], -1.0) && m[ADAS13Upper] == Offset(m[ADAS13], 1.0)
    ensures var m := LinearForecast(months, ordered).columns;
      months[k].Some? ==>
        m[ADAS13Lower][k] == Some(m[ADAS13][k].value - 1.0) && m[ADAS13Upper][k] == Some(m[ADAS13][k].value + 1.0)
    ensures var m := LinearForecast(months, ordered).columns;
      months[k].Some? ==>
        m[VentriclesICV][k].Some? && m[VentriclesICVLower][k].Some? && m[VentriclesICVUpper][k].Some? &&
        0.0 <= m[VentriclesICVLower][k].value && m[VentriclesICVUpper][k].value <= 1.0 &&
        (0.0 <= m[VentriclesICV][k].value <= 1.0 ==>
           m[VentriclesICVLower][k].value <= m[VentriclesICV][k].value <= m[VentriclesICVUpper][k].value)
  {
    LinearForecastColumns(months, ordered);
    var status, a := MostRecent(ordered, ClinStat).value, MostRecent(ordered, Adas13).value;
    var adasLine, ventLine := PolyFit(FitPoints(ordered, Adas13)).value, PolyFit(FitPoints(ordered, VentriclesRatio)).value;
    var lastAge := LastAge(ordered, Adas13);
    StatusRow(months, status, a, adasLine, ventLine, lastAge, k);
    AdasRow(months, status, a, adasLine, ventLine, lastAge, k);
    VentriclesRow(months, status, a, adasLine, ventLine, lastAge, k);
  }

  /** The nine columns of a filled table: the status columns, the ADAS13 columns of the
      trend floored at the most recent score `a`, and the Ventricles_ICV columns of the
      fitted line, both lines taken at the last age plus each row's months. */
  function LinearColumns(months: seq<Option<int>>, status: string, a: real, adasLine: Line, ventLine: Line,
                         lastAge: real): (m: map<ValueColumn, seq<Option<real>>>)
    ensures m.Keys == AllValueColumns
    ensures forall c :: c in m ==> |m[c]| == |months|
  {
    StatusColumns(|months|, status) + AdasColumns(AdasTrend(months, a, adasLine, lastAge)) +
    VentriclesColumns(Trend(months, ventLine, lastAge))
  }

  lemma StatusRow(months: seq<Option<int>>, status: string, a: real, adasLine: Line, ventLine: Line,
                  lastAge: real, k: nat)
    requires k < |months|
    ensures var m := LinearColumns(months, status, a, adasLine, ventLine, lastAge);
      m[CNProbability][k] == Some(StatusProbabilities(status).cn) &&
      m[MCIProbability][k] == Some(StatusProbabilities(status).mci) &&
      m[ADProbability][k] == Some(StatusProbabilities(status).ad)
  {
    var m := LinearColumns(months, status, a, adasLine, ventLine, lastAge);
    var sc := StatusColumns(|months|, status);
    assert m[CNProbability] == sc[CNProbability] && m[MCIProbability] == sc[MCIProbability];
    assert m[ADProbability] == sc[ADProbability];
  }

  lemma AdasRow(months: seq<Option<int>>, status: string, a: real, adasLine: Line, ventLine: Line,
                lastAge: real, k: nat)
    requires k < |months|
    ensures var m := LinearColumns(months, status, a, adasLine, ventLine, lastAge);
      (months[k].None? ==> m[ADAS13][k].None? && m[ADAS13Lower][k].None? && m[ADAS13Upper][k].None?) &&
      (months[k].Some? ==>
         m[ADAS13][k].Some? && m[ADAS13][k].value >= a &&
         m[ADAS13Lower][k] == Some(m[ADAS13][k].value - 1.0) &&
         m[ADAS13Upper][k] == Some(m[ADAS13][k].value + 1.0))
    ensures var m := LinearColumns(months, status, a, adasLine, ventLine, lastAge);
      m[ADAS13Lower] == Offset(m[ADAS13], -1.0) && m[ADAS13Upper] == Offset(m[ADAS13], 1.0)
  {
    var m := LinearColumns(months, status, a, adasLine, ventLine, lastAge);
    var ac := AdasColumns(AdasTrend(months, a, adasLine, lastAge));
    assert m[ADAS13] == ac[ADAS13] && m[ADAS13Lower] == ac[ADAS13Lower] && m[ADAS13Upper] == ac[ADAS13Upper];
  }

  lemma VentriclesRow(months: seq<Option<int>>, status: string, a: real, adasLine: Line, ventLine: Line,
                      lastAge: real, k: nat)
    requires k < |months|
    ensures var m := LinearColumns(months, status, a, adasLine, ventLine, lastAge);
      (months[k].None? ==> m[VentriclesICV][k].None? && m[VentriclesICVLower][k].None? && m[VentriclesICVUpper][k].None?) &&
      (months[k].Some? ==>
         m[VentriclesICV][k].Some? && m[VentriclesICVLower][k].Some? && m[VentriclesICVUpper][k].Some? &&
         0.0 <= m[VentriclesICVLower][k].value && m[VentriclesICVUpper][k].value <= 1.0 &&
         (0.0 <= m[VentriclesICV][k].value <= 1.0 ==>
            m[VentriclesICVLower][k].value <= m[VentriclesICV][k].value <= m[VentriclesICVUpper][k].value))
  {
    var m := LinearColumns(months, status, a, adasLine, ventLine, lastAge);
    var vc := VentriclesColumns(Trend(months, ventLine, lastAge));
    assert m[VentriclesICV] == vc[VentriclesICV] && m[VentriclesICVLower] == vc[VentriclesICVLower];
    assert m[VentriclesICVUpper] == vc[VentriclesICVUpper];
  }

  /** Writes the ADAS13 estimate and its band columns. */
  method AssignAdas(table: ForecastTable, estimates: seq<Option<real>>)
    requires table.Valid() && |estimates| == |table.rid|
    modifies table
    ensures table.Valid()
    ensures table.rid == old(table.rid) && table.forecastMonth == old(table.forecastMonth)
    ensures table.forecastDate == old(table.forecastDate)
    ensures table.values == old(table.values) + AdasColumns(estimates)
  {
    table.Assign(ADAS13, estimates);
    table.Assign(ADAS13Lower, Offset(estimates, -1.0));
    table.Assign(ADAS13Upper, Offset(estimates, 1.0));
  }

  /** Writes the Ventricles_ICV estimate and its band columns. */
  method AssignVentricles(table: ForecastTable, estimates: seq<Option<real>>)
    requires table.Valid() && |estimates| == |table.rid|
    modifies table
    ensures table.Valid()
    ensures table.rid == old(table.rid) && table.forecastMonth == old(table.forecastMonth)
    ensures table.forecastDate == old(table.forecastDate)
    ensures table.values == old(table.values) + VentriclesColumns(estimates)
  {
    var m := VentriclesColumns(estimates);
    table.Assign(VentriclesICV, m[VentriclesICV]);
    table.Assign(VentriclesICVLower, m[VentriclesICVLower]);
    table.Assign(VentriclesICVUpper, m[VentriclesICVUpper]);
  }

  /** `create_prediction`: sorts the history by exam date and overwrites the forecast
      columns of `table` stage by stage, stopping at the first missing field or failed
      regression. */
  method CreatePrediction(history: seq<Visit>, table: ForecastTable) returns (ordered: seq<Visit>, outcome: Outcome)
    requires table.Valid()
    modifies table
    ensures table.Valid()
    ensures table.rid == old(table.rid) && table.forecastMonth == old(table.forecastMonth)
    ensures table.forecastDate == old(table.forecastDate)
    ensures IsDateOrdering(history, ordered)
    ensures outcome == LinearForecast(table.forecastMonth, ordered).outcome
    ensures table.values == old(table.values) + LinearForecast(table.forecastMonth, ordered).columns
  {
    assert IsDateOrdering(history, SortByDate(history));
    ordered :| IsDateOrdering(history, ordered);
    var months := table.forecastMonth;
    ghost var before := table.values;

    var status := MostRecent(ordered, ClinStat);
    if status.None? {
      assert before + map[] == before;
      return ordered, MissingValue(ClinStatField);
    }
    FillStatus(table, status.value);
    ghost var probabilities := StatusColumns(|months|, status.value);

    var adas := MostRecent(ordered, Adas13);
    if adas.None? {
      return ordered, MissingValue(Adas13Field);
    }
    var adasFit := PolyFit(FitPoints(ordered, Adas13));
    if adasFit.None? {
      return ordered, FitFailed(Adas13Field);
    }
    var lastAge := LastAge(ordered, Adas13);
    var adasEstimates := AdasTrend(months, adas.value, adasFit.value, lastAge);
    AssignAdas(table, adasEstimates);
    ghost var adasColumns := probabilities + AdasColumns(adasEstimates);
    UnionAssociates(before, probabilities, AdasColumns(adasEstimates));

    var ventricles := MostRecent(ordered, VentriclesRatio);
    if ventricles.None? {
      return ordered, MissingValue(VentriclesField);
    }
    var ventFit := PolyFit(FitPoints(ordered, VentriclesRatio));
    if ventFit.None? {
      return ordered, FitFailed(VentriclesField);
    }
    var ventEstimates := Trend(months, ventFit.value, lastAge);
    AssignVentricles(table, ventEstimates);
    UnionAssociates(before, adasColumns, VentriclesColumns(ventEstimates));
    outcome := Filled;
  }

  /** Some visit of the history is usable for the regression on the field. */
  ghost predicate HasUsable(history: seq<Visit>, get: Visit -> Option<real>) {
    exists v :: v in history && Usable(v, get)
  }

  lemma UsableExists(history: seq<Visit>, ordered: seq<Visit>, get: Visit -> Option<real>)
    requires IsDateOrdering(history, ordered)
    ensures PolyFit(FitPoints(ordered, get)).Some? <==> HasUsable(history, get)
  {
    FitFailsOnlyWithoutPoints(ordered, get);
    if HasUsable(history, get) {
      var v :| v in history && Usable(v, get);
      assert v in multiset(ordered);
      var j :| 0 <= j < |ordered| && ordered[j] == v;
    }
    forall j | 0 <= j < |ordered| && Usable(ordered[j], get)
      ensures HasUsable(history, get)
    {
      assert ordered[j] in multiset(history);
    }
  }

  /** How a run ends, in terms of the history: it stops at the first field, in the order
      status, ADAS13, Ventricles_ICV, that no visit has, and a regression fails exactly
      when no visit has both a positive age and a positive value of its field. */
  lemma LinearOutcome(history: seq<Visit>, ordered: seq<Visit>, months: seq<Option<int>>)
    requires IsDateOrdering(history, ordered)
    ensures var o := LinearForecast(months, ordered).outcome;
      (o == MissingValue(ClinStatField) <==> !HasField(history, ClinStat)) &&
      (o == MissingValue(Adas13Field) <==> HasField(history, ClinStat) && !HasField(history, Adas13)) &&
      (o == FitFailed(Adas13Field) <==>
         HasField(history, ClinStat) && HasField(history, Adas13) && !HasUsable(history, Adas13)) &&
      (o == MissingValue(VentriclesField) <==>
         HasField(history, ClinStat) && HasField(history, Adas13) && HasUsable(history, Adas13) &&
         !HasField(history, VentriclesRatio)) &&
      (o == FitFailed(VentriclesField) <==>
         HasField(history, ClinStat) && HasField(history, Adas13) && HasUsable(history, Adas13) &&
         HasField(history, VentriclesRatio) && !HasUsable(history, VentriclesRatio)) &&
      (o == Filled <==>
         HasField(history, ClinStat) && HasField(history, Adas13) && HasUsable(history, Adas13) &&
         HasField(history, VentriclesRatio) && HasUsable(history, VentriclesRatio))
  {
    MostRecentExists(history, ordered, ClinStat);
    MostRecentExists(history, ordered, Adas13);
    MostRecentExists(history, ordered, VentriclesRatio);
    UsableExists(history, ordered, Adas13);
    UsableExists(history, ordered, VentriclesRatio);
  }

  lemma ScaleMonotone(s: real, x1: real, x2: real)
    requires s >= 0.0 && x1 <= x2
    ensures s * x1 <= s * x2
  {
    assert s * x2 - s * x1 == s * (x2 - x1);
  }

  /** With a non-decreasing fitted line the ADAS13 forecast never decreases from one
      forecast month to a later one. */
  lemma AdasTrendMonotone(months: seq<Option<int>>, a: real, line: Line, lastAge: real, k1: nat, k2: nat)
    requires line.slope >= 0.0
    requires k1 < |months| && k2 < |months| && months[k1].Some? && months[k2].Some?
    requires months[k1].value <= months[k2].value
    ensures AdasTrend(months, a, line, lastAge)[k1].value <= AdasTrend(months, a, line, lastAge)[k2].value
  {
    var h1, h2 := Horizon(lastAge, months[k1].value), Horizon(lastAge, months[k2].value);
    assert h1 <= h2;
    ScaleMonotone(line.slope, h1, h2);
    assert At(line, h1) <= At(line, h2);
  }

  /** When the usable Ventricles_ICV points lie exactly on a line and span two ages, a
      filled table forecasts along that line: the regression recovers it. */
  lemma VentriclesFollowLine(months: seq<Option<int>>, ordered: seq<Visit>, l: Line, k: nat)
    requires LinearForecast(months, ordered).outcome == Filled
    requires OnLine(FitPoints(ordered, VentriclesRatio), l) && Det(FitPoints(ordered, VentriclesRatio)) != 0.0
    requires k < |months| && months[k].Some?
    ensures MostRecent(ordered, Age).Some?
    ensures VentriclesICV in LinearForecast(months, ordered).columns
    ensures LinearForecast(months, ordered).columns[VentriclesICV][k] ==
            Some(At(l, Horizon(MostRecent(ordered, Age).value, months[k].value)))
  {
    FitRecoversLine(FitPoints(ordered, VentriclesRatio), l);
    var status := MostRecent(ordered, ClinStat).value;
    var a := MostRecent(ordered, Adas13).value;
    var adasLine := PolyFit(FitPoints(ordered, Adas13)).value;
    var lastAge := LastAge(ordered, Adas13);
    var written := StatusColumns(|months|, status) + AdasColumns(AdasTrend(months, a, adasLine, lastAge));
    var vent := VentriclesColumns(Trend(months, l, lastAge));
    assert LinearForecast(months, ordered).columns == written + vent;
  }

  /** When no two different visits share an exam date, the unstable sort cannot change
      the forecast. */
  lemma LinearForecastIgnoresTies(history: seq<Visit>, o1: seq<Visit>, o2: seq<Visit>, months: seq<Option<int>>)
    requires IsDateOrdering(history, o1) && IsDateOrdering(history, o2)
    requires DistinctDates(history)
    ensures LinearForecast(months, o1) == LinearForecast(months, o2)
  {
    DateOrderingUnique(history, o1, o2);
  }
}
