/** What the two prediction strategies share: the clinical-status probabilities, the
    Ventricles_ICV confidence band, the field selectors and the outcome of a run. */
module Forecasts {
  import opened Wrappers
  import opened Submission
  import opened History

  /** The relative likelihoods of the three diagnoses CN, MCI and AD. */
  datatype ClassProbabilities = ClassProbabilities(cn: real, mci: real, ad: real)

  /** The fixed likelihoods attached to the most recent clinical status; an unknown
      status gets a nearly uniform guess. */
  function StatusProbabilities(status: string): (p: ClassProbabilities)
    ensures p.cn + p.mci + p.ad == 1.0
    ensures 0.0 <= p.cn <= 1.0 && 0.0 <= p.mci <= 1.0 && 0.0 <= p.ad <= 1.0
    ensures status == "Dementia" ==> p.ad > p.cn + p.mci
    ensures status !in {"NL", "MCI", "Dementia"} ==> p.ad - p.cn == p.ad - p.mci == 0.01
  {
    if status == "NL" then ClassProbabilities(0.3, 0.4, 0.3)
    else if status == "MCI" then ClassProbabilities(0.1, 0.5, 0.4)
    else if status == "Dementia" then ClassProbabilities(0.15, 0.15, 0.7)
    else ClassProbabilities(0.33, 0.33, 0.34)
  }

  /** The three probability columns of a table of `rows` rows, every row alike. */
  function StatusColumns(rows: nat, status: string): (m: map<ValueColumn, seq<Option<real>>>)
    ensures m.Keys == {CNProbability, MCIProbability, ADProbability}
    ensures forall c :: c in m ==> |m[c]| == rows
    ensures forall k :: 0 <= k < rows ==>
              m[CNProbability][k] == Some(StatusProbabilities(status).cn) &&
              m[MCIProbability][k] == Some(StatusProbabilities(status).mci) &&
              m[ADProbability][k] == Some(StatusProbabilities(status).ad)
    ensures forall k :: 0 <= k < rows ==>
              m[CNProbability][k].value + m[MCIProbability][k].value + m[ADProbability][k].value == 1.0
  {
    var p := StatusProbabilities(status);
    map[CNProbability := Constant(rows, p.cn),
        MCIProbability := Constant(rows, p.mci),
        ADProbability := Constant(rows, p.ad)]
  }

  /** Writes the three probability columns for the most recent clinical status. */
  method FillStatus(table: ForecastTable, status: string)
    requires table.Valid()
    modifies table
    ensures table.Valid()
    ensures table.rid == old(table.rid) && table.forecastMonth == old(table.forecastMonth)
    ensures table.forecastDate == old(table.forecastDate)
    ensures table.values == old(table.values) + StatusColumns(|table.rid|, status)
  {
    var p := StatusProbabilities(status);
    table.Fill(CNProbability, p.cn);
    table.Fill(MCIProbability, p.mci);
    table.Fill(ADProbability, p.ad);
  }

  /** Overwriting with `b` and then with `c` is overwriting with `b + c`. */
  lemma UnionAssociates<K, V>(a: map<K, V>, b: map<K, V>, c: map<K, V>)
    ensures (a + b) + c == a + (b + c)
  {
  }

  /** A 50% confidence interval. */
  datatype Interval = Interval(lower: real, upper: real)

  function Max(a: real, b: real): real { if a < b then b else a }
  function Min(a: real, b: real): real { if a < b then a else b }

  /** The Ventricles_ICV band: 1% either side of the estimate, cut to [0, 1]. */
  function VentriclesInterval(v: real): (r: Interval)
    ensures 0.0 <= r.lower && r.upper <= 1.0
    ensures 0.0 <= v <= 1.0 ==> r.lower <= v <= r.upper
    ensures 0.0 <= v && v + v / 100.0 <= 1.0 ==> r.upper - v == v - r.lower == v / 100.0
  {
    Interval(Max(0.0, v - 0.01 * v), Min(1.0, v + 0.01 * v))
  }

  /** The three Ventricles_ICV columns for one estimate per row; a row without an
      estimate (no forecast month) stays empty in all three. */
  function VentriclesColumns(estimates: seq<Option<real>>): (m: map<ValueColumn, seq<Option<real>>>)
    ensures m.Keys == {VentriclesICV, VentriclesICVLower, VentriclesICVUpper}
    ensures forall c :: c in m ==> |m[c]| == |estimates|
    ensures forall k :: 0 <= k < |estimates| ==>
              m[VentriclesICV][k] == estimates[k] &&
              (estimates[k].None? ==> m[VentriclesICVLower][k].None? && m[VentriclesICVUpper][k].None?) &&
              (estimates[k].Some? ==>
                 m[VentriclesICVLower][k] == Some(VentriclesInterval(estimates[k].value).lower) &&
                 m[VentriclesICVUpper][k] == Some(VentriclesInterval(estimates[k].value).upper))
  {
    map[VentriclesICV := estimates,
        VentriclesICVLower := seq(|estimates|, k requires 0 <= k < |estimates| =>
                                if estimates[k].Some? then Some(VentriclesInterval(estimates[k].value).lower) else None),
        VentriclesICVUpper := seq(|estimates|, k requires 0 <= k < |estimates| =>
                                if estimates[k].Some? then Some(VentriclesInterval(estimates[k].value).upper) else None)]
  }

  /** Field selectors over a visit, for `MostRecent`. */
  function ClinStat(v: Visit): Option<string> { v.clinStat }
  function Adas13(v: Visit): Option<real> { v.adas13 }
  function VentriclesRatio(v: Visit): Option<real> { v.ventriclesICV }
  function Age(v: Visit): Option<real> { v.age }

  /** A field a strategy reads from the history. */
  datatype Field = ClinStatField | Adas13Field | VentriclesField

  /** How a run ended. The source raises on the first failure, after writing the
      columns of the stages before it into the table. */
  datatype Outcome =
    | Filled
      /** The field has no value in the history (`.iloc[0]` of an empty series). */
    | MissingValue(field: Field)
      /** polyfit raised for this field's regression. */
    | FitFailed(field: Field)

  /** A run's outcome and the columns it wrote, which overwrite those of the table. */
  datatype Prediction = Prediction(outcome: Outcome, columns: map<ValueColumn, seq<Option<real>>>)

  /** The history has a value for the field. */
  ghost predicate HasField<T>(history: seq<Visit>, get: Visit -> Option<T>) {
    exists v :: v in history && get(v).Some?
  }
}
