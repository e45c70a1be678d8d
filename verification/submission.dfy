/** The empty forecast table of a submission: one row per subject and forecast
    month, subject-major, with the subject ID, the month number and the calendar
    month of every row filled and the nine forecast columns left empty. */
module Submission {
  import opened Wrappers

  /** A calendar date. */
  datatype Date = Date(year: int, month: int, day: int)

  /** The calendar month of the first forecast row of every subject. */
  const FirstForecastDate := Date(2010, 5, 1)

  /** The same day of the next calendar month; December rolls over to January. */
  function NextMonth(d: Date): (r: Date)
    requires 1 <= d.month <= 12
    ensures 1 <= r.month <= 12 && r.day == d.day
    ensures r.year * 12 + r.month == d.year * 12 + d.month + 1
  {
    if d.month == 12 then Date(d.year + 1, 1, d.day) else Date(d.year, d.month + 1, d.day)
  }

  /** `i` steps of `NextMonth`: the reference meaning of "i calendar months later". */
  function MonthsLater(d: Date, i: nat): Date
    requires 1 <= d.month <= 12
    ensures 1 <= MonthsLater(d, i).month <= 12
  {
    if i == 0 then d else NextMonth(MonthsLater(d, i - 1))
  }

  /** The same day of the month, `i` calendar months after `d`, by year/month arithmetic. */
  function AddMonths(d: Date, i: nat): (r: Date)
    requires 1 <= d.month <= 12
    ensures 1 <= r.month <= 12 && r.day == d.day
    ensures r.year * 12 + r.month == d.year * 12 + d.month + i
  {
    var total := d.year * 12 + (d.month - 1) + i;
    Date(total / 12, total % 12 + 1, d.day)
  }

  /** Two dates with a valid month and the same month count are the same year and month. */
  lemma SameMonthCount(a: Date, b: Date)
    requires 1 <= a.month <= 12 && 1 <= b.month <= 12
    requires a.year * 12 + a.month == b.year * 12 + b.month
    ensures a.year == b.year && a.month == b.month
  {
  }

  /** The year/month arithmetic agrees with stepping one month at a time, so month 12
      rolls over to month 1 of the next year and the day never changes. */
  lemma {:induction false} AddMonthsSteps(d: Date, i: nat)
    requires 1 <= d.month <= 12
    ensures AddMonths(d, i) == MonthsLater(d, i)
  {
    if i > 0 {
      AddMonthsSteps(d, i - 1);
      SameMonthCount(AddMonths(d, i), NextMonth(AddMonths(d, i - 1)));
    } else {
      SameMonthCount(AddMonths(d, 0), d);
    }
  }

  /** The calendar month of forecast month number `i + 1`. */
  function ForecastDate(i: nat): (r: Date)
    ensures r.day == 1 && 1 <= r.month <= 12
    ensures r.year * 12 + r.month == 2010 * 12 + 5 + i
  {
    AddMonths(FirstForecastDate, i)
  }

  /** `numpy.repeat`: every element of `s` repeated `n` times in a row. */
  function Repeat<T>(s: seq<T>, n: nat): seq<T> {
    if s == [] then [] else Repeat(s[..|s| - 1], n) + seq(n, _ => s[|s| - 1])
  }

  /** `numpy.tile` of a row: `block` written `m` times one after the other. */
  function Tile<T>(block: seq<T>, m: nat): seq<T> {
    if m == 0 then [] else Tile(block, m - 1) + block
  }

  /** The quotient and remainder of an index inside block `q` of length `n`. */
  lemma DivModInBlock(k: int, q: int, n: int)
    requires n > 0 && 0 <= q && q * n <= k < q * n + n
    ensures k / n == q && k % n == k - q * n
  {
    var d := k / n;
    assert k == d * n + k % n;
    BlockOrder(d, q, n);
    BlockOrder(q, d, n);
  }

  /** An index below m blocks of length n lies in one of them. */
  lemma QuotientBound(k: int, m: nat, n: nat)
    requires 0 <= k < m * n
    ensures n > 0 && 0 <= k / n < m && 0 <= k % n < n
  {
    assert n != 0;
    assert k == (k / n) * n + k % n;
    BlockOrder(m - 1, k / n, n);
  }

  /** Distinct blocks of length n start at least n apart. */
  lemma BlockOrder(a: int, b: int, n: int)
    requires n > 0
    ensures a < b ==> a * n + n <= b * n
  {
    if a < b {
      var m := b - a;
      assert b * n == a * n + m * n;
      assert m * n == (m - 1) * n + n;
      assert (m - 1) * n >= 0;
    }
  }

  /** Row k of a repeated sequence holds element k / n. */
  lemma {:induction false} RepeatAt<T>(s: seq<T>, n: nat, k: int)
    requires 0 <= k < |s| * n
    ensures |Repeat(s, n)| == |s| * n
    ensures Repeat(s, n)[k] == s[k / n]
  {
    RepeatLength(s, n);
    assert s != [];
    var init, last := s[..|s| - 1], s[|s| - 1];
    RepeatLength(init, n);
    var base := |init| * n;
    NextBlock(|init|, n);
    assert Repeat(s, n) == Repeat(init, n) + seq(n, _ => last);
    if k < base {
      RepeatAt(init, n, k);
      QuotientBound(k, |init|, n);
      assert Repeat(s, n)[k] == Repeat(init, n)[k];
    } else {
      DivModInBlock(k, |init|, n);
      assert Repeat(s, n)[k] == last;
    }
  }

  /** One more block of length n ends n further on. */
  lemma NextBlock(m: int, n: int)
    ensures (m + 1) * n == m * n + n
  {
  }

  lemma {:induction false} RepeatLength<T>(s: seq<T>, n: nat)
    ensures |Repeat(s, n)| == |s| * n
  {
    if s != [] {
      RepeatLength(s[..|s| - 1], n);
      assert |s| * n == (|s| - 1) * n + n;
    }
  }

  /** Row k of a tiled block holds element k % |block|. */
  lemma {:induction false} TileAt<T>(block: seq<T>, m: nat, k: int)
    requires 0 <= k < m * |block|
    ensures |Tile(block, m)| == m * |block|
    ensures Tile(block, m)[k] == block[k % |block|]
  {
    TileLength(block, m - 1);
    assert m * |block| == (m - 1) * |block| + |block|;
    if k < (m - 1) * |block| {
      TileAt(block, m - 1, k);
    } else {
      DivModInBlock(k, m - 1, |block|);
    }
  }

  lemma {:induction false} TileLength<T>(block: seq<T>, m: nat)
    ensures |Tile(block, m)| == m * |block|
  {
    if m > 0 {
      TileLength(block, m - 1);
      assert m * |block| == (m - 1) * |block| + |block|;
    }
  }

  /** The forecast month numbers 1..n. */
  function MonthNumbers(n: nat): (r: seq<int>)
    ensures |r| == n && forall i :: 0 <= i < n ==> r[i] == i + 1
  {
    seq(n, i => i + 1)
  }

  /** The calendar months of forecast months 1..n. */
  function ForecastDates(n: nat): (r: seq<Date>)
    ensures |r| == n && forall i :: 0 <= i < n ==> r[i] == ForecastDate(i)
  {
    seq(n, i requires 0 <= i => ForecastDate(i))
  }

  /** The nine forecast columns, which the prediction strategies fill. */
  datatype ValueColumn =
    | CNProbability | MCIProbability | ADProbability
    | ADAS13 | ADAS13Lower | ADAS13Upper
    | VentriclesICV | VentriclesICVLower | VentriclesICVUpper

  const AllValueColumns: set<ValueColumn> :=
    {CNProbability, MCIProbability, ADProbability, ADAS13, ADAS13Lower, ADAS13Upper,
     VentriclesICV, VentriclesICVLower, VentriclesICVUpper}

  /** A column of `n` empty cells. */
  function Missing<T>(n: nat): (r: seq<Option<T>>)
    ensures |r| == n && forall k :: 0 <= k < n ==> r[k].None?
  {
    seq(n, _ => None)
  }

  /** A column whose every one of `n` cells holds `x`. */
  function Constant<T>(n: nat, x: T): (r: seq<Option<T>>)
    ensures |r| == n && forall k :: 0 <= k < n ==> r[k] == Some(x)
  {
    seq(n, _ => Some(x))
  }

  /** The cells holding the values `xs`, in order. */
  function Present<T>(xs: seq<T>): (r: seq<Option<T>>)
    ensures |r| == |xs| && forall k :: 0 <= k < |xs| ==> r[k] == Some(xs[k])
  {
    seq(|xs|, k requires 0 <= k < |xs| => Some(xs[k]))
  }

  /** A forecast table: the three identifying columns and the nine forecast columns,
      every column one cell per row, a cell possibly empty. */
  class ForecastTable {
    var rid: seq<Option<int>>
    var forecastMonth: seq<Option<int>>
    var forecastDate: seq<Option<Date>>
    var values: map<ValueColumn, seq<Option<real>>>

    ghost predicate Valid()
      reads this
    {
      |forecastMonth| == |rid| && |forecastDate| == |rid| &&
      forall c: ValueColumn :: c in values && |values[c]| == |rid|
    }

    /** A table of `rows` rows whose every cell is empty. */
    constructor (rows: nat)
      ensures Valid() && |rid| == rows
      ensures rid == Missing(rows) && forecastMonth == Missing(rows) && forecastDate == Missing(rows)
      ensures forall c: ValueColumn :: values[c] == Missing(rows)
    {
      rid := Missing(rows);
      forecastMonth := Missing(rows);
      forecastDate := Missing(rows);
      forall c: ValueColumn
        ensures c in AllValueColumns
      {
        match c
        case CNProbability =>
        case MCIProbability =>
        case ADProbability =>
        case ADAS13 =>
        case ADAS13Lower =>
        case ADAS13Upper =>
        case VentriclesICV =>
        case VentriclesICVLower =>
        case VentriclesICVUpper =>
      }
      values := map c | c in AllValueColumns :: Missing(rows);
    }

    /** Assigns the subject ID column. */
    method SetRID(xs: seq<int>)
      requires Valid() && |xs| == |rid|
      modifies this
      ensures Valid()
      ensures rid == Present(xs)
      ensures forecastMonth == old(forecastMonth) && forecastDate == old(forecastDate) && values == old(values)
    {
      rid := Present(xs);
    }

    /** Assigns the forecast month number column. */
    method SetForecastMonth(xs: seq<int>)
      requires Valid() && |xs| == |rid|
      modifies this
      ensures Valid()
      ensures forecastMonth == Present(xs)
      ensures rid == old(rid) && forecastDate == old(forecastDate) && values == old(values)
    {
      forecastMonth := Present(xs);
    }

    /** Assigns the forecast date column. */
    method SetForecastDate(xs: seq<Date>)
      requires Valid() && |xs| == |rid|
      modifies this
      ensures Valid()
      ensures forecastDate == Present(xs)
      ensures rid == old(rid) && forecastMonth == old(forecastMonth) && values == old(values)
    {
      forecastDate := Present(xs);
    }

    /** `table.loc[:, c] = x`: every row of forecast column `c` becomes `x`. */
    method Fill(c: ValueColumn, x: real)
      requires Valid()
      modifies this
      ensures Valid()
      ensures values == old(values)[c := Constant(|rid|, x)]
      ensures rid == old(rid) && forecastMonth == old(forecastMonth) && forecastDate == old(forecastDate)
    {
      values := values[c := Constant(|rid|, x)];
    }

    /** `table.loc[:, c] = column`: forecast column `c` becomes `xs`, row by row. */
    method Assign(c: ValueColumn, xs: seq<Option<real>>)
      requires Valid() && |xs| == |rid|
      modifies this
      ensures Valid()
      ensures values == old(values)[c := xs]
      ensures rid == old(rid) && forecastMonth == old(forecastMonth) && forecastDate == old(forecastDate)
    {
      values := values[c := xs];
    }
  }

  /** The layout of row k of the submission table: subject k / n, forecast month
      k % n + 1, and the calendar month k % n months after 2010-05. */
  lemma RowLayout(subjects: seq<int>, n: nat, k: int)
    requires 0 <= k < |subjects| * n
    ensures n > 0 && 0 <= k / n < |subjects| && 0 <= k % n < n
    ensures |Repeat(subjects, n)| == |Tile(MonthNumbers(n), |subjects|)| == |Tile(ForecastDates(n), |subjects|)| == |subjects| * n
    ensures Repeat(subjects, n)[k] == subjects[k / n]
    ensures Tile(MonthNumbers(n), |subjects|)[k] == k % n + 1
    ensures Tile(ForecastDates(n), |subjects|)[k] == ForecastDate(k % n)
  {
    QuotientBound(k, |subjects|, n);
    RepeatAt(subjects, n, k);
    TileAt(MonthNumbers(n), |subjects|, k);
    TileAt(ForecastDates(n), |subjects|, k);
  }

  /** The three identifying columns of the submission table, row by row. */
  lemma Layout(subjects: seq<int>, n: nat)
    ensures |Repeat(subjects, n)| == |subjects| * n
    ensures |Tile(MonthNumbers(n), |subjects|)| == |subjects| * n
    ensures |Tile(ForecastDates(n), |subjects|)| == |subjects| * n
    ensures forall k :: 0 <= k < |subjects| * n ==>
      0 <= k / n < |subjects| &&
      Repeat(subjects, n)[k] == subjects[k / n] &&
      Tile(MonthNumbers(n), |subjects|)[k] == k % n + 1 &&
      Tile(ForecastDates(n), |subjects|)[k] == ForecastDate(k % n)
  {
    RepeatLength(subjects, n);
    TileLength(MonthNumbers(n), |subjects|);
    TileLength(ForecastDates(n), |subjects|);
    forall k | 0 <= k < |subjects| * n
      ensures 0 <= k / n < |subjects|
      ensures Repeat(subjects, n)[k] == subjects[k / n]
      ensures Tile(MonthNumbers(n), |subjects|)[k] == k % n + 1
      ensures Tile(ForecastDates(n), |subjects|)[k] == ForecastDate(k % n)
    {
      RowLayout(subjects, n, k);
    }
  }

  /** The empty submission table for `subjects` and `nForecasts` months: row k belongs
      to subject k / nForecasts and forecasts month k % nForecasts + 1, the calendar
      month that many months after 2010-05; the forecast columns are empty. No subjects
      give no rows. */
  method CreateSubmissionTable(subjects: seq<int>, nForecasts: nat) returns (table: ForecastTable)
    ensures fresh(table) && table.Valid()
    ensures |table.rid| == |subjects| * nForecasts
    ensures forall k :: 0 <= k < |subjects| * nForecasts ==>
      0 <= k / nForecasts < |subjects| &&
      table.rid[k] == Some(subjects[k / nForecasts]) &&
      table.forecastMonth[k] == Some(k % nForecasts + 1) &&
      table.forecastDate[k] == Some(ForecastDate(k % nForecasts))
    ensures forall c: ValueColumn :: table.values[c] == Missing(|table.rid|)
  {
    Layout(subjects, nForecasts);
    var rid := Repeat(subjects, nForecasts);
    var months := Tile(MonthNumbers(nForecasts), |subjects|);
    var dates := Tile(ForecastDates(nForecasts), |subjects|);
    table := new ForecastTable(|rid|);
    table.SetRID(rid);
    table.SetForecastMonth(months);
    table.SetForecastDate(dates);
  }
}
