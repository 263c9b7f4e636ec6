/** The statistical summary table of the root measurement report: for each
    of its ten metrics the least value, the mean, the median, the greatest
    value and the sample standard deviation of that column, as
    `df[all_metrics].describe()` gives them. The table is shown for the
    uploaded log, or for the log read at start-up when nothing is uploaded. */
module MeasurementReport {

  import opened Wrappers
  import opened Frames
  import opened Statistics
  import Enrichment

  /** `all_metrics = time_metrics + other_metrics`: the nine graphed
      timings and the transaction count. */
  const SummaryMetrics: seq<Column> := Enrichment.GraphedTimings + [TxCount]

  /** One row of `describe().T[["min", "mean", "50%", "max", "std"]]`,
      with "50%" renamed to "median" and "std" to "stddev". */
  datatype SummaryRow = SummaryRow(metric: Column, min: Stat, mean: Stat, median: Stat, max: Stat, stddev: Stat)

  /** What the summary container shows: the paragraph "No measurement data
      to display." or the table. */
  datatype SummaryView = NoData | Table(rows: seq<SummaryRow>)

  /** The KeyError of `df[all_metrics]` for an absent metric, and the one
      of the row selection when `describe` had no numeric column to
      summarise (it then describes text columns, without "min"). */
  datatype SummaryError = MissingColumn(c: Column) | NoNumericColumns

  /** pandas reads a column as numbers when none of its cells is text;
      `describe` summarises only such columns. */
  predicate NumericColumn(s: seq<Cell>) {
    forall i | 0 <= i < |s| :: !s[i].Text?
  }

  /** The first metric, in list order, that the table lacks. */
  function FirstMissing(f: Frame, ms: seq<Column>): (r: Option<Column>)
    ensures r.Some? ==> r.value in ms && r.value !in f.cols
    ensures r.None? <==> forall c | c in ms :: c in f.cols
    decreases |ms|
  {
    if ms == [] then None
    else if ms[0] !in f.cols then Some(ms[0])
    else
      var r := FirstMissing(f, ms[1..]);
      assert forall c | c in ms :: c == ms[0] || c in ms[1..];
      r
  }

  /** The summary row of one column. */
  function Row(c: Column, s: seq<Cell>, std: seq<real> -> real): SummaryRow {
    var d := Describe(s, std);
    SummaryRow(c, d.min, d.mean, d.median, d.max, d.std)
  }

  /** The metrics `describe` summarises: the numeric ones, in list order. */
  function NumericMetrics(f: Frame, ms: seq<Column>): (r: seq<Column>)
    requires forall c | c in ms :: c in f.cols
    ensures |r| <= |ms|
    ensures forall c :: c in r <==> c in ms && NumericColumn(f.cols[c])
    ensures (forall c | c in ms :: NumericColumn(f.cols[c])) ==> r == ms
    decreases |ms|
  {
    if ms == [] then []
    else
      assert forall c | c in ms :: c == ms[0] || c in ms[1..];
      var tail := NumericMetrics(f, ms[1..]);
      if NumericColumn(f.cols[ms[0]]) then [ms[0]] + tail else tail
  }

  /** The rows of `describe().T`: one per numeric metric, in list order. */
  function SummaryRows(f: Frame, ms: seq<Column>, std: seq<real> -> real): seq<SummaryRow>
    requires forall c | c in ms :: c in f.cols
  {
    var nm := NumericMetrics(f, ms);
    seq(|nm|, i requires 0 <= i < |nm| => Row(nm[i], f.cols[nm[i]], std))
  }

  /** The summary of a loaded table. */
  function SummaryTable(f: Frame, std: seq<real> -> real): Result<SummaryView, SummaryError> {
    if IsEmpty(f) then Success(NoData)
    else match FirstMissing(f, SummaryMetrics)
      case Some(c) => Failure(MissingColumn(c))
      case None =>
        var rows := SummaryRows(f, SummaryMetrics, std);
        if rows == [] then Failure(NoNumericColumns) else Success(Table(rows))
  }

  /** The table the callback summarises: the uploaded one, an empty table
      when the upload could not be parsed, and otherwise the table read at
      start-up. */
  function SummaryInput(upload: Option<Option<Frame>>, startup: Frame): (r: Frame)
    ensures upload == Some(None) ==> IsEmpty(r)
    ensures upload.Some? && upload.value.Some? ==> r == upload.value.value
    ensures upload.None? ==> (IsEmpty(r) <==> IsEmpty(startup)) && (!IsEmpty(startup) ==> r == startup)
  {
    match upload
    case Some(Some(f)) => f
    case Some(None) => Frame(0, map[])
    case None => if IsEmpty(startup) then Frame(0, map[]) else startup
  }

  /** `update_summary_table` */
  function UpdateSummaryTable(upload: Option<Option<Frame>>, startup: Frame, std: seq<real> -> real)
    : Result<SummaryView, SummaryError>
  {
    SummaryTable(SummaryInput(upload, startup), std)
  }

  // ------------------------------------------------------------------
  // properties

  /** The metrics are the ten columns the report names, in its order. */
  lemma SummaryMetricsNames()
    ensures |SummaryMetrics| == 10
    ensures forall i, j | 0 <= i < j < |SummaryMetrics| :: SummaryMetrics[i] != SummaryMetrics[j]
    ensures seq(|SummaryMetrics|, i requires 0 <= i < |SummaryMetrics| => ColumnName(SummaryMetrics[i])) ==
      ["Push_block_time[ms]", "Validation_time[ms]", "Tx_loop_time[ms]", "Housekeeping_time[ms]",
       "Tx_apply_time[ms]", "AT_time[ms]", "Subscription_time[ms]", "Block_apply_time[ms]",
       "Commit_time[ms]", "Transaction_count"]
  {
  }

  /** The no-data paragraph is shown exactly for an empty table. */
  lemma SummaryOfEmpty(f: Frame, std: seq<real> -> real)
    ensures SummaryTable(f, std) == Success(NoData) <==> IsEmpty(f)
  {
  }

  /** A non-empty table that lacks a metric fails on the first one it
      lacks. */
  lemma SummaryMissingColumn(f: Frame, std: seq<real> -> real)
    ensures var r := SummaryTable(f, std);
      && (r.Failure? && r.error.MissingColumn? <==>
            !IsEmpty(f) && exists c | c in SummaryMetrics :: c !in f.cols)
      && (r.Failure? && r.error.MissingColumn? ==> r.error.c in SummaryMetrics && r.error.c !in f.cols)
  {
    if !IsEmpty(f) && exists c | c in SummaryMetrics :: c !in f.cols {
      assert FirstMissing(f, SummaryMetrics).Some?;
    }
  }

  /** With every metric present, the summary fails exactly when no metric
      column is numeric. */
  lemma SummaryNoNumeric(f: Frame, std: seq<real> -> real)
    requires !IsEmpty(f) && forall c | c in SummaryMetrics :: c in f.cols
    ensures SummaryTable(f, std) == Failure(NoNumericColumns) <==>
      forall c | c in SummaryMetrics :: !NumericColumn(f.cols[c])
  {
    var nm := NumericMetrics(f, SummaryMetrics);
    assert |SummaryRows(f, SummaryMetrics, std)| == |nm|;
    if nm != [] {
      assert nm[0] in nm;
    }
    if exists c | c in SummaryMetrics :: NumericColumn(f.cols[c]) {
      var c :| c in SummaryMetrics && NumericColumn(f.cols[c]);
      assert c in nm;
    }
  }

  /** Each row of a shown table summarises a numeric metric column, and
      every numeric metric has a row. */
  lemma SummaryRowsShape(f: Frame, std: seq<real> -> real)
    ensures var r := SummaryTable(f, std);
      r.Success? && r.value.Table? ==>
        && (forall i | 0 <= i < |r.value.rows| ::
              var row := r.value.rows[i];
              row.metric in SummaryMetrics && row.metric in f.cols && NumericColumn(f.cols[row.metric])
              && row == Row(row.metric, f.cols[row.metric], std))
        && (forall c | c in SummaryMetrics && NumericColumn(f.cols[c]) ::
              exists i | 0 <= i < |r.value.rows| :: r.value.rows[i].metric == c)
  {
    var r := SummaryTable(f, std);
    if r.Success? && r.value.Table? {
      var nm := NumericMetrics(f, SummaryMetrics);
      var rows := r.value.rows;
      assert rows == SummaryRows(f, SummaryMetrics, std);
      forall i | 0 <= i < |rows| ensures rows[i].metric == nm[i] {
        assert rows[i] == Row(nm[i], f.cols[nm[i]], std);
      }
      forall c | c in SummaryMetrics && NumericColumn(f.cols[c])
        ensures exists i | 0 <= i < |rows| :: rows[i].metric == c
      {
        var i :| 0 <= i < |nm| && nm[i] == c;
        assert rows[i].metric == c;
      }
    }
  }

  /** With every metric present and numeric, the table has the ten rows in
      the report's order. */
  lemma SummaryAllNumeric(f: Frame, std: seq<real> -> real)
    requires !IsEmpty(f) && forall c | c in SummaryMetrics :: c in f.cols && NumericColumn(f.cols[c])
    ensures var r := SummaryTable(f, std);
      r.Success? && r.value.Table? && |r.value.rows| == 10
      && forall i | 0 <= i < 10 :: r.value.rows[i].metric == SummaryMetrics[i]
  {
    SummaryMetricsNames();
    var rows := SummaryRows(f, SummaryMetrics, std);
    assert NumericMetrics(f, SummaryMetrics) == SummaryMetrics;
    forall i | 0 <= i < 10 ensures rows[i].metric == SummaryMetrics[i] {
      assert rows[i] == Row(SummaryMetrics[i], f.cols[SummaryMetrics[i]], std);
    }
  }

  /** Each row's figures are those of `describe`: all NaN without values;
      otherwise the least value, the median and the greatest value in
      order with the mean between the extremes, and a standard deviation
      only from two values on. */
  lemma RowFigures(c: Column, s: seq<Cell>, std: seq<real> -> real)
    ensures var r := Row(c, s, std);
      && r.metric == c
      && (r.min.NaN? <==> Numbers(s) == [])
      && (Numbers(s) == [] ==> r.mean.NaN? && r.median.NaN? && r.max.NaN? && r.stddev.NaN?)
      && (r.stddev.NaN? <==> |Numbers(s)| < 2)
      && (Numbers(s) != [] ==>
            Ordered(r.min, r.median) && Ordered(r.median, r.max)
            && Ordered(r.min, r.mean) && Ordered(r.mean, r.max)
            && r.min.x in Numbers(s) && r.max.x in Numbers(s)
            && forall x | x in Numbers(s) :: r.min.x <= x <= r.max.x)
  {
    DescribeContract(s, std);
    var d := Describe(s, std);
    if Numbers(s) != [] {
      assert Ordered(d.min, d.q1) && Ordered(d.q1, d.median);
      assert Ordered(d.median, d.q3) && Ordered(d.q3, d.max);
    }
  }

  /** A parse failure of the uploaded file shows the no-data paragraph
      whatever was read at start-up. */
  lemma UnparsableUploadShowsNoData(startup: Frame, std: seq<real> -> real)
    ensures UpdateSummaryTable(Some(None), startup, std) == Success(NoData)
  {
    SummaryOfEmpty(SummaryInput(Some(None), startup), std);
  }
}
