/** `create_combined_summary_table`: the "Metrics Summary" table with one
    row per metric, a value cell per loaded dataset and, where the two
    datasets differ in the direction a metric's policy calls better or
    worse, a coloured delta note. */
module Comparison {

  import opened Wrappers
  import opened Frames
  import opened Statistics
  import opened Summary
  import opened Duration
  import opened Text

  /** The three dashboards that draw the table: the measurement tool, the
      progress tool and the root progress dashboard. */
  datatype Dashboard = MeasurementTool | ProgressTool | RootProgress

  /** The values of `higher_is_better`: `True`, `False` and `'closer_to_zero'`. */
  datatype Policy = HigherIsBetter | LowerIsBetter | CloserToZero

  /** The colour of a cell: "text-success", "text-danger", or none. */
  datatype Verdict = Better | Worse | Neutral

  function Abs(x: real): real {
    if x < 0.0 then -x else x
  }

  /** The policy of the speed block, the same on every dashboard. */
  function SpeedPolicy(k: Measure): Policy {
    match k
    case StdDev => LowerIsBetter
    case Skewness => CloserToZero
    case _ => HigherIsBetter
  }

  /** `higher_is_better.get(metric)`; None where the dict has no entry. */
  function PolicyOf(b: Dashboard, m: Metric): Option<Policy> {
    match m
    case TotalTime => Some(LowerIsBetter)
    case TotalBlocks => Some(HigherIsBetter)
    case OverallSpeed => Some(HigherIsBetter)
    case TotalTransactions => if b == MeasurementTool then Some(HigherIsBetter) else None
    case TotalAts => if b == MeasurementTool then Some(HigherIsBetter) else None
    case SampleStat(s, k) =>
      if s == Speed then Some(SpeedPolicy(k))
      else if s == TxPerBlock && b == MeasurementTool && k != Skewness then
        Some(if k == StdDev then LowerIsBetter else HigherIsBetter)
      else None
    case TimingStat(_, k) => if b == MeasurementTool && k in TimingMeasures then Some(LowerIsBetter) else None
    case _ => None
  }

  /** The classification of one cell against the other dataset's figure:
      `diff = mine - other`, nothing when `diff == 0`, and otherwise the
      policy's rule. A NaN on either side makes every comparison false. */
  function Classify(p: Option<Policy>, mine: Stat, other: Stat): Verdict {
    if mine.NaN? || other.NaN? || p.None? then Neutral
    else
      var diff := mine.x - other.x;
      if diff == 0.0 then Neutral
      else match p.value
        case CloserToZero =>
          if Abs(mine.x) < Abs(other.x) then Better
          else if Abs(mine.x) > Abs(other.x) then Worse
          else Neutral
        case HigherIsBetter => if diff > 0.0 then Better else Worse
        case LowerIsBetter => if diff < 0.0 then Better else Worse
  }

  /** The delta text. The float formats stay symbolic: `SignedFixed` is
      `f"{d:+.2f}"` and `SignedGrouped` is `f"{d:+,}"`. */
  datatype Delta = SignedFixed(x: real) | SignedGrouped(x: real) | TimeDelta(text: string)

  /** `f"{sign}{format_seconds(abs(diff))} ({sign}{int(abs(diff))}s)"`; the
      progress tool writes square brackets around the seconds. */
  function TimeDeltaText(b: Dashboard, d: real): string {
    var sign := if d > 0.0 then "+" else "-";
    var open := if b == ProgressTool then " [" else " (";
    var close := if b == ProgressTool then "s]" else "s)";
    sign + FormatSeconds(Some(Abs(d))) + (open + sign + IntToString(Trunc(Abs(d))) + close)
  }

  /** The delta text of a cell: the elapsed time as a duration, the blocks
      synced with thousands separators in the comparison cell only, and a
      signed two-decimal number otherwise. */
  function DeltaOf(b: Dashboard, side: Prefix, m: Metric, d: real): Delta {
    if m == TotalTime then TimeDelta(TimeDeltaText(b, d))
    else if m == TotalBlocks && side == Comparison then SignedGrouped(d)
    else SignedFixed(d)
  }

  /** The coloured span `" (delta)"` appended to a cell. */
  datatype Note = Note(verdict: Verdict, delta: Delta)

  datatype ValueCell = ValueCell(shown: Shown, note: Option<Note>)

  /** The note of a cell showing `mine` against `other`: only when both raw
      values are present and the verdict is a colour. */
  function Annotation(b: Dashboard, side: Prefix, m: Metric, mine: Entry, other: Entry): Option<Note> {
    if mine.raw.Some? && other.raw.Some? && mine.raw.value.Val? && other.raw.value.Val? then
      var v := Classify(PolicyOf(b, m), mine.raw.value, other.raw.value);
      if v == Neutral then None else Some(Note(v, DeltaOf(b, side, m, mine.raw.value.x - other.raw.value.x)))
    else None
  }

  /** The original dataset's cell; the root progress dashboard never
      annotates it. */
  function OriginalCell(b: Dashboard, m: Metric, orig: Stats, comp: Option<Stats>): ValueCell {
    ValueCell(Lookup(orig, m).shown,
              if comp.Some? && b != RootProgress then Annotation(b, Original, m, Lookup(orig, m), Lookup(comp.value, m))
              else None)
  }

  /** The comparison dataset's cell; without an original dataset the
      original stats are `{}` and every raw value is None. */
  function ComparisonCell(b: Dashboard, m: Metric, orig: Option<Stats>, comp: Stats): ValueCell {
    var o := if orig.Some? then orig.value else map[];
    ValueCell(Lookup(comp, m).shown, Annotation(b, Comparison, m, Lookup(comp, m), Lookup(o, m)))
  }

  /** A table row: a section header spanning the table, or a metric with its
      value cells. */
  datatype Row = HeaderRow(title: Metric, span: nat) | MetricRow(metric: Metric, cells: seq<ValueCell>)

  /** The metrics whose key starts with 'HEADER_'. */
  predicate IsHeaderKey(m: Metric) {
    m.SampleHeader? || m.TimingHeader?
  }

  function RowFor(b: Dashboard, m: Metric, orig: Option<Stats>, comp: Option<Stats>): Row {
    if b == MeasurementTool && IsHeaderKey(m) then
      HeaderRow(m, 1 + (if orig.Some? then 1 else 0) + (if comp.Some? then 1 else 0))
    else
      MetricRow(m, (if orig.Some? then [OriginalCell(b, m, orig.value, comp)] else [])
                   + (if comp.Some? then [ComparisonCell(b, m, orig, comp.value)] else []))
  }

  function Rows(b: Dashboard, order: seq<Metric>, orig: Option<Stats>, comp: Option<Stats>): seq<Row> {
    seq(|order|, i requires 0 <= i < |order| => RowFor(b, order[i], orig, comp))
  }

  /** The loop over the metric names, appending one row each. */
  method SummaryRows(b: Dashboard, order: seq<Metric>, orig: Option<Stats>, comp: Option<Stats>) returns (rows: seq<Row>)
    ensures rows == Rows(b, order, orig, comp)
  {
    rows := [];
    for i := 0 to |order|
      invariant rows == Rows(b, order[..i], orig, comp)
    {
      rows := rows + [RowFor(b, order[i], orig, comp)];
      assert order[..i + 1][..i] == order[..i];
    }
    assert order[..|order|] == order;
  }

  // ------------------------------------------------------------------
  // The metric order

  /** The measurement tool's `metric_order` before the timing loop. The
      transaction block repeats the speed block's standard deviation and
      skewness, where the transaction figures were evidently meant. */
  const MeasurementHead: seq<Metric> :=
    [TotalTime, TotalBlocks, TotalTransactions, TotalAts, OverallSpeed,
     SampleHeader(Speed),
     SampleStat(Speed, Min), SampleStat(Speed, Q1), SampleStat(Speed, Mean), SampleStat(Speed, Median),
     SampleStat(Speed, Q3), SampleStat(Speed, Max), SampleStat(Speed, StdDev), SampleStat(Speed, Skewness),
     SampleHeader(TxPerBlock),
     SampleStat(TxPerBlock, Min), SampleStat(TxPerBlock, Q1), SampleStat(TxPerBlock, Mean),
     SampleStat(TxPerBlock, Median), SampleStat(TxPerBlock, Q3), SampleStat(TxPerBlock, Max),
     SampleStat(Speed, StdDev), SampleStat(Speed, Skewness)]

  /** The first `j` figures of one timing column. */
  function TimingFigureKeys(t: Timing, j: nat): seq<Metric>
    requires j <= |TimingMeasures|
  {
    if j == 0 then [] else TimingFigureKeys(t, j - 1) + [TimingStat(t, TimingMeasures[j - 1])]
  }

  /** The header and the five figures of one timing column. */
  function TimingSection(t: Timing): seq<Metric> {
    [TimingHeader(t)] + TimingFigureKeys(t, |TimingMeasures|)
  }

  /** The sections of the first `i` timing columns. */
  function TimingOrder(i: nat): seq<Metric>
    requires i <= |AllTimings|
  {
    if i == 0 then [] else TimingOrder(i - 1) + TimingSection(AllTimings[i - 1])
  }

  const MeasurementOrder: seq<Metric> := MeasurementHead + TimingOrder(|AllTimings|)

  /** The fixed list of the progress tool, and the key order of the root
      progress dashboard's stats dict, whose keys it lists. */
  const ProgressOrder: seq<Metric> :=
    [TotalTime, TotalBlocks, OverallSpeed,
     SampleStat(Speed, Min), SampleStat(Speed, Q1), SampleStat(Speed, Mean), SampleStat(Speed, Median),
     SampleStat(Speed, Q3), SampleStat(Speed, Max), SampleStat(Speed, StdDev), SampleStat(Speed, Skewness)]

  function MetricOrder(b: Dashboard): seq<Metric> {
    if b == MeasurementTool then MeasurementOrder else ProgressOrder
  }

  /** The measurement tool's loop appending a header and five figures per
      timing column to `metric_order`. */
  method BuildMeasurementOrder() returns (order: seq<Metric>)
    ensures order == MeasurementOrder
  {
    order := MeasurementHead;
    for i := 0 to |AllTimings|
      invariant order == MeasurementHead + TimingOrder(i)
    {
      order := AppendTimingSection(order, AllTimings[i]);
      assert MeasurementHead + TimingOrder(i) + TimingSection(AllTimings[i]) == MeasurementHead + TimingOrder(i + 1);
    }
  }

  /** One pass of the outer loop: the header, then the inner loop over the
      five statistics. */
  method AppendTimingSection(start: seq<Metric>, t: Timing) returns (order: seq<Metric>)
    ensures order == start + TimingSection(t)
  {
    order := start + [TimingHeader(t)];
    for j := 0 to |TimingMeasures|
      invariant order == start + [TimingHeader(t)] + TimingFigureKeys(t, j)
    {
      order := order + [TimingStat(t, TimingMeasures[j])];
    }
  }

  // ------------------------------------------------------------------
  // The whole table

  /** `get_stats_dict` of the dashboard. */
  function StatsOf(b: Dashboard, f: Frame, std: seq<real> -> real, skew: seq<real> -> real): Result<Stats, StatsError>
    requires Rectangular(f)
  {
    if b == MeasurementTool then MeasurementStats(f, std, skew) else ProgressStats(f, std, skew)
  }

  /** The stats of a dataset when it is loaded (`df` non-empty), else None. */
  function StatsIfLoaded(b: Dashboard, f: Frame, std: seq<real> -> real, skew: seq<real> -> real): Result<Option<Stats>, StatsError>
    requires Rectangular(f)
  {
    if IsEmpty(f) then Success(None)
    else match StatsOf(b, f, std, skew)
      case Failure(e) => Failure(e)
      case Success(d) => Success(Some(d))
  }

  /** The body rows of the summary table, or None where the dashboard draws
      no table; a failing `get_stats_dict` fails the table, the original
      dataset's first. The root progress dashboard always computes the
      original dataset's stats. */
  function SummaryTable(b: Dashboard, fo: Frame, fc: Frame, std: seq<real> -> real, skew: seq<real> -> real)
    : Result<Option<seq<Row>>, StatsError>
    requires Rectangular(fo) && Rectangular(fc)
  {
    if b == ProgressTool && IsEmpty(fo) && IsEmpty(fc) then Success(None)
    else
      var o := if b == RootProgress then
                 (match ProgressStats(fo, std, skew) case Failure(e) => Failure(e) case Success(d) => Success(Some(d)))
               else StatsIfLoaded(b, fo, std, skew);
      match o
      case Failure(e) => Failure(e)
      case Success(orig) =>
        match StatsIfLoaded(b, fc, std, skew)
        case Failure(e) => Failure(e)
        case Success(comp) => Success(Some(Rows(b, MetricOrder(b), orig, comp)))
  }

  /** `create_combined_summary_table` as it runs: the stats, the metric
      order and the loop over the rows. */
  method CreateSummaryTable(b: Dashboard, fo: Frame, fc: Frame, std: seq<real> -> real, skew: seq<real> -> real)
    returns (r: Result<Option<seq<Row>>, StatsError>)
    requires Rectangular(fo) && Rectangular(fc)
    ensures r == SummaryTable(b, fo, fc, std, skew)
  {
    if b == ProgressTool && IsEmpty(fo) && IsEmpty(fc) {
      return Success(None);
    }
    var orig: Option<Stats>;
    if b == RootProgress {
      var d := ProgressStats(fo, std, skew);
      if d.Failure? {
        return Failure(d.error);
      }
      orig := Some(d.value);
    } else {
      var o := StatsIfLoaded(b, fo, std, skew);
      if o.Failure? {
        return Failure(o.error);
      }
      orig := o.value;
    }
    var c := StatsIfLoaded(b, fc, std, skew);
    if c.Failure? {
      return Failure(c.error);
    }
    var order: seq<Metric>;
    if b == MeasurementTool {
      order := BuildMeasurementOrder();
    } else {
      order := ProgressOrder;
    }
    var rows := SummaryRows(b, order, orig, c.value);
    return Success(Some(rows));
  }
}
