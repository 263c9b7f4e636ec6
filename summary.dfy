/** `get_stats_dict`: the per-dataset figures behind the "Metrics Summary"
    table, each with the text the table shows and the raw number the
    comparison colouring uses. The measurement tool's table has totals,
    four sample blocks and one block per timing column; the two progress
    dashboards have the totals and the speed block only. */
module Summary {

  import opened Wrappers
  import opened Frames
  import opened Statistics
  import opened Duration
  import opened Text

  /** The samples whose statistics the measurement tool summarises. */
  datatype Sample = Speed | TxPerBlock | UserTxPerBlock | SystemTxPerBlock

  datatype Measure = Min | Q1 | Mean | Median | Q3 | Max | StdDev | Skewness

  /** The figures of a sample block, and of a timing block. */
  const SampleMeasures: seq<Measure> := [Min, Q1, Mean, Median, Q3, Max, StdDev, Skewness]
  const TimingMeasures: seq<Measure> := [Min, Max, Mean, Median, StdDev]

  /** The keys of the stats dict. Each constructor stands for one key string;
      the strings differ slightly between the dashboards (the progress tool
      writes "Total Sync in Progress Time [s]", the root progress dashboard
      "Min Blocks/sec (sample)" where the others write
      "Min Sync Speed [Blocks/sec sample]", and so on). */
  datatype Metric =
    | TotalTime                              // 'Total Sync in Progress Time'
    | TotalBlocks                            // 'Total Blocks Synced'
    | TotalTransactions                      // 'Total Transactions'
    | TotalAts                               // 'Total ATs Executed'
    | OverallSpeed                           // 'Overall Average Sync Speed [Blocks/sec]'
    | SampleStat(sample: Sample, measure: Measure)   // 'Min Sync Speed [...]', 'Q1 - Transactions per Block', ...
    | TimingStat(timing: Timing, measure: Measure)   // 'Min - Push Block Time [ms]', ...
    | SampleHeader(sample: Sample)           // 'HEADER_Transactions per Block', ...
    | TimingHeader(timing: Timing)           // 'HEADER_Push Block Time [ms]', ...
    | ElapsedOnly                            // 'Total Time'
    | AverageTiming(timing: Timing)          // 'Avg Push Block Time [ms]', ...

  /** What a summary cell shows. The float formats are kept symbolic:
      `Fixed` is `f"{x:.2f}"` and `Grouped` is `f"{x:,}"`. */
  datatype Shown = NotAvailable | Blank | Fixed(x: Stat) | Grouped(x: Stat) | Elapsed(text: string)

  /** `{'display': ..., 'raw': ...}`; a raw `None` is `None` here. */
  datatype Entry = Entry(shown: Shown, raw: Option<Stat>)

  const NA: Entry := Entry(NotAvailable, None)
  const Heading: Entry := Entry(Blank, None)

  /** The exceptions a stats computation can raise. */
  datatype StatsError =
    | KeyError(column: Column)   // a column read without a presence check
    | NaNToInteger               // `int(...)` of a NaN time span

  type Stats = map<Metric, Entry>

  /** `stats.get(metric, {})` followed by `.get('display', 'N/A')` and `.get('raw')`. */
  function Lookup(d: Stats, m: Metric): Entry {
    if m in d then d[m] else NA
  }

  // ------------------------------------------------------------------
  // Building blocks

  function AsStat(c: Cell): Stat {
    if c.Num? then Val(c.value) else NaN
  }

  /** `df[c].iloc[-1] - df[c].iloc[0]` */
  function Span(f: Frame, c: Column): (r: Stat)
    requires Rectangular(f) && c in f.cols && f.nrows > 0
    ensures f.cols[c][0].Num? && f.cols[c][f.nrows - 1].Num? <==> r.Val?
    ensures r.Val? ==> r.x == f.cols[c][f.nrows - 1].value - f.cols[c][0].value
  {
    AsStat(Minus(f.cols[c][f.nrows - 1], f.cols[c][0]))
  }

  /** `blocks / seconds if seconds > 0 else 0.0` */
  function AverageSpeed(blocks: Stat, secs: Stat): (r: Stat)
    ensures !(secs.Val? && secs.x > 0.0) ==> r == Val(0.0)
    ensures secs.Val? && secs.x > 0.0 && blocks.Val? ==> r == Val(blocks.x / secs.x)
    ensures secs.Val? && secs.x > 0.0 && blocks.NaN? ==> r == NaN
  {
    if secs.Val? && secs.x > 0.0 then
      if blocks.Val? then Val(blocks.x / secs.x) else NaN
    else Val(0.0)
  }

  /** `f"{format_seconds(t)} ({int(t)}s)"` for a number of seconds. */
  function ElapsedText(t: real): string {
    FormatSeconds(Some(t)) + " (" + IntToString(Trunc(t)) + "s)"
  }

  /** The entry for the elapsed time; `int(NaN)` raises. */
  function TimeEntry(secs: Stat): (r: Result<Entry, StatsError>)
    ensures r.Failure? <==> secs.NaN?
    ensures r.Success? ==> r.value.raw == Some(secs)
  {
    if secs.NaN? then Failure(NaNToInteger) else Success(Entry(Elapsed(ElapsedText(secs.x)), Some(secs)))
  }

  /** The column, or the empty series `pd.Series(dtype=float)` when absent. */
  function SeriesOf(f: Frame, c: Column): seq<Cell> {
    if c in f.cols then f.cols[c] else []
  }

  /** `df[c].sum() if c in df.columns else 0` (NaN cells add nothing). */
  function SumOf(f: Frame, c: Column): Stat {
    if c in f.cols then Val(Total(Numbers(f.cols[c]))) else Val(0.0)
  }

  /** The statistics of a series and its skewness; an empty series gets
      zeros and a skewness of 0.0. */
  function SampleStats(s: seq<Cell>, std: seq<real> -> real, skew: seq<real> -> real): (Described, Stat) {
    if s == [] then (Zeros, Val(0.0)) else (Describe(s, std), Skew(s, skew))
  }

  function Figure(d: Described, k: Measure): Stat
    requires k != Skewness
  {
    match k
    case Min => d.min
    case Q1 => d.q1
    case Mean => d.mean
    case Median => d.median
    case Q3 => d.q3
    case Max => d.max
    case StdDev => d.std
  }

  /** One figure: shown with two decimals, and the same number raw, except
      that a NaN skewness is kept raw as 0.0. */
  function FigureEntry(d: Described, sk: Stat, k: Measure): Entry {
    if k == Skewness then Entry(Fixed(sk), Some(Val(RawSkew(sk))))
    else Entry(Fixed(Figure(d, k)), Some(Figure(d, k)))
  }

  function SampleKeys(s: Sample): set<Metric> {
    set k | k in SampleMeasures :: SampleStat(s, k)
  }

  /** The eight figures of a sample block. */
  function SampleBlock(s: Sample, st: (Described, Stat)): Stats {
    map m | m in SampleKeys(s) :: FigureEntry(st.0, st.1, m.measure)
  }

  /** Rows 1..n-1 of `Blocks_per_Second` (`iloc[1:]`): the first row's
      speed is a placeholder 0. */
  function SpeedSeries(f: Frame): seq<Cell>
    requires Rectangular(f)
  {
    if BlocksPerSecond in f.cols && f.nrows > 0 then f.cols[BlocksPerSecond][1..] else []
  }

  /** `All_transaction_count - User_transaction_count` per row, or the empty
      series when either column is absent. */
  function SystemSeries(f: Frame): (r: seq<Cell>)
    requires Rectangular(f)
    ensures AllTxCount in f.cols && UserTxCount in f.cols ==>
      |r| == f.nrows && forall i | 0 <= i < f.nrows :: r[i] == Minus(f.cols[AllTxCount][i], f.cols[UserTxCount][i])
    ensures !(AllTxCount in f.cols && UserTxCount in f.cols) ==> r == []
  {
    if AllTxCount in f.cols && UserTxCount in f.cols then
      seq(f.nrows, i requires 0 <= i < f.nrows => Minus(f.cols[AllTxCount][i], f.cols[UserTxCount][i]))
    else []
  }

  /** The series each sample block describes. */
  function SampleSeries(f: Frame, s: Sample): seq<Cell>
    requires Rectangular(f)
  {
    match s
    case Speed => SpeedSeries(f)
    case TxPerBlock => SeriesOf(f, AllTxCount)
    case UserTxPerBlock => SeriesOf(f, UserTxCount)
    case SystemTxPerBlock => SystemSeries(f)
  }

  // ------------------------------------------------------------------
  // The measurement tool

  /** Keys of the fewer-than-two-rows table. */
  function NotAvailableKeys(measurementTool: bool): set<Metric> {
    var common := {TotalTime, TotalBlocks, OverallSpeed} + SampleKeys(Speed);
    if measurementTool then common + {ElapsedOnly, TotalTransactions} + (set t | t in AllTimings :: AverageTiming(t))
    else common
  }

  function NotAvailableStats(measurementTool: bool): Stats {
    map m | m in NotAvailableKeys(measurementTool) :: NA
  }

  /** The elapsed seconds and blocks of the measurement tool's table; 0
      when the column is absent. */
  function MeasuredSeconds(f: Frame): Stat
    requires Rectangular(f) && f.nrows >= 2
  {
    if InProgressS in f.cols then Span(f, InProgressS) else Val(0.0)
  }

  function MeasuredBlocks(f: Frame): Stat
    requires Rectangular(f) && f.nrows >= 2
  {
    if BlockHeight in f.cols then Span(f, BlockHeight) else Val(0.0)
  }

  /** The totals and section headers of the measurement tool's dict literal. */
  function Totals(time: Entry, blocks: Stat, txs: Stat, ats: Stat, avg: Stat): Stats {
    map[TotalTime := time,
        TotalBlocks := Entry(Grouped(blocks), Some(blocks)),
        TotalTransactions := Entry(Grouped(txs), Some(txs)),
        TotalAts := Entry(Grouped(ats), Some(ats)),
        OverallSpeed := Entry(Fixed(avg), Some(avg)),
        SampleHeader(TxPerBlock) := Heading,
        SampleHeader(UserTxPerBlock) := Heading,
        SampleHeader(SystemTxPerBlock) := Heading]
  }

  /** The four sample blocks of the measurement tool's dict literal. */
  function SampleBlocks(f: Frame, std: seq<real> -> real, skew: seq<real> -> real): Stats
    requires Rectangular(f)
  {
    SampleBlocksOf(SampleStats(SampleSeries(f, Speed), std, skew),
                   SampleStats(SampleSeries(f, TxPerBlock), std, skew),
                   SampleStats(SampleSeries(f, UserTxPerBlock), std, skew),
                   SampleStats(SampleSeries(f, SystemTxPerBlock), std, skew))
  }

  /** The four sample blocks, from the statistics of each series. */
  function SampleBlocksOf(a: (Described, Stat), b: (Described, Stat), c: (Described, Stat), d: (Described, Stat)): Stats {
    SampleBlock(Speed, a) + SampleBlock(TxPerBlock, b) + SampleBlock(UserTxPerBlock, c) + SampleBlock(SystemTxPerBlock, d)
  }

  /** Everything the measurement tool's dict literal holds, before the loop
      over the timing columns. */
  function MeasurementBase(f: Frame, std: seq<real> -> real, skew: seq<real> -> real): Result<Stats, StatsError>
    requires Rectangular(f) && f.nrows >= 2
  {
    var secs := MeasuredSeconds(f);
    var blocks := MeasuredBlocks(f);
    match TimeEntry(secs)
    case Failure(e) => Failure(e)
    case Success(time) =>
      Success(Totals(time, blocks, SumOf(f, AllTxCount), SumOf(f, AtCount), AverageSpeed(blocks, secs))
              + SampleBlocks(f, std, skew))
  }

  /** `describe(percentiles=[.5])` of a timing column, zeros when absent. */
  function TimingDescribed(f: Frame, t: Timing, std: seq<real> -> real): Described {
    var s := SeriesOf(f, TimingMs(t));
    if s == [] then Zeros else Describe(s, std)
  }

  /** The header and the five figures the loop adds for one timing column. */
  function TimingBlock(f: Frame, t: Timing, std: seq<real> -> real): Stats {
    TimingEntries(t, TimingDescribed(f, t, std))
  }

  function TimingEntries(t: Timing, d: Described): Stats {
    map[][TimingHeader(t) := Heading]
         [TimingStat(t, Min) := FigureEntry(d, NaN, Min)]
         [TimingStat(t, Max) := FigureEntry(d, NaN, Max)]
         [TimingStat(t, Mean) := FigureEntry(d, NaN, Mean)]
         [TimingStat(t, Median) := FigureEntry(d, NaN, Median)]
         [TimingStat(t, StdDev) := FigureEntry(d, NaN, StdDev)]
  }

  /** The blocks of the first `i` timing columns. */
  function TimingBlocks(f: Frame, std: seq<real> -> real, i: nat): Stats
    requires i <= |AllTimings|
  {
    if i == 0 then map[] else TimingBlocks(f, std, i - 1) + TimingBlock(f, AllTimings[i - 1], std)
  }

  /** The measurement tool's `get_stats_dict`. */
  function MeasurementStats(f: Frame, std: seq<real> -> real, skew: seq<real> -> real): Result<Stats, StatsError>
    requires Rectangular(f)
  {
    if IsEmpty(f) || f.nrows < 2 then Success(NotAvailableStats(true))
    else match MeasurementBase(f, std, skew)
      case Failure(e) => Failure(e)
      case Success(base) => Success(base + TimingBlocks(f, std, |AllTimings|))
  }

  /** The measurement tool's `get_stats_dict` as it runs: the dict literal,
      then one pass over the timing columns adding six entries each. */
  method GetStatsDict(f: Frame, std: seq<real> -> real, skew: seq<real> -> real) returns (r: Result<Stats, StatsError>)
    requires Rectangular(f)
    ensures r == MeasurementStats(f, std, skew)
  {
    if IsEmpty(f) || f.nrows < 2 {
      return Success(NotAvailableStats(true));
    }
    var base := MeasurementBase(f, std, skew);
    if base.Failure? {
      return Failure(base.error);
    }
    var result := AddTimingStats(base.value, f, std);
    return Success(result);
  }

  /** The loop of `get_stats_dict` over the timing columns: for each, a
      header entry and its min, max, mean, median and standard deviation. */
  method AddTimingStats(start: Stats, f: Frame, std: seq<real> -> real) returns (result: Stats)
    ensures result == start + TimingBlocks(f, std, |AllTimings|)
  {
    result := start;
    UnionEmpty(start);
    for i := 0 to |AllTimings|
      invariant result == start + TimingBlocks(f, std, i)
    {
      var t := AllTimings[i];
      ghost var before := result;
      result := result[TimingHeader(t) := Heading];
      var d := TimingDescribed(f, t, std);
      result := result[TimingStat(t, Min) := FigureEntry(d, NaN, Min)];
      result := result[TimingStat(t, Max) := FigureEntry(d, NaN, Max)];
      result := result[TimingStat(t, Mean) := FigureEntry(d, NaN, Mean)];
      result := result[TimingStat(t, Median) := FigureEntry(d, NaN, Median)];
      result := result[TimingStat(t, StdDev) := FigureEntry(d, NaN, StdDev)];
      TimingStep(before, start, f, std, i);
    }
  }

  lemma TimingStep(before: Stats, base: Stats, f: Frame, std: seq<real> -> real, i: nat)
    requires i < |AllTimings| && before == base + TimingBlocks(f, std, i)
    ensures var t := AllTimings[i]; var d := TimingDescribed(f, t, std);
      before[TimingHeader(t) := Heading][TimingStat(t, Min) := FigureEntry(d, NaN, Min)]
            [TimingStat(t, Max) := FigureEntry(d, NaN, Max)][TimingStat(t, Mean) := FigureEntry(d, NaN, Mean)]
            [TimingStat(t, Median) := FigureEntry(d, NaN, Median)][TimingStat(t, StdDev) := FigureEntry(d, NaN, StdDev)]
      == base + TimingBlocks(f, std, i + 1)
  {
    var t := AllTimings[i];
    var d := TimingDescribed(f, t, std);
    var e := TimingBlocks(f, std, i);
    var b0: Stats := map[];
    var b1 := b0[TimingHeader(t) := Heading];
    var b2 := b1[TimingStat(t, Min) := FigureEntry(d, NaN, Min)];
    var b3 := b2[TimingStat(t, Max) := FigureEntry(d, NaN, Max)];
    var b4 := b3[TimingStat(t, Mean) := FigureEntry(d, NaN, Mean)];
    var b5 := b4[TimingStat(t, Median) := FigureEntry(d, NaN, Median)];
    var b6 := b5[TimingStat(t, StdDev) := FigureEntry(d, NaN, StdDev)];
    assert TimingBlock(f, t, std) == b6;
    UnionEmpty(before);
    UnionUpdate(before, b0, TimingHeader(t), Heading);
    UnionUpdate(before, b1, TimingStat(t, Min), FigureEntry(d, NaN, Min));
    UnionUpdate(before, b2, TimingStat(t, Max), FigureEntry(d, NaN, Max));
    UnionUpdate(before, b3, TimingStat(t, Mean), FigureEntry(d, NaN, Mean));
    UnionUpdate(before, b4, TimingStat(t, Median), FigureEntry(d, NaN, Median));
    UnionUpdate(before, b5, TimingStat(t, StdDev), FigureEntry(d, NaN, StdDev));
    UnionAssoc(base, e, b6);
  }

  lemma UnionEmpty(m: Stats)
    ensures m + map[] == m
  {
  }

  lemma UnionUpdate(m: Stats, e: Stats, k: Metric, v: Entry)
    ensures m + e[k := v] == (m + e)[k := v]
  {
  }

  lemma UnionAssoc(a: Stats, b: Stats, c: Stats)
    ensures (a + b) + c == a + (b + c)
  {
  }

  // ------------------------------------------------------------------
  // The two progress dashboards

  /** `get_stats_dict` of the progress tool and of the root progress
      dashboard (the same figures under different key strings). */
  function ProgressStats(f: Frame, std: seq<real> -> real, skew: seq<real> -> real): Result<Stats, StatsError>
    requires Rectangular(f)
  {
    if IsEmpty(f) || BlocksPerSecond !in f.cols || f.nrows < 2 then Success(NotAvailableStats(false))
    else if InProgressS !in f.cols then Failure(KeyError(InProgressS))
    else if BlockHeight !in f.cols then Failure(KeyError(BlockHeight))
    else
      var secs := Span(f, InProgressS);
      var blocks := Span(f, BlockHeight);
      var avg := AverageSpeed(blocks, secs);
      match TimeEntry(secs)
      case Failure(e) => Failure(e)
      case Success(time) =>
        Success(ProgressTotals(time, blocks, avg) + SampleBlock(Speed, SampleStats(SampleSeries(f, Speed), std, skew)))
  }

  /** The totals of the progress dashboards' dict literal. */
  function ProgressTotals(time: Entry, blocks: Stat, avg: Stat): Stats {
    map[TotalTime := time,
        TotalBlocks := Entry(Grouped(blocks), Some(blocks)),
        OverallSpeed := Entry(Fixed(avg), Some(avg))]
  }

  // ------------------------------------------------------------------
  // Where each entry comes from

  lemma SampleBlockFacts(s: Sample, st: (Described, Stat))
    ensures forall m :: m in SampleBlock(s, st) <==> m.SampleStat? && m.sample == s
    ensures forall k: Measure :: SampleBlock(s, st)[SampleStat(s, k)] == FigureEntry(st.0, st.1, k)
  {
    forall k: Measure ensures k in SampleMeasures {
      match k
      case Min => assert SampleMeasures[0] == k;
      case Q1 => assert SampleMeasures[1] == k;
      case Mean => assert SampleMeasures[2] == k;
      case Median => assert SampleMeasures[3] == k;
      case Q3 => assert SampleMeasures[4] == k;
      case Max => assert SampleMeasures[5] == k;
      case StdDev => assert SampleMeasures[6] == k;
      case Skewness => assert SampleMeasures[7] == k;
    }
  }

  lemma {:induction false} TimingBlocksKeys(f: Frame, std: seq<real> -> real, i: nat)
    requires i <= |AllTimings|
    ensures forall m | m in TimingBlocks(f, std, i) :: m.TimingHeader? || m.TimingStat?
  {
    if i > 0 {
      TimingBlocksKeys(f, std, i - 1);
    }
  }

  /** The loop's entries for the `j`-th timing column survive the later passes. */
  lemma {:induction false} TimingBlocksAt(f: Frame, std: seq<real> -> real, i: nat, j: nat, k: Measure)
    requires j < i <= |AllTimings| && k in TimingMeasures
    ensures var t := AllTimings[j];
      TimingStat(t, k) in TimingBlocks(f, std, i)
      && TimingBlocks(f, std, i)[TimingStat(t, k)] == FigureEntry(TimingDescribed(f, t, std), NaN, k)
  {
    var t := AllTimings[j];
    var last := AllTimings[i - 1];
    var prev := TimingBlocks(f, std, i - 1);
    var b := TimingBlock(f, last, std);
    var m := TimingStat(t, k);
    assert TimingBlocks(f, std, i) == prev + b;
    UnionLookup(prev, b, m);
    if m in b {
      TimingBlockKeys(f, last, std);
      TimingBlockAt(f, t, std, k);
    } else {
      TimingBlockAt(f, last, std, k);
      assert t != last;
      EarlierTiming(i, j);
      TimingBlocksAt(f, std, i - 1, j, k);
    }
  }

  lemma EarlierTiming(i: nat, j: nat)
    requires j < i <= |AllTimings| && AllTimings[j] != AllTimings[i - 1]
    ensures j < i - 1
  {
  }

  lemma UnionLookup(a: Stats, b: Stats, m: Metric)
    ensures m in b ==> m in a + b && (a + b)[m] == b[m]
    ensures m !in b && m in a ==> m in a + b && (a + b)[m] == a[m]
  {
  }

  lemma TimingBlockKeys(f: Frame, t: Timing, std: seq<real> -> real)
    ensures forall m | m in TimingBlock(f, t, std) :: m.timing == t
  {
    TimingEntriesKeys(t, TimingDescribed(f, t, std));
  }

  lemma TimingEntriesKeys(t: Timing, d: Described)
    ensures forall m | m in TimingEntries(t, d) :: m.timing == t
  {
  }

  lemma TimingBlockAt(f: Frame, t: Timing, std: seq<real> -> real, k: Measure)
    requires k in TimingMeasures
    ensures TimingStat(t, k) in TimingBlock(f, t, std)
    ensures TimingBlock(f, t, std)[TimingStat(t, k)] == FigureEntry(TimingDescribed(f, t, std), NaN, k)
  {
    TimingEntriesAt(t, TimingDescribed(f, t, std), k);
  }

  lemma TimingEntriesAt(t: Timing, d: Described, k: Measure)
    requires k in TimingMeasures
    ensures TimingStat(t, k) in TimingEntries(t, d)
    ensures TimingEntries(t, d)[TimingStat(t, k)] == FigureEntry(d, NaN, k)
  {
  }

  function TimingIndex(t: Timing): (j: nat)
    ensures j < |AllTimings| && AllTimings[j] == t
  {
    match t
    case PushBlock => 0
    case Validation => 1
    case TxLoop => 2
    case Housekeeping => 3
    case TxApply => 4
    case AtTime => 5
    case Subscription => 6
    case BlockApply => 7
    case Commit => 8
    case Misc => 9
  }

  lemma IndexOfTiming(j: nat)
    requires j < |AllTimings|
    ensures TimingIndex(AllTimings[j]) == j
  {
  }

  lemma TotalsKeys(time: Entry, blocks: Stat, txs: Stat, ats: Stat, avg: Stat)
    ensures forall m | m in Totals(time, blocks, txs, ats, avg) ::
      !m.SampleStat? && !m.TimingStat? && !m.TimingHeader? && m != ElapsedOnly
  {
  }

  lemma SampleBlocksFacts(f: Frame, std: seq<real> -> real, skew: seq<real> -> real)
    requires Rectangular(f)
    ensures forall m | m in SampleBlocks(f, std, skew) :: m.SampleStat?
    ensures forall s: Sample, k: Measure :: (SampleStat(s, k) in SampleBlocks(f, std, skew)
      && SampleBlocks(f, std, skew)[SampleStat(s, k)]
         == FigureEntry(SampleStats(SampleSeries(f, s), std, skew).0, SampleStats(SampleSeries(f, s), std, skew).1, k))
  {
    var a, b := SampleStats(SampleSeries(f, Speed), std, skew), SampleStats(SampleSeries(f, TxPerBlock), std, skew);
    var c, d := SampleStats(SampleSeries(f, UserTxPerBlock), std, skew), SampleStats(SampleSeries(f, SystemTxPerBlock), std, skew);
    assert SampleBlocks(f, std, skew) == SampleBlocksOf(a, b, c, d);
    FourSampleBlocks(a, b, c, d);
    forall s: Sample ensures SampleStats(SampleSeries(f, s), std, skew) == Pick(s, a, b, c, d) {
      match s
      case Speed => assert Pick(s, a, b, c, d) == a;
      case TxPerBlock => assert Pick(s, a, b, c, d) == b;
      case UserTxPerBlock => assert Pick(s, a, b, c, d) == c;
      case SystemTxPerBlock => assert Pick(s, a, b, c, d) == d;
    }
  }

  /** The statistics of sample `s` among those of the four samples. */
  function Pick(s: Sample, a: (Described, Stat), b: (Described, Stat), c: (Described, Stat), d: (Described, Stat)): (Described, Stat) {
    match s
    case Speed => a
    case TxPerBlock => b
    case UserTxPerBlock => c
    case SystemTxPerBlock => d
  }

  /** The union of the four sample blocks holds each block's figures under
      its own keys. */
  lemma FourSampleBlocks(a: (Described, Stat), b: (Described, Stat), c: (Described, Stat), d: (Described, Stat))
    ensures forall m | m in SampleBlocksOf(a, b, c, d) :: m.SampleStat?
    ensures forall s: Sample, k: Measure :: (SampleStat(s, k) in SampleBlocksOf(a, b, c, d)
      && SampleBlocksOf(a, b, c, d)[SampleStat(s, k)] == FigureEntry(Pick(s, a, b, c, d).0, Pick(s, a, b, c, d).1, k))
  {
    SampleBlockFacts(Speed, a);
    SampleBlockFacts(TxPerBlock, b);
    SampleBlockFacts(UserTxPerBlock, c);
    SampleBlockFacts(SystemTxPerBlock, d);
  }

  lemma {:induction false} TimingBlocksHave(f: Frame, std: seq<real> -> real)
    ensures forall t: Timing, k | k in TimingMeasures :: (TimingStat(t, k) in TimingBlocks(f, std, |AllTimings|)
      && TimingBlocks(f, std, |AllTimings|)[TimingStat(t, k)] == FigureEntry(TimingDescribed(f, t, std), NaN, k))
  {
    forall t: Timing, k | k in TimingMeasures
      ensures TimingStat(t, k) in TimingBlocks(f, std, |AllTimings|)
        && TimingBlocks(f, std, |AllTimings|)[TimingStat(t, k)] == FigureEntry(TimingDescribed(f, t, std), NaN, k)
    {
      TimingBlocksAt(f, std, |AllTimings|, TimingIndex(t), k);
    }
  }

  /** A populated measurement table: the literal, then the loop's entries. */
  lemma MeasurementShape(f: Frame, std: seq<real> -> real, skew: seq<real> -> real)
    requires Rectangular(f) && !IsEmpty(f) && f.nrows >= 2 && MeasurementStats(f, std, skew).Success?
    ensures MeasuredSeconds(f).Val?
    ensures MeasurementStats(f, std, skew).value
      == Totals(TimeEntry(MeasuredSeconds(f)).value, MeasuredBlocks(f), SumOf(f, AllTxCount), SumOf(f, AtCount),
                AverageSpeed(MeasuredBlocks(f), MeasuredSeconds(f)))
         + SampleBlocks(f, std, skew) + TimingBlocks(f, std, |AllTimings|)
  {
  }

  /** Where a key of a three-way union takes its value from. */
  lemma UnionOfThree(a: Stats, b: Stats, c: Stats, m: Metric)
    ensures m in c ==> m in a + b + c && (a + b + c)[m] == c[m]
    ensures m !in c && m in b ==> m in a + b + c && (a + b + c)[m] == b[m]
    ensures m !in c && m !in b && m in a ==> m in a + b + c && (a + b + c)[m] == a[m]
    ensures m !in a && m !in b && m !in c ==> m !in a + b + c
  {
  }

  /** The figures of a populated measurement table, entry by entry. */
  lemma MeasurementParts(f: Frame, std: seq<real> -> real, skew: seq<real> -> real)
    requires Rectangular(f) && !IsEmpty(f) && f.nrows >= 2 && MeasurementStats(f, std, skew).Success?
    ensures var d := MeasurementStats(f, std, skew).value;
      var secs := MeasuredSeconds(f);
      var blocks := MeasuredBlocks(f);
      && secs.Val?
      && d[TotalTime] == Entry(Elapsed(ElapsedText(secs.x)), Some(secs))
      && d[TotalBlocks] == Entry(Grouped(blocks), Some(blocks))
      && d[OverallSpeed] == Entry(Fixed(AverageSpeed(blocks, secs)), Some(AverageSpeed(blocks, secs)))
      && d[TotalTransactions].raw == Some(SumOf(f, AllTxCount))
      && TotalAts in d && d[TotalAts].raw == Some(SumOf(f, AtCount))
      && ElapsedOnly !in d
  {
    MeasurementShape(f, std, skew);
    SampleBlocksFacts(f, std, skew);
    TimingBlocksKeys(f, std, |AllTimings|);
    var secs := MeasuredSeconds(f);
    var blocks := MeasuredBlocks(f);
    TotalsInUnion(TimeEntry(secs).value, blocks, SumOf(f, AllTxCount), SumOf(f, AtCount), AverageSpeed(blocks, secs),
                  SampleBlocks(f, std, skew), TimingBlocks(f, std, |AllTimings|));
  }

  /** The totals keep their values when the sample and timing blocks are added. */
  lemma TotalsInUnion(time: Entry, blocks: Stat, txs: Stat, ats: Stat, avg: Stat, sb: Stats, tb: Stats)
    requires forall m | m in sb :: m.SampleStat?
    requires forall m | m in tb :: m.TimingHeader? || m.TimingStat?
    ensures var d := Totals(time, blocks, txs, ats, avg) + sb + tb;
      && d[TotalTime] == time
      && d[TotalBlocks] == Entry(Grouped(blocks), Some(blocks))
      && d[OverallSpeed] == Entry(Fixed(avg), Some(avg))
      && d[TotalTransactions] == Entry(Grouped(txs), Some(txs))
      && TotalAts in d && d[TotalAts] == Entry(Grouped(ats), Some(ats))
      && ElapsedOnly !in d
  {
    var lit := Totals(time, blocks, txs, ats, avg);
    UnionOfThree(lit, sb, tb, TotalTime);
    UnionOfThree(lit, sb, tb, TotalBlocks);
    UnionOfThree(lit, sb, tb, OverallSpeed);
    UnionOfThree(lit, sb, tb, TotalTransactions);
    UnionOfThree(lit, sb, tb, TotalAts);
    UnionOfThree(lit, sb, tb, ElapsedOnly);
  }

  /** The sample and timing figures of a populated measurement table. */
  lemma MeasurementFigures(f: Frame, std: seq<real> -> real, skew: seq<real> -> real)
    requires Rectangular(f) && !IsEmpty(f) && f.nrows >= 2 && MeasurementStats(f, std, skew).Success?
    ensures var d := MeasurementStats(f, std, skew).value;
      && (forall s: Sample, k: Measure :: SampleStat(s, k) in d
            && d[SampleStat(s, k)] == FigureEntry(SampleStats(SampleSeries(f, s), std, skew).0,
                                                  SampleStats(SampleSeries(f, s), std, skew).1, k))
      && (forall t: Timing, k | k in TimingMeasures :: TimingStat(t, k) in d
            && d[TimingStat(t, k)] == FigureEntry(TimingDescribed(f, t, std), NaN, k))
  {
    MeasurementShape(f, std, skew);
    var secs := MeasuredSeconds(f);
    var blocks := MeasuredBlocks(f);
    var lit := Totals(TimeEntry(secs).value, blocks, SumOf(f, AllTxCount), SumOf(f, AtCount), AverageSpeed(blocks, secs));
    TotalsKeys(TimeEntry(secs).value, blocks, SumOf(f, AllTxCount), SumOf(f, AtCount), AverageSpeed(blocks, secs));
    SampleBlocksFacts(f, std, skew);
    TimingBlocksKeys(f, std, |AllTimings|);
    TimingBlocksHave(f, std);
    BlocksInUnion(lit, SampleBlocks(f, std, skew), TimingBlocks(f, std, |AllTimings|));
  }

  /** The sample and timing blocks keep their values in the whole table. */
  lemma BlocksInUnion(lit: Stats, sb: Stats, tb: Stats)
    requires forall m | m in sb :: m.SampleStat?
    requires forall m | m in tb :: m.TimingHeader? || m.TimingStat?
    ensures forall m | m in sb :: m in lit + sb + tb && (lit + sb + tb)[m] == sb[m]
    ensures forall m | m in tb :: m in lit + sb + tb && (lit + sb + tb)[m] == tb[m]
  {
    forall m | m in sb ensures m in lit + sb + tb && (lit + sb + tb)[m] == sb[m] {
      UnionOfThree(lit, sb, tb, m);
    }
    forall m | m in tb ensures m in lit + sb + tb && (lit + sb + tb)[m] == tb[m] {
      UnionOfThree(lit, sb, tb, m);
    }
  }
}
