/** What the summary table promises: the two value cells of a row are
    coloured as mirror images, a note appears exactly when a cell is
    coloured, every timing statistic is lower-is-better, and the rows follow
    each dashboard's metric order, whose defects are stated here too. */
module ComparisonContracts {

  import opened Wrappers
  import opened Frames
  import opened Statistics
  import opened Summary
  import opened SummaryContracts
  import opened Duration
  import opened Text
  import opened Comparison

  /** Swapping the two figures swaps better and worse and keeps neutral. */
  lemma ClassifyMirror(p: Option<Policy>, a: Stat, c: Stat)
    ensures Classify(p, a, c) == Better <==> Classify(p, c, a) == Worse
    ensures Classify(p, a, c) == Neutral <==> Classify(p, c, a) == Neutral
  {
  }

  /** Each policy's rule stated as an order on the two figures: a higher,
      a lower or a smaller-magnitude figure is better. NaN on either side
      and a metric without a policy are never coloured. */
  lemma ClassifyRules(p: Option<Policy>, x: real, y: real)
    ensures p == Some(HigherIsBetter) ==>
      (Classify(p, Val(x), Val(y)) == Better <==> x > y) && (Classify(p, Val(x), Val(y)) == Worse <==> x < y)
    ensures p == Some(LowerIsBetter) ==>
      (Classify(p, Val(x), Val(y)) == Better <==> x < y) && (Classify(p, Val(x), Val(y)) == Worse <==> x > y)
    ensures p == Some(CloserToZero) ==>
      (Classify(p, Val(x), Val(y)) == Better <==> Abs(x) < Abs(y))
      && (Classify(p, Val(x), Val(y)) == Worse <==> Abs(x) > Abs(y))
    ensures p.None? ==> Classify(p, Val(x), Val(y)) == Neutral
    ensures Classify(p, NaN, Val(y)) == Neutral && Classify(p, Val(x), NaN) == Neutral
  {
  }

  /** Two skewnesses of equal magnitude and opposite sign differ, yet neither
      is closer to zero. */
  lemma EqualMagnitudesNeutral(x: real)
    requires x != 0.0
    ensures Val(x) != Val(-x)
    ensures Classify(Some(CloserToZero), Val(x), Val(-x)) == Neutral
  {
  }

  /** Every timing statistic of the measurement tool is lower-is-better; the
      progress dashboards have no timing statistics. */
  lemma TimingStatsLowerIsBetter(t: Timing, k: Measure)
    requires k in TimingMeasures
    ensures PolicyOf(MeasurementTool, TimingStat(t, k)) == Some(LowerIsBetter)
    ensures PolicyOf(ProgressTool, TimingStat(t, k)).None? && PolicyOf(RootProgress, TimingStat(t, k)).None?
  {
  }

  /** The figures the measurement tool's policy table leaves out: the
      transaction skewness, and the user and system transaction blocks. */
  lemma UnpolicedMetrics(k: Measure)
    ensures PolicyOf(MeasurementTool, SampleStat(TxPerBlock, Skewness)).None?
    ensures PolicyOf(MeasurementTool, SampleStat(UserTxPerBlock, k)).None?
    ensures PolicyOf(MeasurementTool, SampleStat(SystemTxPerBlock, k)).None?
  {
  }

  /** A cell has a note exactly when both raw values are present and the
      verdict is a colour; the note carries that verdict and the delta of
      the two figures. */
  lemma AnnotationContract(b: Dashboard, side: Prefix, m: Metric, mine: Entry, other: Entry)
    ensures Annotation(b, side, m, mine, other).Some? <==>
      mine.raw.Some? && other.raw.Some? && Classify(PolicyOf(b, m), mine.raw.value, other.raw.value) != Neutral
    ensures Annotation(b, side, m, mine, other).Some? ==>
      var n := Annotation(b, side, m, mine, other).value;
      && mine.raw.value.Val? && other.raw.value.Val?
      && n.verdict == Classify(PolicyOf(b, m), mine.raw.value, other.raw.value)
      && n.delta == DeltaOf(b, side, m, mine.raw.value.x - other.raw.value.x)
  {
    if mine.raw.Some? && other.raw.Some? && !(mine.raw.value.Val? && other.raw.value.Val?) {
      assert Classify(PolicyOf(b, m), mine.raw.value, other.raw.value) == Neutral;
    }
  }

  /** A metric without a policy is never annotated. */
  lemma NoPolicyNoNote(b: Dashboard, side: Prefix, m: Metric, mine: Entry, other: Entry)
    requires PolicyOf(b, m).None?
    ensures Annotation(b, side, m, mine, other).None?
  {
    AnnotationContract(b, side, m, mine, other);
  }

  function DeltaAmount(d: Delta): real
    requires !d.TimeDelta?
  {
    if d.SignedFixed? then d.x else d.x
  }

  /** On the two tool dashboards the original cell is the mirror of the
      comparison cell: annotated together, better where the other is worse,
      and (but for the elapsed time) with the negated delta. */
  lemma CellsMirror(b: Dashboard, m: Metric, orig: Stats, comp: Stats)
    requires b != RootProgress
    ensures var on := OriginalCell(b, m, orig, Some(comp)).note;
      var cn := ComparisonCell(b, m, Some(orig), comp).note;
      && (on.Some? <==> cn.Some?)
      && (on.Some? ==>
            && (on.value.verdict == Better <==> cn.value.verdict == Worse)
            && (on.value.verdict == Worse <==> cn.value.verdict == Better)
            && (m != TotalTime ==> DeltaAmount(on.value.delta) == -DeltaAmount(cn.value.delta)))
  {
    var o, c := Lookup(orig, m), Lookup(comp, m);
    AnnotationContract(b, Original, m, o, c);
    AnnotationContract(b, Comparison, m, c, o);
    if o.raw.Some? && c.raw.Some? {
      ClassifyMirror(PolicyOf(b, m), o.raw.value, c.raw.value);
    }
  }

  /** The root progress dashboard annotates only the comparison cell. */
  lemma RootOriginalPlain(m: Metric, orig: Stats, comp: Option<Stats>)
    ensures OriginalCell(RootProgress, m, orig, comp).note.None?
  {
  }

  /** A dataset whose table is too short reads "N/A" everywhere, so neither
      cell of any row is coloured. */
  lemma NotAvailableNeverColoured(b: Dashboard, m: Metric, tool: bool, other: Stats)
    ensures OriginalCell(b, m, NotAvailableStats(tool), Some(other)).note.None?
    ensures OriginalCell(b, m, other, Some(NotAvailableStats(tool))).note.None?
    ensures ComparisonCell(b, m, Some(NotAvailableStats(tool)), other).note.None?
    ensures ComparisonCell(b, m, Some(other), NotAvailableStats(tool)).note.None?
  {
    assert Lookup(NotAvailableStats(tool), m).raw.None?;
  }

  /** Without an original dataset the comparison cell is never coloured. */
  lemma NoOriginalNoNote(b: Dashboard, m: Metric, comp: Stats)
    ensures ComparisonCell(b, m, None, comp).note.None?
  {
  }

  /** The delta formats: thousands separators for the blocks synced in the
      comparison cell only, the elapsed time as a signed duration whose
      seconds the progress tool brackets square, two decimals otherwise. */
  lemma DeltaFormats(b: Dashboard, side: Prefix, m: Metric, d: real)
    ensures m == TotalBlocks ==>
      DeltaOf(b, Comparison, m, d) == SignedGrouped(d) && DeltaOf(b, Original, m, d) == SignedFixed(d)
    ensures m != TotalTime && m != TotalBlocks ==> DeltaOf(b, side, m, d) == SignedFixed(d)
    ensures m == TotalTime ==>
      var t := DeltaOf(b, side, m, d);
      && t.TimeDelta? && |t.text| > 0
      && t.text[0] == (if d > 0.0 then '+' else '-')
      && t.text[|t.text| - 1] == (if b == ProgressTool then ']' else ')')
  {
  }

  /** The seconds of a time delta read back: the duration after the sign is
      that of the whole seconds of the delta's magnitude. */
  lemma TimeDeltaReadsBack(b: Dashboard, d: real)
    ensures var t := TimeDeltaText(b, d); var n := |FormatSeconds(Some(Abs(d)))|;
      1 + n <= |t| && ParseDuration(t[1..1 + n]) == Some(Trunc(Abs(d)))
  {
    var fs := FormatSeconds(Some(Abs(d)));
    var sign := if d > 0.0 then "+" else "-";
    var open := if b == ProgressTool then " [" else " (";
    var close := if b == ProgressTool then "s]" else "s)";
    var rest := open + sign + IntToString(Trunc(Abs(d))) + close;
    assert fs == FormatDuration(Trunc(Abs(d)));
    ParseFormatDuration(Trunc(Abs(d)));
    SignedMiddle(sign, fs, rest);
    assert TimeDeltaText(b, d) == sign + fs + rest;
  }

  /** The text after a one-character sign and before the rest. */
  lemma SignedMiddle(sign: string, mid: string, rest: string)
    requires |sign| == 1
    ensures 1 + |mid| <= |sign + mid + rest| && (sign + mid + rest)[1..1 + |mid|] == mid
  {
    var t := sign + mid + rest;
    forall k | 0 <= k < |mid| ensures t[1 + k] == mid[k] {
    }
  }

  // ------------------------------------------------------------------
  // The metric orders

  lemma {:induction false} TimingOrderFacts(i: nat)
    requires i <= |AllTimings|
    ensures |TimingOrder(i)| == 6 * i
    ensures forall m | m in TimingOrder(i) :: m.TimingHeader? || m.TimingStat?
    ensures forall j, k | 0 <= j < i && k in TimingMeasures :: TimingStat(AllTimings[j], k) in TimingOrder(i)
  {
    if i > 0 {
      TimingOrderFacts(i - 1);
      var t := AllTimings[i - 1];
      TimingSectionFacts(t);
      forall j, k | 0 <= j < i && k in TimingMeasures ensures TimingStat(AllTimings[j], k) in TimingOrder(i) {
        if j < i - 1 {
          assert TimingStat(AllTimings[j], k) in TimingOrder(i - 1);
        } else {
          assert TimingStat(t, k) in TimingSection(t);
        }
      }
    }
  }

  lemma TimingSectionFacts(t: Timing)
    ensures |TimingSection(t)| == 6
    ensures forall m | m in TimingSection(t) :: m.TimingHeader? || m.TimingStat?
    ensures forall k | k in TimingMeasures :: TimingStat(t, k) in TimingSection(t)
  {
    assert TimingFigureKeys(t, 1) == [TimingStat(t, Min)];
    assert TimingFigureKeys(t, 2) == [TimingStat(t, Min), TimingStat(t, Max)];
    assert TimingFigureKeys(t, 3) == [TimingStat(t, Min), TimingStat(t, Max), TimingStat(t, Mean)];
    assert TimingFigureKeys(t, 4) == [TimingStat(t, Min), TimingStat(t, Max), TimingStat(t, Mean), TimingStat(t, Median)];
    assert TimingSection(t) == [TimingHeader(t), TimingStat(t, Min), TimingStat(t, Max), TimingStat(t, Mean),
                                TimingStat(t, Median), TimingStat(t, StdDev)];
  }

  /** A sample figure the measurement tool shows: one of the speed block, or
      the transaction figures other than the spread and the skewness. */
  predicate ShownSampleFigure(m: Metric) {
    m.SampleStat? ==> m.sample == Speed || (m.sample == TxPerBlock && m.measure != StdDev && m.measure != Skewness)
  }

  lemma MeasurementHeadFacts()
    ensures |MeasurementHead| == 23
    ensures MeasurementHead[12] == MeasurementHead[21] == SampleStat(Speed, StdDev)
    ensures MeasurementHead[13] == MeasurementHead[22] == SampleStat(Speed, Skewness)
    ensures forall m | m in MeasurementHead :: ShownSampleFigure(m)
  {
  }

  /** The measurement tool's 83 rows. The speed block's standard deviation
      and skewness rows appear twice, once in place of the transaction
      figures; the transaction standard deviation and skewness and the
      entire user and system transaction blocks are computed but never
      shown; every timing statistic is shown. */
  lemma MeasurementOrderFacts()
    ensures |MeasurementOrder| == 83
    ensures MeasurementOrder[12] == MeasurementOrder[21] == SampleStat(Speed, StdDev)
    ensures MeasurementOrder[13] == MeasurementOrder[22] == SampleStat(Speed, Skewness)
    ensures SampleStat(TxPerBlock, StdDev) !in MeasurementOrder && SampleStat(TxPerBlock, Skewness) !in MeasurementOrder
    ensures forall k: Measure :: SampleStat(UserTxPerBlock, k) !in MeasurementOrder
    ensures forall k: Measure :: SampleStat(SystemTxPerBlock, k) !in MeasurementOrder
    ensures forall t: Timing, k | k in TimingMeasures :: TimingStat(t, k) in MeasurementOrder
  {
    TimingOrderFacts(|AllTimings|);
    MeasurementHeadFacts();
    var tail := TimingOrder(|AllTimings|);
    assert forall m | m in MeasurementOrder :: ShownSampleFigure(m) by {
      forall m | m in MeasurementOrder ensures ShownSampleFigure(m) {
        assert m in MeasurementHead || m in tail;
      }
    }
    forall t: Timing, k | k in TimingMeasures ensures TimingStat(t, k) in MeasurementOrder {
      assert TimingStat(AllTimings[TimingIndex(t)], k) in tail;
    }
  }

  lemma ProgressOrderDistinct()
    ensures |ProgressOrder| == 11
    ensures forall i, j | 0 <= i < j < |ProgressOrder| :: ProgressOrder[i] != ProgressOrder[j]
    ensures forall m | m in ProgressOrder :: !IsHeaderKey(m)
  {
  }

  /** The progress dashboards' eleven rows, each once, are exactly the keys
      of their stats dict, populated or short: the root dashboard's
      `list(stats_original.keys())` lists them. */
  lemma ProgressOrderFacts()
    ensures |ProgressOrder| == 11
    ensures forall i, j | 0 <= i < j < |ProgressOrder| :: ProgressOrder[i] != ProgressOrder[j]
    ensures (set m | m in ProgressOrder) == NotAvailableKeys(false)
    ensures forall m | m in ProgressOrder :: !IsHeaderKey(m)
  {
    ProgressOrderDistinct();
    SpeedKeys();
    assert NotAvailableKeys(false) == {TotalTime, TotalBlocks, OverallSpeed} + SampleKeys(Speed);
  }

  /** The eight keys of the speed block, listed. */
  lemma SpeedKeys()
    ensures SampleKeys(Speed) ==
      {SampleStat(Speed, Min), SampleStat(Speed, Q1), SampleStat(Speed, Mean), SampleStat(Speed, Median),
       SampleStat(Speed, Q3), SampleStat(Speed, Max), SampleStat(Speed, StdDev), SampleStat(Speed, Skewness)}
  {
    forall k: Measure ensures SampleStat(Speed, k) in SampleKeys(Speed) {
      SpeedKeyInOrder(k);
      SampleBlockFacts(Speed, (Zeros, NaN));
    }
  }

  lemma SpeedKeyInOrder(k: Measure)
    ensures SampleStat(Speed, k) in ProgressOrder
  {
    match k
    case Min => assert ProgressOrder[3] == SampleStat(Speed, k);
    case Q1 => assert ProgressOrder[4] == SampleStat(Speed, k);
    case Mean => assert ProgressOrder[5] == SampleStat(Speed, k);
    case Median => assert ProgressOrder[6] == SampleStat(Speed, k);
    case Q3 => assert ProgressOrder[7] == SampleStat(Speed, k);
    case Max => assert ProgressOrder[8] == SampleStat(Speed, k);
    case StdDev => assert ProgressOrder[9] == SampleStat(Speed, k);
    case Skewness => assert ProgressOrder[10] == SampleStat(Speed, k);
  }

  /** Whatever `get_stats_dict` of the progress dashboards returns, its keys
      are the metrics of the progress order. */
  lemma ProgressKeysAreOrder(f: Frame, std: seq<real> -> real, skew: seq<real> -> real)
    requires Rectangular(f) && ProgressStats(f, std, skew).Success?
    ensures ProgressStats(f, std, skew).value.Keys == set m | m in ProgressOrder
  {
    ProgressOrderFacts();
    if IsEmpty(f) || BlocksPerSecond !in f.cols || f.nrows < 2 {
      ShortProgressTable(f, std, skew);
    } else {
      ProgressParts(f, std, skew);
    }
  }

  // ------------------------------------------------------------------
  // The table

  /** Whether the original dataset's stats are computed. */
  predicate OriginalComputed(b: Dashboard, fo: Frame) {
    b == RootProgress || !IsEmpty(fo)
  }

  /** The table fails exactly when a computed `get_stats_dict` fails, the
      original dataset's first; the progress tool draws no table without
      data, the other dashboards always draw one. */
  lemma SummaryTableOutcome(b: Dashboard, fo: Frame, fc: Frame, std: seq<real> -> real, skew: seq<real> -> real)
    requires Rectangular(fo) && Rectangular(fc)
    ensures var r := SummaryTable(b, fo, fc, std, skew);
      var origFails := OriginalComputed(b, fo) && StatsOf(b, fo, std, skew).Failure?;
      var compFails := !IsEmpty(fc) && StatsOf(b, fc, std, skew).Failure?;
      && (r.Failure? <==> origFails || compFails)
      && (origFails ==> r.error == StatsOf(b, fo, std, skew).error)
      && (!origFails && compFails ==> r.error == StatsOf(b, fc, std, skew).error)
      && (r.Success? ==> (r.value.None? <==> b == ProgressTool && IsEmpty(fo) && IsEmpty(fc)))
  {
  }

  /** A drawn table has one row per metric of the dashboard's order, in
      order; the measurement tool's header keys become rows spanning the
      table, and every other row has one value cell per loaded dataset,
      the original's first (the root dashboard always shows the original). */
  lemma SummaryTableRows(b: Dashboard, fo: Frame, fc: Frame, std: seq<real> -> real, skew: seq<real> -> real)
    requires Rectangular(fo) && Rectangular(fc)
    requires SummaryTable(b, fo, fc, std, skew).Success? && SummaryTable(b, fo, fc, std, skew).value.Some?
    ensures var rows := SummaryTable(b, fo, fc, std, skew).value.value;
      var cells := (if OriginalComputed(b, fo) then 1 else 0) + (if IsEmpty(fc) then 0 else 1);
      && |rows| == |MetricOrder(b)|
      && forall i | 0 <= i < |rows| ::
           && (rows[i].HeaderRow? <==> b == MeasurementTool && IsHeaderKey(MetricOrder(b)[i]))
           && (rows[i].HeaderRow? ==> rows[i].title == MetricOrder(b)[i] && rows[i].span == 1 + cells)
           && (rows[i].MetricRow? ==> rows[i].metric == MetricOrder(b)[i] && |rows[i].cells| == cells)
  {
  }
}
