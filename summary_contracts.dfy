/** What the "Metrics Summary" dicts promise: every figure read from a short
    table is "N/A"; the sample figures are `describe()`'s, over the right
    series; absent columns give zeros; and the dict fails exactly when a
    time span is NaN or, on the progress dashboards, a column is missing. */
module SummaryContracts {

  import opened Wrappers
  import opened Frames
  import opened Statistics
  import opened Summary

  /** The raw number behind one figure of a block. */
  function RawFigure(d: Described, sk: Stat, k: Measure): Stat {
    if k == Skewness then Val(RawSkew(sk)) else Figure(d, k)
  }

  lemma RawFigureIsRaw(d: Described, sk: Stat, k: Measure)
    ensures FigureEntry(d, sk, k).raw == Some(RawFigure(d, sk, k))
  {
  }

  /** Each raw figure but the skewness is the field of `describe()` it names. */
  lemma RawFigures(d: Described, sk: Stat)
    ensures RawFigure(d, sk, Min) == d.min && RawFigure(d, sk, Max) == d.max
    ensures RawFigure(d, sk, Q1) == d.q1 && RawFigure(d, sk, Median) == d.median
    ensures RawFigure(d, sk, Q3) == d.q3 && RawFigure(d, sk, Mean) == d.mean
    ensures RawFigure(d, sk, StdDev) == d.std && RawFigure(d, sk, Skewness) == Val(RawSkew(sk))
  {
  }

  /** The columns a sample block reads. */
  predicate SampleColumnsPresent(f: Frame, s: Sample) {
    match s
    case Speed => BlocksPerSecond in f.cols
    case TxPerBlock => AllTxCount in f.cols
    case UserTxPerBlock => UserTxCount in f.cols
    case SystemTxPerBlock => AllTxCount in f.cols && UserTxCount in f.cols
  }

  /** On a table of two rows or more, a sample's series is empty exactly when
      a column it reads is absent; the speed series leaves out the first row,
      whose speed is a placeholder. */
  lemma SampleSeriesSource(f: Frame, s: Sample)
    requires Rectangular(f) && f.nrows >= 2
    ensures SampleSeries(f, s) == [] <==> !SampleColumnsPresent(f, s)
    ensures s == Speed && BlocksPerSecond in f.cols ==>
      SampleSeries(f, s) == f.cols[BlocksPerSecond][1..] && |SampleSeries(f, s)| == f.nrows - 1
  {
    match s
    case Speed =>
    case TxPerBlock =>
    case UserTxPerBlock =>
    case SystemTxPerBlock =>
      if SampleColumnsPresent(f, s) {
        assert |SampleSeries(f, s)| == f.nrows;
      }
  }

  /** The eight figures of a sample block over an empty series are zeros. */
  lemma EmptySampleFigures(std: seq<real> -> real, skew: seq<real> -> real, k: Measure)
    ensures var st := SampleStats([], std, skew); RawFigure(st.0, st.1, k) == Val(0.0)
  {
  }

  /** A series without numbers gives NaN figures, and a skewness of 0.0. */
  lemma NoNumberSampleFigures(s: seq<Cell>, std: seq<real> -> real, skew: seq<real> -> real, k: Measure)
    requires s != [] && Numbers(s) == []
    ensures var st := SampleStats(s, std, skew);
      RawFigure(st.0, st.1, k) == (if k == Skewness then Val(0.0) else NaN)
  {
  }

  /** The least and the greatest value of the sample bound it and come from
      it, and the quartiles and the mean lie between them in order. */
  lemma SampleFiguresOrdered(s: seq<Cell>, std: seq<real> -> real, skew: seq<real> -> real)
    requires Numbers(s) != []
    ensures var st := SampleStats(s, std, skew); var xs := Numbers(s);
      var min, max := RawFigure(st.0, st.1, Min), RawFigure(st.0, st.1, Max);
      && min.Val? && max.Val? && min.x in xs && max.x in xs
      && (forall x | x in xs :: min.x <= x <= max.x)
      && Ordered(min, RawFigure(st.0, st.1, Q1))
      && Ordered(RawFigure(st.0, st.1, Q1), RawFigure(st.0, st.1, Median))
      && Ordered(RawFigure(st.0, st.1, Median), RawFigure(st.0, st.1, Q3))
      && Ordered(RawFigure(st.0, st.1, Q3), max)
      && Ordered(min, RawFigure(st.0, st.1, Mean))
      && Ordered(RawFigure(st.0, st.1, Mean), max)
  {
    var st := SampleStats(s, std, skew);
    assert s != [];
    assert st.0 == Describe(s, std);
    DescribeContract(s, std);
    RawFigures(st.0, st.1);
  }

  /** The standard deviation needs two values and the skewness three: below
      that the skewness shows as NaN but counts as 0.0. */
  lemma SampleFiguresGuards(s: seq<Cell>, std: seq<real> -> real, skew: seq<real> -> real)
    requires s != []
    ensures var st := SampleStats(s, std, skew); var xs := Numbers(s);
      && (RawFigure(st.0, st.1, StdDev).NaN? <==> |xs| < 2)
      && RawFigure(st.0, st.1, Skewness) == Val(if |xs| < 3 then 0.0 else skew(xs))
      && (FigureEntry(st.0, st.1, Skewness).shown == Fixed(NaN) <==> |xs| < 3)
  {
    var st := SampleStats(s, std, skew);
    assert st == (Describe(s, std), Skew(s, skew));
    DescribeContract(s, std);
    RawFigures(st.0, st.1);
  }

  /** The five figures of a timing block: zeros for an absent column, and
      otherwise `describe()`'s least, greatest, mean, median and standard
      deviation of the column's numbers. */
  lemma TimingFigures(f: Frame, t: Timing, std: seq<real> -> real)
    requires Rectangular(f) && f.nrows >= 1
    ensures var d := TimingDescribed(f, t, std);
      var xs := Numbers(SeriesOf(f, TimingMs(t)));
      && (TimingMs(t) !in f.cols ==> forall k | k in TimingMeasures :: RawFigure(d, NaN, k) == Val(0.0))
      && (TimingMs(t) in f.cols ==>
            && (d.min.NaN? <==> xs == [])
            && (d.std.NaN? <==> |xs| < 2)
            && (xs != [] ==>
                  d.min.x in xs && d.max.x in xs
                  && (forall x | x in xs :: d.min.x <= x <= d.max.x)
                  && Ordered(d.min, d.median) && Ordered(d.median, d.max)
                  && Ordered(d.min, d.mean) && Ordered(d.mean, d.max)))
  {
    var s := SeriesOf(f, TimingMs(t));
    if TimingMs(t) in f.cols {
      assert |s| == f.nrows;
      DescribeContract(s, std);
    } else {
      forall k | k in TimingMeasures ensures RawFigure(TimingDescribed(f, t, std), NaN, k) == Val(0.0) {
      }
    }
  }

  /** A table that is empty or has fewer than two rows: every figure the
      summary reads from it is "N/A". Its keys are not those of a populated
      dict: it has 'Total Time', which a populated dict never has, and lacks
      'Total ATs Executed'. */
  lemma ShortMeasurementTable(f: Frame, std: seq<real> -> real, skew: seq<real> -> real)
    requires Rectangular(f) && (IsEmpty(f) || f.nrows < 2)
    ensures MeasurementStats(f, std, skew).Success?
    ensures MeasurementStats(f, std, skew).value.Keys == NotAvailableKeys(true)
    ensures ElapsedOnly in NotAvailableKeys(true) && TotalAts !in NotAvailableKeys(true)
    ensures forall m :: Lookup(MeasurementStats(f, std, skew).value, m) == NA
  {
  }

  /** The progress dashboards read "N/A" too when the speed column is absent. */
  lemma ShortProgressTable(f: Frame, std: seq<real> -> real, skew: seq<real> -> real)
    requires Rectangular(f) && (IsEmpty(f) || BlocksPerSecond !in f.cols || f.nrows < 2)
    ensures ProgressStats(f, std, skew).Success?
    ensures ProgressStats(f, std, skew).value.Keys == NotAvailableKeys(false)
    ensures forall m :: Lookup(ProgressStats(f, std, skew).value, m) == NA
  {
  }

  /** The measurement dict fails exactly when the table has two rows or more
      and its elapsed time column is present but its first or last cell is
      not a number; the failure is `int()` of the NaN span. */
  lemma MeasurementFailure(f: Frame, std: seq<real> -> real, skew: seq<real> -> real)
    requires Rectangular(f)
    ensures MeasurementStats(f, std, skew).Failure? <==>
      !IsEmpty(f) && f.nrows >= 2 && InProgressS in f.cols
      && !(f.cols[InProgressS][0].Num? && f.cols[InProgressS][f.nrows - 1].Num?)
    ensures MeasurementStats(f, std, skew).Failure? ==> MeasurementStats(f, std, skew).error == NaNToInteger
  {
  }

  /** The progress dict fails when the elapsed time column is absent, and
      then when the block height column is. */
  lemma ProgressMissingColumn(f: Frame, std: seq<real> -> real, skew: seq<real> -> real)
    requires Rectangular(f) && !IsEmpty(f) && BlocksPerSecond in f.cols && f.nrows >= 2
    ensures InProgressS !in f.cols ==> ProgressStats(f, std, skew) == Failure(KeyError(InProgressS))
    ensures InProgressS in f.cols && BlockHeight !in f.cols ==> ProgressStats(f, std, skew) == Failure(KeyError(BlockHeight))
  {
  }

  /** With both columns present, the progress dict fails exactly when the
      time span is NaN, and the failure is `int()` of it. */
  lemma ProgressFailure(f: Frame, std: seq<real> -> real, skew: seq<real> -> real)
    requires Rectangular(f) && !IsEmpty(f) && BlocksPerSecond in f.cols && f.nrows >= 2
    requires InProgressS in f.cols && BlockHeight in f.cols
    ensures ProgressStats(f, std, skew).Failure? <==> !(f.cols[InProgressS][0].Num? && f.cols[InProgressS][f.nrows - 1].Num?)
    ensures ProgressStats(f, std, skew).Failure? ==> ProgressStats(f, std, skew).error == NaNToInteger
  {
  }

  /** A populated progress dict: the three totals and the speed block, and
      nothing else, so every other figure reads "N/A". */
  lemma ProgressParts(f: Frame, std: seq<real> -> real, skew: seq<real> -> real)
    requires Rectangular(f) && !IsEmpty(f) && BlocksPerSecond in f.cols && f.nrows >= 2
    requires ProgressStats(f, std, skew).Success?
    ensures InProgressS in f.cols && BlockHeight in f.cols
    ensures var d := ProgressStats(f, std, skew).value;
      var secs, blocks := Span(f, InProgressS), Span(f, BlockHeight);
      var st := SampleStats(f.cols[BlocksPerSecond][1..], std, skew);
      && secs.Val?
      && d.Keys == {TotalTime, TotalBlocks, OverallSpeed} + SampleKeys(Speed)
      && Lookup(d, TotalTime).raw == Some(secs)
      && Lookup(d, TotalBlocks).raw == Some(blocks)
      && Lookup(d, OverallSpeed).raw == Some(AverageSpeed(blocks, secs))
      && (forall k: Measure :: Lookup(d, SampleStat(Speed, k)).raw == Some(RawFigure(st.0, st.1, k)))
  {
    SampleSeriesSource(f, Speed);
    var secs, blocks := Span(f, InProgressS), Span(f, BlockHeight);
    var st := SampleStats(f.cols[BlocksPerSecond][1..], std, skew);
    SampleBlockFacts(Speed, st);
    ProgressUnion(TimeEntry(secs).value, blocks, AverageSpeed(blocks, secs), SampleBlock(Speed, st));
    forall k: Measure ensures SampleBlock(Speed, st)[SampleStat(Speed, k)].raw == Some(RawFigure(st.0, st.1, k)) {
      RawFigureIsRaw(st.0, st.1, k);
    }
  }

  /** The totals and the speed block of a progress dict do not overlap. */
  lemma ProgressUnion(time: Entry, blocks: Stat, avg: Stat, sb: Stats)
    requires forall m | m in sb :: m.SampleStat? && m.sample == Speed
    requires sb.Keys == SampleKeys(Speed)
    ensures var d := ProgressTotals(time, blocks, avg) + sb;
      && d.Keys == {TotalTime, TotalBlocks, OverallSpeed} + SampleKeys(Speed)
      && d[TotalTime] == time
      && d[TotalBlocks] == Entry(Grouped(blocks), Some(blocks))
      && d[OverallSpeed] == Entry(Fixed(avg), Some(avg))
      && (forall m | m in sb :: d[m] == sb[m])
  {
  }
}
