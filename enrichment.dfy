/** The derived columns the dashboards add to a freshly loaded table:
    the resolved elapsed time in seconds, its `format_seconds` text, the
    sync speed from first differences, the per-block ratios of a
    measurement log and the trailing moving averages of the graphs. */
module Enrichment {

  import opened Wrappers
  import opened Frames
  import opened Duration

  // ------------------------------------------------------------------
  // Column arithmetic

  /** `series.diff()`: the first row has no predecessor. */
  function Diff(s: seq<Cell>): (r: seq<Cell>)
    ensures |r| == |s|
  {
    seq(|s|, i requires 0 <= i < |s| => if i == 0 then Missing else Minus(s[i], s[i - 1]))
  }

  /** The first row of a difference is missing; every later row is the
      difference to the row before it, defined exactly when both are numbers. */
  lemma DiffContents(s: seq<Cell>)
    ensures var r := Diff(s);
      && (|s| > 0 ==> r[0] == Missing)
      && forall i {:trigger r[i]} | 0 < i < |s| ::
        (r[i].Num? <==> s[i].Num? && s[i - 1].Num?) && (r[i].Num? ==> r[i].value == s[i].value - s[i - 1].value)
  { }

  /** `(num / den.replace(0, pd.NA)).fillna(0)` on one row: a zero or
      undefined denominator and an undefined numerator all give 0. */
  function RateOrZero(num: Cell, den: Cell): Cell {
    if num.Num? && den.Num? && den.value != 0.0 then Num(num.value / den.value) else Num(0.0)
  }

  /** `Blocks_per_Second` of the progress dashboards. */
  function SpeedSeries(h: seq<Cell>, t: seq<Cell>): (r: seq<Cell>)
    requires |h| == |t|
    ensures |r| == |h|
  {
    var dh, dt := Diff(h), Diff(t);
    seq(|h|, i requires 0 <= i < |h| => RateOrZero(dh[i], dt[i]))
  }

  /** The speed column row by row: 0 on the first row and on a row whose
      time delta is zero or undefined, the height delta over the time
      delta otherwise. */
  lemma SpeedSeriesValues(h: seq<Cell>, t: seq<Cell>, i: nat)
    requires |h| == |t| && i < |h|
    ensures var r := SpeedSeries(h, t);
      && r[i].Num?
      && (i == 0 ==> r[i].value == 0.0)
      && (i > 0 && h[i].Num? && h[i - 1].Num? && t[i].Num? && t[i - 1].Num? && t[i].value != t[i - 1].value ==>
            r[i].value * (t[i].value - t[i - 1].value) == h[i].value - h[i - 1].value)
      && (i > 0 && !(h[i].Num? && h[i - 1].Num? && t[i].Num? && t[i - 1].Num? && t[i].value != t[i - 1].value) ==>
            r[i].value == 0.0)
  {
    var dh, dt := Diff(h), Diff(t);
    if i > 0 {
      assert dh[i] == Minus(h[i], h[i - 1]) && dt[i] == Minus(t[i], t[i - 1]);
    }
  }

  /** A table whose heights and times both never decrease has no negative speed. */
  lemma SpeedSeriesNonNegative(h: seq<Cell>, t: seq<Cell>)
    requires |h| == |t|
    requires forall i | 0 < i < |h| && h[i].Num? && h[i - 1].Num? :: h[i - 1].value <= h[i].value
    requires forall i | 0 < i < |t| && t[i].Num? && t[i - 1].Num? :: t[i - 1].value <= t[i].value
    ensures forall i | 0 <= i < |h| :: SpeedSeries(h, t)[i].Num? && SpeedSeries(h, t)[i].value >= 0.0
  {
    forall i | 0 <= i < |h| ensures SpeedSeries(h, t)[i].Num? && SpeedSeries(h, t)[i].value >= 0.0 {
      SpeedNonNegativeAt(h, t, i);
    }
  }

  lemma SpeedNonNegativeAt(h: seq<Cell>, t: seq<Cell>, i: nat)
    requires |h| == |t| && i < |h|
    requires i > 0 && h[i].Num? && h[i - 1].Num? ==> h[i - 1].value <= h[i].value
    requires i > 0 && t[i].Num? && t[i - 1].Num? ==> t[i - 1].value <= t[i].value
    ensures SpeedSeries(h, t)[i].Num? && SpeedSeries(h, t)[i].value >= 0.0
  {
    SpeedSeriesValues(h, t, i);
    var r := SpeedSeries(h, t);
    if i > 0 && h[i].Num? && h[i - 1].Num? && t[i].Num? && t[i - 1].Num? && t[i].value != t[i - 1].value {
      NonNegativeQuotient(r[i].value, t[i].value - t[i - 1].value, h[i].value - h[i - 1].value);
    }
  }

  lemma NonNegativeQuotient(q: real, den: real, num: real)
    requires den > 0.0 && num >= 0.0 && q * den == num
    ensures q >= 0.0
  {
  }

  /** Heights 0, 10, 20, 30, 40 at 0, 1, 3, 4 and 4 seconds: the speeds are
      0 (first row), 10, 5, 10 and 0 (no time passed). */
  lemma SpeedSeriesExample()
    ensures SpeedSeries([Num(0.0), Num(10.0), Num(20.0), Num(30.0), Num(40.0)],
                            [Num(0.0), Num(1.0), Num(3.0), Num(4.0), Num(4.0)])
         == [Num(0.0), Num(10.0), Num(5.0), Num(10.0), Num(0.0)]
  {
    var h := [Num(0.0), Num(10.0), Num(20.0), Num(30.0), Num(40.0)];
    var t := [Num(0.0), Num(1.0), Num(3.0), Num(4.0), Num(4.0)];
    var r := SpeedSeries(h, t);
    assert Diff(h) == [Missing, Num(10.0), Num(10.0), Num(10.0), Num(10.0)];
    assert Diff(t) == [Missing, Num(1.0), Num(2.0), Num(1.0), Num(0.0)];
  }

  /** `series.apply(format_seconds)`: one text cell per row. */
  function Formatted(s: seq<Cell>): (r: seq<Cell>)
    ensures |r| == |s|
    ensures forall i | 0 <= i < |s| :: r[i].Text?
  {
    seq(|s|, i requires 0 <= i < |s| => Text(FormatSeconds(if s[i].Num? then Some(s[i].value) else None)))
  }

  /** The formatted time is "N/A" exactly for a missing time and otherwise
      reads back as the truncated number of seconds. */
  lemma FormattedReadsBack(s: seq<Cell>, i: nat)
    requires i < |s|
    ensures !s[i].Num? <==> Formatted(s)[i].text == "N/A"
    ensures s[i].Num? ==> ParseDuration(Formatted(s)[i].text) == Some(Trunc(s[i].value))
  {
    if s[i].Num? {
      ParseFormatDuration(Trunc(s[i].value));
    }
  }

  // ------------------------------------------------------------------
  // process_progress_df, three variants

  /** The two derived columns every variant adds once it has a time column
      in seconds and a height column. */
  function WithSpeed(f: Frame): (r: Frame)
    requires Rectangular(f) && InProgressS in f.cols && BlockHeight in f.cols
    ensures Rectangular(r) && r.nrows == f.nrows
    ensures forall c :: c in r.cols <==> c in f.cols || c == SyncTimeFormatted || c == BlocksPerSecond
    ensures r.cols[SyncTimeFormatted] == Formatted(f.cols[InProgressS])
    ensures r.cols[BlocksPerSecond] == SpeedSeries(f.cols[BlockHeight], f.cols[InProgressS])
    ensures forall c | c in f.cols && c != SyncTimeFormatted && c != BlocksPerSecond :: r.cols[c] == f.cols[c]
  {
    var g := WithColumn(f, SyncTimeFormatted, Formatted(f.cols[InProgressS]));
    var r := WithColumn(g, BlocksPerSecond, SpeedSeries(g.cols[BlockHeight], g.cols[InProgressS]));
    r
  }

  /** The measurement tool's choice of time column: the in-progress
      milliseconds first, then an existing seconds column, then the total
      milliseconds. The result always uses the seconds column; None means no
      time column is known. */
  function ResolveTimeMeasurement(f: Frame): (r: Option<Frame>)
    requires Rectangular(f)
    ensures r.Some? ==> Rectangular(r.value) && r.value.nrows == f.nrows && InProgressS in r.value.cols
    ensures r.None? <==> InProgressMs !in f.cols && InProgressS !in f.cols && SyncTimeMs !in f.cols
  {
    if InProgressMs in f.cols then Some(WithColumn(f, InProgressS, DivConst(f.cols[InProgressMs], 1000.0)))
    else if InProgressS in f.cols then Some(f)
    else if SyncTimeMs in f.cols then Some(WithColumn(f, InProgressS, DivConst(f.cols[SyncTimeMs], 1000.0)))
    else None
  }

  /** The timestamp clean-up: coerce to numbers and drop the rows that are
      then missing. Exactly the rows with a numeric timestamp remain, in
      order and with all their cells. */
  function CleanTimestamps(f: Frame): (r: Frame)
    requires Rectangular(f) && BlockTimestamp in f.cols
    ensures Rectangular(r) && r.cols.Keys == f.cols.Keys
    ensures r.nrows == |NumericRows(f.cols[BlockTimestamp])|
    ensures r == Take(f, NumericRows(f.cols[BlockTimestamp]))
  {
    var ts := f.cols[BlockTimestamp];
    var g := WithColumn(f, BlockTimestamp, Coerced(ts));
    PresentRowsCoerced(ts);
    TakeAgreeing(f, g, NumericRows(ts));
    DropMissing(g, BlockTimestamp)
  }

  /** Resolving the time column changes no other column. */
  lemma ResolveKeeps(f: Frame)
    requires Rectangular(f) && ResolveTimeMeasurement(f).Some?
    ensures forall c | c in f.cols && c != InProgressS ::
      c in ResolveTimeMeasurement(f).value.cols && ResolveTimeMeasurement(f).value.cols[c] == f.cols[c]
  {
    if InProgressMs in f.cols {
      WithColumnContents(f, InProgressS, DivConst(f.cols[InProgressMs], 1000.0));
    } else if SyncTimeMs in f.cols && InProgressS !in f.cols {
      WithColumnContents(f, InProgressS, DivConst(f.cols[SyncTimeMs], 1000.0));
    }
  }

  /** What the measurement tool's `process_progress_df` leaves in the table. */
  function ProcessedMeasurement(f: Frame): (r: Frame)
    requires Rectangular(f)
    ensures Rectangular(r)
  {
    if IsEmpty(f) then f
    else match ResolveTimeMeasurement(f)
      case None => f
      case Some(g) =>
        if BlockHeight !in g.cols then g
        else
          var e := WithSpeed(g);
          if BlockTimestamp in e.cols then CleanTimestamps(e) else e
  }

  /** The progress tool's choice: an existing seconds column first, then the
      in-progress milliseconds. */
  function ResolveTimeProgress(f: Frame): (r: Option<Frame>)
    requires Rectangular(f)
    ensures r.Some? ==> Rectangular(r.value) && r.value.nrows == f.nrows && InProgressS in r.value.cols
    ensures r.None? <==> InProgressS !in f.cols && InProgressMs !in f.cols
  {
    if InProgressS in f.cols then Some(f)
    else if InProgressMs in f.cols then Some(WithColumn(f, InProgressS, DivConst(f.cols[InProgressMs], 1000.0)))
    else None
  }

  /** What the progress tool's `process_progress_df` leaves in the table. */
  function ProcessedProgress(f: Frame): (r: Frame)
    requires Rectangular(f)
    ensures Rectangular(r)
  {
    if IsEmpty(f) then f
    else match ResolveTimeProgress(f)
      case None => f
      case Some(g) => if BlockHeight !in g.cols then g else WithSpeed(g)
  }

  /** The guards of the measurement tool's variant: an empty table, a table
      without a known time column, and a table without heights keep every
      column they had; only the last of them gets the seconds column. */
  lemma ProcessedMeasurementGuards(f: Frame)
    requires Rectangular(f)
    ensures IsEmpty(f) ==> ProcessedMeasurement(f) == f
    ensures InProgressMs !in f.cols && InProgressS !in f.cols && SyncTimeMs !in f.cols ==> ProcessedMeasurement(f) == f
    ensures !IsEmpty(f) && BlockHeight !in f.cols ==>
      var r := ProcessedMeasurement(f);
      && r.nrows == f.nrows
      && (InProgressMs in f.cols || InProgressS in f.cols || SyncTimeMs in f.cols ==> r.cols.Keys == f.cols.Keys + {InProgressS})
      && forall c | c in f.cols && c != InProgressS :: r.cols[c] == f.cols[c]
  {
  }

  /** The seconds column the measurement tool computes from: the
      in-progress milliseconds win over an existing seconds column, which
      wins over the total milliseconds. */
  lemma MeasurementTimePriority(f: Frame)
    requires Rectangular(f) && (InProgressMs in f.cols || InProgressS in f.cols || SyncTimeMs in f.cols)
    ensures var g := ResolveTimeMeasurement(f).value;
      && (InProgressMs in f.cols ==> g.cols[InProgressS] == DivConst(f.cols[InProgressMs], 1000.0))
      && (InProgressMs !in f.cols && InProgressS in f.cols ==> g == f)
      && (InProgressMs !in f.cols && InProgressS !in f.cols ==> g.cols[InProgressS] == DivConst(f.cols[SyncTimeMs], 1000.0))
      && forall c | c in f.cols && c != InProgressS :: g.cols[c] == f.cols[c]
  {
  }

  /** The progress tool resolves the same columns in the opposite order. */
  lemma ProgressTimePriority(f: Frame)
    requires Rectangular(f) && (InProgressS in f.cols || InProgressMs in f.cols)
    ensures var g := ResolveTimeProgress(f).value;
      && (InProgressS in f.cols ==> g == f)
      && (InProgressS !in f.cols ==> g.cols[InProgressS] == DivConst(f.cols[InProgressMs], 1000.0))
  {
  }

  /** With both time columns present the two tools compute speeds from
      different columns: the measurement tool from the milliseconds, the
      progress tool from the seconds column as it was loaded. */
  lemma TimePriorityDiffers(f: Frame)
    requires Rectangular(f) && f.nrows > 0 && BlockHeight in f.cols && BlockTimestamp !in f.cols
    requires InProgressMs in f.cols && InProgressS in f.cols
    ensures ProcessedMeasurement(f).cols[InProgressS] == DivConst(f.cols[InProgressMs], 1000.0)
    ensures ProcessedMeasurement(f).cols[BlocksPerSecond] == SpeedSeries(f.cols[BlockHeight], DivConst(f.cols[InProgressMs], 1000.0))
    ensures ProcessedProgress(f).cols[InProgressS] == f.cols[InProgressS]
    ensures ProcessedProgress(f).cols[BlocksPerSecond] == SpeedSeries(f.cols[BlockHeight], f.cols[InProgressS])
  {
    MeasurementFromMilliseconds(f);
    ProgressFromSeconds(f);
  }

  lemma MeasurementFromMilliseconds(f: Frame)
    requires Rectangular(f) && f.nrows > 0 && BlockHeight in f.cols && BlockTimestamp !in f.cols
    requires InProgressMs in f.cols
    ensures ProcessedMeasurement(f).cols[InProgressS] == DivConst(f.cols[InProgressMs], 1000.0)
    ensures ProcessedMeasurement(f).cols[BlocksPerSecond] == SpeedSeries(f.cols[BlockHeight], DivConst(f.cols[InProgressMs], 1000.0))
  {
    var g := ResolveTimeMeasurement(f).value;
    assert g == WithColumn(f, InProgressS, DivConst(f.cols[InProgressMs], 1000.0));
    assert ProcessedMeasurement(f) == WithSpeed(g);
  }

  lemma ProgressFromSeconds(f: Frame)
    requires Rectangular(f) && f.nrows > 0 && BlockHeight in f.cols && InProgressS in f.cols
    ensures ProcessedProgress(f).cols[InProgressS] == f.cols[InProgressS]
    ensures ProcessedProgress(f).cols[BlocksPerSecond] == SpeedSeries(f.cols[BlockHeight], f.cols[InProgressS])
  {
    assert ProcessedProgress(f) == WithSpeed(f);
  }

  /** When the measurement tool derives its columns: the speed and text
      columns follow the resolved seconds; with timestamps present the rows
      that remain are given by `ProcessedMeasurementRows`. */
  lemma ProcessedMeasurementEnriched(f: Frame)
    requires Rectangular(f) && !IsEmpty(f) && BlockHeight in f.cols
    requires InProgressMs in f.cols || InProgressS in f.cols || SyncTimeMs in f.cols
    ensures var r := ProcessedMeasurement(f);
      forall c :: c in r.cols <==> c in f.cols || c == InProgressS || c == SyncTimeFormatted || c == BlocksPerSecond
    ensures BlockTimestamp !in f.cols ==> ProcessedMeasurement(f) == WithSpeed(ResolveTimeMeasurement(f).value)
  {
    var g := ResolveTimeMeasurement(f).value;
    var e := WithSpeed(g);
    assert forall c :: c in g.cols <==> c in f.cols || c == InProgressS;
    if BlockTimestamp in f.cols {
      assert BlockTimestamp in e.cols;
      assert ProcessedMeasurement(f) == CleanTimestamps(e);
    } else {
      assert BlockTimestamp !in e.cols;
    }
  }

  /** With timestamps present, exactly the rows whose timestamp is numeric
      remain, in order, each with its cells of the enriched table (the
      speed computed over the whole table before the drop). */
  lemma ProcessedMeasurementRows(f: Frame)
    requires Rectangular(f) && !IsEmpty(f) && BlockHeight in f.cols && BlockTimestamp in f.cols
    requires InProgressMs in f.cols || InProgressS in f.cols || SyncTimeMs in f.cols
    ensures var e := WithSpeed(ResolveTimeMeasurement(f).value);
      && BlockTimestamp in e.cols && e.cols[BlockTimestamp] == f.cols[BlockTimestamp]
      && ProcessedMeasurement(f) == Take(e, NumericRows(f.cols[BlockTimestamp]))
    ensures ProcessedMeasurement(f).nrows == |NumericRows(f.cols[BlockTimestamp])|
  {
    var g := ResolveTimeMeasurement(f).value;
    ResolveKeeps(f);
    assert BlockTimestamp in g.cols && g.cols[BlockTimestamp] == f.cols[BlockTimestamp];
    var e := WithSpeed(g);
    assert BlockTimestamp in e.cols && e.cols[BlockTimestamp] == g.cols[BlockTimestamp];
    MeasurementSteps(f);
    assert ProcessedMeasurement(f) == CleanTimestamps(e);
  }

  /** The root dashboard reads its columns directly; a missing one is a
      `KeyError`, reported here as the missing column. */
  function ProcessedRoot(f: Frame): (r: Result<Frame, Column>)
    requires Rectangular(f)
  {
    if IsEmpty(f) then Success(f)
    else if InProgressS !in f.cols then Failure(InProgressS)
    else if BlockHeight !in f.cols then Failure(BlockHeight)
    else Success(WithSpeed(f))
  }

  lemma ProcessedRootContract(f: Frame)
    requires Rectangular(f)
    ensures ProcessedRoot(f).Failure? <==> !IsEmpty(f) && (InProgressS !in f.cols || BlockHeight !in f.cols)
    ensures ProcessedRoot(f).Success? && !IsEmpty(f) ==>
      var r := ProcessedRoot(f).value;
      && r.nrows == f.nrows
      && r.cols[BlocksPerSecond] == SpeedSeries(f.cols[BlockHeight], f.cols[InProgressS])
      && r.cols[SyncTimeFormatted] == Formatted(f.cols[InProgressS])
  {
  }

  /** The measurement tool's `process_progress_df`, updating the table in place. */
  method ProcessMeasurementInPlace(df: DataFrame)
    requires df.Valid()
    modifies df
    ensures df.Valid() && df.Value() == ProcessedMeasurement(old(df.Value()))
  {
    if df.nrows == 0 || df.cols == map[] {
      return;
    }
    ghost var f := df.Value();
    if InProgressMs in df.cols {
      df.Assign(InProgressS, DivConst(df.cols[InProgressMs], 1000.0));
    } else if InProgressS in df.cols {
    } else if SyncTimeMs in df.cols {
      df.Assign(InProgressS, DivConst(df.cols[SyncTimeMs], 1000.0));
    } else {
      return;
    }
    ghost var g := df.Value();
    assert g == ResolveTimeMeasurement(f).value;
    if BlockHeight !in df.cols {
      return;
    }
    df.Assign(SyncTimeFormatted, Formatted(df.cols[InProgressS]));
    df.Assign(BlocksPerSecond, SpeedSeries(df.cols[BlockHeight], df.cols[InProgressS]));
    ghost var e := df.Value();
    assert e == WithSpeed(g);
    MeasurementSteps(f);
    if BlockTimestamp in df.cols {
      df.Assign(BlockTimestamp, Coerced(df.cols[BlockTimestamp]));
      df.DropMissingInPlace(BlockTimestamp);
      assert df.Value() == CleanTimestamps(e);
    }
  }

  /** `ProcessedMeasurement` once the guards have passed. */
  lemma MeasurementSteps(f: Frame)
    requires Rectangular(f) && !IsEmpty(f) && ResolveTimeMeasurement(f).Some?
    requires BlockHeight in ResolveTimeMeasurement(f).value.cols
    ensures var e := WithSpeed(ResolveTimeMeasurement(f).value);
      ProcessedMeasurement(f) == if BlockTimestamp in e.cols then CleanTimestamps(e) else e
  {
  }

  /** The progress tool's `process_progress_df`, updating the table in place. */
  method ProcessProgressInPlace(df: DataFrame)
    requires df.Valid()
    modifies df
    ensures df.Valid() && df.Value() == ProcessedProgress(old(df.Value()))
  {
    if df.nrows == 0 || df.cols == map[] {
      return;
    }
    if InProgressS in df.cols {
    } else if InProgressMs in df.cols {
      df.Assign(InProgressS, DivConst(df.cols[InProgressMs], 1000.0));
    } else {
      return;
    }
    if BlockHeight !in df.cols {
      return;
    }
    df.Assign(SyncTimeFormatted, Formatted(df.cols[InProgressS]));
    df.Assign(BlocksPerSecond, SpeedSeries(df.cols[BlockHeight], df.cols[InProgressS]));
  }

  /** The root dashboard's `process_progress_df`. The text column is written
      before the heights are read, so a table without heights ends up with
      the text column added when the `KeyError` is raised. */
  method ProcessRootInPlace(df: DataFrame) returns (missing: Option<Column>)
    requires df.Valid()
    modifies df
    ensures df.Valid()
    ensures missing.None? <==> ProcessedRoot(old(df.Value())).Success?
    ensures missing.None? ==> df.Value() == ProcessedRoot(old(df.Value())).value
    ensures missing.Some? ==> missing.value == ProcessedRoot(old(df.Value())).error
    ensures missing == Some(InProgressS) ==> df.Value() == old(df.Value())
    ensures missing == Some(BlockHeight) ==>
      df.Value() == WithColumn(old(df.Value()), SyncTimeFormatted, Formatted(old(df.Value()).cols[InProgressS]))
  {
    if df.nrows == 0 || df.cols == map[] {
      return None;
    }
    if InProgressS !in df.cols {
      return Some(InProgressS);
    }
    df.Assign(SyncTimeFormatted, Formatted(df.cols[InProgressS]));
    if BlockHeight !in df.cols {
      return Some(BlockHeight);
    }
    df.Assign(BlocksPerSecond, SpeedSeries(df.cols[BlockHeight], df.cols[InProgressS]));
    return None;
  }

  // ------------------------------------------------------------------
  // process_measurement_df

  /** A ratio with `.replace([pd.NA, inf], 0)`: an undefined operand,
      0/0 and a positive number over 0 all give 0. A negative number over 0
      is minus infinity, which the replacement keeps; the model has no
      infinities and leaves that cell missing. */
  function GuardedRatio(num: Cell, den: Cell): (r: Cell)
  {
    if !(num.Num? && den.Num?) then Num(0.0)
    else if den.value != 0.0 then Num(num.value / den.value)
    else if num.value >= 0.0 then Num(0.0)
    else Missing
  }

  lemma GuardedRatioContract(num: Cell, den: Cell)
    ensures GuardedRatio(num, den).Num? <==> !(num.Num? && den.Num? && den.value == 0.0 && num.value < 0.0)
    ensures num.Num? && den.Num? && den.value != 0.0 ==> GuardedRatio(num, den).value * den.value == num.value
    ensures !(num.Num? && den.Num? && den.value != 0.0) && GuardedRatio(num, den).Num? ==> GuardedRatio(num, den).value == 0.0
    ensures num.Num? && den.Num? && num.value >= 0.0 && den.value >= 0.0 ==> GuardedRatio(num, den).Num? && GuardedRatio(num, den).value >= 0.0
  {
  }

  function Ratios(num: seq<Cell>, den: seq<Cell>): (r: seq<Cell>)
    requires |num| == |den|
    ensures |r| == |num| && forall i | 0 <= i < |num| :: r[i] == GuardedRatio(num[i], den[i])
  {
    seq(|num| , i requires 0 <= i < |num| => GuardedRatio(num[i], den[i]))
  }

  function Constant(n: nat, x: real): (r: seq<Cell>)
    ensures |r| == n && forall i | 0 <= i < n :: r[i] == Num(x)
  {
    seq(n, i => Num(x))
  }

  /** The five columns `process_measurement_df` adds, in the order it
      assigns them; None when a column it reads is missing (a `KeyError`),
      with the columns assigned before that point. */
  function MeasurementColumns(f: Frame): (r: Result<Frame, (Frame, Column)>)
    requires Rectangular(f)
  {
    if IsEmpty(f) then Success(f)
    else if InProgressMs !in f.cols then Failure((f, InProgressMs))
    else
      var seconds := DivConst(f.cols[InProgressMs], 1000.0);
      var g := WithColumn(WithColumn(f, SyncInProgressTimeS, seconds), SyncTimeFormatted, Formatted(seconds));
      if TxCount !in g.cols then Failure((g, TxCount))
      else if TimingMs(PushBlock) !in g.cols then Failure((g, TimingMs(PushBlock)))
      else
        var push := g.cols[TimingMs(PushBlock)];
        var tx := g.cols[TxCount];
        var g1 := WithColumn(g, TxPerSecond, Ratios(tx, DivConst(push, 1000.0)));
        var g2 := WithColumn(g1, BlocksPerSecond, Ratios(Constant(f.nrows, 1000.0), push));
        Success(WithColumn(g2, TimePerTxMs, Ratios(push, tx)))
  }

  /** The per-block ratios row by row: with a non-zero push time the speed is
      1000 / push and transactions per second is count / (push / 1000); with
      a non-zero count the time per transaction is push / count; every zero
      denominator over a non-negative numerator gives 0. */
  lemma MeasurementRatios(f: Frame, i: nat)
    requires Rectangular(f) && MeasurementColumns(f).Success? && !IsEmpty(f) && i < f.nrows
    ensures var r := MeasurementColumns(f).value;
      var push := f.cols[TimingMs(PushBlock)][i];
      var tx := f.cols[TxCount][i];
      && r.cols[SyncInProgressTimeS][i] == DivConst(f.cols[InProgressMs], 1000.0)[i]
      && (push.Num? && push.value != 0.0 ==> r.cols[BlocksPerSecond][i] == Num(1000.0 / push.value))
      && (push.Num? && push.value == 0.0 ==> r.cols[BlocksPerSecond][i] == Num(0.0))
      && (push.Num? && tx.Num? && push.value != 0.0 ==> r.cols[TxPerSecond][i] == Num(tx.value * 1000.0 / push.value))
      && (push.Num? && tx.Num? && tx.value != 0.0 ==> r.cols[TimePerTxMs][i] == Num(push.value / tx.value))
      && (push.Num? && tx.Num? && tx.value == 0.0 && push.value >= 0.0 ==> r.cols[TimePerTxMs][i] == Num(0.0))
  {
    MeasurementColumnsCells(f);
    var push := f.cols[TimingMs(PushBlock)];
    var tx := f.cols[TxCount];
    var pushS := DivConst(push, 1000.0);
    if push[i].Num? && tx[i].Num? && push[i].value != 0.0 {
      assert pushS[i] == Num(push[i].value / 1000.0);
      QuotientOfSeconds(tx[i].value, push[i].value);
    }
  }

  lemma QuotientOfSeconds(tx: real, push: real)
    requires push != 0.0
    ensures tx / (push / 1000.0) == tx * 1000.0 / push
  {
  }

  /** The columns `process_measurement_df` assigns, as whole columns. */
  lemma MeasurementColumnsCells(f: Frame)
    requires Rectangular(f) && MeasurementColumns(f).Success? && !IsEmpty(f)
    ensures var r := MeasurementColumns(f).value;
      var push := f.cols[TimingMs(PushBlock)];
      var tx := f.cols[TxCount];
      && r.nrows == f.nrows
      && r.cols[SyncInProgressTimeS] == DivConst(f.cols[InProgressMs], 1000.0)
      && r.cols[SyncTimeFormatted] == Formatted(DivConst(f.cols[InProgressMs], 1000.0))
      && r.cols[TxPerSecond] == Ratios(tx, DivConst(push, 1000.0))
      && r.cols[BlocksPerSecond] == Ratios(Constant(f.nrows, 1000.0), push)
      && r.cols[TimePerTxMs] == Ratios(push, tx)
  {
    var seconds := DivConst(f.cols[InProgressMs], 1000.0);
    var g0 := WithColumn(f, SyncInProgressTimeS, seconds);
    var g := WithColumn(g0, SyncTimeFormatted, Formatted(seconds));
    assert g.cols[TxCount] == f.cols[TxCount];
    assert g.cols[TimingMs(PushBlock)] == f.cols[TimingMs(PushBlock)];
  }

  method ProcessMeasurementDfInPlace(df: DataFrame) returns (missing: Option<Column>)
    requires df.Valid()
    modifies df
    ensures df.Valid()
    ensures missing.None? <==> MeasurementColumns(old(df.Value())).Success?
    ensures missing.None? ==> df.Value() == MeasurementColumns(old(df.Value())).value
    ensures missing.Some? ==> (df.Value(), missing.value) == MeasurementColumns(old(df.Value())).error
  {
    if df.nrows == 0 || df.cols == map[] {
      return None;
    }
    if InProgressMs !in df.cols {
      return Some(InProgressMs);
    }
    var seconds := DivConst(df.cols[InProgressMs], 1000.0);
    df.Assign(SyncInProgressTimeS, seconds);
    df.Assign(SyncTimeFormatted, Formatted(seconds));
    if TxCount !in df.cols {
      return Some(TxCount);
    }
    if TimingMs(PushBlock) !in df.cols {
      return Some(TimingMs(PushBlock));
    }
    var push := df.cols[TimingMs(PushBlock)];
    var tx := df.cols[TxCount];
    df.Assign(TxPerSecond, Ratios(tx, DivConst(push, 1000.0)));
    df.Assign(BlocksPerSecond, Ratios(Constant(df.nrows, 1000.0), push));
    df.Assign(TimePerTxMs, Ratios(push, tx));
    return None;
  }

  // ------------------------------------------------------------------
  // rolling(window, min_periods=1).mean()

  /** The first row of the window ending at row `i`. */
  function WindowStart(i: nat, w: nat): nat {
    if i + 1 >= w then i + 1 - w else 0
  }

  /** The trailing mean at row `i`: the mean of the numbers among the last
      `w` cells up to `i`, missing when there are none. */
  function RollingMeanAt(s: seq<Cell>, w: nat, i: nat): Cell
    requires i < |s|
  {
    var xs := Numbers(s[WindowStart(i, w)..i + 1]);
    if |xs| == 0 then Missing else Num(Total(xs) / |xs| as real)
  }

  function RollingMean(s: seq<Cell>, w: nat): (r: seq<Cell>)
    ensures |r| == |s|
  {
    seq(|s|, i requires 0 <= i < |s| => RollingMeanAt(s, w, i))
  }

  /** The trailing mean lies between the smallest and the largest number in
      its window, and exists whenever the window holds a number. */
  lemma RollingMeanBounds(s: seq<Cell>, w: nat, i: nat, lo: real, hi: real)
    requires w >= 1 && i < |s|
    requires forall j | WindowStart(i, w) <= j <= i && s[j].Num? :: lo <= s[j].value <= hi
    ensures var m := RollingMean(s, w)[i];
      && (m.Num? <==> exists j | WindowStart(i, w) <= j <= i :: s[j].Num?)
      && (m.Num? ==> lo <= m.value <= hi)
  {
    var a := WindowStart(i, w);
    WindowCells(s, a, i, lo, hi);
    MeanBounds(s[a..i + 1], lo, hi);
  }

  /** The window's cells are the column's cells from `a` to `i`. */
  lemma WindowCells(s: seq<Cell>, a: nat, i: nat, lo: real, hi: real)
    requires a <= i < |s|
    requires forall j | a <= j <= i && s[j].Num? :: lo <= s[j].value <= hi
    ensures var win := s[a..i + 1];
      && (forall j | 0 <= j < |win| && win[j].Num? :: lo <= win[j].value <= hi)
      && ((exists j | 0 <= j < |win| :: win[j].Num?) <==> (exists j | a <= j <= i :: s[j].Num?))
  {
    var win := s[a..i + 1];
    assert forall j | 0 <= j < |win| :: win[j] == s[a + j];
    if exists j | a <= j <= i :: s[j].Num? {
      var j :| a <= j <= i && s[j].Num?;
      assert win[j - a].Num?;
    }
  }

  /** The mean of the numbers among some cells lies between bounds of those numbers. */
  lemma MeanBounds(win: seq<Cell>, lo: real, hi: real)
    requires forall j | 0 <= j < |win| && win[j].Num? :: lo <= win[j].value <= hi
    ensures var xs := Numbers(win);
      && (|xs| > 0 <==> exists j | 0 <= j < |win| :: win[j].Num?)
      && (|xs| > 0 ==> lo <= Total(xs) / |xs| as real <= hi)
  {
    var xs := Numbers(win);
    NumbersNonEmpty(win);
    NumbersBounded(win, lo, hi);
    if |xs| > 0 {
      AverageBounds(xs, lo, hi);
    }
  }

  lemma NumbersBounded(win: seq<Cell>, lo: real, hi: real)
    requires forall j | 0 <= j < |win| && win[j].Num? :: lo <= win[j].value <= hi
    ensures forall k | 0 <= k < |Numbers(win)| :: lo <= Numbers(win)[k] <= hi
  {
    var xs := Numbers(win);
    forall k | 0 <= k < |xs| ensures lo <= xs[k] <= hi {
      assert xs[k] in xs;
      assert Num(xs[k]) in win;
    }
  }

  lemma NumbersNonEmpty(win: seq<Cell>)
    ensures |Numbers(win)| > 0 <==> exists j | 0 <= j < |win| :: win[j].Num?
  {
    var xs := Numbers(win);
    if |xs| > 0 {
      assert xs[0] in xs;
      assert Num(xs[0]) in win;
    }
    if exists j | 0 <= j < |win| :: win[j].Num? {
      var j :| 0 <= j < |win| && win[j].Num?;
      assert Num(win[j].value) in win;
    }
  }

  /** With a window of one row the trailing mean is the column itself, the
      NaN cells (and text) becoming missing. */
  lemma RollingMeanWindowOne(s: seq<Cell>)
    ensures RollingMean(s, 1) == Coerced(s)
  {
    forall i | 0 <= i < |s| ensures RollingMean(s, 1)[i] == Coerced(s)[i] {
      WindowOneAt(s, i);
    }
  }

  lemma WindowOneAt(s: seq<Cell>, i: nat)
    requires i < |s|
    ensures RollingMeanAt(s, 1, i) == if s[i].Num? then s[i] else Missing
  {
    assert s[WindowStart(i, 1)..i + 1] == [s[i]];
    NumbersOfOne(s[i]);
    if s[i].Num? {
      TotalOfOne(s[i].value);
      DivideByOne(s[i].value);
    }
  }

  lemma NumbersOfOne(c: Cell)
    ensures Numbers([c]) == if c.Num? then [c.value] else []
  {
    assert [c][..0] == [];
  }

  lemma TotalOfOne(x: real)
    ensures Total([x]) == x
  {
    assert [x][..0] == [];
  }

  lemma DivideByOne(x: real)
    ensures x / 1.0 == x
  {
  }

  /** The trailing means of the measurement graphs, added one metric after
      another as `<metric>_ma`; the first metric that is not a column stops
      the loop with a `KeyError`. */
  function WithRollingMeans(f: Frame, metrics: seq<Column>, w: nat): (r: Result<Frame, (Frame, Column)>)
    requires Rectangular(f)
    ensures r.Success? ==> Rectangular(r.value)
    ensures r.Failure? ==> Rectangular(r.error.0)
    decreases |metrics|
  {
    if metrics == [] then Success(f)
    else if metrics[0] !in f.cols then Failure((f, metrics[0]))
    else WithRollingMeans(WithColumn(f, MovingAverage(metrics[0]), RollingMean(f.cols[metrics[0]], w)), metrics[1..], w)
  }

  /** The nine timing columns `update_graphs` plots, push time first. */
  const GraphedTimings: seq<Column> :=
    [TimingMs(PushBlock), TimingMs(Validation), TimingMs(TxLoop), TimingMs(Housekeeping), TimingMs(TxApply),
     TimingMs(AtTime), TimingMs(Subscription), TimingMs(BlockApply), TimingMs(Commit)]

  /** The loop of `update_graphs` over its timing metrics, in place. */
  method AddRollingMeans(df: DataFrame, metrics: seq<Column>, w: nat) returns (missing: Option<Column>)
    requires df.Valid()
    modifies df
    ensures df.Valid()
    ensures missing.None? <==> WithRollingMeans(old(df.Value()), metrics, w).Success?
    ensures missing.None? ==> df.Value() == WithRollingMeans(old(df.Value()), metrics, w).value
    ensures missing.Some? ==> (df.Value(), missing.value) == WithRollingMeans(old(df.Value()), metrics, w).error
  {
    var k := 0;
    while k < |metrics|
      invariant 0 <= k <= |metrics| && df.Valid()
      invariant WithRollingMeans(df.Value(), metrics[k..], w) == WithRollingMeans(old(df.Value()), metrics, w)
    {
      var m := metrics[k];
      if m !in df.cols {
        return Some(m);
      }
      assert metrics[k..][1..] == metrics[k + 1..];
      df.Assign(MovingAverage(m), RollingMean(df.cols[m], w));
      k := k + 1;
    }
    return None;
  }

  /** Every metric that is a column gains its trailing-mean column, and the
      columns are those of the frame and those new ones. */
  lemma {:induction false} WithRollingMeansColumns(f: Frame, metrics: seq<Column>, w: nat)
    requires Rectangular(f)
    requires forall k | 0 <= k < |metrics| :: metrics[k] in f.cols && !metrics[k].MovingAverage?
    ensures WithRollingMeans(f, metrics, w).Success?
    ensures var r := WithRollingMeans(f, metrics, w).value;
      && r.nrows == f.nrows
      && forall c :: c in r.cols <==> c in f.cols || (c.MovingAverage? && c.base in metrics)
    decreases |metrics|
  {
    if metrics != [] {
      var g := WithColumn(f, MovingAverage(metrics[0]), RollingMean(f.cols[metrics[0]], w));
      RestInColumns(f, g, metrics);
      WithRollingMeansColumns(g, metrics[1..], w);
      AveragesStep(metrics);
    }
  }

  lemma AveragesStep(metrics: seq<Column>)
    requires |metrics| > 0
    ensures forall c: Column :: c.MovingAverage? && c.base in metrics <==>
      c == MovingAverage(metrics[0]) || (c.MovingAverage? && c.base in metrics[1..])
  {
    assert metrics == [metrics[0]] + metrics[1..];
  }

  lemma RestInColumns(f: Frame, g: Frame, metrics: seq<Column>)
    requires |metrics| > 0 && forall k | 0 <= k < |metrics| :: metrics[k] in f.cols && !metrics[k].MovingAverage?
    requires forall c | c in f.cols :: c in g.cols
    ensures forall k | 0 <= k < |metrics[1..]| :: metrics[1..][k] in g.cols && !metrics[1..][k].MovingAverage?
  {
    forall k | 0 <= k < |metrics[1..]| ensures metrics[1..][k] in g.cols && !metrics[1..][k].MovingAverage? {
      assert metrics[1..][k] == metrics[k + 1];
    }
  }

  /** Each trailing-mean column holds the trailing mean of its metric. */
  lemma {:induction false} WithRollingMeansAverages(f: Frame, metrics: seq<Column>, w: nat)
    requires Rectangular(f)
    requires forall k | 0 <= k < |metrics| :: metrics[k] in f.cols && !metrics[k].MovingAverage?
    ensures WithRollingMeans(f, metrics, w).Success?
    ensures var r := WithRollingMeans(f, metrics, w).value;
      forall k | 0 <= k < |metrics| ::
        MovingAverage(metrics[k]) in r.cols && r.cols[MovingAverage(metrics[k])] == RollingMean(f.cols[metrics[k]], w)
    decreases |metrics|
  {
    WithRollingMeansColumns(f, metrics, w);
    if metrics != [] {
      var g := WithColumn(f, MovingAverage(metrics[0]), RollingMean(f.cols[metrics[0]], w));
      RestInColumns(f, g, metrics);
      WithRollingMeansAverages(g, metrics[1..], w);
      WithRollingMeansKeeps(g, metrics[1..], w);
      var r := WithRollingMeans(g, metrics[1..], w).value;
      forall k | 0 <= k < |metrics| ensures r.cols[MovingAverage(metrics[k])] == RollingMean(f.cols[metrics[k]], w) {
        var m := metrics[k];
        assert g.cols[m] == f.cols[m] by {
          assert m != MovingAverage(metrics[0]);
        }
        if m in metrics[1..] {
          var k' :| 0 <= k' < |metrics[1..]| && metrics[1..][k'] == m;
          assert r.cols[MovingAverage(m)] == RollingMean(g.cols[m], w);
        } else {
          assert k == 0;
          assert r.cols[MovingAverage(m)] == g.cols[MovingAverage(m)];
        }
      }
    }
  }

  /** Columns other than the trailing means keep their cells. */
  lemma {:induction false} WithRollingMeansKeeps(f: Frame, metrics: seq<Column>, w: nat)
    requires Rectangular(f)
    requires forall k | 0 <= k < |metrics| :: metrics[k] in f.cols && !metrics[k].MovingAverage?
    ensures WithRollingMeans(f, metrics, w).Success?
    ensures var r := WithRollingMeans(f, metrics, w).value;
      forall c | c in f.cols && !(c.MovingAverage? && c.base in metrics) :: c in r.cols && r.cols[c] == f.cols[c]
    decreases |metrics|
  {
    WithRollingMeansColumns(f, metrics, w);
    if metrics != [] {
      var g := WithColumn(f, MovingAverage(metrics[0]), RollingMean(f.cols[metrics[0]], w));
      RestInColumns(f, g, metrics);
      WithRollingMeansKeeps(g, metrics[1..], w);
      forall c | c in f.cols && !(c.MovingAverage? && c.base in metrics) ensures c in g.cols && g.cols[c] == f.cols[c] && !(c.MovingAverage? && c.base in metrics[1..]) {
        assert c != MovingAverage(metrics[0]);
      }
    }
  }
}
