/** Transforms that choose, reorder or condense the rows of a table:
    the clear-data filter, the chunk averaging of a measurement log and
    the block-range selection behind the dashboards' start/end dropdowns. */
module RowSets {

  import opened Wrappers
  import opened Frames
  import opened Sorting
  import opened Arith

  // ------------------------------------------------------------------
  // filter_df_for_clearing

  /** `h % 5000 == 0 | h == 0`: the height is a whole multiple of 5000
      (zero and negative multiples included). */
  predicate ClearingKeeps(c: Cell) {
    c.Num? && (c.value / 5000.0).Floor as real == c.value / 5000.0
  }

  /** The heights the condition keeps, in row order. */
  function KeptHeights(h: seq<Cell>): (r: seq<real>)
    ensures forall x :: x in r <==> Num(x) in h && ClearingKeeps(Num(x))
    decreases |h|
  {
    if h == [] then []
    else
      var last := h[|h| - 1];
      assert forall c :: c in h <==> c in h[..|h| - 1] || c == last;
      KeptHeights(h[..|h| - 1]) + (if ClearingKeeps(last) then [last.value] else [])
  }

  function FirstRowWith(h: seq<Cell>, x: real): (i: nat)
    requires Num(x) in h
    ensures i < |h| && h[i] == Num(x)
    ensures forall j | 0 <= j < i :: h[j] != Num(x)
    decreases |h|
  {
    if h[0] == Num(x) then 0 else 1 + FirstRowWith(h[1..], x)
  }

  /** Both heights are numbers and the first is the lower. */
  predicate Below(a: Cell, b: Cell) {
    a.Num? && b.Num? && a.value < b.value
  }

  /** One row per kept height, in ascending height order. Of several rows
      with the same height the first one is chosen. */
  function ClearingRows(h: seq<Cell>): (idx: seq<nat>)
    ensures IndicesBelow(idx, |h|)
  {
    var hs := SortedDistinct(KeptHeights(h));
    seq(|hs|, j requires 0 <= j < |hs| => FirstRowWith(h, hs[j]))
  }

  /** `filter_df_for_clearing`: keep the rows whose height is a multiple of
      5000, sorted by height, one row per height. */
  function FilterForClearing(f: Frame): (r: Frame)
    requires Rectangular(f)
    ensures Rectangular(r)
  {
    if IsEmpty(f) || BlockHeight !in f.cols then f
    else Take(f, ClearingRows(f.cols[BlockHeight]))
  }

  lemma ClearingRowsHeights(h: seq<Cell>)
    ensures var idx := ClearingRows(h);
      forall j | 0 <= j < |idx| :: h[idx[j]] == Num(SortedDistinct(KeptHeights(h))[j])
  {
  }

  /** What the clear-data filter keeps: input rows only, every multiple of
      5000 that occurs, heights strictly ascending; and the guard. */
  lemma ClearingContract(f: Frame)
    requires Rectangular(f)
    ensures IsEmpty(f) || BlockHeight !in f.cols ==> FilterForClearing(f) == f
    ensures !IsEmpty(f) && BlockHeight in f.cols ==>
      var h, r := f.cols[BlockHeight], FilterForClearing(f);
      var idx := ClearingRows(h);
      && r == Take(f, idx)
      && (forall j | 0 <= j < r.nrows :: ClearingKeeps(r.cols[BlockHeight][j]))
      && (forall i | 0 <= i < |h| && ClearingKeeps(h[i]) ::
            exists j | 0 <= j < r.nrows :: r.cols[BlockHeight][j] == h[i])
      && (forall j, k | 0 <= j < k < r.nrows :: Below(r.cols[BlockHeight][j], r.cols[BlockHeight][k]))
  {
    if !IsEmpty(f) && BlockHeight in f.cols {
      var h := f.cols[BlockHeight];
      var hs := SortedDistinct(KeptHeights(h));
      var r := FilterForClearing(f);
      ClearingRowsHeights(h);
      forall j | 0 <= j < r.nrows ensures r.cols[BlockHeight][j] == Num(hs[j]) {
      }
      forall j | 0 <= j < r.nrows ensures ClearingKeeps(r.cols[BlockHeight][j]) {
        assert hs[j] in hs;
      }
      forall i | 0 <= i < |h| && ClearingKeeps(h[i])
        ensures exists j | 0 <= j < r.nrows :: r.cols[BlockHeight][j] == h[i]
      {
        assert h[i] in h;
        assert h[i].value in hs;
        var j :| 0 <= j < |hs| && hs[j] == h[i].value;
        assert r.cols[BlockHeight][j] == h[i];
      }
    }
  }

  lemma {:induction false} KeptHeightsOfKept(h: seq<Cell>)
    requires forall i | 0 <= i < |h| :: ClearingKeeps(h[i])
    ensures |KeptHeights(h)| == |h|
    ensures forall i | 0 <= i < |h| :: h[i] == Num(KeptHeights(h)[i])
    decreases |h|
  {
    if h != [] {
      var p := h[..|h| - 1];
      KeptHeightsOfKept(p);
      assert KeptHeights(h) == KeptHeights(p) + [h[|h| - 1].value];
      forall i | 0 <= i < |h| ensures h[i] == Num(KeptHeights(h)[i]) {
        if i < |p| {
          assert h[i] == p[i];
        }
      }
    }
  }

  lemma FirstRowOfIncreasing(h: seq<Cell>, hs: seq<real>, j: nat)
    requires |h| == |hs| && StrictlyIncreasing(hs) && j < |hs|
    requires forall i | 0 <= i < |h| :: h[i] == Num(hs[i])
    ensures Num(hs[j]) in h && FirstRowWith(h, hs[j]) == j
  {
    assert h[j] == Num(hs[j]);
  }

  /** On heights that are already kept, distinct and ascending, the clearing
      rows are all rows in order. */
  lemma ClearingRowsOfCleared(h: seq<Cell>)
    requires forall i | 0 <= i < |h| :: ClearingKeeps(h[i])
    requires forall i, k | 0 <= i < k < |h| :: Below(h[i], h[k])
    ensures ClearingRows(h) == Identity(|h|)
  {
    KeptHeightsOfKept(h);
    var hs := KeptHeights(h);
    KeptIncreasing(h, hs);
    SortedDistinctFixpoint(hs);
    var idx := ClearingRows(h);
    forall j | 0 <= j < |idx| ensures idx[j] == j {
      FirstRowOfIncreasing(h, hs, j);
    }
  }

  lemma KeptIncreasing(h: seq<Cell>, hs: seq<real>)
    requires |h| == |hs| && forall i | 0 <= i < |h| :: h[i] == Num(hs[i])
    requires forall i, k | 0 <= i < k < |h| :: Below(h[i], h[k])
    ensures StrictlyIncreasing(hs)
  {
    forall i, k | 0 <= i < k < |hs| ensures hs[i] < hs[k] {
      assert Below(h[i], h[k]);
    }
  }

  /** Clearing twice is clearing once. */
  lemma ClearingIdempotent(f: Frame)
    requires Rectangular(f)
    ensures FilterForClearing(FilterForClearing(f)) == FilterForClearing(f)
  {
    var g := FilterForClearing(f);
    if !IsEmpty(f) && BlockHeight in f.cols {
      ClearingContract(f);
      assert BlockHeight in g.cols;
      if !IsEmpty(g) {
        ClearingRowsOfCleared(g.cols[BlockHeight]);
        TakeIdentity(g);
      }
    }
  }

  // ------------------------------------------------------------------
  // average_df_by_chunks

  datatype Aggregation = Last | Mean | Sum

  /** The aggregation applied to each known column; None for the columns the
      averaging drops. */
  function AggregationOf(c: Column): Option<Aggregation> {
    match c
    case BlockTimestamp => Some(Last)
    case CumulativeDifficulty => Some(Last)
    case SyncTimeMs => Some(Last)
    case InProgressMs => Some(Last)
    case TimingMs(_) => Some(Mean)
    case AllTxCount => Some(Sum)
    case BlockHeight => Some(Last)
    case _ => None
  }

  /** `(h - 1) // chunk_size` */
  function GroupKey(h: real, chunk: nat): int
    requires chunk > 0
  {
    ((h - 1.0) / chunk as real).Floor
  }

  predicate Positive(c: Cell) {
    c.Num? && c.value > 0.0
  }

  /** Indices `i` in `[0, n)`, ascending, whose height satisfies `p`. */
  function RowsWhere(h: seq<Cell>, n: nat, p: Cell -> bool): (idx: seq<nat>)
    requires n <= |h|
    ensures IndicesBelow(idx, n)
    ensures forall j | 0 <= j < |idx| :: p(h[idx[j]])
    ensures forall j, k | 0 <= j < k < |idx| :: idx[j] < idx[k]
    ensures forall i | 0 <= i < n && p(h[i]) :: i in idx
    decreases n
  {
    if n == 0 then [] else RowsWhere(h, n - 1, p) + (if p(h[n - 1]) then [n - 1] else [])
  }

  function GenesisRows(h: seq<Cell>): seq<nat> {
    RowsWhere(h, |h|, c => c == Num(0.0))
  }

  function PositiveRows(h: seq<Cell>): seq<nat> {
    RowsWhere(h, |h|, Positive)
  }

  /** The group keys of all positive heights, in row order. */
  function KeysOf(h: seq<Cell>, chunk: nat): (ks: seq<real>)
    requires chunk > 0
    ensures forall x | x in ks :: exists i | 0 <= i < |h| && Positive(h[i]) :: x == GroupKey(h[i].value, chunk) as real
    ensures forall i | 0 <= i < |h| && Positive(h[i]) :: GroupKey(h[i].value, chunk) as real in ks
    decreases |h|
  {
    if h == [] then []
    else
      var last := h[|h| - 1];
      KeysOf(h[..|h| - 1], chunk) + (if Positive(last) then [GroupKey(last.value, chunk) as real] else [])
  }

  /** The non-empty groups, in ascending key order (groupby sorts its keys). */
  function Groups(h: seq<Cell>, chunk: nat): (gs: seq<real>)
    requires chunk > 0
    ensures StrictlyIncreasing(gs)
  {
    SortedDistinct(KeysOf(h, chunk))
  }

  predicate InGroup(c: Cell, g: real, chunk: nat)
    requires chunk > 0
  {
    Positive(c) && GroupKey(c.value, chunk) as real == g
  }

  function GroupRows(h: seq<Cell>, g: real, chunk: nat): seq<nat>
    requires chunk > 0
  {
    RowsWhere(h, |h|, c => InGroup(c, g, chunk))
  }

  /** Groupby `last`: the last non-null value of the group. */
  function LastPresent(cs: seq<Cell>): (r: Cell)
    ensures r != Missing ==> r in cs
    ensures r == Missing <==> forall i | 0 <= i < |cs| :: cs[i] == Missing
    decreases |cs|
  {
    if cs == [] then Missing
    else if cs[|cs| - 1] != Missing then cs[|cs| - 1]
    else LastPresent(cs[..|cs| - 1])
  }

  /** One aggregation over the cells of a group; `mean` and `sum` skip NaN,
      a sum over no numbers is 0 and a mean over none is NaN. */
  function Aggregate(a: Aggregation, cs: seq<Cell>): Cell {
    match a
    case Last => LastPresent(cs)
    case Mean =>
      var xs := Numbers(cs);
      if |xs| == 0 then Missing else Num(Total(xs) / |xs| as real)
    case Sum => Num(Total(Numbers(cs)))
  }

  function Pick(s: seq<Cell>, idx: seq<nat>): (r: seq<Cell>)
    requires IndicesBelow(idx, |s|)
    ensures |r| == |idx| && forall j | 0 <= j < |idx| :: r[j] == s[idx[j]]
  {
    seq(|idx|, j requires 0 <= j < |idx| => s[idx[j]])
  }

  /** The cell of column `c` in the averaged row of group `g`; columns without
      an aggregation are NaN there (pd.concat fills them). */
  function AveragedCell(f: Frame, c: Column, g: real, chunk: nat): Cell
    requires Rectangular(f) && chunk > 0 && BlockHeight in f.cols && c in f.cols
  {
    match AggregationOf(c)
    case None => Missing
    case Some(a) => Aggregate(a, Pick(f.cols[c], GroupRows(f.cols[BlockHeight], g, chunk)))
  }

  /** The genesis rows `gen` followed by one averaged row per group of `gs`. */
  function Condensed(f: Frame, chunk: nat, gen: seq<nat>, gs: seq<real>): (r: Frame)
    requires Rectangular(f) && chunk > 0 && BlockHeight in f.cols && IndicesBelow(gen, f.nrows)
    ensures Rectangular(r) && r.nrows == |gen| + |gs| && r.cols.Keys == f.cols.Keys
    ensures forall c, j | c in f.cols && 0 <= j < |gen| :: r.cols[c][j] == f.cols[c][gen[j]]
    ensures forall c, j | c in f.cols && |gen| <= j < r.nrows ::
      r.cols[c][j] == AveragedCell(f, c, gs[j - |gen|], chunk)
  {
    var n := |gen| + |gs|;
    Frame(n, map c | c in f.cols :: seq(n, j requires 0 <= j < n =>
      if j < |gen| then f.cols[c][gen[j]] else AveragedCell(f, c, gs[j - |gen|], chunk)))
  }

  /** `average_df_by_chunks(df, chunk_size)`: the genesis rows unchanged, then
      one aggregated row per non-empty chunk of positive heights. */
  function AverageByChunks(f: Frame, chunk: nat): (r: Frame)
    requires Rectangular(f) && chunk > 0
    ensures Rectangular(r)
  {
    if IsEmpty(f) || BlockHeight !in f.cols then f
    else
      var h := f.cols[BlockHeight];
      var gen := GenesisRows(h);
      if |PositiveRows(h)| == 0 then Take(f, gen)
      else Condensed(f, chunk, gen, Groups(h, chunk))
  }

  lemma GroupKeyMonotone(a: real, b: real, chunk: nat)
    requires chunk > 0 && a <= b
    ensures GroupKey(a, chunk) <= GroupKey(b, chunk)
  {
    assert (a - 1.0) / chunk as real <= (b - 1.0) / chunk as real;
  }

  /** Heights 1..chunk form group 0, chunk+1..2*chunk group 1, and so on. */
  lemma GroupKeyOfHeight(k: nat, chunk: nat, h: real)
    requires chunk > 0
    requires (k * chunk) as real + 1.0 <= h <= ((k + 1) * chunk) as real
    ensures GroupKey(h, chunk) == k
  {
    var c := chunk as real;
    assert (k * chunk) as real == k as real * c;
    assert ((k + 1) * chunk) as real == (k + 1) as real * c;
    QuotientBetween(h - 1.0, c, k as real, (k + 1) as real);
  }

  lemma GroupHasRows(f: Frame, chunk: nat, g: real)
    requires Rectangular(f) && chunk > 0 && BlockHeight in f.cols
    requires g in Groups(f.cols[BlockHeight], chunk)
    ensures |GroupRows(f.cols[BlockHeight], g, chunk)| > 0
  {
    var h := f.cols[BlockHeight];
    assert g in KeysOf(h, chunk);
    var i :| 0 <= i < |h| && Positive(h[i]) && g == GroupKey(h[i].value, chunk) as real;
    assert InGroup(h[i], g, chunk);
  }

  /** The averaged row's height is the height of the group's last row
      (`'Block_height': 'last'`), so a height of the group. */
  lemma AveragedHeight(f: Frame, chunk: nat, g: real)
    requires Rectangular(f) && chunk > 0 && BlockHeight in f.cols
    requires g in Groups(f.cols[BlockHeight], chunk)
    ensures var rows := GroupRows(f.cols[BlockHeight], g, chunk);
      |rows| > 0 && rows[|rows| - 1] < f.nrows
      && AveragedCell(f, BlockHeight, g, chunk) == f.cols[BlockHeight][rows[|rows| - 1]]
    ensures var c := AveragedCell(f, BlockHeight, g, chunk);
      c.Num? && InGroup(c, g, chunk)
  {
    var h := f.cols[BlockHeight];
    var rows := GroupRows(h, g, chunk);
    GroupHasRows(f, chunk, g);
    var cs := Pick(h, rows);
    assert cs[|cs| - 1] != Missing;
    var c := LastPresent(cs);
    var j :| 0 <= j < |cs| && cs[j] == c;
    assert InGroup(h[rows[j]], g, chunk);
  }

  lemma {:induction false} KeysOfNoPositive(h: seq<Cell>, chunk: nat)
    requires chunk > 0 && forall i | 0 <= i < |h| :: !Positive(h[i])
    ensures KeysOf(h, chunk) == []
    decreases |h|
  {
    if h != [] {
      KeysOfNoPositive(h[..|h| - 1], chunk);
    }
  }

  lemma NoPositiveNoGroups(h: seq<Cell>, chunk: nat)
    requires chunk > 0 && |PositiveRows(h)| == 0
    ensures |Groups(h, chunk)| == 0
  {
    assert forall i | 0 <= i < |h| :: !Positive(h[i]);
    KeysOfNoPositive(h, chunk);
  }

  /** The chunk averaging's shape: the guard, the genesis rows first and
      unchanged, and one further row per non-empty group. */
  lemma AverageByChunksShape(f: Frame, chunk: nat)
    requires Rectangular(f) && chunk > 0
    ensures IsEmpty(f) || BlockHeight !in f.cols ==> AverageByChunks(f, chunk) == f
    ensures !IsEmpty(f) && BlockHeight in f.cols ==>
      var h, r := f.cols[BlockHeight], AverageByChunks(f, chunk);
      var gen := GenesisRows(h);
      && r.cols.Keys == f.cols.Keys
      && (forall i | 0 <= i < |h| :: (h[i] == Num(0.0) <==> i in gen))
      && r.nrows == |gen| + |Groups(h, chunk)|
      && (forall c, j | c in f.cols && 0 <= j < |gen| :: r.cols[c][j] == f.cols[c][gen[j]])
      && (|PositiveRows(h)| == 0 ==> r == Take(f, gen))
  {
    if !IsEmpty(f) && BlockHeight in f.cols && |PositiveRows(f.cols[BlockHeight])| == 0 {
      NoPositiveNoGroups(f.cols[BlockHeight], chunk);
    }
  }

  lemma CondensedHeight(f: Frame, chunk: nat, gen: seq<nat>, gs: seq<real>, j: nat)
    requires Rectangular(f) && chunk > 0 && BlockHeight in f.cols && IndicesBelow(gen, f.nrows)
    requires gs == Groups(f.cols[BlockHeight], chunk) && |gen| <= j < |gen| + |gs|
    ensures var c := Condensed(f, chunk, gen, gs).cols[BlockHeight][j];
      Positive(c) && InGroup(c, gs[j - |gen|], chunk)
  {
    assert gs[j - |gen|] in gs;
    AveragedHeight(f, chunk, gs[j - |gen|]);
  }

  lemma CondensedAscending(f: Frame, chunk: nat, gen: seq<nat>, gs: seq<real>, j: nat, k: nat)
    requires Rectangular(f) && chunk > 0 && BlockHeight in f.cols && IndicesBelow(gen, f.nrows)
    requires gs == Groups(f.cols[BlockHeight], chunk) && |gen| <= j < k < |gen| + |gs|
    ensures var r := Condensed(f, chunk, gen, gs);
      Below(r.cols[BlockHeight][j], r.cols[BlockHeight][k])
  {
    var r := Condensed(f, chunk, gen, gs);
    CondensedHeight(f, chunk, gen, gs, j);
    CondensedHeight(f, chunk, gen, gs, k);
    var a, b := r.cols[BlockHeight][j].value, r.cols[BlockHeight][k].value;
    if a >= b {
      GroupKeyMonotone(b, a, chunk);
    }
  }

  /** After the first `gen` rows, each row's height is positive and lies in
      its own group, so the heights are strictly ascending. */
  predicate HeightsFollowGroups(r: Frame, gen: nat, gs: seq<real>, chunk: nat)
    requires Rectangular(r) && BlockHeight in r.cols && chunk > 0
    requires gen <= r.nrows ==> r.nrows - gen <= |gs|
  {
    && (forall j | gen <= j < r.nrows ::
          Positive(r.cols[BlockHeight][j]) && InGroup(r.cols[BlockHeight][j], gs[j - gen], chunk))
    && (forall j, k | gen <= j < k < r.nrows :: Below(r.cols[BlockHeight][j], r.cols[BlockHeight][k]))
  }

  lemma CondensedHeights(f: Frame, chunk: nat, gen: seq<nat>, gs: seq<real>)
    requires Rectangular(f) && chunk > 0 && BlockHeight in f.cols && IndicesBelow(gen, f.nrows)
    requires gs == Groups(f.cols[BlockHeight], chunk)
    ensures HeightsFollowGroups(Condensed(f, chunk, gen, gs), |gen|, gs, chunk)
  {
    var r := Condensed(f, chunk, gen, gs);
    forall j | |gen| <= j < r.nrows
      ensures Positive(r.cols[BlockHeight][j]) && InGroup(r.cols[BlockHeight][j], gs[j - |gen|], chunk)
    {
      CondensedHeight(f, chunk, gen, gs, j);
    }
    forall j, k | |gen| <= j < k < r.nrows
      ensures Below(r.cols[BlockHeight][j], r.cols[BlockHeight][k])
    {
      CondensedAscending(f, chunk, gen, gs, j, k);
    }
  }

  /** After the genesis rows, each row's height lies in its own group, so the
      heights are positive and strictly ascending. */
  lemma AverageByChunksHeights(f: Frame, chunk: nat)
    requires Rectangular(f) && chunk > 0 && !IsEmpty(f) && BlockHeight in f.cols
    ensures var h, r := f.cols[BlockHeight], AverageByChunks(f, chunk);
      && BlockHeight in r.cols && r.nrows == |GenesisRows(h)| + |Groups(h, chunk)|
      && HeightsFollowGroups(r, |GenesisRows(h)|, Groups(h, chunk), chunk)
  {
    var h := f.cols[BlockHeight];
    var gen, gs := GenesisRows(h), Groups(h, chunk);
    if |PositiveRows(h)| > 0 {
      assert AverageByChunks(f, chunk) == Condensed(f, chunk, gen, gs);
      CondensedHeights(f, chunk, gen, gs);
    } else {
      NoPositiveNoGroups(h, chunk);
      assert AverageByChunks(f, chunk) == Take(f, gen);
    }
  }

  // ------------------------------------------------------------------
  // Block-range selection

  /** What fired the dashboard callback: a store changed (upload or clear),
      the reset button of one dataset, or anything else. */
  datatype Trigger = DataChanged | ResetOf(prefix: Prefix) | OtherInput

  /** The height is a number within [lo, hi]. A bound that is NaN (None)
      admits nothing, as every comparison with NaN is false. */
  predicate InRange(c: Cell, lo: Option<real>, hi: Option<real>) {
    c.Num? && lo.Some? && hi.Some? && lo.value <= c.value <= hi.value
  }

  /** `df[(df['Block_height'] >= lo) & (df['Block_height'] <= hi)]` as row indices. */
  function RowsInRange(h: seq<Cell>, lo: Option<real>, hi: Option<real>): (idx: seq<nat>)
    ensures IndicesBelow(idx, |h|)
    ensures forall j, k | 0 <= j < k < |idx| :: idx[j] < idx[k]
    ensures forall i | 0 <= i < |h| :: i in idx <==> InRange(h[i], lo, hi)
  {
    RowsWhere(h, |h|, c => InRange(c, lo, hi))
  }

  /** Swap the bounds when start > end. */
  function Ordered(s: Option<real>, e: Option<real>): (r: (Option<real>, Option<real>))
    ensures r.0.Some? && r.1.Some? ==> r.0.value <= r.1.value
    ensures r == (s, e) || r == (e, s)
  {
    if s.Some? && e.Some? && s.value > e.value then (e, s) else (s, e)
  }

  /** One dataset's range: its bounds and the rows shown. A bound is None
      when the dataset is empty or has no numeric height (min() is NaN). */
  datatype Selection = Selection(start: Option<real>, end: Option<real>, rows: seq<nat>)

  /** The bounds fall back to the dataset's min/max on a reset of this
      dataset, on an upload or clear, or when either input is unset. */
  predicate UseDefaults(p: Prefix, trigger: Trigger, userStart: Option<real>, userEnd: Option<real>) {
    trigger == ResetOf(p) || trigger == DataChanged || userStart.None? || userEnd.None?
  }

  function LowHeight(h: seq<Cell>): Option<real> {
    var vals := Numbers(h);
    if |vals| > 0 then Some(MinOf(vals)) else None
  }

  function HighHeight(h: seq<Cell>): Option<real> {
    var vals := Numbers(h);
    if |vals| > 0 then Some(MaxOf(vals)) else None
  }

  /** The per-dataset range of the two tool dashboards. */
  function SelectRange(f: Frame, p: Prefix, trigger: Trigger, userStart: Option<real>, userEnd: Option<real>): (sel: Selection)
    requires Rectangular(f) && (IsEmpty(f) || BlockHeight in f.cols)
  {
    if IsEmpty(f) then Selection(None, None, [])
    else
      var h := f.cols[BlockHeight];
      var d := UseDefaults(p, trigger, userStart, userEnd);
      var bounds := Ordered(if d then LowHeight(h) else userStart, if d then HighHeight(h) else userEnd);
      Selection(bounds.0, bounds.1, RowsInRange(h, bounds.0, bounds.1))
  }

  /** The range is ordered; the shown rows are exactly those with
      start <= height <= end, in table order; defaults are the min and max
      height, so that they show every row with a height; otherwise the
      user's two values are kept, swapped if reversed. */
  lemma SelectRangeContract(f: Frame, p: Prefix, trigger: Trigger, userStart: Option<real>, userEnd: Option<real>)
    requires Rectangular(f) && (IsEmpty(f) || BlockHeight in f.cols)
    ensures var sel := SelectRange(f, p, trigger, userStart, userEnd);
      && (sel.start.Some? && sel.end.Some? ==> sel.start.value <= sel.end.value)
      && IndicesBelow(sel.rows, f.nrows)
      && (forall j, k | 0 <= j < k < |sel.rows| :: sel.rows[j] < sel.rows[k])
      && (IsEmpty(f) ==> sel.rows == [])
      && (!IsEmpty(f) ==> forall i | 0 <= i < f.nrows ::
            i in sel.rows <==> InRange(f.cols[BlockHeight][i], sel.start, sel.end))
      && (!IsEmpty(f) && UseDefaults(p, trigger, userStart, userEnd) ==>
            sel.start == LowHeight(f.cols[BlockHeight]) && sel.end == HighHeight(f.cols[BlockHeight])
            && forall i | 0 <= i < f.nrows && f.cols[BlockHeight][i].Num? :: i in sel.rows)
      && (!IsEmpty(f) && !UseDefaults(p, trigger, userStart, userEnd) ==>
            (sel.start, sel.end) == Ordered(userStart, userEnd))
  {
    if !IsEmpty(f) && UseDefaults(p, trigger, userStart, userEnd) {
      var h := f.cols[BlockHeight];
      var sel := SelectRange(f, p, trigger, userStart, userEnd);
      forall i | 0 <= i < f.nrows && h[i].Num? ensures i in sel.rows {
        assert h[i] in h;
        assert h[i].value in Numbers(h);
      }
    }
  }

  /** The callback's bookkeeping loop: for each dataset in turn, compute its
      range and write it into that dataset's entry. */
  method ComputeRanges(frames: map<Prefix, Frame>, trigger: Trigger,
                       starts: map<Prefix, Option<real>>, ends: map<Prefix, Option<real>>)
    returns (info: map<Prefix, Selection>)
    requires forall p | p in frames :: Rectangular(frames[p]) && (IsEmpty(frames[p]) || BlockHeight in frames[p].cols)
    requires Original in frames && Comparison in frames
    ensures info.Keys == {Original, Comparison}
    ensures forall p | p in info ::
      info[p] == SelectRange(frames[p], p, trigger, Lookup(starts, p), Lookup(ends, p))
  {
    var order := [Original, Comparison];
    info := map[];
    var i := 0;
    while i < |order|
      invariant 0 <= i <= |order|
      invariant forall j | 0 <= j < i :: order[j] in info
      invariant forall q | q in info :: q in order[..i]
      invariant forall p | p in info ::
        info[p] == SelectRange(frames[p], p, trigger, Lookup(starts, p), Lookup(ends, p))
    {
      var p := order[i];
      info := info[p := SelectRange(frames[p], p, trigger, Lookup(starts, p), Lookup(ends, p))];
      i := i + 1;
    }
    assert order[0] in info && order[1] in info;
  }

  /** `inputs.get(prefix)`: None when the dropdown has no entry for it. */
  function Lookup(m: map<Prefix, Option<real>>, p: Prefix): Option<real> {
    if p in m then m[p] else None
  }

  /** The shared range of the root dashboard: one dropdown over the union of
      both datasets' heights, one pair of bounds, applied to both datasets. */
  datatype SharedRange = SharedRange(options: seq<real>, start: real, end: real,
                                     original: seq<nat>, comparison: seq<nat>)

  function HeightsOf(f: Frame): seq<real>
    requires Rectangular(f) && (IsEmpty(f) || BlockHeight in f.cols)
  {
    if IsEmpty(f) then [] else Numbers(f.cols[BlockHeight])
  }

  function ShownRows(f: Frame, lo: real, hi: real): seq<nat>
    requires Rectangular(f) && (IsEmpty(f) || BlockHeight in f.cols)
  {
    if IsEmpty(f) then [] else RowsInRange(f.cols[BlockHeight], Some(lo), Some(hi))
  }

  /** None is the dashboard's empty state (neither dataset loaded). `reset`
      covers an upload, a clear or the reset button; each bound separately
      falls back to its default when its input is unset. */
  function SelectSharedRange(fo: Frame, fc: Frame, reset: bool, startValue: Option<real>, endValue: Option<real>): Option<SharedRange>
    requires Rectangular(fo) && (IsEmpty(fo) || BlockHeight in fo.cols)
    requires Rectangular(fc) && (IsEmpty(fc) || BlockHeight in fc.cols)
  {
    if IsEmpty(fo) && IsEmpty(fc) then None
    else
      var options := SortedDistinct(HeightsOf(fo) + HeightsOf(fc));
      var lo := if |options| > 0 then options[0] else 0.0;
      var hi := if |options| > 0 then options[|options| - 1] else 0.0;
      var s := if reset || startValue.None? then lo else startValue.value;
      var e := if reset || endValue.None? then hi else endValue.value;
      var lo', hi' := if s > e then e else s, if s > e then s else e;
      Some(SharedRange(options, lo', hi', ShownRows(fo, lo', hi'), ShownRows(fc, lo', hi')))
  }

  /** The dropdown lists each height of either dataset once, ascending; the
      bounds are ordered; both datasets are cut to the same inclusive range. */
  lemma SelectSharedRangeContract(fo: Frame, fc: Frame, reset: bool, startValue: Option<real>, endValue: Option<real>)
    requires Rectangular(fo) && (IsEmpty(fo) || BlockHeight in fo.cols)
    requires Rectangular(fc) && (IsEmpty(fc) || BlockHeight in fc.cols)
    requires !IsEmpty(fo) || !IsEmpty(fc)
    ensures var r := SelectSharedRange(fo, fc, reset, startValue, endValue).value;
      && StrictlyIncreasing(r.options)
      && (forall x :: x in r.options <==> x in HeightsOf(fo) || x in HeightsOf(fc))
      && r.start <= r.end
      && r.original == ShownRows(fo, r.start, r.end)
      && r.comparison == ShownRows(fc, r.start, r.end)
  {
    var r := SelectSharedRange(fo, fc, reset, startValue, endValue).value;
    assert forall x :: x in HeightsOf(fo) + HeightsOf(fc) <==> x in HeightsOf(fo) || x in HeightsOf(fc);
  }

  /** On an upload, clear or reset the range spans every height of both datasets. */
  lemma SharedRangeDefaults(fo: Frame, fc: Frame, startValue: Option<real>, endValue: Option<real>)
    requires Rectangular(fo) && (IsEmpty(fo) || BlockHeight in fo.cols)
    requires Rectangular(fc) && (IsEmpty(fc) || BlockHeight in fc.cols)
    requires !IsEmpty(fo) || !IsEmpty(fc)
    ensures var r := SelectSharedRange(fo, fc, true, startValue, endValue).value;
      |r.options| > 0 ==>
        && r.start == r.options[0] && r.end == r.options[|r.options| - 1]
        && forall x | x in HeightsOf(fo) || x in HeightsOf(fc) :: r.start <= x <= r.end
  {
    var r := SelectSharedRange(fo, fc, true, startValue, endValue).value;
    var all := HeightsOf(fo) + HeightsOf(fc);
    if |r.options| > 0 {
      forall x | x in HeightsOf(fo) || x in HeightsOf(fc) ensures r.start <= x <= r.end {
        assert x in all;
        assert x in r.options;
        var k :| 0 <= k < |r.options| && r.options[k] == x;
      }
    }
  }
}
