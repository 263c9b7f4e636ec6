/** The in-memory tables the dashboards work on. A table is column-oriented,
    as a pandas DataFrame is: a row count and, for each column present, one
    cell per row. A cell is a number, a piece of text, or missing (NaN/None). */
module Frames {

  datatype Cell = Missing | Num(value: real) | Text(text: string)

  /** The ten per-block timing columns of a measurement log, in the order the
      dashboards list them. */
  datatype Timing =
    | PushBlock | Validation | TxLoop | Housekeeping | TxApply
    | AtTime | Subscription | BlockApply | Commit | Misc

  const AllTimings: seq<Timing> :=
    [PushBlock, Validation, TxLoop, Housekeeping, TxApply, AtTime, Subscription, BlockApply, Commit, Misc]

  datatype Column =
    | BlockHeight             // Block_height
    | BlockTimestamp          // Block_timestamp
    | CumulativeDifficulty    // Cumulative_difficulty
    | SyncTimeMs              // Accumulated_sync_time[ms]
    | InProgressMs            // Accumulated_sync_in_progress_time[ms]
    | InProgressS             // Accumulated_sync_in_progress_time[s]
    | TimingMs(t: Timing)     // Push_block_time[ms], ..., Misc_time[ms]
    | AllTxCount              // All_transaction_count
    | UserTxCount             // User_transaction_count
    | AtCount                 // AT_count
    | TxCount                 // Transaction_count
    | BlocksPerSecond         // Blocks_per_Second
    | SyncTimeFormatted       // SyncTime_Formatted
    | SyncInProgressTimeS     // SyncInProgressTime_s
    | TxPerSecond             // Transactions_per_Second
    | TimePerTxMs             // Time_per_Transaction_ms
    | MovingAverage(base: Column)  // "<base>_ma"; "TPS_ma", "ms_per_Tx_ma", "BPS_ma" for the rates
    | Other(name: string)

  function TimingName(t: Timing): string {
    match t
    case PushBlock => "Push_block_time[ms]"
    case Validation => "Validation_time[ms]"
    case TxLoop => "Tx_loop_time[ms]"
    case Housekeeping => "Housekeeping_time[ms]"
    case TxApply => "Tx_apply_time[ms]"
    case AtTime => "AT_time[ms]"
    case Subscription => "Subscription_time[ms]"
    case BlockApply => "Block_apply_time[ms]"
    case Commit => "Commit_time[ms]"
    case Misc => "Misc_time[ms]"
  }

  /** The CSV header text of a column. */
  function ColumnName(c: Column): string {
    match c
    case BlockHeight => "Block_height"
    case BlockTimestamp => "Block_timestamp"
    case CumulativeDifficulty => "Cumulative_difficulty"
    case SyncTimeMs => "Accumulated_sync_time[ms]"
    case InProgressMs => "Accumulated_sync_in_progress_time[ms]"
    case InProgressS => "Accumulated_sync_in_progress_time[s]"
    case TimingMs(t) => TimingName(t)
    case AllTxCount => "All_transaction_count"
    case UserTxCount => "User_transaction_count"
    case AtCount => "AT_count"
    case TxCount => "Transaction_count"
    case BlocksPerSecond => "Blocks_per_Second"
    case SyncTimeFormatted => "SyncTime_Formatted"
    case SyncInProgressTimeS => "SyncInProgressTime_s"
    case TxPerSecond => "Transactions_per_Second"
    case TimePerTxMs => "Time_per_Transaction_ms"
    case MovingAverage(b) =>
      if b == TxPerSecond then "TPS_ma"
      else if b == TimePerTxMs then "ms_per_Tx_ma"
      else if b == BlocksPerSecond then "BPS_ma"
      else ColumnName(b) + "_ma"
    case Other(n) => n
  }

  /** The two datasets a dashboard holds side by side. */
  datatype Prefix = Original | Comparison

  datatype Frame = Frame(nrows: nat, cols: map<Column, seq<Cell>>)

  /** Every column holds exactly one cell per row. */
  predicate Rectangular(f: Frame) {
    forall c | c in f.cols :: |f.cols[c]| == f.nrows
  }

  /** pandas' `df.empty`: no rows or no columns. */
  predicate IsEmpty(f: Frame) {
    f.nrows == 0 || f.cols == map[]
  }

  predicate IndicesBelow(idx: seq<nat>, n: nat) {
    forall j | 0 <= j < |idx| :: idx[j] < n
  }

  /** The rows `idx[0], idx[1], ...` of `f`, in that order, with every column kept. */
  function Take(f: Frame, idx: seq<nat>): (r: Frame)
    requires Rectangular(f) && IndicesBelow(idx, f.nrows)
    ensures Rectangular(r) && r.nrows == |idx| && r.cols.Keys == f.cols.Keys
    ensures forall c, j | c in f.cols && 0 <= j < |idx| :: r.cols[c][j] == f.cols[c][idx[j]]
  {
    Frame(|idx|, map c | c in f.cols :: seq(|idx|, j requires 0 <= j < |idx| => f.cols[c][idx[j]]))
  }

  /** Two tables that agree on the selected rows give the same selection. */
  lemma TakeAgreeing(f: Frame, g: Frame, idx: seq<nat>)
    requires Rectangular(f) && Rectangular(g) && f.nrows == g.nrows && f.cols.Keys == g.cols.Keys
    requires IndicesBelow(idx, f.nrows)
    requires forall c, j | c in f.cols && 0 <= j < |idx| :: g.cols[c][idx[j]] == f.cols[c][idx[j]]
    ensures Take(g, idx) == Take(f, idx)
  {
    var a, b := Take(g, idx), Take(f, idx);
    forall c | c in f.cols ensures a.cols[c] == b.cols[c] {
    }
  }

  function Identity(n: nat): (idx: seq<nat>)
    ensures |idx| == n && IndicesBelow(idx, n)
    ensures forall j | 0 <= j < n :: idx[j] == j
  {
    seq(n, j => j)
  }

  /** Taking every row in order gives the table back. */
  lemma TakeIdentity(f: Frame)
    requires Rectangular(f)
    ensures Take(f, Identity(f.nrows)) == f
  {
    var r := Take(f, Identity(f.nrows));
    forall c | c in f.cols ensures r.cols[c] == f.cols[c] {
    }
  }

  /** Selecting rows twice selects the composed rows once. */
  lemma TakeTake(f: Frame, a: seq<nat>, b: seq<nat>)
    requires Rectangular(f) && IndicesBelow(a, f.nrows) && IndicesBelow(b, |a|)
    ensures IndicesBelow(seq(|b|, j requires 0 <= j < |b| => a[b[j]]), f.nrows)
    ensures Take(Take(f, a), b) == Take(f, seq(|b|, j requires 0 <= j < |b| => a[b[j]]))
  {
    var ab := seq(|b|, j requires 0 <= j < |b| => a[b[j]]);
    var l, r := Take(Take(f, a), b), Take(f, ab);
    forall c | c in f.cols ensures l.cols[c] == r.cols[c] {
    }
  }

  /** `df[c] = s`: adds the column or overwrites it. */
  function WithColumn(f: Frame, c: Column, s: seq<Cell>): (r: Frame)
    requires Rectangular(f) && |s| == f.nrows
    ensures Rectangular(r) && r.nrows == f.nrows
  {
    Frame(f.nrows, f.cols[c := s])
  }

  /** After `df[c] = s` the columns are the old ones and `c`; `c` holds `s`
      and every other column keeps its cells. */
  lemma WithColumnContents(f: Frame, c: Column, s: seq<Cell>)
    requires Rectangular(f) && |s| == f.nrows
    ensures var r := WithColumn(f, c, s);
      && r.cols.Keys == f.cols.Keys + {c} && r.cols[c] == s
      && forall c' | c' in f.cols && c' != c :: r.cols[c'] == f.cols[c']
  {
  }

  /** Cell arithmetic: a missing or textual operand gives a missing result. */
  function Minus(a: Cell, b: Cell): (r: Cell)
    ensures r.Num? <==> a.Num? && b.Num?
    ensures r.Num? ==> r.value + b.value == a.value
  {
    if a.Num? && b.Num? then Num(a.value - b.value) else Missing
  }

  /** `series / k` for a non-zero constant. */
  function DivConst(s: seq<Cell>, k: real): (r: seq<Cell>)
    requires k != 0.0
    ensures |r| == |s|
    ensures forall i | 0 <= i < |s| :: (r[i].Num? <==> s[i].Num?) && (s[i].Num? ==> r[i].value * k == s[i].value)
  {
    seq(|s|, i requires 0 <= i < |s| => if s[i].Num? then Num(s[i].value / k) else Missing)
  }

  /** The numeric cells of a column, NaN and text skipped, in row order. */
  function Numbers(s: seq<Cell>): (r: seq<real>)
    ensures |r| <= |s|
    ensures forall x :: x in r <==> Num(x) in s
    decreases |s|
  {
    if s == [] then []
    else Numbers(s[..|s| - 1]) + (if s[|s| - 1].Num? then [s[|s| - 1].value] else [])
  }

  lemma NumbersAppend(s: seq<Cell>, t: seq<Cell>)
    ensures Numbers(s + t) == Numbers(s) + Numbers(t)
    decreases |t|
  {
    if t == [] {
      assert s + t == s;
    } else {
      assert (s + t)[..|s + t| - 1] == s + t[..|t| - 1];
      NumbersAppend(s, t[..|t| - 1]);
    }
  }

  /** The sum of some numbers; 0 when there are none. */
  function Total(xs: seq<real>): real
    decreases |xs|
  {
    if xs == [] then 0.0 else Total(xs[..|xs| - 1]) + xs[|xs| - 1]
  }

  /** A sum lies between the count times a lower and an upper bound. */
  lemma {:induction false} TotalBounds(xs: seq<real>, lo: real, hi: real)
    requires forall i | 0 <= i < |xs| :: lo <= xs[i] <= hi
    ensures |xs| as real * lo <= Total(xs) <= |xs| as real * hi
    decreases |xs|
  {
    if xs != [] {
      TotalBounds(xs[..|xs| - 1], lo, hi);
    }
  }

  /** The average of some numbers lies between their bounds. */
  lemma AverageBounds(xs: seq<real>, lo: real, hi: real)
    requires |xs| > 0 && forall k | 0 <= k < |xs| :: lo <= xs[k] <= hi
    ensures lo <= Total(xs) / |xs| as real <= hi
  {
    TotalBounds(xs, lo, hi);
    DivBounds(Total(xs), |xs| as real, lo, hi);
  }

  lemma DivBounds(t: real, n: real, lo: real, hi: real)
    requires n > 0.0 && n * lo <= t <= n * hi
    ensures lo <= t / n <= hi
  {
  }

  /** pandas' `to_numeric(errors='coerce')`: text that is not a number becomes NaN. */
  function Coerced(s: seq<Cell>): (r: seq<Cell>)
    ensures |r| == |s|
    ensures forall i | 0 <= i < |s| :: r[i] == (if s[i].Num? then s[i] else Missing)
  {
    seq(|s|, i requires 0 <= i < |s| => if s[i].Num? then s[i] else Missing)
  }

  /** Indices of the rows whose cell in `s` is numeric, in row order. */
  function NumericRows(s: seq<Cell>): (idx: seq<nat>)
    ensures |idx| <= |s| && IndicesBelow(idx, |s|)
    ensures forall j | 0 <= j < |idx| :: s[idx[j]].Num?
    ensures forall j, k | 0 <= j < k < |idx| :: idx[j] < idx[k]
    ensures forall i | 0 <= i < |s| && s[i].Num? :: i in idx
    decreases |s|
  {
    if s == [] then []
    else NumericRows(s[..|s| - 1]) + (if s[|s| - 1].Num? then [|s| - 1] else [])
  }

  /** Indices of the rows whose cell in `s` is present (a number or text),
      in row order. */
  function PresentRows(s: seq<Cell>): (idx: seq<nat>)
    ensures |idx| <= |s| && IndicesBelow(idx, |s|)
    ensures forall j | 0 <= j < |idx| :: s[idx[j]] != Missing
    ensures forall j, k | 0 <= j < k < |idx| :: idx[j] < idx[k]
    ensures forall i | 0 <= i < |s| && s[i] != Missing :: i in idx
    decreases |s|
  {
    if s == [] then []
    else PresentRows(s[..|s| - 1]) + (if s[|s| - 1] != Missing then [|s| - 1] else [])
  }

  /** After coercion the present cells are exactly the numbers of the
      original column. */
  lemma {:induction false} PresentRowsCoerced(s: seq<Cell>)
    ensures PresentRows(Coerced(s)) == NumericRows(s)
    decreases |s|
  {
    if s != [] {
      assert Coerced(s)[..|s| - 1] == Coerced(s[..|s| - 1]);
      PresentRowsCoerced(s[..|s| - 1]);
    }
  }

  /** `df.dropna(subset=[c])`: exactly the rows whose cell in `c` is
      present, in order, each with all its cells. */
  function DropMissing(f: Frame, c: Column): (r: Frame)
    requires Rectangular(f) && c in f.cols
    ensures Rectangular(r) && r.cols.Keys == f.cols.Keys
    ensures r.nrows == |PresentRows(f.cols[c])|
    ensures forall c', j | c' in f.cols && 0 <= j < r.nrows :: r.cols[c'][j] == f.cols[c'][PresentRows(f.cols[c])[j]]
    ensures forall j | 0 <= j < r.nrows :: r.cols[c][j] != Missing
  {
    Take(f, PresentRows(f.cols[c]))
  }

  /** A pandas DataFrame that the dashboards update in place. */
  class DataFrame {
    var nrows: nat
    var cols: map<Column, seq<Cell>>

    function Value(): Frame
      reads this
    {
      Frame(nrows, cols)
    }

    predicate Valid()
      reads this
    {
      Rectangular(Value())
    }

    constructor (f: Frame)
      requires Rectangular(f)
      ensures Valid() && Value() == f
    {
      nrows, cols := f.nrows, f.cols;
    }

    /** `df[c] = s` */
    method Assign(c: Column, s: seq<Cell>)
      requires Valid() && |s| == nrows
      modifies this
      ensures Valid() && Value() == WithColumn(old(Value()), c, s)
    {
      cols := cols[c := s];
    }

    /** `df.dropna(subset=[c], inplace=True)` */
    method DropMissingInPlace(c: Column)
      requires Valid() && c in cols
      modifies this
      ensures Valid() && Value() == DropMissing(old(Value()), c)
    {
      var r := DropMissing(Value(), c);
      nrows, cols := r.nrows, r.cols;
    }
  }
}
