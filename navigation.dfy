/** Keyboard navigation of the graph cursor and the sort buttons of the data
    table: the two small state machines of the measurement tool. */
module Navigation {

  import opened Wrappers
  import opened Frames
  import opened Sorting

  // ------------------------------------------------------------------
  // the stored x-values

  /** `sorted(list(set(all_x_values)))` over the elapsed-time column of both
      displayed datasets; an empty display contributes nothing. */
  function XValues(original: seq<Cell>, comparison: seq<Cell>): (xs: seq<real>)
    ensures StrictlyIncreasing(xs)
    ensures forall x :: x in xs <==> x in Numbers(original) || x in Numbers(comparison)
  {
    assert forall x :: x in Numbers(original) + Numbers(comparison) <==> x in Numbers(original) || x in Numbers(comparison);
    SortedDistinct(Numbers(original) + Numbers(comparison))
  }

  // ------------------------------------------------------------------
  // move_cursor_with_keyboard

  datatype Key = ArrowLeft | ArrowRight | OtherKey

  /** `x_values_np[x_values_np < current_x][-1]`: the last stored value,
      in list order, below the cursor. */
  function LastBelow(xs: seq<real>, x: real): (r: Option<real>)
    ensures r.Some? ==> r.value in xs && r.value < x
    ensures r.None? <==> forall i | 0 <= i < |xs| :: xs[i] >= x
    decreases |xs|
  {
    if xs == [] then None
    else if xs[|xs| - 1] < x then Some(xs[|xs| - 1])
    else LastBelow(xs[..|xs| - 1], x)
  }

  /** `x_values_np[x_values_np > current_x][0]`: the first stored value,
      in list order, above the cursor. */
  function FirstAbove(xs: seq<real>, x: real): (r: Option<real>)
    ensures r.Some? ==> r.value in xs && r.value > x
    ensures r.None? <==> forall i | 0 <= i < |xs| :: xs[i] <= x
    decreases |xs|
  {
    if xs == [] then None
    else if xs[0] > x then Some(xs[0])
    else FirstAbove(xs[1..], x)
  }

  /** The cursor after a key press. Without a key, a cursor or stored
      values, for another key, or when no stored value lies beyond the
      cursor in the key's direction, the update is prevented and the
      cursor stays where it was. */
  function MoveCursor(key: Option<Key>, cursor: Option<real>, xs: seq<real>): Option<real> {
    if key.None? || xs == [] || cursor.None? then cursor
    else
      match key.value
      case ArrowLeft => if LastBelow(xs, cursor.value).Some? then LastBelow(xs, cursor.value) else cursor
      case ArrowRight => if FirstAbove(xs, cursor.value).Some? then FirstAbove(xs, cursor.value) else cursor
      case OtherKey => cursor
  }

  /** Over increasing values the last one below the cursor is the greatest
      value below it. */
  lemma {:induction false} LastBelowIsGreatest(xs: seq<real>, x: real)
    requires StrictlyIncreasing(xs)
    ensures LastBelow(xs, x).Some? ==> forall y | y in xs && y < x :: y <= LastBelow(xs, x).value
    decreases |xs|
  {
    if xs != [] && xs[|xs| - 1] >= x {
      var init := xs[..|xs| - 1];
      LastBelowIsGreatest(init, x);
      forall y | y in xs && y < x ensures y in init {
        var k :| 0 <= k < |xs| && xs[k] == y;
        assert k != |xs| - 1;
        assert init[k] == y;
      }
    } else if xs != [] {
      forall y | y in xs ensures y <= xs[|xs| - 1] {
        var k :| 0 <= k < |xs| && xs[k] == y;
      }
    }
  }

  /** Over increasing values the first one above the cursor is the least
      value above it. */
  lemma {:induction false} FirstAboveIsLeast(xs: seq<real>, x: real)
    requires StrictlyIncreasing(xs)
    ensures FirstAbove(xs, x).Some? ==> forall y | y in xs && y > x :: FirstAbove(xs, x).value <= y
    decreases |xs|
  {
    if xs != [] && xs[0] <= x {
      var tail := xs[1..];
      FirstAboveIsLeast(tail, x);
      forall y | y in xs && y > x ensures y in tail {
        var k :| 0 <= k < |xs| && xs[k] == y;
        assert k != 0;
        assert tail[k - 1] == y;
      }
    } else if xs != [] {
      forall y | y in xs ensures xs[0] <= y {
        var k :| 0 <= k < |xs| && xs[k] == y;
      }
    }
  }

  /** Over the stored x-values ArrowLeft moves to the greatest value below
      the cursor and ArrowRight to the least value above it; with no such
      value, with another key, or without a cursor nothing changes. */
  lemma MoveCursorContract(key: Option<Key>, cursor: Option<real>, xs: seq<real>)
    requires StrictlyIncreasing(xs)
    ensures var c := MoveCursor(key, cursor, xs);
      && (key.None? || key == Some(OtherKey) || cursor.None? ==> c == cursor)
      && (key == Some(ArrowLeft) && cursor.Some? ==>
            if exists y | y in xs :: y < cursor.value
            then c.Some? && c.value in xs && c.value < cursor.value
                 && forall y | y in xs && y < cursor.value :: y <= c.value
            else c == cursor)
      && (key == Some(ArrowRight) && cursor.Some? ==>
            if exists y | y in xs :: y > cursor.value
            then c.Some? && c.value in xs && c.value > cursor.value
                 && forall y | y in xs && y > cursor.value :: c.value <= y
            else c == cursor)
  {
    if cursor.Some? {
      LastBelowIsGreatest(xs, cursor.value);
      FirstAboveIsLeast(xs, cursor.value);
    }
  }

  /** A cursor on a stored value that steps right and then left comes back,
      when there is a value to its right. */
  lemma RightThenLeft(xs: seq<real>, x: real)
    requires StrictlyIncreasing(xs) && x in xs
    requires exists y | y in xs :: y > x
    ensures MoveCursor(Some(ArrowLeft), MoveCursor(Some(ArrowRight), Some(x), xs), xs) == Some(x)
  {
    MoveCursorContract(Some(ArrowRight), Some(x), xs);
    var r := MoveCursor(Some(ArrowRight), Some(x), xs);
    MoveCursorContract(Some(ArrowLeft), r, xs);
    forall y | y in xs && y < r.value ensures y <= x {
      if y > x {
        assert false;
      }
    }
  }

  // ------------------------------------------------------------------
  // update_sort_state

  datatype Direction = Asc | Desc

  /** The sort-state store: the sorted column, None before any click. */
  datatype SortState = SortState(column: Option<string>, direction: Direction)

  /** A click on the sort button of `column`: the same column flips its
      direction, another column starts ascending. `clicked` says whether
      some button has been clicked at all; otherwise the update is
      prevented. */
  function UpdateSort(clicked: bool, column: Option<string>, current: SortState): (r: SortState)
    ensures !clicked || column.None? ==> r == current
    ensures clicked && column.Some? ==> r.column == column
    ensures clicked && column.Some? && current.column != column ==> r.direction == Asc
    ensures clicked && column.Some? && current.column == column ==> r.direction != current.direction
  {
    if !clicked || column.None? then current
    else if current.column == column then SortState(column, if current.direction == Asc then Desc else Asc)
    else SortState(column, Asc)
  }

  /** Two clicks on the same button restore the sort state when it is
      already on that column, and leave it descending otherwise. */
  lemma SortTwice(column: string, current: SortState)
    ensures var twice := UpdateSort(true, Some(column), UpdateSort(true, Some(column), current));
      if current.column == Some(column) then twice == current else twice == SortState(Some(column), Desc)
  {
  }
}
