/**
 * Centre padding: every row is widened with empty cells to the length of the
 * longest row, floor(diff / 2) empty cells on the left and the rest on the right.
 */
module Padding {
  import opened Options

  /** The length of the longest row (zero when there are no rows). */
  function Width<T>(rows: seq<seq<T>>): (w: nat)
    ensures forall r :: 0 <= r < |rows| ==> |rows[r]| <= w
    ensures rows != [] ==> exists r :: 0 <= r < |rows| && |rows[r]| == w
    ensures rows == [] ==> w == 0
  {
    if rows == [] then 0
    else
      var w := Width(rows[..|rows| - 1]);
      if |rows[|rows| - 1]| > w then |rows[|rows| - 1]| else w
  }

  /** n empty cells. */
  function Blanks<T>(n: nat): (r: seq<Option<T>>)
  {
    seq(n, _ => None)
  }

  /** The row's members, each in a cell of its own. */
  function Lift<T>(row: seq<T>): seq<Option<T>>
  {
    seq(|row|, i requires 0 <= i < |row| => Some(row[i]))
  }

  /** The members of a row of cells in order, empty cells dropped. */
  function Compact<T>(cells: seq<Option<T>>): seq<T>
  {
    if cells == [] then []
    else
      var n := |cells| - 1;
      Compact(cells[..n]) + (if cells[n].Some? then [cells[n].value] else [])
  }

  function PadRow<T>(row: seq<T>, width: nat): seq<Option<T>>
    requires |row| <= width
  {
    var diff := width - |row|;
    var padLeft := diff / 2;
    Blanks(padLeft) + Lift(row) + Blanks(diff - padLeft)
  }

  /** Every row padded to the width of the longest. */
  function Pad<T>(rows: seq<seq<T>>): seq<seq<Option<T>>>
  {
    var w := Width(rows);
    seq(|rows|, r requires 0 <= r < |rows| => PadRow(rows[r], w))
  }

  lemma {:induction false} CompactAppend<T>(a: seq<Option<T>>, b: seq<Option<T>>)
    ensures Compact(a + b) == Compact(a) + Compact(b)
    decreases |b|
  {
    if b == [] {
      assert a + b == a;
    } else {
      var n := |b| - 1;
      assert (a + b)[..|a + b| - 1] == a + b[..n];
      assert (a + b)[|a + b| - 1] == b[n];
      CompactAppend(a, b[..n]);
    }
  }

  lemma {:induction false} CompactBlanks<T>(n: nat)
    ensures Compact(Blanks<T>(n)) == []
  {
    if n > 0 {
      assert Blanks<T>(n)[..n - 1] == Blanks<T>(n - 1);
      CompactBlanks<T>(n - 1);
    }
  }

  lemma {:induction false} CompactLift<T>(row: seq<T>)
    ensures Compact(Lift(row)) == row
  {
    if row != [] {
      var n := |row| - 1;
      assert Lift(row)[..n] == Lift(row[..n]);
      CompactLift(row[..n]);
      assert row == row[..n] + [row[n]];
    }
  }

  /** A cell holds a member only if that member is among the row's members. */
  lemma {:induction false} CompactHas<T>(cells: seq<Option<T>>, i: nat)
    requires i < |cells| && cells[i].Some?
    ensures cells[i].value in Compact(cells)
  {
    var n := |cells| - 1;
    if i < n {
      CompactHas(cells[..n], i);
    }
  }

  /**
   * A padded row is floor(diff / 2) empty cells, then the row's members in
   * order, then the remaining diff - floor(diff / 2) empty cells, so the
   * padding is centred to within one cell.
   */
  lemma PadRowCells<T>(row: seq<T>, width: nat)
    requires |row| <= width
    ensures var padLeft := (width - |row|) / 2;
      |PadRow(row, width)| == width &&
      (forall i :: 0 <= i < padLeft ==> PadRow(row, width)[i].None?) &&
      (forall i :: 0 <= i < |row| ==> PadRow(row, width)[padLeft + i] == Some(row[i])) &&
      (forall i :: padLeft + |row| <= i < width ==> PadRow(row, width)[i].None?) &&
      padLeft <= width - |row| - padLeft <= padLeft + 1
  {
    var diff := width - |row|;
    var padLeft := diff / 2;
    var left, mid, right := Blanks<T>(padLeft), Lift(row), Blanks<T>(diff - padLeft);
    var cells := left + mid + right;
    assert PadRow(row, width) == cells;
    assert forall i :: 0 <= i < padLeft ==> cells[i] == left[i];
    assert forall i :: 0 <= i < |row| ==> cells[padLeft + i] == mid[i];
    assert forall i :: padLeft + |row| <= i < width ==> cells[i] == right[i - padLeft - |row|];
  }

  /** Dropping the empty cells of a padded row gives back the row. */
  lemma PadRowCompact<T>(row: seq<T>, width: nat)
    requires |row| <= width
    ensures Compact(PadRow(row, width)) == row
  {
    var diff := width - |row|;
    var padLeft := diff / 2;
    var left, mid, right := Blanks<T>(padLeft), Lift(row), Blanks<T>(diff - padLeft);
    assert PadRow(row, width) == left + mid + right;
    CompactAppend(left + mid, right);
    CompactAppend(left, mid);
    CompactBlanks<T>(padLeft);
    CompactBlanks<T>(diff - padLeft);
    CompactLift(row);
    assert Compact(left + mid + right) == [] + row + [];
  }

  /**
   * Padding keeps the number of rows, gives every row the length of the
   * longest unpadded row, and keeps each row's members in order.
   */
  lemma PadShape<T>(rows: seq<seq<T>>)
    ensures |Pad(rows)| == |rows|
    ensures forall r :: 0 <= r < |rows| ==> |Pad(rows)[r]| == Width(rows)
    ensures forall r :: 0 <= r < |rows| ==> Compact(Pad(rows)[r]) == rows[r]
    ensures Rectangular(Pad(rows))
  {
    forall r | 0 <= r < |rows|
      ensures |Pad(rows)[r]| == Width(rows) && Compact(Pad(rows)[r]) == rows[r]
    {
      PadRowCells(rows[r], Width(rows));
      PadRowCompact(rows[r], Width(rows));
    }
  }

  /** padLeft empty cells, then the members in order, then empty cells. */
  ghost predicate Block<T>(cells: seq<Option<T>>, members: seq<T>, padLeft: nat)
  {
    padLeft + |members| <= |cells| &&
    (forall i :: 0 <= i < padLeft ==> cells[i].None?) &&
    (forall i :: 0 <= i < |members| ==> cells[padLeft + i] == Some(members[i])) &&
    (forall i :: padLeft + |members| <= i < |cells| ==> cells[i].None?)
  }

  /**
   * Read off the row alone: its members sit in one block with
   * floor(diff / 2) empty cells before it and the rest after it, where diff
   * is the number of empty cells.
   */
  ghost predicate Centred<T>(cells: seq<Option<T>>)
  {
    var members := Compact(cells);
    |members| <= |cells| && Block(cells, members, (|cells| - |members|) / 2)
  }

  /** A padded row is centred. */
  lemma PadRowCentred<T>(row: seq<T>, width: nat)
    requires |row| <= width
    ensures Centred(PadRow(row, width))
  {
    PadRowCells(row, width);
    PadRowCompact(row, width);
    assert Block(PadRow(row, width), row, (width - |row|) / 2);
  }

  /** Every row of a padded grid is centred. */
  lemma PadCentred<T>(rows: seq<seq<T>>)
    ensures forall r :: 0 <= r < |Pad(rows)| ==> Centred(Pad(rows)[r])
  {
    forall r | 0 <= r < |Pad(rows)|
      ensures Centred(Pad(rows)[r])
    {
      PadRowCentred(rows[r], Width(rows));
    }
  }

  /** All rows have the same length. */
  predicate Rectangular<T>(g: seq<seq<Option<T>>>)
  {
    forall r, s :: 0 <= r < |g| && 0 <= s < |g| ==> |g[r]| == |g[s]|
  }

  /** Some row has no empty cell (trivially true of a grid without rows). */
  predicate HasFullRow<T>(g: seq<seq<Option<T>>>)
  {
    |g| > 0 ==> exists r :: 0 <= r < |g| && forall i :: 0 <= i < |g[r]| ==> g[r][i].Some?
  }

  /** A row already as wide as the grid gets no empty cell. */
  lemma PadRowFull<T>(row: seq<T>, width: nat)
    requires |row| == width
    ensures forall i :: 0 <= i < |PadRow(row, width)| ==> PadRow(row, width)[i].Some?
  {
    PadRowCells(row, width);
    assert (width - |row|) / 2 == 0;
    assert forall i :: 0 <= i < |row| ==> PadRow(row, width)[0 + i] == Some(row[i]);
  }

  /** The longest row needs no padding, so some padded row has no empty cell. */
  lemma PadFullRow<T>(rows: seq<seq<T>>)
    ensures HasFullRow(Pad(rows))
  {
    if |rows| > 0 {
      var w := Width(rows);
      var r :| 0 <= r < |rows| && |rows[r]| == w;
      assert Pad(rows)[r] == PadRow(rows[r], w);
      PadRowFull(rows[r], w);
    }
  }

  /** The members in the non-empty cells of a grid, counted with multiplicity. */
  ghost function Occupants<T>(g: seq<seq<Option<T>>>): multiset<T>
  {
    if g == [] then multiset{} else multiset(Compact(g[0])) + Occupants(g[1..])
  }
}
