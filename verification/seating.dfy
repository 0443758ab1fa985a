/**
 * The chart held on screen and the drag-and-drop move: dropping one cell onto
 * another exchanges their contents.
 */
module Seating {
  import opened Options
  import opened Roster
  import opened Padding
  import opened Layout

  predicate InBounds(g: Grid, r: int, i: int)
  {
    0 <= r < |g| && 0 <= i < |g[r]|
  }

  /** The grid after the cells (fromRow, fromIndex) and (toRow, toIndex) exchange contents. */
  function Swap(g: Grid, fromRow: int, fromIndex: int, toRow: int, toIndex: int): (h: Grid)
    requires InBounds(g, fromRow, fromIndex) && InBounds(g, toRow, toIndex)
    ensures |h| == |g| && forall r :: 0 <= r < |g| ==> |h[r]| == |g[r]|
    ensures h[fromRow][fromIndex] == g[toRow][toIndex] && h[toRow][toIndex] == g[fromRow][fromIndex]
    ensures forall r, i :: InBounds(g, r, i) && (r != fromRow || i != fromIndex) && (r != toRow || i != toIndex) ==> h[r][i] == g[r][i]
  {
    var dragged := g[fromRow][fromIndex];
    var g' := g[fromRow := g[fromRow][fromIndex := g[toRow][toIndex]]];
    g'[toRow := g'[toRow][toIndex := dragged]]
  }

  /** Two grids of the same shape with the same cells are the same grid. */
  lemma SameGrid(g: Grid, h: Grid)
    requires |h| == |g| && forall r :: 0 <= r < |g| ==> |h[r]| == |g[r]|
    requires forall r, i :: InBounds(g, r, i) ==> h[r][i] == g[r][i]
    ensures h == g
  {
    forall r | 0 <= r < |g|
      ensures h[r] == g[r]
    {
      assert forall i :: 0 <= i < |g[r]| ==> h[r][i] == g[r][i];
    }
  }

  /** Making the same move twice restores the grid. */
  lemma SwapTwice(g: Grid, fromRow: int, fromIndex: int, toRow: int, toIndex: int)
    requires InBounds(g, fromRow, fromIndex) && InBounds(g, toRow, toIndex)
    ensures Swap(Swap(g, fromRow, fromIndex, toRow, toIndex), fromRow, fromIndex, toRow, toIndex) == g
  {
    var h := Swap(g, fromRow, fromIndex, toRow, toIndex);
    SameGrid(g, Swap(h, fromRow, fromIndex, toRow, toIndex));
  }

  /** Dropping a cell onto itself changes nothing. */
  lemma SwapSelf(g: Grid, row: int, index: int)
    requires InBounds(g, row, index)
    ensures Swap(g, row, index, row, index) == g
  {
    SameGrid(g, Swap(g, row, index, row, index));
  }

  /** Dragging a onto b and dragging b onto a give the same grid. */
  lemma SwapSymmetric(g: Grid, fromRow: int, fromIndex: int, toRow: int, toIndex: int)
    requires InBounds(g, fromRow, fromIndex) && InBounds(g, toRow, toIndex)
    ensures Swap(g, fromRow, fromIndex, toRow, toIndex) == Swap(g, toRow, toIndex, fromRow, fromIndex)
  {
    var h := Swap(g, fromRow, fromIndex, toRow, toIndex);
    var h' := Swap(g, toRow, toIndex, fromRow, fromIndex);
    SameGrid(h, h');
  }

  /** How many times a cell holds member m: one or zero. */
  function HeldAt(cell: Option<Member>, m: Member): nat
  {
    if cell == Some(m) then 1 else 0
  }

  lemma CompactLast(row: seq<Option<Member>>, m: Member)
    requires row != []
    ensures multiset(Compact(row))[m] == multiset(Compact(row[..|row| - 1]))[m] + HeldAt(row[|row| - 1], m)
  {
    var n := |row| - 1;
    var tail := if row[n].Some? then [row[n].value] else [];
    assert Compact(row) == Compact(row[..n]) + tail;
    assert multiset(Compact(row)) == multiset(Compact(row[..n])) + multiset(tail);
  }

  lemma {:induction false} CompactSet(row: seq<Option<Member>>, i: nat, v: Option<Member>, m: Member)
    requires i < |row|
    ensures multiset(Compact(row[i := v]))[m] + HeldAt(row[i], m) == multiset(Compact(row))[m] + HeldAt(v, m)
    decreases |row|
  {
    var n := |row| - 1;
    var row' := row[i := v];
    CompactLast(row, m);
    CompactLast(row', m);
    if i == n {
      assert row'[..n] == row[..n];
    } else {
      assert row'[..n] == row[..n][i := v];
      assert row[..n][i] == row[i];
      CompactSet(row[..n], i, v, m);
    }
  }

  lemma {:induction false} OccupantsSet(g: Grid, r: nat, i: nat, v: Option<Member>, m: Member)
    requires InBounds(g, r, i)
    ensures Occupants(g[r := g[r][i := v]])[m] + HeldAt(g[r][i], m) == Occupants(g)[m] + HeldAt(v, m)
    decreases |g|
  {
    var g' := g[r := g[r][i := v]];
    assert Occupants(g')[m] == multiset(Compact(g'[0]))[m] + Occupants(g'[1..])[m];
    assert Occupants(g)[m] == multiset(Compact(g[0]))[m] + Occupants(g[1..])[m];
    if r == 0 {
      assert g'[1..] == g[1..];
      assert g'[0] == g[0][i := v];
      CompactSet(g[0], i, v, m);
    } else {
      assert g[1..][r - 1] == g[r];
      assert g'[1..] == g[1..][r - 1 := g[1..][r - 1][i := v]];
      assert g'[0] == g[0];
      OccupantsSet(g[1..], r - 1, i, v, m);
    }
  }

  /** A move neither creates nor destroys a member: the grid holds the same members afterwards. */
  lemma SwapKeepsOccupants(g: Grid, fromRow: int, fromIndex: int, toRow: int, toIndex: int)
    requires InBounds(g, fromRow, fromIndex) && InBounds(g, toRow, toIndex)
    ensures Occupants(Swap(g, fromRow, fromIndex, toRow, toIndex)) == Occupants(g)
  {
    var x, y := g[fromRow][fromIndex], g[toRow][toIndex];
    var g1 := g[fromRow := g[fromRow][fromIndex := y]];
    var g2 := g1[toRow := g1[toRow][toIndex := x]];
    assert Swap(g, fromRow, fromIndex, toRow, toIndex) == g2;
    assert g1[toRow][toIndex] == y;
    forall m
      ensures Occupants(g2)[m] == Occupants(g)[m]
    {
      OccupantsSet(g, fromRow, fromIndex, y, m);
      OccupantsSet(g1, toRow, toIndex, x, m);
    }
  }

  /** The chart on screen: the grid held in state, replaced by generation and changed in place by a move. */
  class SeatingChart {
    var rows: array<seq<Option<Member>>>

    function Contents(): Grid
      reads this, rows
    {
      rows[..]
    }

    /** The grid on screen is rectangular: every row has the same length. */
    ghost predicate Valid()
      reads this, rows
    {
      Rectangular(Contents())
    }

    /** The chart starts with no rows until the first generation. */
    constructor ()
      ensures Contents() == [] && Valid()
    {
      rows := new seq<Option<Member>>[0];
    }

    /** The regenerate action: a successful generation replaces the grid; a failed one leaves it. */
    method Regenerate(c: Counts, rowCount: int, mode: Mode)
      requires Valid()
      modifies this
      ensures Valid()
      ensures Generate(c, rowCount, mode).Some? ==> Contents() == Generate(c, rowCount, mode).value
      ensures Generate(c, rowCount, mode).None? ==> Contents() == old(Contents())
    {
      var grid := GenerateMembers(c, rowCount, mode);
      if grid.Some? {
        var g := grid.value;
        rows := new seq<Option<Member>>[|g|](i requires 0 <= i < |g| => g[i]);
        assert rows[..] == g;
        GenerateShape(c, rowCount, mode);
      }
    }

    /** moveMember: the dragged cell and the cell it is dropped on exchange contents. */
    method MoveMember(fromRow: int, fromIndex: int, toRow: int, toIndex: int)
      requires Valid()
      requires InBounds(Contents(), fromRow, fromIndex) && InBounds(Contents(), toRow, toIndex)
      modifies rows
      ensures Valid()
      ensures Contents() == Swap(old(Contents()), fromRow, fromIndex, toRow, toIndex)
      ensures Occupants(Contents()) == old(Occupants(Contents()))
    {
      ghost var before := Contents();
      var dragged := rows[fromRow][fromIndex];
      rows[fromRow] := rows[fromRow][fromIndex := rows[toRow][toIndex]];
      rows[toRow] := rows[toRow][toIndex := dragged];
      assert Contents() == Swap(before, fromRow, fromIndex, toRow, toIndex);
      SwapKeepsOccupants(before, fromRow, fromIndex, toRow, toIndex);
    }
  }
}
