/**
 * The seating-grid builder: the layout mode chooses which member streams go to
 * which rows, each stream is dealt round-robin, and the rows are centre padded.
 */
module Layout {
  import opened Options
  import opened Roster
  import opened RoundRobin
  import opened Padding

  datatype Mode = Auto | Condition1 | Condition2

  /** One round-robin dealing: the members in order and the rows they cycle through. */
  datatype Stream = Stream(members: seq<Member>, targets: seq<nat>)

  /** Rows of cells; an empty cell is None. */
  type Grid = seq<seq<Option<Member>>>

  /** Alto then Soprano. */
  function Upper(c: Counts): seq<Member>
  {
    PartList(Alto, c.alto) + PartList(Soprano, c.soprano)
  }

  /** Bass then Tenor. */
  function Lower(c: Counts): seq<Member>
  {
    PartList(Bass, c.bass) + PartList(Tenor, c.tenor)
  }

  /** Alto, Soprano, Tenor, Bass: the single stream of auto mode with fewer than three rows. */
  function Everyone(c: Counts): seq<Member>
  {
    PartList(Alto, c.alto) + PartList(Soprano, c.soprano) + PartList(Tenor, c.tenor) + PartList(Bass, c.bass)
  }

  /** 0, 1, ..., n - 1 (nothing for n at or below zero). */
  function Indices(n: int): seq<nat>
  {
    seq(Clamp(n), i requires 0 <= i => i)
  }

  /** The streams the layout mode deals, in the order it deals them. */
  function Plan(c: Counts, rowCount: int, mode: Mode): seq<Stream>
  {
    match mode
    case Condition1 => [Stream(Upper(c), [0, 1]), Stream(Lower(c), [2])]
    case Condition2 => [Stream(Upper(c), [0, 1, 2]), Stream(Lower(c), [3])]
    case Auto =>
      if rowCount == 3 then [Stream(Upper(c), [0, 1]), Stream(Lower(c), [2])]
      else if rowCount >= 4 then [Stream(Upper(c), [0, 1, 2]), Stream(Lower(c), [rowCount - 1])]
      else [Stream(Everyone(c), Indices(rowCount))]
  }

  /** Deals the streams one after the other; None once a stream targets a row that does not exist. */
  function DealAll(rows: seq<seq<Member>>, plan: seq<Stream>): (r: Option<seq<seq<Member>>>)
    ensures r.Some? ==> |r.value| == |rows|
    decreases |plan|
  {
    if plan == [] then Some(rows)
    else if !Fits(|plan[0].members|, plan[0].targets, |rows|) then None
    else DealAll(Deal(rows, plan[0].members, plan[0].targets), plan[1..])
  }

  function EmptyRows(rowCount: int): seq<seq<Member>>
  {
    seq(Clamp(rowCount), _ => [])
  }

  /**
   * The grid generation produces, or None when a push would hit a missing row
   * (the source then throws and the grid on screen stays as it was).
   */
  function Generate(c: Counts, rowCount: int, mode: Mode): Option<Grid>
  {
    match DealAll(EmptyRows(rowCount), Plan(c, rowCount, mode))
    case None => None
    case Some(rows) => Some(Pad(rows))
  }

  lemma DealTwo(rows: seq<seq<Member>>, s1: Stream, s2: Stream)
    ensures DealAll(rows, [s1, s2]) ==
      if !Fits(|s1.members|, s1.targets, |rows|) then None
      else if !Fits(|s2.members|, s2.targets, |rows|) then None
      else Some(Deal(Deal(rows, s1.members, s1.targets), s2.members, s2.targets))
  {
    assert [s1, s2][1..] == [s2];
    if Fits(|s1.members|, s1.targets, |rows|) {
      var rows' := Deal(rows, s1.members, s1.targets);
      assert [s2][1..] == [];
      assert DealAll(rows, [s1, s2]) == DealAll(rows', [s2]);
    }
  }

  lemma DealOne(rows: seq<seq<Member>>, s: Stream)
    ensures DealAll(rows, [s]) ==
      if !Fits(|s.members|, s.targets, |rows|) then None
      else Some(Deal(rows, s.members, s.targets))
  {
    assert [s][1..] == [];
  }

  /** One call of flatInsert per stream, then the padding; proved equal to Generate. */
  method GenerateMembers(c: Counts, rowCount: int, mode: Mode) returns (grid: Option<Grid>)
    ensures grid == Generate(c, rowCount, mode)
  {
    var soprano := PartList(Soprano, c.soprano);
    var alto := PartList(Alto, c.alto);
    var tenor := PartList(Tenor, c.tenor);
    var bass := PartList(Bass, c.bass);
    var newRows := new seq<Member>[Clamp(rowCount)](_ => []);
    ghost var empty := newRows[..];
    assert empty == EmptyRows(rowCount);
    ghost var plan := Plan(c, rowCount, mode);
    var ok: bool;
    if mode == Condition1 {
      ok := FlatInsert(newRows, alto + soprano, [0, 1]);
      if ok {
        ok := FlatInsert(newRows, bass + tenor, [2]);
      }
      DealTwo(empty, plan[0], plan[1]);
    } else if mode == Condition2 {
      ok := FlatInsert(newRows, alto + soprano, [0, 1, 2]);
      if ok {
        ok := FlatInsert(newRows, bass + tenor, [3]);
      }
      DealTwo(empty, plan[0], plan[1]);
    } else {
      if rowCount == 3 {
        ok := FlatInsert(newRows, alto + soprano, [0, 1]);
        if ok {
          ok := FlatInsert(newRows, bass + tenor, [2]);
        }
        DealTwo(empty, plan[0], plan[1]);
      } else if rowCount >= 4 {
        ok := FlatInsert(newRows, alto + soprano, [0, 1, 2]);
        if ok {
          ok := FlatInsert(newRows, bass + tenor, [rowCount - 1]);
        }
        DealTwo(empty, plan[0], plan[1]);
      } else {
        ok := FlatInsert(newRows, alto + soprano + tenor + bass, Indices(rowCount));
        DealOne(empty, plan[0]);
      }
    }
    if !ok {
      return None;
    }
    grid := Some(Pad(newRows[..]));
  }

  /** The members of every stream of the plan, in dealing order. */
  function Streamed(plan: seq<Stream>): seq<Member>
  {
    if plan == [] then [] else plan[0].members + Streamed(plan[1..])
  }

  /** What row r receives from the whole plan: each stream's round-robin share, stream by stream. */
  function PlanRow(plan: seq<Stream>, r: nat): seq<Member>
  {
    if plan == [] then [] else Picked(plan[0].members, plan[0].targets, r) + PlanRow(plan[1..], r)
  }

  lemma {:induction false} DealAllRows(rows: seq<seq<Member>>, plan: seq<Stream>)
    requires DealAll(rows, plan).Some?
    ensures forall r :: 0 <= r < |rows| ==> DealAll(rows, plan).value[r] == rows[r] + PlanRow(plan, r)
    decreases |plan|
  {
    if plan != [] {
      var rows' := Deal(rows, plan[0].members, plan[0].targets);
      DealRows(rows, plan[0].members, plan[0].targets);
      DealAllRows(rows', plan[1..]);
      forall r | 0 <= r < |rows|
        ensures DealAll(rows, plan).value[r] == rows[r] + PlanRow(plan, r)
      {
        var picked := Picked(plan[0].members, plan[0].targets, r);
        assert rows'[r] == rows[r] + picked;
        assert rows[r] + picked + PlanRow(plan[1..], r) == rows[r] + (picked + PlanRow(plan[1..], r));
      }
    }
  }

  lemma {:induction false} DealAllSeats(rows: seq<seq<Member>>, plan: seq<Stream>)
    requires DealAll(rows, plan).Some?
    ensures Seated(DealAll(rows, plan).value) == Seated(rows) + multiset(Streamed(plan))
    decreases |plan|
  {
    if plan != [] {
      var rows' := Deal(rows, plan[0].members, plan[0].targets);
      DealSeats(rows, plan[0].members, plan[0].targets);
      DealAllSeats(rows', plan[1..]);
    }
  }

  lemma {:induction false} SeatedNobody(n: nat)
    ensures Seated(EmptyRows(n)) == multiset{}
  {
    if n > 0 {
      assert EmptyRows(n)[1..] == EmptyRows(n - 1);
      SeatedNobody(n - 1);
    }
  }

  lemma {:induction false} OccupantsAreSeated(g: Grid, rows: seq<seq<Member>>)
    requires |g| == |rows| && forall r :: 0 <= r < |g| ==> Compact(g[r]) == rows[r]
    ensures Occupants(g) == Seated(rows)
  {
    if g != [] {
      OccupantsAreSeated(g[1..], rows[1..]);
    }
  }

  lemma PlanStreamsEveryone(c: Counts, rowCount: int, mode: Mode)
    ensures multiset(Streamed(Plan(c, rowCount, mode))) == multiset(Everyone(c))
  {
    var plan := Plan(c, rowCount, mode);
    if |plan| == 2 {
      assert plan[1..][1..] == [];
      assert Streamed(plan[1..]) == Lower(c) + [];
      assert Streamed(plan) == Upper(c) + Lower(c);
    } else {
      assert plan[1..] == [];
      assert Streamed(plan) == Everyone(c) + [];
    }
  }

  /**
   * Conservation: a generation that succeeds seats every generated member
   * exactly once, so the non-empty cells hold exactly as many members as the
   * clamped counts add up to.
   */
  lemma GenerateSeatsEveryone(c: Counts, rowCount: int, mode: Mode)
    requires Generate(c, rowCount, mode).Some?
    ensures Occupants(Generate(c, rowCount, mode).value) == multiset(Everyone(c))
    ensures |Occupants(Generate(c, rowCount, mode).value)| == SeatedTotal(c)
  {
    var empty := EmptyRows(rowCount);
    var plan := Plan(c, rowCount, mode);
    var rows := DealAll(empty, plan).value;
    DealAllSeats(empty, plan);
    SeatedNobody(Clamp(rowCount));
    PlanStreamsEveryone(c, rowCount, mode);
    PadShape(rows);
    OccupantsAreSeated(Pad(rows), rows);
  }

  lemma ModBelow(i: nat, k: nat)
    requires k > 0
    ensures i % k <= i && i % k < k
  {
    if i < k {
      DivModUnique(i, k, 0, i);
    }
  }

  /** A stream fits exactly when each of the target rows it actually uses exists. */
  lemma FitsWhen(n: nat, targets: seq<nat>, rowCount: nat)
    ensures Fits(n, targets, rowCount) <==>
      n == 0 || (|targets| > 0 && forall j :: 0 <= j < |targets| && j < n ==> targets[j] < rowCount)
  {
    if n > 0 && |targets| > 0 {
      var k := |targets|;
      if forall j :: 0 <= j < k && j < n ==> targets[j] < rowCount {
        forall i | 0 <= i < n
          ensures targets[i % k] < rowCount
        {
          ModBelow(i, k);
        }
      } else {
        var j :| 0 <= j < k && j < n && targets[j] >= rowCount;
        DivModUnique(j, k, 0, j);
        assert targets[j % k] >= rowCount;
      }
    }
  }

  /** A stream dealt over the first rows 0, 1, ..., m - 1 fits when it uses no more rows than exist. */
  lemma FitsPrefix(n: nat, m: nat, rowCount: nat)
    requires m > 0
    ensures Fits(n, Indices(m), rowCount) <==> (n <= rowCount || m <= rowCount)
  {
    FitsWhen(n, Indices(m), rowCount);
    if !(n <= rowCount || m <= rowCount) {
      assert Indices(m)[rowCount] == rowCount;
    }
  }

  /**
   * When generation succeeds, by mode. Auto fails only without rows; condition1
   * needs a third row for a non-empty Bass/Tenor stream and condition2 a fourth,
   * and either needs as many rows as the Alto/Soprano stream uses.
   */
  lemma GenerateFaults(c: Counts, rowCount: int, mode: Mode)
    ensures Generate(c, rowCount, mode).Some? <==>
      match mode
      case Auto => rowCount >= 1 || SeatedTotal(c) == 0
      case Condition1 => (|Upper(c)| <= Clamp(rowCount) || rowCount >= 2) && (|Lower(c)| == 0 || rowCount >= 3)
      case Condition2 => (|Upper(c)| <= Clamp(rowCount) || rowCount >= 3) && (|Lower(c)| == 0 || rowCount >= 4)
  {
    var rc := Clamp(rowCount);
    assert Indices(2) == [0, 1] by {
      assert Indices(2)[0] == 0 && Indices(2)[1] == 1;
    }
    assert Indices(3) == [0, 1, 2] by {
      assert Indices(3)[0] == 0 && Indices(3)[1] == 1 && Indices(3)[2] == 2;
    }
    if mode == Condition1 || (mode == Auto && rowCount == 3) {
      assert Plan(c, rowCount, mode) == [Stream(Upper(c), Indices(2)), Stream(Lower(c), [2])];
      TwoStreamsFit(c, rowCount, 2, 2);
    } else if mode == Condition2 {
      assert Plan(c, rowCount, mode) == [Stream(Upper(c), Indices(3)), Stream(Lower(c), [3])];
      TwoStreamsFit(c, rowCount, 3, 3);
    } else if rowCount >= 4 {
      assert Plan(c, rowCount, mode) == [Stream(Upper(c), Indices(3)), Stream(Lower(c), [rowCount - 1])];
      TwoStreamsFit(c, rowCount, 3, rowCount - 1);
    } else {
      var s := Stream(Everyone(c), Indices(rowCount));
      assert Plan(c, rowCount, mode) == [s];
      DealOne(EmptyRows(rowCount), s);
      FitsWhen(|s.members|, s.targets, rc);
    }
  }

  /**
   * An Alto/Soprano stream over the first m rows and a Bass/Tenor stream onto
   * row t fit exactly when the first uses no row beyond the last and, if the
   * second has members, row t exists.
   */
  lemma TwoStreamsFit(c: Counts, rowCount: int, m: nat, t: nat)
    requires m > 0
    ensures DealAll(EmptyRows(rowCount), [Stream(Upper(c), Indices(m)), Stream(Lower(c), [t])]).Some? <==>
      (|Upper(c)| <= Clamp(rowCount) || m <= Clamp(rowCount)) && (|Lower(c)| == 0 || t < Clamp(rowCount))
  {
    var empty := EmptyRows(rowCount);
    DealTwo(empty, Stream(Upper(c), Indices(m)), Stream(Lower(c), [t]));
    FitsPrefix(|Upper(c)|, m, Clamp(rowCount));
    FitsWhen(|Lower(c)|, [t], Clamp(rowCount));
  }

  /** Generation with the modes' own row requirements always succeeds. */
  lemma GenerateSucceeds(c: Counts, rowCount: int, mode: Mode)
    requires match mode
      case Auto => rowCount >= 1
      case Condition1 => rowCount >= 3
      case Condition2 => rowCount >= 4
    ensures Generate(c, rowCount, mode).Some?
  {
    GenerateFaults(c, rowCount, mode);
  }

  /** Condition2 with fewer than four rows fails as soon as there is a Bass or Tenor member. */
  lemma Condition2NeedsFourRows(c: Counts, rowCount: int)
    requires rowCount < 4 && |Lower(c)| > 0
    ensures Generate(c, rowCount, Condition2) == None
  {
    GenerateFaults(c, rowCount, Condition2);
  }

  /** The grid of a successful generation is the padding of the dealt rows. */
  lemma GeneratedRows(c: Counts, rowCount: int, mode: Mode)
    requires Generate(c, rowCount, mode).Some?
    ensures DealAll(EmptyRows(rowCount), Plan(c, rowCount, mode)).Some?
    ensures Generate(c, rowCount, mode).value == Pad(DealAll(EmptyRows(rowCount), Plan(c, rowCount, mode)).value)
    ensures |DealAll(EmptyRows(rowCount), Plan(c, rowCount, mode)).value| == Clamp(rowCount)
  {
  }

  /**
   * Shape: a generated grid has one row per requested row, all of the same
   * length, and some row has no empty cell (the width is the longest row).
   */
  lemma GenerateShape(c: Counts, rowCount: int, mode: Mode)
    requires Generate(c, rowCount, mode).Some?
    ensures |Generate(c, rowCount, mode).value| == Clamp(rowCount)
    ensures Rectangular(Generate(c, rowCount, mode).value)
    ensures HasFullRow(Generate(c, rowCount, mode).value)
  {
    GeneratedRows(c, rowCount, mode);
    var rows := DealAll(EmptyRows(rowCount), Plan(c, rowCount, mode)).value;
    PadShape(rows);
    PadFullRow(rows);
  }

  /**
   * Centring: in every generated row the members sit in one block, with
   * floor(diff / 2) empty cells to its left and the remaining
   * diff - floor(diff / 2) to its right.
   */
  lemma GenerateCentred(c: Counts, rowCount: int, mode: Mode)
    requires Generate(c, rowCount, mode).Some?
    ensures forall r :: 0 <= r < |Generate(c, rowCount, mode).value| ==> Centred(Generate(c, rowCount, mode).value[r])
  {
    GeneratedRows(c, rowCount, mode);
    PadCentred(DealAll(EmptyRows(rowCount), Plan(c, rowCount, mode)).value);
  }

  /** A member of a row's share comes from a stream that targets that row. */
  lemma {:induction false} PlanRowFrom(plan: seq<Stream>, r: nat, x: Member)
    requires x in PlanRow(plan, r)
    ensures exists p :: 0 <= p < |plan| && r in plan[p].targets && x in plan[p].members
    decreases |plan|
  {
    var head := Picked(plan[0].members, plan[0].targets, r);
    if x in head {
      PickedFrom(plan[0].members, plan[0].targets, r);
      if r !in plan[0].targets {
        PickedElsewhere(plan[0].members, plan[0].targets, r);
      }
      assert 0 < |plan| && r in plan[0].targets && x in plan[0].members;
    } else {
      PlanRowFrom(plan[1..], r, x);
      var p :| 0 <= p < |plan[1..]| && r in plan[1..][p].targets && x in plan[1..][p].members;
      assert plan[1..][p] == plan[p + 1];
    }
  }

  /** A row no stream targets receives nobody. */
  lemma {:induction false} PlanRowNone(plan: seq<Stream>, r: nat)
    requires forall p :: 0 <= p < |plan| ==> r !in plan[p].targets
    ensures PlanRow(plan, r) == []
    decreases |plan|
  {
    if plan != [] {
      PickedElsewhere(plan[0].members, plan[0].targets, r);
      assert forall p :: 0 <= p < |plan[1..]| ==> plan[1..][p] == plan[p + 1];
      PlanRowNone(plan[1..], r);
    }
  }

  /** A row targeted by exactly one stream receives exactly that stream's round-robin share. */
  lemma {:induction false} PlanRowOwner(plan: seq<Stream>, p: nat, r: nat)
    requires p < |plan| && r in plan[p].targets
    requires forall q :: 0 <= q < |plan| && q != p ==> r !in plan[q].targets
    ensures PlanRow(plan, r) == Picked(plan[p].members, plan[p].targets, r)
    decreases |plan|
  {
    assert forall q :: 0 <= q < |plan[1..]| ==> plan[1..][q] == plan[q + 1];
    if p == 0 {
      PlanRowNone(plan[1..], r);
    } else {
      PickedElsewhere(plan[0].members, plan[0].targets, r);
      PlanRowOwner(plan[1..], p - 1, r);
    }
  }

  /** In every mode each stream cycles through distinct rows and no two streams share a row. */
  lemma PlanSeparated(c: Counts, rowCount: int, mode: Mode)
    ensures forall p :: 0 <= p < |Plan(c, rowCount, mode)| ==> Distinct(Plan(c, rowCount, mode)[p].targets)
    ensures forall p, q, r ::
      0 <= p < |Plan(c, rowCount, mode)| && 0 <= q < |Plan(c, rowCount, mode)| && p != q && r in Plan(c, rowCount, mode)[p].targets
      ==> r !in Plan(c, rowCount, mode)[q].targets
  {
  }

  /**
   * Round-robin within a generated grid: the j-th target row of a stream holds,
   * in order, the stream's members at positions j, j + k, j + 2k, ... (k the
   * number of target rows): n / k of them, one more for the first n % k rows.
   */
  lemma GenerateRoundRobin(c: Counts, rowCount: int, mode: Mode, p: nat, j: nat)
    requires Generate(c, rowCount, mode).Some?
    requires p < |Plan(c, rowCount, mode)| && j < |Plan(c, rowCount, mode)[p].targets|
    requires Plan(c, rowCount, mode)[p].targets[j] < Clamp(rowCount)
    ensures var s := Plan(c, rowCount, mode)[p];
      var k := |s.targets|;
      var seated := Compact(Generate(c, rowCount, mode).value[s.targets[j]]);
      |seated| == |s.members| / k + (if j < |s.members| % k then 1 else 0) &&
      forall q :: 0 <= q < |seated| ==> j + q * k < |s.members| && seated[q] == s.members[j + q * k]
  {
    var plan := Plan(c, rowCount, mode);
    var s := plan[p];
    var row := s.targets[j];
    GeneratedRows(c, rowCount, mode);
    var empty := EmptyRows(rowCount);
    var rows := DealAll(empty, plan).value;
    PadShape(rows);
    DealAllRows(empty, plan);
    PlanSeparated(c, rowCount, mode);
    PlanRowOwner(plan, p, row);
    assert Compact(Generate(c, rowCount, mode).value[row]) == Picked(s.members, s.targets, row);
    PickedStride(s.members, s.targets, j);
  }

  /** The parts a row may hold under a mode. */
  function RowParts(mode: Mode, rowCount: int, r: nat): set<Part>
  {
    var upper, lower := {Alto, Soprano}, {Bass, Tenor};
    if mode == Condition1 || (mode == Auto && rowCount == 3) then
      if r < 2 then upper else if r == 2 then lower else {}
    else if mode == Condition2 then
      if r < 3 then upper else if r == 3 then lower else {}
    else if rowCount >= 4 then
      if r < 3 then upper else if r == rowCount - 1 then lower else {}
    else {Soprano, Alto, Tenor, Bass}
  }

  lemma PlanParts(c: Counts, rowCount: int, mode: Mode, p: nat, r: nat, x: Member)
    requires p < |Plan(c, rowCount, mode)| && r in Plan(c, rowCount, mode)[p].targets && x in Plan(c, rowCount, mode)[p].members
    ensures x.part in RowParts(mode, rowCount, r)
  {
  }

  /**
   * Segregation: every occupied cell of a generated grid holds a part its row
   * may hold; for condition1 (and auto with three rows) rows 0 and 1 only Alto
   * or Soprano and row 2 only Bass or Tenor.
   */
  lemma GenerateSegregates(c: Counts, rowCount: int, mode: Mode)
    requires Generate(c, rowCount, mode).Some?
    ensures var g := Generate(c, rowCount, mode).value;
      forall r, i :: 0 <= r < |g| && 0 <= i < |g[r]| && g[r][i].Some? ==> g[r][i].value.part in RowParts(mode, rowCount, r)
  {
    var plan := Plan(c, rowCount, mode);
    GeneratedRows(c, rowCount, mode);
    var empty := EmptyRows(rowCount);
    var rows := DealAll(empty, plan).value;
    var g: Grid := Generate(c, rowCount, mode).value;
    PadShape(rows);
    DealAllRows(empty, plan);
    forall r: nat, i: nat | r < |g| && i < |g[r]| && g[r][i].Some?
      ensures g[r][i].value.part in RowParts(mode, rowCount, r)
    {
      var x := g[r][i].value;
      CompactHas(g[r], i);
      assert rows[r] == [] + PlanRow(plan, r);
      PlanRowFrom(plan, r, x);
      var p :| 0 <= p < |plan| && r in plan[p].targets && x in plan[p].members;
      PlanParts(c, rowCount, mode, p, r, x);
    }
  }

  /** With auto and four or more rows, rows 3 to rowCount - 2 stay entirely empty. */
  lemma AutoMiddleRowsEmpty(c: Counts, rowCount: int, r: nat)
    requires rowCount >= 4 && 3 <= r < rowCount - 1
    ensures Generate(c, rowCount, Auto).Some?
    ensures forall i :: 0 <= i < |Generate(c, rowCount, Auto).value[r]| ==> Generate(c, rowCount, Auto).value[r][i].None?
  {
    GenerateSucceeds(c, rowCount, Auto);
    GenerateShape(c, rowCount, Auto);
    GenerateSegregates(c, rowCount, Auto);
  }
}
