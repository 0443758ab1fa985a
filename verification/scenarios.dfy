/** The worked examples of generation, computed step by step. */
module Scenarios {
  import opened Options
  import opened Roster
  import opened RoundRobin
  import opened Padding
  import opened Layout

  lemma FitsTwoRows(n: nat)
    ensures Fits(n, [0, 1], 3)
  {
    var t: seq<nat> := [0, 1];
    forall i | 0 <= i < n
      ensures t[i % 2] < 3
    {
    }
  }

  lemma DealTwoOverTwo<T>(x1: T, x2: T)
    ensures Deal([[], [], []], [x1, x2], [0, 1]) == [[x1], [x2], []]
  {
    var e: seq<seq<T>> := [[], [], []];
    var t: seq<nat> := [0, 1];
    FitsTwoRows(2);
    DealSnoc(e, [], x1, t);
    assert [] + [x1] == [x1];
    assert Deal(e, [x1], t) == [[x1], [], []];
    DealSnoc(e, [x1], x2, t);
    assert [x1] + [x2] == [x1, x2];
    assert [] + [x2] == [x2];
  }

  lemma DealFourOverTwo<T>(x1: T, x2: T, x3: T, x4: T)
    ensures Deal([[], [], []], [x1, x2, x3, x4], [0, 1]) == [[x1, x3], [x2, x4], []]
  {
    var e: seq<seq<T>> := [[], [], []];
    var t: seq<nat> := [0, 1];
    FitsTwoRows(4);
    DealTwoOverTwo(x1, x2);
    DealSnoc(e, [x1, x2], x3, t);
    assert [x1, x2] + [x3] == [x1, x2, x3];
    assert [x1] + [x3] == [x1, x3];
    assert Deal(e, [x1, x2, x3], t) == [[x1, x3], [x2], []];
    DealSnoc(e, [x1, x2, x3], x4, t);
    assert [x1, x2, x3] + [x4] == [x1, x2, x3, x4];
    assert [x2] + [x4] == [x2, x4];
  }

  lemma DealTwoOntoLast<T>(p: seq<T>, q: seq<T>, y1: T, y2: T)
    ensures Deal([p, q, []], [y1, y2], [2]) == [p, q, [y1, y2]]
  {
    var rows: seq<seq<T>> := [p, q, []];
    var t: seq<nat> := [2];
    assert Fits(2, t, 3) by {
      forall i | 0 <= i < 2
        ensures t[i % 1] < 3
      {
        assert i % 1 == 0;
      }
    }
    DealSnoc(rows, [], y1, t);
    assert [] + [y1] == [y1];
    assert Deal(rows, [y1], t) == [p, q, [y1]];
    DealSnoc(rows, [y1], y2, t);
    assert [y1] + [y2] == [y1, y2];
  }

  /** Rows that are already of one length are padded with nothing. */
  lemma PadEven<T>(rows: seq<seq<T>>, w: nat)
    requires forall r :: 0 <= r < |rows| ==> |rows[r]| == w
    ensures Pad(rows) == seq(|rows|, r requires 0 <= r < |rows| => Lift(rows[r]))
  {
    if |rows| > 0 {
      assert Width(rows) == w;
      assert Blanks<T>(0) == [];
      forall r | 0 <= r < |rows|
        ensures Pad(rows)[r] == Lift(rows[r])
      {
        assert PadRow(rows[r], w) == [] + Lift(rows[r]) + [];
      }
    }
  }

  lemma PadThreeEven<T>(x1: T, x2: T, y1: T, y2: T, z1: T, z2: T)
    ensures Pad([[x1, x2], [y1, y2], [z1, z2]]) == [[Some(x1), Some(x2)], [Some(y1), Some(y2)], [Some(z1), Some(z2)]]
  {
    var rows := [[x1, x2], [y1, y2], [z1, z2]];
    PadEven(rows, 2);
    assert Lift([x1, x2]) == [Some(x1), Some(x2)];
    assert Lift([y1, y2]) == [Some(y1), Some(y2)];
    assert Lift([z1, z2]) == [Some(z1), Some(z2)];
  }

  lemma PadTwoEven<T>(x1: T, x2: T, y1: T, y2: T)
    ensures Pad([[x1, x2], [y1, y2]]) == [[Some(x1), Some(x2)], [Some(y1), Some(y2)]]
  {
    var rows := [[x1, x2], [y1, y2]];
    PadEven(rows, 2);
    assert Lift([x1, x2]) == [Some(x1), Some(x2)];
    assert Lift([y1, y2]) == [Some(y1), Some(y2)];
  }

  lemma DealScenarioThreeRows()
    ensures DealAll(EmptyRows(3), Plan(Counts(2, 2, 1, 1), 3, Auto)) == Some([
      [Member(Alto, 1), Member(Soprano, 1)],
      [Member(Alto, 2), Member(Soprano, 2)],
      [Member(Bass, 1), Member(Tenor, 1)]])
  {
    var c := Counts(2, 2, 1, 1);
    var a1, a2, s1, s2, b1, t1 := Member(Alto, 1), Member(Alto, 2), Member(Soprano, 1), Member(Soprano, 2), Member(Bass, 1), Member(Tenor, 1);
    assert PartList(Alto, 2) == [a1, a2];
    assert PartList(Soprano, 2) == [s1, s2];
    assert PartList(Bass, 1) == [b1];
    assert PartList(Tenor, 1) == [t1];
    var up, low := [a1, a2, s1, s2], [b1, t1];
    assert Upper(c) == up && Lower(c) == low;
    var e: seq<seq<Member>> := [[], [], []];
    assert EmptyRows(3) == e;
    DealFourOverTwo(a1, a2, s1, s2);
    DealTwoOntoLast([a1, s1], [a2, s2], b1, t1);
    DealTwo(e, Stream(up, [0, 1]), Stream(low, [2]));
  }

  /** Two Sopranos, two Altos, one Tenor, one Bass over three rows in auto mode. */
  lemma ScenarioThreeRows()
    ensures Generate(Counts(2, 2, 1, 1), 3, Auto) == Some([
      [Some(Member(Alto, 1)), Some(Member(Soprano, 1))],
      [Some(Member(Alto, 2)), Some(Member(Soprano, 2))],
      [Some(Member(Bass, 1)), Some(Member(Tenor, 1))]])
  {
    DealScenarioThreeRows();
    PadThreeEven(Member(Alto, 1), Member(Soprano, 1), Member(Alto, 2), Member(Soprano, 2), Member(Bass, 1), Member(Tenor, 1));
  }

  /** No members over three rows: three rows of length zero. */
  lemma ScenarioNobody()
    ensures Generate(Counts(0, 0, 0, 0), 3, Auto) == Some([[], [], []])
  {
    var c := Counts(0, 0, 0, 0);
    var e: seq<seq<Member>> := [[], [], []];
    assert EmptyRows(3) == e;
    assert Upper(c) == [] && Lower(c) == [];
    DealTwo(e, Stream([], [0, 1]), Stream([], [2]));
    assert DealAll(e, Plan(c, 3, Auto)) == Some(e);
    assert Generate(c, 3, Auto) == Some(Pad(e));
    PadEven(e, 0);
    assert Lift<Member>([]) == [];
    assert Pad(e)[0] == [] && Pad(e)[1] == [] && Pad(e)[2] == [];
    assert Pad(e) == [[], [], []];
  }

  lemma DealScenarioTwoRows()
    ensures DealAll(EmptyRows(2), Plan(Counts(1, 1, 1, 1), 2, Auto)) == Some([
      [Member(Alto, 1), Member(Tenor, 1)],
      [Member(Soprano, 1), Member(Bass, 1)]])
  {
    var c := Counts(1, 1, 1, 1);
    var a1, s1, t1, b1 := Member(Alto, 1), Member(Soprano, 1), Member(Tenor, 1), Member(Bass, 1);
    assert PartList(Alto, 1) == [a1];
    assert PartList(Soprano, 1) == [s1];
    assert PartList(Tenor, 1) == [t1];
    assert PartList(Bass, 1) == [b1];
    var all := [a1, s1, t1, b1];
    assert Everyone(c) == all;
    var t: seq<nat> := [0, 1];
    assert Indices(2) == t;
    var e: seq<seq<Member>> := [[], []];
    assert EmptyRows(2) == e;
    DealSnoc(e, [], a1, t);
    assert [] + [a1] == [a1];
    assert Deal(e, [a1], t) == [[a1], []];
    DealSnoc(e, [a1], s1, t);
    assert [a1] + [s1] == [a1, s1];
    assert [] + [s1] == [s1];
    assert Deal(e, [a1, s1], t) == [[a1], [s1]];
    DealSnoc(e, [a1, s1], t1, t);
    assert [a1, s1] + [t1] == [a1, s1, t1];
    assert [a1] + [t1] == [a1, t1];
    assert Deal(e, [a1, s1, t1], t) == [[a1, t1], [s1]];
    DealSnoc(e, [a1, s1, t1], b1, t);
    assert [a1, s1, t1] + [b1] == all;
    assert [s1] + [b1] == [s1, b1];
    assert Deal(e, all, t) == [[a1, t1], [s1, b1]];
    assert Plan(c, 2, Auto) == [Stream(all, t)];
    DealOne(e, Stream(all, t));
  }

  /** One member per part over two rows in auto mode: the single combined stream. */
  lemma ScenarioTwoRows()
    ensures Generate(Counts(1, 1, 1, 1), 2, Auto) == Some([
      [Some(Member(Alto, 1)), Some(Member(Tenor, 1))],
      [Some(Member(Soprano, 1)), Some(Member(Bass, 1))]])
  {
    DealScenarioTwoRows();
    PadTwoEven(Member(Alto, 1), Member(Tenor, 1), Member(Soprano, 1), Member(Bass, 1));
  }

  lemma DefaultPlan()
    ensures Plan(DEFAULT_COUNTS, 3, Auto) == [Stream(Upper(DEFAULT_COUNTS), [0, 1]), Stream(Lower(DEFAULT_COUNTS), [2])]
    ensures |Upper(DEFAULT_COUNTS)| == 20 && |Lower(DEFAULT_COUNTS)| == 10
  {
  }

  /** Under the default counts each of the three rows receives ten members. */
  lemma DefaultShares()
    ensures Generate(DEFAULT_COUNTS, 3, Auto).Some?
    ensures forall r :: 0 <= r < 3 ==> |Compact(Generate(DEFAULT_COUNTS, 3, Auto).value[r])| == 10
  {
    var c := DEFAULT_COUNTS;
    GenerateSucceeds(c, 3, Auto);
    DefaultPlan();
    GenerateRoundRobin(c, 3, Auto, 0, 0);
    GenerateRoundRobin(c, 3, Auto, 0, 1);
    GenerateRoundRobin(c, 3, Auto, 1, 0);
  }

  /**
   * The chart as first shown: the default counts over three rows in auto mode
   * give three rows of ten with no empty cell.
   */
  lemma DefaultChart()
    ensures Generate(DEFAULT_COUNTS, 3, Auto).Some?
    ensures var g := Generate(DEFAULT_COUNTS, 3, Auto).value;
      |g| == 3 && forall r :: 0 <= r < 3 ==> |g[r]| == 10 && |Compact(g[r])| == 10
  {
    var c := DEFAULT_COUNTS;
    DefaultShares();
    GeneratedRows(c, 3, Auto);
    var rows := DealAll(EmptyRows(3), Plan(c, 3, Auto)).value;
    PadShape(rows);
    assert |rows[0]| == 10 && |rows[1]| == 10 && |rows[2]| == 10;
    assert Width(rows) == 10;
  }

  /** The upper stream under the default counts: A1 to A10, then S1 to S10. */
  lemma DefaultUpperAt(i: nat)
    requires i < 20
    ensures Upper(DEFAULT_COUNTS)[i] == if i < 10 then Member(Alto, i + 1) else Member(Soprano, i - 9)
  {
    var a, s := PartList(Alto, 10), PartList(Soprano, 10);
    assert Upper(DEFAULT_COUNTS) == a + s;
    if i >= 10 {
      assert (a + s)[i] == s[i - 10];
    }
  }

  /** The lower stream under the default counts: B1 to B5, then T1 to T5. */
  lemma DefaultLowerAt(i: nat)
    requires i < 10
    ensures Lower(DEFAULT_COUNTS)[i] == if i < 5 then Member(Bass, i + 1) else Member(Tenor, i - 4)
  {
    var b, t := PartList(Bass, 5), PartList(Tenor, 5);
    assert Lower(DEFAULT_COUNTS) == b + t;
    if i >= 5 {
      assert (b + t)[i] == t[i - 5];
    }
  }

  /** In the initial chart every cell holds the row's i-th member. */
  lemma DefaultCells(r: nat)
    requires r < 3
    ensures Generate(DEFAULT_COUNTS, 3, Auto).Some?
    ensures var row := Generate(DEFAULT_COUNTS, 3, Auto).value[r];
      |row| == 10 && |Compact(row)| == 10 && forall i :: 0 <= i < 10 ==> row[i] == Some(Compact(row)[i])
  {
    DefaultChart();
    GenerateCentred(DEFAULT_COUNTS, 3, Auto);
    var row := Generate(DEFAULT_COUNTS, 3, Auto).value[r];
    assert Centred(row);
    assert Block(row, Compact(row), 0);
    assert forall i :: 0 <= i < 10 ==> row[0 + i] == Some(Compact(row)[i]);
  }

  /** The j-th of two upper rows receives A(j+1), A(j+3), ..., then S(j+1), S(j+3), .... */
  lemma DefaultUpperStride(j: nat, q: nat)
    requires j < 2 && q < 10
    ensures j + q * 2 < 20
    ensures Upper(DEFAULT_COUNTS)[j + q * 2] ==
      if q < 5 then Member(Alto, 2 * q + j + 1) else Member(Soprano, 2 * q + j - 9)
  {
    DefaultUpperAt(j + q * 2);
  }

  /** A fully occupied row whose members are a stride of a stream, cell by cell. */
  lemma StrideCells(row: seq<Option<Member>>, members: seq<Member>, j: nat, k: nat)
    requires |row| == 10 && |Compact(row)| == 10
    requires forall i :: 0 <= i < 10 ==> row[i] == Some(Compact(row)[i])
    requires forall q :: 0 <= q < 10 ==> j + q * k < |members| && Compact(row)[q] == members[j + q * k]
    ensures forall q :: 0 <= q < 10 ==> j + q * k < |members| && row[q] == Some(members[j + q * k])
  {
  }

  /** Row j (0 or 1) of the initial chart holds upper members j, j + 2, j + 4, ... cell by cell. */
  lemma DefaultUpperStrideRow(j: nat)
    requires j < 2
    ensures Generate(DEFAULT_COUNTS, 3, Auto).Some?
    ensures |Generate(DEFAULT_COUNTS, 3, Auto).value| == 3
    ensures var row := Generate(DEFAULT_COUNTS, 3, Auto).value[j];
      |row| == 10 && forall q :: 0 <= q < 10 ==> j + q * 2 < 20 && row[q] == Some(Upper(DEFAULT_COUNTS)[j + q * 2])
  {
    DefaultCells(j);
    DefaultPlan();
    GenerateRoundRobin(DEFAULT_COUNTS, 3, Auto, 0, j);
    StrideCells(Generate(DEFAULT_COUNTS, 3, Auto).value[j], Upper(DEFAULT_COUNTS), j, 2);
  }

  /** Row 2 of the initial chart holds the lower members in order, cell by cell. */
  lemma DefaultLowerStrideRow()
    ensures Generate(DEFAULT_COUNTS, 3, Auto).Some?
    ensures |Generate(DEFAULT_COUNTS, 3, Auto).value| == 3
    ensures var row := Generate(DEFAULT_COUNTS, 3, Auto).value[2];
      |row| == 10 && forall q :: 0 <= q < 10 ==> row[q] == Some(Lower(DEFAULT_COUNTS)[q])
  {
    DefaultCells(2);
    DefaultPlan();
    GenerateRoundRobin(DEFAULT_COUNTS, 3, Auto, 1, 0);
    StrideCells(Generate(DEFAULT_COUNTS, 3, Auto).value[2], Lower(DEFAULT_COUNTS), 0, 1);
  }

  /** Row j (0 or 1) of the initial chart: the Altos, then the Sopranos, with ordinals j + 1, j + 3, .... */
  lemma DefaultUpperRow(j: nat)
    requires j < 2
    ensures Generate(DEFAULT_COUNTS, 3, Auto).Some?
    ensures |Generate(DEFAULT_COUNTS, 3, Auto).value| == 3
    ensures Generate(DEFAULT_COUNTS, 3, Auto).value[j] ==
      seq(10, q requires 0 <= q => Some(if q < 5 then Member(Alto, 2 * q + j + 1) else Member(Soprano, 2 * q + j - 9)))
  {
    DefaultUpperStrideRow(j);
    var row := Generate(DEFAULT_COUNTS, 3, Auto).value[j];
    forall q | 0 <= q < 10
      ensures row[q] == Some(if q < 5 then Member(Alto, 2 * q + j + 1) else Member(Soprano, 2 * q + j - 9))
    {
      DefaultUpperStride(j, q);
    }
  }

  /** Row 2 of the initial chart: B1 to B5, then T1 to T5. */
  lemma DefaultLowerRow()
    ensures Generate(DEFAULT_COUNTS, 3, Auto).Some?
    ensures |Generate(DEFAULT_COUNTS, 3, Auto).value| == 3
    ensures Generate(DEFAULT_COUNTS, 3, Auto).value[2] ==
      seq(10, q requires 0 <= q => Some(if q < 5 then Member(Bass, q + 1) else Member(Tenor, q - 4)))
  {
    DefaultLowerStrideRow();
    var row := Generate(DEFAULT_COUNTS, 3, Auto).value[2];
    forall q | 0 <= q < 10
      ensures row[q] == Some(if q < 5 then Member(Bass, q + 1) else Member(Tenor, q - 4))
    {
      DefaultLowerAt(q);
    }
  }
}
