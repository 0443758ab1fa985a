/**
 * The roster: the four vocal parts, the members generated for each part and
 * their display names ("S1", "A3", ...), and the per-part counts.
 */
module Roster {
  import opened Options

  datatype Part = Soprano | Alto | Tenor | Bass

  /** A choir member: its part and its 1-based ordinal within that part (the random id is not modelled). */
  datatype Member = Member(part: Part, ordinal: nat)

  /** The per-part counts as the input fields hold them; a field may hold a negative number. */
  datatype Counts = Counts(soprano: int, alto: int, tenor: int, bass: int)

  /** The counts the chart starts with. */
  const DEFAULT_COUNTS := Counts(10, 10, 5, 5)

  /** The one-letter prefix of a part's member names. */
  function Letter(p: Part): char
  {
    match p
    case Soprano => 'S'
    case Alto => 'A'
    case Tenor => 'T'
    case Bass => 'B'
  }

  function PartOfLetter(ch: char): (r: Option<Part>)
    ensures r.Some? ==> Letter(r.value) == ch
  {
    if ch == 'S' then Some(Soprano)
    else if ch == 'A' then Some(Alto)
    else if ch == 'T' then Some(Tenor)
    else if ch == 'B' then Some(Bass)
    else None
  }

  predicate IsDigit(ch: char) { '0' <= ch <= '9' }

  predicate AllDigits(s: string) { forall i :: 0 <= i < |s| ==> IsDigit(s[i]) }

  function Digit(d: nat): (ch: char)
    requires d < 10
    ensures IsDigit(ch)
  {
    (('0' as int) + d) as char
  }

  function DigitValue(ch: char): (d: nat)
    requires IsDigit(ch)
    ensures d < 10
  {
    (ch as int) - ('0' as int)
  }

  /** The decimal numeral of n, as a template literal prints a non-negative integer. */
  function Decimal(n: nat): (s: string)
    ensures |s| >= 1 && AllDigits(s)
  {
    if n < 10 then [Digit(n)] else Decimal(n / 10) + [Digit(n % 10)]
  }

  /** The value of a numeral; the inverse of Decimal. */
  function ParseDecimal(s: string): nat
    requires AllDigits(s)
  {
    if s == [] then 0 else ParseDecimal(s[..|s| - 1]) * 10 + DigitValue(s[|s| - 1])
  }

  lemma {:induction false} DecimalRoundTrip(n: nat)
    ensures ParseDecimal(Decimal(n)) == n
  {
    var s := Decimal(n);
    if n < 10 {
      assert s[..|s| - 1] == [];
    } else {
      assert s[..|s| - 1] == Decimal(n / 10);
      DecimalRoundTrip(n / 10);
    }
  }

  /** The display name of a member: its part's letter followed by its ordinal. */
  function Name(m: Member): string
  {
    [Letter(m.part)] + Decimal(m.ordinal)
  }

  /** Reads a display name back into the member it names, if it is one. */
  function ParseName(s: string): Option<Member>
  {
    if |s| >= 2 && PartOfLetter(s[0]).Some? && AllDigits(s[1..])
    then Some(Member(PartOfLetter(s[0]).value, ParseDecimal(s[1..])))
    else None
  }

  lemma NameRoundTrip(m: Member)
    ensures ParseName(Name(m)) == Some(m)
  {
    var s := Name(m);
    assert s[1..] == Decimal(m.ordinal);
    DecimalRoundTrip(m.ordinal);
  }

  /** Two members have the same display name only if they are the same member. */
  lemma NameInjective(m1: Member, m2: Member)
    ensures Name(m1) == Name(m2) ==> m1 == m2
  {
    NameRoundTrip(m1);
    NameRoundTrip(m2);
  }

  /** The number of members a count produces: a length below zero yields an empty list. */
  function Clamp(n: int): nat
  {
    if n > 0 then n else 0
  }

  /** The ordered member list of one part. */
  function PartList(p: Part, count: int): seq<Member>
  {
    seq(Clamp(count), k requires 0 <= k => Member(p, k + 1))
  }

  /**
   * A part's list has as many members as its count asks for (none for a count
   * at or below zero); the k-th carries the part and the name with suffix k + 1,
   * and no two members of the list share a name.
   */
  lemma RosterNames(p: Part, count: int)
    ensures |PartList(p, count)| == if count > 0 then count else 0
    ensures forall k :: 0 <= k < |PartList(p, count)| ==>
      PartList(p, count)[k].part == p && Name(PartList(p, count)[k]) == [Letter(p)] + Decimal(k + 1)
    ensures forall k, l :: 0 <= k < l < |PartList(p, count)| ==> Name(PartList(p, count)[k]) != Name(PartList(p, count)[l])
  {
    var r := PartList(p, count);
    forall k, l | 0 <= k < l < |r|
      ensures Name(r[k]) != Name(r[l])
    {
      NameInjective(r[k], r[l]);
    }
  }

  /** The headcount shown beside the inputs, as written: the sum of the four raw counts. */
  function TotalCount(c: Counts): int
  {
    c.soprano + c.alto + c.tenor + c.bass
  }

  /** The number of members the four counts actually generate. */
  function SeatedTotal(c: Counts): (n: nat)
    ensures n == |PartList(Soprano, c.soprano)| + |PartList(Alto, c.alto)| + |PartList(Tenor, c.tenor)| + |PartList(Bass, c.bass)|
  {
    Clamp(c.soprano) + Clamp(c.alto) + Clamp(c.tenor) + Clamp(c.bass)
  }

  /** With no negative count the displayed headcount is the number of generated members. */
  lemma TotalCountAgrees(c: Counts)
    requires c.soprano >= 0 && c.alto >= 0 && c.tenor >= 0 && c.bass >= 0
    ensures TotalCount(c) == SeatedTotal(c)
  {
  }

  /** A negative count makes the displayed headcount differ from the number of generated members. */
  lemma TotalCountMiscounts()
    ensures TotalCount(Counts(-3, 5, 0, 0)) == 2
    ensures SeatedTotal(Counts(-3, 5, 0, 0)) == 5
  {
  }
}
