/**
 * Round-robin dealing of one stream of members into rows: the member at
 * stream position i is appended to row targets[i % |targets|], in stream order.
 */
module RoundRobin {

  lemma MulDistributes(a: int, b: int, k: int)
    ensures a * k - b * k == (a - b) * k
  {
  }

  lemma MulAtLeast(a: int, k: int)
    requires a >= 1 && k > 0
    ensures a * k >= k
  {
    assert a * k == (a - 1) * k + k by { MulDistributes(a, 1, k); }
    assert (a - 1) * k >= 0;
  }

  /** Euclidean division has a unique quotient and remainder. */
  lemma DivModUnique(n: int, k: int, q: int, r: int)
    requires k > 0 && 0 <= r < k && n == q * k + r
    ensures n / k == q && n % k == r
  {
    var q', r' := n / k, n % k;
    assert n == q' * k + r';
    MulDistributes(q, q', k);
    assert (q - q') * k == r' - r;
    if q > q' {
      MulAtLeast(q - q', k);
    } else if q < q' {
      MulDistributes(q', q, k);
      MulAtLeast(q' - q, k);
    }
  }

  /** How the quotient and remainder move when the dividend grows by one. */
  lemma DivModNext(m: nat, k: nat)
    requires k > 0
    ensures (m + 1) % k == if m % k == k - 1 then 0 else m % k + 1
    ensures (m + 1) / k == if m % k == k - 1 then m / k + 1 else m / k
  {
    if m % k == k - 1 {
      DivModUnique(m + 1, k, m / k + 1, 0);
    } else {
      DivModUnique(m + 1, k, m / k, m % k + 1);
    }
  }

  /**
   * Every one of the first n stream positions is dealt to a row that exists
   * among rowCount rows. When this fails the source pushes onto an undefined
   * row (or indexes with i % 0) and throws.
   */
  predicate Fits(n: nat, targets: seq<nat>, rowCount: nat)
  {
    n == 0 || (|targets| > 0 && forall i :: 0 <= i < n ==> targets[i % |targets|] < rowCount)
  }

  /** The rows after the stream has been dealt onto them, one append per member. */
  function Deal<T>(rows: seq<seq<T>>, stream: seq<T>, targets: seq<nat>): (r: seq<seq<T>>)
    requires Fits(|stream|, targets, |rows|)
    ensures |r| == |rows|
    decreases |stream|
  {
    if stream == [] then rows
    else
      var n := |stream| - 1;
      var prev := Deal(rows, stream[..n], targets);
      var row := targets[n % |targets|];
      prev[row := prev[row] + [stream[n]]]
  }

  /** Dealing one more member appends it to the row its position selects. */
  lemma DealSnoc<T>(rows: seq<seq<T>>, stream: seq<T>, x: T, targets: seq<nat>)
    requires Fits(|stream| + 1, targets, |rows|)
    ensures Fits(|stream|, targets, |rows|)
    ensures var prev := Deal(rows, stream, targets);
      var row := targets[|stream| % |targets|];
      Deal(rows, stream + [x], targets) == prev[row := prev[row] + [x]]
  {
    assert (stream + [x])[..|stream|] == stream;
  }

  /** The members of the stream that round-robin sends to row `row`, in stream order. */
  function Picked<T>(stream: seq<T>, targets: seq<nat>, row: nat): seq<T>
    decreases |stream|
  {
    if stream == [] then []
    else
      var n := |stream| - 1;
      Picked(stream[..n], targets, row) + (if targets != [] && targets[n % |targets|] == row then [stream[n]] else [])
  }

  /** The loop of flatInsert: deals the stream onto the rows in place, or reports the fault. */
  method FlatInsert<T>(rows: array<seq<T>>, stream: seq<T>, targets: seq<nat>) returns (ok: bool)
    modifies rows
    ensures ok == Fits(|stream|, targets, rows.Length)
    ensures ok ==> rows[..] == Deal(old(rows[..]), stream, targets)
  {
    var i := 0;
    while i < |stream|
      invariant 0 <= i <= |stream|
      invariant Fits(i, targets, rows.Length)
      invariant rows[..] == Deal(old(rows[..]), stream[..i], targets)
    {
      if |targets| == 0 {
        return false;
      }
      var row := targets[i % |targets|];
      if row >= rows.Length {
        return false;
      }
      assert stream[..i + 1][..i] == stream[..i];
      rows[row] := rows[row] + [stream[i]];
      i := i + 1;
    }
    assert stream[..i] == stream;
    return true;
  }

  /** Row by row, dealing appends exactly the members that round-robin picks for that row. */
  lemma {:induction false} DealRows<T>(rows: seq<seq<T>>, stream: seq<T>, targets: seq<nat>)
    requires Fits(|stream|, targets, |rows|)
    ensures forall r :: 0 <= r < |rows| ==> Deal(rows, stream, targets)[r] == rows[r] + Picked(stream, targets, r)
    decreases |stream|
  {
    if stream != [] {
      var n := |stream| - 1;
      DealRows(rows, stream[..n], targets);
    }
  }

  /** A row that is not among the targets receives nothing. */
  lemma {:induction false} PickedElsewhere<T>(stream: seq<T>, targets: seq<nat>, row: nat)
    requires row !in targets
    ensures Picked(stream, targets, row) == []
    decreases |stream|
  {
    if stream != [] {
      PickedElsewhere(stream[..|stream| - 1], targets, row);
    }
  }

  /** Whatever a row receives comes from the stream. */
  lemma {:induction false} PickedFrom<T>(stream: seq<T>, targets: seq<nat>, row: nat)
    ensures forall x :: x in Picked(stream, targets, row) ==> x in stream
    decreases |stream|
  {
    if stream != [] {
      var n := |stream| - 1;
      PickedFrom(stream[..n], targets, row);
      assert forall x :: x in stream[..n] ==> x in stream;
    }
  }

  predicate Distinct(targets: seq<nat>)
  {
    forall i, j :: 0 <= i < j < |targets| ==> targets[i] != targets[j]
  }

  /** The share formula of PickedStride grows by one exactly at positions congruent to j. */
  lemma ShareNext(m: nat, k: nat, j: nat)
    requires j < k
    ensures (m + 1) / k + (if j < (m + 1) % k then 1 else 0)
         == m / k + (if j < m % k then 1 else 0) + (if m % k == j then 1 else 0)
  {
    DivModNext(m, k);
  }

  lemma PositionOf(m: nat, k: nat, j: nat)
    requires j < k && m % k == j
    ensures j + (m / k) * k == m
  {
  }

  /**
   * With k distinct target rows, the j-th target row receives the members at
   * stream positions j, j + k, j + 2k, ... in that order: n / k of them, plus one
   * more for each of the first n % k target rows.
   */
  lemma {:induction false} PickedStride<T>(stream: seq<T>, targets: seq<nat>, j: nat)
    requires Distinct(targets) && j < |targets|
    ensures |Picked(stream, targets, targets[j])| == |stream| / |targets| + (if j < |stream| % |targets| then 1 else 0)
    ensures forall q :: 0 <= q < |Picked(stream, targets, targets[j])| ==>
      j + q * |targets| < |stream| && Picked(stream, targets, targets[j])[q] == stream[j + q * |targets|]
    decreases |stream|
  {
    var k := |targets|;
    if stream != [] {
      var m := |stream| - 1;
      var prev := Picked(stream[..m], targets, targets[j]);
      var cur := Picked(stream, targets, targets[j]);
      PickedStride(stream[..m], targets, j);
      ShareNext(m, k, j);
      assert targets[m % k] == targets[j] <==> m % k == j;
      forall q | 0 <= q < |cur|
        ensures j + q * k < |stream| && cur[q] == stream[j + q * k]
      {
        if q < |prev| {
          assert cur[q] == prev[q];
        } else {
          PositionOf(m, k, j);
        }
      }
    }
  }

  /** Round-robin balance: target rows differ by at most one member, and earlier ones never get fewer. */
  lemma Balanced<T>(stream: seq<T>, targets: seq<nat>, j1: nat, j2: nat)
    requires Distinct(targets) && j1 < j2 < |targets|
    ensures |Picked(stream, targets, targets[j2])| <= |Picked(stream, targets, targets[j1])| <= |Picked(stream, targets, targets[j2])| + 1
  {
    PickedStride(stream, targets, j1);
    PickedStride(stream, targets, j2);
  }

  /** Every member seated in the rows, counted with multiplicity. */
  ghost function Seated<T>(rows: seq<seq<T>>): multiset<T>
  {
    if rows == [] then multiset{} else multiset(rows[0]) + Seated(rows[1..])
  }

  lemma {:induction false} SeatedAppend<T>(rows: seq<seq<T>>, r: nat, x: T)
    requires r < |rows|
    ensures Seated(rows[r := rows[r] + [x]]) == Seated(rows) + multiset{x}
  {
    var rows' := rows[r := rows[r] + [x]];
    if r == 0 {
      assert rows'[1..] == rows[1..];
    } else {
      assert rows'[1..] == rows[1..][r - 1 := rows[r] + [x]];
      SeatedAppend(rows[1..], r - 1, x);
    }
  }

  /** Dealing seats every member of the stream exactly once and removes no one. */
  lemma {:induction false} DealSeats<T>(rows: seq<seq<T>>, stream: seq<T>, targets: seq<nat>)
    requires Fits(|stream|, targets, |rows|)
    ensures Seated(Deal(rows, stream, targets)) == Seated(rows) + multiset(stream)
    decreases |stream|
  {
    if stream != [] {
      var n := |stream| - 1;
      var row := targets[n % |targets|];
      var prev := Deal(rows, stream[..n], targets);
      assert Deal(rows, stream, targets) == prev[row := prev[row] + [stream[n]]];
      DealSeats(rows, stream[..n], targets);
      SeatedAppend(prev, row, stream[n]);
      assert multiset(stream) == multiset(stream[..n]) + multiset{stream[n]} by {
        assert stream == stream[..n] + [stream[n]];
      }
    }
  }
}
