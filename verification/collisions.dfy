/** The two collision filters of the successor generator: shared cells and swapped cells. */
module Collisions {
  import opened Airfield

  /** No two aircraft share a cell. */
  predicate Distinct(ps: seq<Pos>) {
    forall i, j | 0 <= i < j < |ps| :: ps[i] != ps[j]
  }

  /** `set(new_positions)`. */
  function Cells(ps: seq<Pos>): (s: set<Pos>)
    ensures forall q :: q in s <==> q in ps
  {
    if |ps| == 0 then {} else {ps[0]} + Cells(ps[1..])
  }

  /** A list is duplicate-free exactly when its head is not repeated and its tail is duplicate-free. */
  lemma DistinctCons(ps: seq<Pos>)
    requires |ps| > 0
    ensures Distinct(ps) <==> ps[0] !in ps[1..] && Distinct(ps[1..])
  {
    var tail := ps[1..];
    if Distinct(ps) {
      forall i, j | 0 <= i < j < |tail| ensures tail[i] != tail[j] {
        assert tail[i] == ps[i + 1] && tail[j] == ps[j + 1];
      }
    }
    if ps[0] !in tail && Distinct(tail) {
      forall i, j | 0 <= i < j < |ps| ensures ps[i] != ps[j] {
        assert ps[j] == tail[j - 1];
        if i > 0 { assert ps[i] == tail[i - 1]; }
      }
    }
  }

  /**
   * The source's vertex test, `len(set(new_positions)) != len(new_positions)`, fires exactly
   * when two aircraft are assigned the same cell.
   */
  lemma {:induction false} CellsSizeDetectsSharing(ps: seq<Pos>)
    ensures |Cells(ps)| <= |ps|
    ensures |Cells(ps)| == |ps| <==> Distinct(ps)
  {
    if |ps| > 0 {
      var tail := ps[1..];
      CellsSizeDetectsSharing(tail);
      DistinctCons(ps);
      CellsCons(ps);
    }
  }

  /** Adding the head to the tail's cells adds one cell exactly when the head is new. */
  lemma CellsCons(ps: seq<Pos>)
    requires |ps| > 0
    ensures ps[0] in ps[1..] ==> |Cells(ps)| == |Cells(ps[1..])|
    ensures ps[0] !in ps[1..] ==> |Cells(ps)| == |Cells(ps[1..])| + 1
  {
    if ps[0] in ps[1..] {
      assert Cells(ps) == Cells(ps[1..]);
    }
  }

  /** Aircraft `i` moves onto `j`'s cell while `j` moves onto `i`'s. */
  predicate Swapped(prev: seq<Pos>, next: seq<Pos>, i: nat, j: nat)
    requires i < |prev| && j < |prev| && |next| == |prev|
  {
    next[i] == prev[j] && next[j] == prev[i]
  }

  /** The inner loop over `j` for a fixed `i`, stopping at the first swap partner. */
  function PartnerFrom(prev: seq<Pos>, next: seq<Pos>, i: nat, j: nat): (found: bool)
    requires |next| == |prev| && i < j <= |prev|
    ensures found <==> exists b | j <= b < |prev| :: Swapped(prev, next, i, b)
    decreases |prev| - j
  {
    if j == |prev| then false
    else if Swapped(prev, next, i, j) then true
    else PartnerFrom(prev, next, i, j + 1)
  }

  /** The outer loop over `i` from the given index, breaking out on the first swap found. */
  function SwapFrom(prev: seq<Pos>, next: seq<Pos>, i: nat): (found: bool)
    requires |next| == |prev| && i <= |prev|
    ensures found <==> exists a, b | i <= a < b < |prev| :: Swapped(prev, next, a, b)
    decreases |prev| - i
  {
    if i == |prev| then false
    else if PartnerFrom(prev, next, i, i + 1) then true
    else SwapFrom(prev, next, i + 1)
  }

  /** The cross-collision flag of the source: some pair `i < j` exchanges cells. */
  function HasSwap(prev: seq<Pos>, next: seq<Pos>): (found: bool)
    requires |next| == |prev|
    ensures found <==> exists a, b | 0 <= a < b < |prev| :: Swapped(prev, next, a, b)
  {
    SwapFrom(prev, next, 0)
  }

  /** The swap relation is symmetric, so checking only `i < j` misses no exchanging pair. */
  lemma NoSwapAnyOrder(prev: seq<Pos>, next: seq<Pos>, a: nat, b: nat)
    requires |next| == |prev| && a < |prev| && b < |prev| && a != b
    requires !HasSwap(prev, next)
    ensures !(next[a] == prev[b] && next[b] == prev[a])
  {
    if a > b {
      assert !Swapped(prev, next, b, a);
    } else {
      assert !Swapped(prev, next, a, b);
    }
  }
}
