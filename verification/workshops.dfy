/**
 * The maintenance-scheduling problem the constraint predicates judge: aircraft with a type, a
 * restriction flag and two task counts, a layout of standard workshops, specialist workshops and
 * parkings, and one assignment of cells per aircraft and time slot. This module states what each
 * constraint demands, independently of how the two scheduler versions compute it.
 */
module Workshops {
  import opened Airfield

  /**
   * One line of the aircraft list, `ID-TIPO-RESTR-T1-T2`: the restriction stays the text it was
   * read as, and the scheduler treats only `"T"` as restricted.
   */
  datatype Aircraft = Aircraft(id: string, kind: string, restr: string, t1: nat, t2: nat)

  /** The cell lists of the input file, in the order they are listed. */
  datatype Layout = Layout(standard: seq<Pos>, special: seq<Pos>, parking: seq<Pos>)

  /** The type label of a jumbo aircraft. */
  const Jumbo: string := "JMB"

  /** The restriction flag that forces the specialist tasks to come first. */
  const Restricted: string := "T"

  predicate IsJumbo(a: Aircraft) {
    a.kind == Jumbo
  }

  /** The variable domain of every aircraft and slot: parkings, then standard, then specialist workshops. */
  function Domain(l: Layout): seq<Pos> {
    l.parking + l.standard + l.special
  }

  predicate InDomain(l: Layout, p: Pos) {
    p in l.parking || p in l.standard || p in l.special
  }

  lemma DomainHas(l: Layout, p: Pos)
    ensures p in Domain(l) <==> InDomain(l, p)
  {
  }

  /** The four orthogonal neighbours in the order the predicates list them: down, up, right, left. */
  function Neighbours(p: Pos): (ns: seq<Pos>)
    ensures |ns| == 4
  {
    [Pos(p.x + 1, p.y), Pos(p.x - 1, p.y), Pos(p.x, p.y + 1), Pos(p.x, p.y - 1)]
  }

  /** The neighbour list holds exactly the cells at distance one. */
  lemma NeighboursAreAdjacent(p: Pos, q: Pos)
    ensures q in Neighbours(p) <==> Manhattan(p, q) == 1
  {
    ManhattanOneIsOrthogonal(p, q);
  }

  /** Capacity: no cell is assigned to more than two of the given aircraft. */
  predicate AtMostTwoEach(cells: seq<Pos>) {
    forall p | p in cells :: multiset(cells)[p] <= 2
  }

  /** A cell occurs in a prefix of the assignment no more often than in the whole. */
  lemma PrefixOccurrences(cells: seq<Pos>, n: nat, p: Pos)
    requires n <= |cells|
    ensures multiset(cells[..n])[p] <= multiset(cells)[p]
  {
    assert cells == cells[..n] + cells[n..];
  }

  /** The number of aircraft the predicates pair with an assignment: `zip` stops at the shorter list. */
  function Paired(fleet: seq<Aircraft>, cells: seq<Pos>): nat {
    if |fleet| <= |cells| then |fleet| else |cells|
  }

  /** Among the first `n` pairs of aircraft and cell, no two jumbos share a cell. */
  predicate JumbosApartUpTo(fleet: seq<Aircraft>, cells: seq<Pos>, n: nat)
    requires n <= |fleet| && n <= |cells|
  {
    forall i, j | 0 <= i < j < n && IsJumbo(fleet[i]) && IsJumbo(fleet[j]) :: cells[i] != cells[j]
  }

  /** At most one jumbo per cell, over the aircraft the assignment covers. */
  predicate JumbosApart(fleet: seq<Aircraft>, cells: seq<Pos>) {
    JumbosApartUpTo(fleet, cells, Paired(fleet, cells))
  }

  /** No jumbo stands on a domain cell next to another jumbo. */
  predicate NoJumboNeighbours(l: Layout, fleet: seq<Aircraft>, cells: seq<Pos>) {
    forall i, j | 0 <= i < Paired(fleet, cells) && 0 <= j < Paired(fleet, cells) && IsJumbo(fleet[i]) && IsJumbo(fleet[j]) ::
      !(InDomain(l, cells[j]) && Manhattan(cells[i], cells[j]) == 1)
  }

  /** An occupied domain cell keeps a free domain cell next to it. */
  predicate HasFreeNeighbour(l: Layout, cells: seq<Pos>, p: Pos) {
    exists k | 0 <= k < 4 :: InDomain(l, Neighbours(p)[k]) && Neighbours(p)[k] !in cells
  }

  /** No occupied domain cell is closed in: each has a free domain neighbour. */
  predicate NoneSurrounded(l: Layout, cells: seq<Pos>) {
    forall p | p in cells && InDomain(l, p) :: HasFreeNeighbour(l, cells, p)
  }

  /**
   * The closing test is vacuous for a cell without domain neighbours, so an aircraft alone on
   * such a cell breaks the constraint although nobody is next to it.
   */
  lemma IsolatedCellIsSurrounded(l: Layout, cells: seq<Pos>, p: Pos)
    requires p in cells && InDomain(l, p)
    requires forall k | 0 <= k < 4 :: !InDomain(l, Neighbours(p)[k])
    ensures !NoneSurrounded(l, cells)
  {
    assert !HasFreeNeighbour(l, cells, p);
  }

  /** The workshop count test treats a cell on both lists as specialist. */
  predicate IsSpecial(l: Layout, p: Pos) {
    p in l.special
  }

  predicate IsStandardOnly(l: Layout, p: Pos) {
    p !in l.special && p in l.standard
  }

  /** Slots spent in specialist workshops. */
  function SpecialCount(l: Layout, slots: seq<Pos>): nat {
    if |slots| == 0 then 0
    else SpecialCount(l, slots[..|slots| - 1]) + (if IsSpecial(l, slots[|slots| - 1]) then 1 else 0)
  }

  /** Slots spent in any workshop: a specialist workshop also serves standard tasks. */
  function WorkshopCount(l: Layout, slots: seq<Pos>): nat {
    if |slots| == 0 then 0
    else WorkshopCount(l, slots[..|slots| - 1]) + (if IsSpecial(l, slots[|slots| - 1]) || IsStandardOnly(l, slots[|slots| - 1]) then 1 else 0)
  }

  /**
   * A restricted aircraft sits in a standard workshop at slot `i` while specialist tasks are
   * still due, i.e. fewer than `t2` specialist slots came before it.
   */
  predicate BreaksOrderAt(l: Layout, a: Aircraft, slots: seq<Pos>, i: nat)
    requires i < |slots|
  {
    a.restr == Restricted && IsStandardOnly(l, slots[i]) && SpecialCount(l, slots[..i]) < a.t2
  }

  /**
   * The maintenance demand of one aircraft over its slots: enough specialist slots for the
   * specialist tasks, enough workshop slots for all tasks, and, when restricted, no standard
   * workshop before the specialist tasks are done.
   */
  predicate TasksDone(l: Layout, a: Aircraft, slots: seq<Pos>) {
    && a.t2 <= SpecialCount(l, slots)
    && a.t1 + a.t2 <= WorkshopCount(l, slots)
    && forall i | 0 <= i < |slots| :: !BreaksOrderAt(l, a, slots, i)
  }

  /** `aircrafts.index(aircraft)`: the first position holding an equal aircraft. */
  function IndexOf(fleet: seq<Aircraft>, a: Aircraft): (k: nat)
    requires a in fleet
    ensures k < |fleet| && fleet[k] == a
    ensures forall j | 0 <= j < k :: fleet[j] != a
  {
    if fleet[0] == a then 0 else 1 + IndexOf(fleet[1..], a)
  }

  /** Aircraft `k`'s block of the flat assignment list, which holds `slotCount` cells per aircraft. */
  function SlotsOf(cells: seq<Pos>, k: nat, slotCount: nat): (s: seq<Pos>)
    requires (k + 1) * slotCount <= |cells|
    ensures |s| == slotCount
  {
    cells[k * slotCount .. k * slotCount + slotCount]
  }

  /** A block index below the aircraft count stays inside the flat list. */
  lemma BlockInside(n: nat, k: nat, slotCount: nat)
    requires k < n
    ensures (k + 1) * slotCount <= n * slotCount
  {
    var d := n - (k + 1);
    assert n * slotCount == (k + 1) * slotCount + d * slotCount;
  }

  /** Aircraft `k`'s demand, read over the block of the first aircraft equal to it. */
  predicate BlockDone(l: Layout, fleet: seq<Aircraft>, cells: seq<Pos>, slotCount: nat, k: nat)
    requires k < |fleet| && |fleet| * slotCount <= |cells|
  {
    BlockInside(|fleet|, IndexOf(fleet, fleet[k]), slotCount);
    TasksDone(l, fleet[k], SlotsOf(cells, IndexOf(fleet, fleet[k]), slotCount))
  }

  /** The task constraint over the whole fleet. */
  predicate AllTasksDone(l: Layout, fleet: seq<Aircraft>, cells: seq<Pos>, slotCount: nat)
    requires |fleet| * slotCount <= |cells|
  {
    forall k | 0 <= k < |fleet| :: BlockDone(l, fleet, cells, slotCount, k)
  }

  /** `[pos for aircraft, pos in zip(aircrafts, assignments) if aircraft is a jumbo]`. */
  function JumboCells(fleet: seq<Aircraft>, cells: seq<Pos>): seq<Pos> {
    if |fleet| == 0 || |cells| == 0 then []
    else (if IsJumbo(fleet[0]) then [cells[0]] else []) + JumboCells(fleet[1..], cells[1..])
  }

  /** The jumbo cell list holds exactly the cells of the paired jumbos. */
  lemma {:induction false} JumboCellsHas(fleet: seq<Aircraft>, cells: seq<Pos>, p: Pos)
    ensures p in JumboCells(fleet, cells) <==>
              exists i | 0 <= i < Paired(fleet, cells) :: IsJumbo(fleet[i]) && cells[i] == p
  {
    if |fleet| > 0 && |cells| > 0 {
      JumboCellsHas(fleet[1..], cells[1..], p);
      if exists i | 0 <= i < Paired(fleet, cells) :: IsJumbo(fleet[i]) && cells[i] == p {
        var i :| 0 <= i < Paired(fleet, cells) && IsJumbo(fleet[i]) && cells[i] == p;
        if i > 0 {
          assert IsJumbo(fleet[1..][i - 1]) && cells[1..][i - 1] == p;
        }
      }
      if exists i | 0 <= i < Paired(fleet[1..], cells[1..]) :: IsJumbo(fleet[1..][i]) && cells[1..][i] == p {
        var i :| 0 <= i < Paired(fleet[1..], cells[1..]) && IsJumbo(fleet[1..][i]) && cells[1..][i] == p;
        assert IsJumbo(fleet[i + 1]) && cells[i + 1] == p;
      }
    }
  }

  /**
   * The neighbour test as the predicates run it, on the jumbo cell list, says the same as the
   * index-pair statement.
   */
  lemma JumboListView(l: Layout, fleet: seq<Aircraft>, cells: seq<Pos>)
    ensures NoJumboNeighbours(l, fleet, cells) <==>
              forall p, q | p in JumboCells(fleet, cells) && q in Neighbours(p) :: !(q in Domain(l) && q in JumboCells(fleet, cells))
  {
    var js := JumboCells(fleet, cells);
    var n := Paired(fleet, cells);
    if NoJumboNeighbours(l, fleet, cells) {
      forall p, q | p in js && q in Neighbours(p) ensures !(q in Domain(l) && q in js) {
        if q in Domain(l) && q in js {
          JumboCellsHas(fleet, cells, p);
          JumboCellsHas(fleet, cells, q);
          var i :| 0 <= i < n && IsJumbo(fleet[i]) && cells[i] == p;
          var j :| 0 <= j < n && IsJumbo(fleet[j]) && cells[j] == q;
          NeighboursAreAdjacent(p, q);
          DomainHas(l, q);
        }
      }
    } else {
      var i, j :| 0 <= i < n && 0 <= j < n && IsJumbo(fleet[i]) && IsJumbo(fleet[j]) &&
                  InDomain(l, cells[j]) && Manhattan(cells[i], cells[j]) == 1;
      JumboCellsHas(fleet, cells, cells[i]);
      JumboCellsHas(fleet, cells, cells[j]);
      NeighboursAreAdjacent(cells[i], cells[j]);
      DomainHas(l, cells[j]);
    }
  }

  /** The label `save_results` prints for a cell: specialist first, then standard, else parking. */
  datatype Label = SPC | STD | PRK | UNK

  function LabelOf(l: Layout, p: Pos): (r: Label)
    ensures r == SPC <==> p in l.special
    ensures r == STD <==> p !in l.special && p in l.standard
    ensures r != UNK
  {
    if p in l.special then SPC
    else if p in l.standard then STD
    else PRK
  }
}
