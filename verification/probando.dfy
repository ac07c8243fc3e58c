/**
 * The second version of the maintenance scheduler's constraint predicates, written with
 * `defaultdict` counters, `zip`, `any` and `all`. Each predicate is a pure fold here, and each
 * is proved to say exactly what the matching statement in `Workshops` demands, so the two
 * scheduler versions accept the same assignments.
 */
module Probando {
  import opened Wrappers
  import opened Airfield
  import opened Workshops

  /** Reading a `defaultdict(int)`: an absent key reads as zero. */
  function Get(counts: map<Pos, nat>, p: Pos): nat {
    if p in counts then counts[p] else 0
  }

  /** `max_2_aircrafts_per_workshop` from index `i`, with the counts of the cells before it. */
  function MaxTwoFrom(cells: seq<Pos>, i: nat, counts: map<Pos, nat>): bool
    requires i <= |cells|
    decreases |cells| - i
  {
    if i == |cells| then true
    else
      var c := Get(counts, cells[i]) + 1;
      if c > 2 then false else MaxTwoFrom(cells, i + 1, counts[cells[i] := c])
  }

  function MaxTwo(cells: seq<Pos>): bool {
    MaxTwoFrom(cells, 0, map[])
  }

  /** The fold from `i` decides the capacity constraint when its counts are the prefix's occurrences. */
  lemma {:induction false} MaxTwoFromSays(cells: seq<Pos>, i: nat, counts: map<Pos, nat>)
    requires i <= |cells|
    requires forall p :: Get(counts, p) == multiset(cells[..i])[p]
    requires forall p | p in cells[..i] :: multiset(cells[..i])[p] <= 2
    ensures MaxTwoFrom(cells, i, counts) <==> AtMostTwoEach(cells)
    decreases |cells| - i
  {
    if i == |cells| {
      assert cells[..i] == cells;
    } else {
      var p := cells[i];
      var c := Get(counts, p) + 1;
      assert cells[..i + 1] == cells[..i] + [p];
      if c > 2 {
        PrefixOccurrences(cells, i + 1, p);
      } else {
        var counts' := counts[p := c];
        CountsStep(cells, i, counts, counts');
        MaxTwoFromSays(cells, i + 1, counts');
      }
    }
  }

  /** Counting cell `i` keeps the counts equal to the occurrences, now of one more cell. */
  lemma CountsStep(cells: seq<Pos>, i: nat, counts: map<Pos, nat>, counts': map<Pos, nat>)
    requires i < |cells|
    requires forall p :: Get(counts, p) == multiset(cells[..i])[p]
    requires counts' == counts[cells[i] := Get(counts, cells[i]) + 1]
    ensures forall q :: Get(counts', q) == multiset(cells[..i + 1])[q]
  {
    assert cells[..i + 1] == cells[..i] + [cells[i]];
  }

  /** `max_2_aircrafts_per_workshop` accepts exactly when no cell is assigned more than twice. */
  lemma MaxTwoSays(cells: seq<Pos>)
    ensures MaxTwo(cells) <==> AtMostTwoEach(cells)
  {
    assert cells[..0] == [];
    MaxTwoFromSays(cells, 0, map[]);
  }

  /** `max_1_jumbo_per_workshop` over the `zip` of aircraft and cells from pair `i` on. */
  function MaxOneJumboFrom(fleet: seq<Aircraft>, cells: seq<Pos>, i: nat, counts: map<Pos, nat>): bool
    requires i <= Paired(fleet, cells)
    decreases Paired(fleet, cells) - i
  {
    if i == Paired(fleet, cells) then true
    else if IsJumbo(fleet[i]) then
      var c := Get(counts, cells[i]) + 1;
      if c > 1 then false else MaxOneJumboFrom(fleet, cells, i + 1, counts[cells[i] := c])
    else MaxOneJumboFrom(fleet, cells, i + 1, counts)
  }

  function MaxOneJumbo(fleet: seq<Aircraft>, cells: seq<Pos>): bool {
    MaxOneJumboFrom(fleet, cells, 0, map[])
  }

  /** The jumbo fold from `i` decides the constraint when its counts mark the cells of the jumbos before `i`. */
  lemma {:induction false} MaxOneJumboFromSays(fleet: seq<Aircraft>, cells: seq<Pos>, i: nat, counts: map<Pos, nat>)
    requires i <= Paired(fleet, cells)
    requires JumbosApartUpTo(fleet, cells, i)
    requires forall p :: Get(counts, p) <= 1
    requires forall p :: Get(counts, p) == 1 <==> exists j | 0 <= j < i :: IsJumbo(fleet[j]) && cells[j] == p
    ensures MaxOneJumboFrom(fleet, cells, i, counts) <==> JumbosApart(fleet, cells)
    decreases Paired(fleet, cells) - i
  {
    var n := Paired(fleet, cells);
    if i < n {
      var p := cells[i];
      if IsJumbo(fleet[i]) && Get(counts, p) == 1 {
        var j :| 0 <= j < i && IsJumbo(fleet[j]) && cells[j] == p;
        assert !JumbosApartUpTo(fleet, cells, n) by {
          assert cells[j] == cells[i];
        }
      } else if IsJumbo(fleet[i]) {
        var counts' := counts[p := 1];
        forall q ensures Get(counts', q) <= 1
          ensures Get(counts', q) == 1 <==> exists j | 0 <= j < i + 1 :: IsJumbo(fleet[j]) && cells[j] == q
        {
          if q == p {
            assert IsJumbo(fleet[i]) && cells[i] == q;
          } else {
            assert Get(counts', q) == Get(counts, q);
            if exists j | 0 <= j < i + 1 :: IsJumbo(fleet[j]) && cells[j] == q {
              var j :| 0 <= j < i + 1 && IsJumbo(fleet[j]) && cells[j] == q;
              assert j < i;
            }
          }
        }
        MaxOneJumboFromSays(fleet, cells, i + 1, counts');
      } else {
        MaxOneJumboFromSays(fleet, cells, i + 1, counts);
      }
    }
  }

  /** `max_1_jumbo_per_workshop` accepts exactly when no two paired jumbos share a cell. */
  lemma MaxOneJumboSays(fleet: seq<Aircraft>, cells: seq<Pos>)
    ensures MaxOneJumbo(fleet, cells) <==> JumbosApart(fleet, cells)
  {
    MaxOneJumboFromSays(fleet, cells, 0, map[]);
  }

  /** The counters of the inner loop of `task_constraints`. */
  datatype Tally = Tally(remT1: nat, remT2: nat, special: nat, standard: nat)

  /**
   * One slot of the inner loop: a specialist workshop counts for both kinds and pays off a
   * specialist task first, a standard workshop counts once, and a restricted aircraft in a
   * standard workshop with specialist tasks outstanding refuses the assignment (`None`).
   */
  function TallySlot(l: Layout, a: Aircraft, t: Tally, p: Pos): Option<Tally> {
    if p in l.special then
      var t' := t.(special := t.special + 1, standard := t.standard + 1);
      if t.remT2 > 0 then Some(t'.(remT2 := t.remT2 - 1))
      else if a.restr == Restricted && t.remT2 == 0 && t.remT1 > 0 then Some(t'.(remT1 := t.remT1 - 1))
      else Some(t')
    else if p in l.standard then
      if t.remT2 > 0 && a.restr == Restricted then None
      else
        var t' := t.(standard := t.standard + 1);
        if t.remT1 > 0 then Some(t'.(remT1 := t.remT1 - 1)) else Some(t')
    else Some(t)
  }

  /** The inner loop from slot `s` on. */
  function TallyFrom(l: Layout, a: Aircraft, slots: seq<Pos>, s: nat, t: Tally): Option<Tally>
    requires s <= |slots|
    decreases |slots| - s
  {
    if s == |slots| then Some(t)
    else
      match TallySlot(l, a, t, slots[s])
      case None => None
      case Some(t') => TallyFrom(l, a, slots, s + 1, t')
  }

  /** One aircraft's turn of `task_constraints`: the slot loop, then the two count tests. */
  function AircraftOk(l: Layout, a: Aircraft, slots: seq<Pos>): bool {
    match TallyFrom(l, a, slots, 0, Tally(a.t1, a.t2, 0, 0))
    case None => false
    case Some(t) => t.special >= a.t2 && t.standard >= a.t1 + a.t2
  }

  /** The counters after the first `s` slots, as the loop keeps them. */
  predicate TallyAt(l: Layout, a: Aircraft, slots: seq<Pos>, s: nat, t: Tally)
    requires s <= |slots|
  {
    && t.special == SpecialCount(l, slots[..s])
    && t.standard == WorkshopCount(l, slots[..s])
    && t.remT2 == (if t.special < a.t2 then a.t2 - t.special else 0)
  }

  /** The slot loop runs to the end exactly when the order rule holds, and then holds both counts. */
  lemma {:induction false} TallyFromSays(l: Layout, a: Aircraft, slots: seq<Pos>, s: nat, t: Tally)
    requires s <= |slots| && TallyAt(l, a, slots, s, t)
    requires forall i | 0 <= i < s :: !BreaksOrderAt(l, a, slots, i)
    ensures TallyFrom(l, a, slots, s, t).Some? <==> forall i | 0 <= i < |slots| :: !BreaksOrderAt(l, a, slots, i)
    ensures TallyFrom(l, a, slots, s, t).Some? ==> TallyAt(l, a, slots, |slots|, TallyFrom(l, a, slots, s, t).value)
    decreases |slots| - s
  {
    if s < |slots| {
      assert slots[..s + 1][..s] == slots[..s];
      match TallySlot(l, a, t, slots[s])
      case None =>
        assert BreaksOrderAt(l, a, slots, s);
      case Some(t') =>
        TallyFromSays(l, a, slots, s + 1, t');
    }
  }

  /** One aircraft's turn accepts exactly its maintenance demand. */
  lemma AircraftOkSays(l: Layout, a: Aircraft, slots: seq<Pos>)
    ensures AircraftOk(l, a, slots) <==> TasksDone(l, a, slots)
  {
    assert slots[..0] == [];
    TallyFromSays(l, a, slots, 0, Tally(a.t1, a.t2, 0, 0));
    assert slots[..|slots|] == slots;
  }

  /** `task_constraints` from aircraft `k` on. */
  function TasksFrom(l: Layout, fleet: seq<Aircraft>, cells: seq<Pos>, slotCount: nat, k: nat): bool
    requires |fleet| * slotCount <= |cells| && k <= |fleet|
    decreases |fleet| - k
  {
    if k == |fleet| then true
    else
      var index := IndexOf(fleet, fleet[k]);
      BlockInside(|fleet|, index, slotCount);
      AircraftOk(l, fleet[k], SlotsOf(cells, index, slotCount)) && TasksFrom(l, fleet, cells, slotCount, k + 1)
  }

  /** `task_constraints` from aircraft `k` on accepts exactly when every aircraft from `k` on is served. */
  lemma {:induction false} TasksFromSays(l: Layout, fleet: seq<Aircraft>, cells: seq<Pos>, slotCount: nat, k: nat)
    requires |fleet| * slotCount <= |cells| && k <= |fleet|
    ensures TasksFrom(l, fleet, cells, slotCount, k) <==>
              forall j | k <= j < |fleet| :: BlockDone(l, fleet, cells, slotCount, j)
    decreases |fleet| - k
  {
    if k < |fleet| {
      var index := IndexOf(fleet, fleet[k]);
      BlockInside(|fleet|, index, slotCount);
      AircraftOkSays(l, fleet[k], SlotsOf(cells, index, slotCount));
      TasksFromSays(l, fleet, cells, slotCount, k + 1);
      assert BlockDone(l, fleet, cells, slotCount, k) <==> AircraftOk(l, fleet[k], SlotsOf(cells, index, slotCount));
    }
  }

  /** `task_constraints` accepts exactly when every aircraft's demand is met. */
  lemma TasksSays(l: Layout, fleet: seq<Aircraft>, cells: seq<Pos>, slotCount: nat)
    requires |fleet| * slotCount <= |cells|
    ensures TasksFrom(l, fleet, cells, slotCount, 0) <==> AllTasksDone(l, fleet, cells, slotCount)
  {
    TasksFromSays(l, fleet, cells, slotCount, 0);
  }

  /** `all(adj in occupied for adj in neighbours if adj in domain)` from neighbour `k` on. */
  function AllTaken(ns: seq<Pos>, k: nat, domain: seq<Pos>, occupied: set<Pos>): bool
    requires k <= |ns|
    decreases |ns| - k
  {
    if k == |ns| then true
    else (ns[k] !in domain || ns[k] in occupied) && AllTaken(ns, k + 1, domain, occupied)
  }

  lemma {:induction false} AllTakenSays(ns: seq<Pos>, k: nat, domain: seq<Pos>, occupied: set<Pos>)
    requires k <= |ns|
    ensures AllTaken(ns, k, domain, occupied) <==> forall m | k <= m < |ns| :: ns[m] in domain ==> ns[m] in occupied
    decreases |ns| - k
  {
    if k < |ns| {
      AllTakenSays(ns, k + 1, domain, occupied);
    }
  }

  /**
   * `no_adjacent_occupancy`, visiting the occupied cells through the assignment list from index
   * `i` on: a cell listed twice is judged twice, which cannot change the verdict.
   */
  function OccupancyFrom(l: Layout, cells: seq<Pos>, i: nat): bool
    requires i <= |cells|
    decreases |cells| - i
  {
    if i == |cells| then true
    else
      var p := cells[i];
      if p in l.parking + l.standard + l.special && AllTaken(Neighbours(p), 0, Domain(l), set q | q in cells) then false
      else OccupancyFrom(l, cells, i + 1)
  }

  lemma {:induction false} OccupancyFromSays(l: Layout, cells: seq<Pos>, i: nat)
    requires i <= |cells|
    ensures OccupancyFrom(l, cells, i) <==>
              forall j | i <= j < |cells| && InDomain(l, cells[j]) :: HasFreeNeighbour(l, cells, cells[j])
    decreases |cells| - i
  {
    if i < |cells| {
      var p := cells[i];
      var ns := Neighbours(p);
      OccupancyFromSays(l, cells, i + 1);
      AllTakenSays(ns, 0, Domain(l), set q | q in cells);
      forall m | 0 <= m < 4 {
        DomainHas(l, ns[m]);
      }
    }
  }

  /** `no_adjacent_occupancy` accepts exactly when no occupied domain cell is closed in. */
  lemma OccupancySays(l: Layout, cells: seq<Pos>)
    ensures OccupancyFrom(l, cells, 0) <==> NoneSurrounded(l, cells)
  {
    OccupancyFromSays(l, cells, 0);
    if !NoneSurrounded(l, cells) {
      var p :| p in cells && InDomain(l, p) && !HasFreeNeighbour(l, cells, p);
      var j :| 0 <= j < |cells| && cells[j] == p;
    }
  }

  /** `any(adj in jumbos for adj in neighbours if adj in domain)` from neighbour `k` on. */
  function AnyJumboNext(ns: seq<Pos>, k: nat, domain: seq<Pos>, jumbos: seq<Pos>): bool
    requires k <= |ns|
    decreases |ns| - k
  {
    if k == |ns| then false
    else (ns[k] in domain && ns[k] in jumbos) || AnyJumboNext(ns, k + 1, domain, jumbos)
  }

  lemma {:induction false} AnyJumboNextSays(ns: seq<Pos>, k: nat, domain: seq<Pos>, jumbos: seq<Pos>)
    requires k <= |ns|
    ensures AnyJumboNext(ns, k, domain, jumbos) <==> exists m | k <= m < |ns| :: ns[m] in domain && ns[m] in jumbos
    decreases |ns| - k
  {
    if k < |ns| {
      AnyJumboNextSays(ns, k + 1, domain, jumbos);
    }
  }

  /** `no_adjacent_jumbo` over the jumbo cell list from index `i` on. */
  function NoJumboNextFrom(l: Layout, jumbos: seq<Pos>, i: nat): bool
    requires i <= |jumbos|
    decreases |jumbos| - i
  {
    if i == |jumbos| then true
    else if AnyJumboNext(Neighbours(jumbos[i]), 0, Domain(l), jumbos) then false
    else NoJumboNextFrom(l, jumbos, i + 1)
  }

  function NoJumboNext(l: Layout, fleet: seq<Aircraft>, cells: seq<Pos>): bool {
    NoJumboNextFrom(l, JumboCells(fleet, cells), 0)
  }

  lemma {:induction false} NoJumboNextFromSays(l: Layout, jumbos: seq<Pos>, i: nat)
    requires i <= |jumbos|
    ensures NoJumboNextFrom(l, jumbos, i) <==>
              forall m, q | i <= m < |jumbos| && q in Neighbours(jumbos[m]) :: !(q in Domain(l) && q in jumbos)
    decreases |jumbos| - i
  {
    if i < |jumbos| {
      NoJumboNextFromSays(l, jumbos, i + 1);
      AnyJumboNextSays(Neighbours(jumbos[i]), 0, Domain(l), jumbos);
    }
  }

  /** `no_adjacent_jumbo` accepts exactly when no two paired jumbos are domain neighbours. */
  lemma NoJumboNextSays(l: Layout, fleet: seq<Aircraft>, cells: seq<Pos>)
    ensures NoJumboNext(l, fleet, cells) <==> NoJumboNeighbours(l, fleet, cells)
  {
    var jumbos := JumboCells(fleet, cells);
    NoJumboNextFromSays(l, jumbos, 0);
    JumboListView(l, fleet, cells);
    forall p | p in jumbos ensures exists m | 0 <= m < |jumbos| :: jumbos[m] == p {
      var m :| 0 <= m < |jumbos| && jumbos[m] == p;
    }
  }
}
