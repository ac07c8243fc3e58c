/**
 * The constraint predicates of the maintenance scheduler as its loops run them. Each predicate
 * sees the cells assigned to the aircraft (one time slot's cells, or the whole flat assignment
 * for the task constraint) and answers whether the assignment is allowed; each method below is
 * proved to answer exactly what the matching statement in `Workshops` demands.
 */
module Scheduler {
  import opened Airfield
  import opened Workshops

  /**
   * `max_1_jumbo_per_workshop`: walk the aircraft and cells in pairs, count the jumbos per cell
   * and refuse as soon as a cell holds a second jumbo.
   */
  method MaxOneJumboPerWorkshop(fleet: seq<Aircraft>, cells: seq<Pos>) returns (ok: bool)
    ensures ok <==> JumbosApart(fleet, cells)
  {
    var n := Paired(fleet, cells);
    var counts: map<Pos, nat> := map[];
    var i := 0;
    while i < n
      invariant 0 <= i <= n
      invariant JumbosApartUpTo(fleet, cells, i)
      invariant forall p :: p in counts <==> exists j | 0 <= j < i :: IsJumbo(fleet[j]) && cells[j] == p
      invariant forall p | p in counts :: counts[p] == 1
    {
      if IsJumbo(fleet[i]) {
        var p := cells[i];
        if p !in counts {
          counts := counts[p := 0];
        }
        counts := counts[p := counts[p] + 1];
        if counts[p] > 1 {
          var j :| 0 <= j < i && IsJumbo(fleet[j]) && cells[j] == p;
          assert !JumbosApartUpTo(fleet, cells, n) by {
            assert cells[j] == cells[i];
          }
          return false;
        }
      }
      i := i + 1;
    }
    return true;
  }

  /**
   * `max_2_aircrafts_per_workshop`: count the aircraft per cell and refuse as soon as a cell
   * holds a third one.
   */
  method MaxTwoPerWorkshop(cells: seq<Pos>) returns (ok: bool)
    ensures ok <==> AtMostTwoEach(cells)
  {
    var counts: map<Pos, nat> := map[];
    var i := 0;
    while i < |cells|
      invariant 0 <= i <= |cells|
      invariant forall p :: p in counts <==> p in cells[..i]
      invariant forall p | p in counts :: counts[p] == multiset(cells[..i])[p] <= 2
    {
      var p := cells[i];
      assert cells[..i + 1] == cells[..i] + [p];
      if p !in counts {
        counts := counts[p := 0];
      }
      counts := counts[p := counts[p] + 1];
      if counts[p] > 2 {
        PrefixOccurrences(cells, i + 1, p);
        return false;
      }
      i := i + 1;
    }
    assert cells[..i] == cells;
    return true;
  }

  /**
   * The inner loop of `task_constraints` for one aircraft over its block of slots: count the
   * workshop and specialist slots, keep the outstanding task counts, and refuse a restricted
   * aircraft that enters a standard workshop while specialist tasks are outstanding; after the
   * loop, refuse too few specialist slots, then too few workshop slots.
   */
  method AircraftTasks(l: Layout, a: Aircraft, slots: seq<Pos>) returns (ok: bool)
    ensures ok <==> TasksDone(l, a, slots)
  {
    var remT1: nat, remT2: nat := a.t1, a.t2;
    var standardCount: nat, specialCount: nat := 0, 0;
    var s := 0;
    while s < |slots|
      invariant 0 <= s <= |slots|
      invariant specialCount == SpecialCount(l, slots[..s])
      invariant standardCount == WorkshopCount(l, slots[..s])
      invariant remT2 == if specialCount < a.t2 then a.t2 - specialCount else 0
      invariant forall i | 0 <= i < s :: !BreaksOrderAt(l, a, slots, i)
    {
      var p := slots[s];
      assert slots[..s + 1][..s] == slots[..s];
      if p in l.special {
        standardCount := standardCount + 1;
        specialCount := specialCount + 1;
        if remT2 > 0 {
          remT2 := remT2 - 1;
        } else if remT1 > 0 && a.restr == Restricted && remT2 == 0 {
          remT1 := remT1 - 1;
        }
      } else if p in l.standard {
        standardCount := standardCount + 1;
        if a.restr == Restricted && remT2 > 0 {
          assert BreaksOrderAt(l, a, slots, s);
          return false;
        }
        if remT1 > 0 {
          remT1 := remT1 - 1;
        }
      }
      s := s + 1;
    }
    assert slots[..s] == slots;
    if a.t2 > specialCount {
      return false;
    }
    if a.t1 + a.t2 > standardCount {
      return false;
    }
    return true;
  }

  /**
   * `task_constraints`: every aircraft in turn, each reading the block of the first aircraft
   * equal to it in the flat list of `slotCount` cells per aircraft.
   */
  method TaskConstraints(l: Layout, fleet: seq<Aircraft>, cells: seq<Pos>, slotCount: nat) returns (ok: bool)
    requires |fleet| * slotCount <= |cells|
    ensures ok <==> AllTasksDone(l, fleet, cells, slotCount)
  {
    var k := 0;
    while k < |fleet|
      invariant 0 <= k <= |fleet|
      invariant forall j | 0 <= j < k :: BlockDone(l, fleet, cells, slotCount, j)
    {
      var index := IndexOf(fleet, fleet[k]);
      BlockInside(|fleet|, index, slotCount);
      var done := AircraftTasks(l, fleet[k], SlotsOf(cells, index, slotCount));
      if !done {
        assert !BlockDone(l, fleet, cells, slotCount, k);
        return false;
      }
      k := k + 1;
    }
    return true;
  }

  /** The inner loop of `no_adjacent_jumbo`: whether a neighbour of `p` is a domain cell holding a jumbo. */
  method JumboNextTo(p: Pos, domain: seq<Pos>, jumbos: seq<Pos>) returns (found: bool)
    ensures found <==> exists q | q in Neighbours(p) :: q in domain && q in jumbos
  {
    var neighbours := Neighbours(p);
    var k := 0;
    while k < 4
      invariant 0 <= k <= 4
      invariant forall m | 0 <= m < k :: !(neighbours[m] in domain && neighbours[m] in jumbos)
    {
      if neighbours[k] in domain && neighbours[k] in jumbos {
        return true;
      }
      k := k + 1;
    }
    return false;
  }

  /**
   * `no_adjacent_jumbo`: list the jumbos' cells, then refuse as soon as a neighbour of one of
   * them is a domain cell holding a jumbo too.
   */
  method NoAdjacentJumbo(l: Layout, fleet: seq<Aircraft>, cells: seq<Pos>) returns (ok: bool)
    ensures ok <==> NoJumboNeighbours(l, fleet, cells)
  {
    JumboListView(l, fleet, cells);
    var jumbos := JumboCells(fleet, cells);
    var domain := Domain(l);
    var i := 0;
    while i < |jumbos|
      invariant 0 <= i <= |jumbos|
      invariant forall m, q | 0 <= m < i && q in Neighbours(jumbos[m]) :: !(q in domain && q in jumbos)
    {
      var found := JumboNextTo(jumbos[i], domain, jumbos);
      if found {
        return false;
      }
      i := i + 1;
    }
    return true;
  }

  /**
   * `no_adjacent_occupancy`: for each occupied cell that is a workshop or parking, refuse when
   * all of its neighbours that are domain cells are occupied.
   */
  method NoAdjacentOccupancy(l: Layout, cells: seq<Pos>) returns (ok: bool)
    ensures ok <==> NoneSurrounded(l, cells)
  {
    var occupied := set p | p in cells;
    var domain := Domain(l);
    var places := l.standard + l.special + l.parking;
    var todo := occupied;
    while todo != {}
      invariant todo <= occupied
      invariant forall p | p in occupied - todo && InDomain(l, p) :: HasFreeNeighbour(l, cells, p)
      decreases |todo|
    {
      var p :| p in todo;
      if p in places {
        var neighbours := Neighbours(p);
        var all := true;
        var k := 0;
        while k < 4
          invariant 0 <= k <= 4
          invariant all <==> forall m | 0 <= m < k :: neighbours[m] in domain ==> neighbours[m] in occupied
        {
          if neighbours[k] in domain && neighbours[k] !in occupied {
            all := false;
          }
          k := k + 1;
        }
        if all {
          forall m | 0 <= m < 4 ensures !(InDomain(l, neighbours[m]) && neighbours[m] !in cells) {
            DomainHas(l, neighbours[m]);
          }
          return false;
        }
        var m :| 0 <= m < 4 && neighbours[m] in domain && neighbours[m] !in occupied;
        DomainHas(l, neighbours[m]);
      }
      todo := todo - {p};
    }
    return true;
  }
}
