/**
 * The checks `AStarRunner` makes on its input before searching: the aircraft list must not put
 * two aircraft on one start cell nor any start or goal on an obstacle, and the heuristic number
 * must be 1 or 2. A run that passes both checks hands the problem to the list search.
 */
module Loading {
  import opened Wrappers
  import opened Airfield
  import opened Heuristics
  import opened Collisions
  import opened Successors
  import opened Plans
  import opened Search

  /** Why an input is refused. */
  datatype LoadError =
    | DuplicateStart(at: Pos)
    | OutsideMap(at: Pos)
    | ObstacleEndpoint(start: Pos, goal: Pos)
    | UnknownHeuristic(number: int)

  /** What the aircraft loop demands of each aircraft: both endpoints inside the map and not obstacles. */
  predicate EndpointsOk(g: Grid, a: Agent)
    requires Rectangular(g)
  {
    Enterable(g, a.start) && Enterable(g, a.goal)
  }

  /**
   * The aircraft loop from index `i`, with `seen` the start cells of the aircraft before it: a
   * repeated start is reported first, then a start and a goal outside the map or on an obstacle,
   * in that order.
   */
  function CheckFrom(g: Grid, agents: seq<Agent>, i: nat, seen: set<Pos>): (r: Result<seq<Agent>, LoadError>)
    requires Rectangular(g) && i <= |agents|
    decreases |agents| - i
  {
    if i == |agents| then Ok(agents)
    else
      var a := agents[i];
      if a.start in seen then Err(DuplicateStart(a.start))
      else if !InBounds(g, a.start) then Err(OutsideMap(a.start))
      else if Cell(g, a.start) == Obstacle then Err(ObstacleEndpoint(a.start, a.goal))
      else if !InBounds(g, a.goal) then Err(OutsideMap(a.goal))
      else if Cell(g, a.goal) == Obstacle then Err(ObstacleEndpoint(a.start, a.goal))
      else CheckFrom(g, agents, i + 1, seen + {a.start})
  }

  /** The start cells of the aircraft before index `i`. */
  function StartsBefore(agents: seq<Agent>, i: nat): set<Pos>
    requires i <= |agents|
  {
    if i == 0 then {} else StartsBefore(agents, i - 1) + {agents[i - 1].start}
  }

  /** A cell is among the starts before `i` exactly when an aircraft before `i` starts there. */
  lemma {:induction false} StartsBeforeHas(agents: seq<Agent>, i: nat)
    requires i <= |agents|
    ensures forall p :: p in StartsBefore(agents, i) <==> exists k | 0 <= k < i :: agents[k].start == p
  {
    if i > 0 {
      StartsBeforeHas(agents, i - 1);
    }
  }

  /** Every aircraft from index `i` on starts apart from all aircraft before it. */
  predicate StartsApartFrom(agents: seq<Agent>, i: nat) {
    forall k, j | 0 <= k < j < |agents| && i <= j :: agents[k].start != agents[j].start
  }

  /** Peeling aircraft `i` off: its start must be new, and so must the later ones. */
  lemma StartsApartStep(agents: seq<Agent>, i: nat)
    requires i < |agents|
    ensures StartsApartFrom(agents, i) <==>
              agents[i].start !in StartsBefore(agents, i) && StartsApartFrom(agents, i + 1)
  {
    StartsBeforeHas(agents, i);
    if agents[i].start in StartsBefore(agents, i) {
      var k :| 0 <= k < i && agents[k].start == agents[i].start;
      assert !(agents[k].start != agents[i].start);
    }
  }

  /** The loop from `i` accepts exactly when the aircraft from `i` on are well placed and start apart from each other and from those before. */
  lemma {:induction false} CheckFromAccepts(g: Grid, agents: seq<Agent>, i: nat)
    requires Rectangular(g) && i <= |agents|
    ensures CheckFrom(g, agents, i, StartsBefore(agents, i)).Ok? <==>
              (forall k | i <= k < |agents| :: EndpointsOk(g, agents[k])) && StartsApartFrom(agents, i)
    decreases |agents| - i
  {
    if i < |agents| {
      CheckFromAccepts(g, agents, i + 1);
      StartsApartStep(agents, i);
      CheckFromStep(g, agents, i, StartsBefore(agents, i));
      assert StartsBefore(agents, i + 1) == StartsBefore(agents, i) + {agents[i].start};
      if !EndpointsOk(g, agents[i]) {
        assert !(forall k | i <= k < |agents| :: EndpointsOk(g, agents[k]));
      }
    }
  }

  /** An accepting loop hands back the aircraft list unchanged. */
  lemma {:induction false} CheckFromKeeps(g: Grid, agents: seq<Agent>, i: nat, seen: set<Pos>)
    requires Rectangular(g) && i <= |agents|
    ensures CheckFrom(g, agents, i, seen).Ok? ==> CheckFrom(g, agents, i, seen).value == agents
    decreases |agents| - i
  {
    if i < |agents| {
      CheckFromKeeps(g, agents, i + 1, seen + {agents[i].start});
    }
  }

  /** One turn of the loop: aircraft `i` passes exactly when its start is new and its endpoints are fine. */
  lemma CheckFromStep(g: Grid, agents: seq<Agent>, i: nat, seen: set<Pos>)
    requires Rectangular(g) && i < |agents|
    ensures CheckFrom(g, agents, i, seen) ==
              if agents[i].start !in seen && EndpointsOk(g, agents[i]) then CheckFrom(g, agents, i + 1, seen + {agents[i].start})
              else CheckFrom(g, agents, i, seen)
    ensures CheckFrom(g, agents, i, seen).Ok? <==>
              agents[i].start !in seen && EndpointsOk(g, agents[i]) && CheckFrom(g, agents, i + 1, seen + {agents[i].start}).Ok?
  {
  }

  /** The start and goal checks of `read_input` over the whole aircraft list. */
  function CheckAgents(g: Grid, agents: seq<Agent>): (r: Result<seq<Agent>, LoadError>)
    requires Rectangular(g)
  {
    CheckFrom(g, agents, 0, {})
  }

  /** The aircraft list is accepted exactly when the starts are pairwise different and no endpoint is off the map or on an obstacle. */
  lemma CheckAgentsAccepts(g: Grid, agents: seq<Agent>)
    requires Rectangular(g)
    ensures CheckAgents(g, agents).Ok? <==>
              Distinct(Starts(agents)) && forall k | 0 <= k < |agents| :: EndpointsOk(g, agents[k])
    ensures CheckAgents(g, agents).Ok? ==> CheckAgents(g, agents).value == agents
  {
    CheckFromAccepts(g, agents, 0);
    CheckFromKeeps(g, agents, 0, {});
    assert StartsBefore(agents, 0) == {};
    var ps := Starts(agents);
    if Distinct(ps) {
      forall k, j | 0 <= k < j < |agents| ensures agents[k].start != agents[j].start {
        assert ps[k] != ps[j];
      }
    }
  }

  /** An accepted aircraft list meets what the search asks of its input. */
  lemma AcceptedStartsInsideMap(g: Grid, agents: seq<Agent>)
    requires Rectangular(g) && CheckAgents(g, agents).Ok?
    ensures InsideMap(g, Starts(agents)) && Distinct(Starts(agents))
  {
    CheckAgentsAccepts(g, agents);
    forall k | 0 <= k < |agents| ensures InBounds(g, Starts(agents)[k]) {
      assert EndpointsOk(g, agents[k]);
    }
  }

  /** A refused aircraft list is refused for a reason some aircraft gives. */
  lemma {:induction false} CheckFromRefuses(g: Grid, agents: seq<Agent>, i: nat, seen: set<Pos>)
    requires Rectangular(g) && i <= |agents|
    requires CheckFrom(g, agents, i, seen).Err?
    ensures var e := CheckFrom(g, agents, i, seen).error;
            match e
            case DuplicateStart(p) => p in seen + StartsBefore(agents, |agents|)
            case OutsideMap(p) => !InBounds(g, p) && exists k | i <= k < |agents| :: p == agents[k].start || p == agents[k].goal
            case ObstacleEndpoint(s, t) => exists k | i <= k < |agents| :: agents[k] == Agent(s, t) && !EndpointsOk(g, agents[k])
            case UnknownHeuristic(_) => false
    decreases |agents| - i
  {
    var a := agents[i];
    if a.start in seen {
    } else if !InBounds(g, a.start) || Cell(g, a.start) == Obstacle || !InBounds(g, a.goal) || Cell(g, a.goal) == Obstacle {
      assert agents[i] == Agent(a.start, a.goal);
    } else {
      CheckFromRefuses(g, agents, i + 1, seen + {a.start});
      StartsBeforeHas(agents, |agents|);
      assert a.start in StartsBefore(agents, |agents|);
    }
  }

  /** `select_heuristic`: 1 picks the summed estimate, 2 the maximum, anything else is refused. */
  function SelectHeuristic(n: int): (r: Result<Kind, LoadError>)
    ensures r == Ok(Summed) <==> n == 1
    ensures r == Ok(Maximum) <==> n == 2
    ensures r.Err? <==> n != 1 && n != 2
  {
    if n == 1 then Ok(Summed)
    else if n == 2 then Ok(Maximum)
    else Err(UnknownHeuristic(n))
  }

  /**
   * `AStarRunner` up to the search: the aircraft checks of `read_input` first, then the
   * heuristic choice, then `a_star` with its default ceiling.
   */
  function Run(g: Grid, agents: seq<Agent>, n: int): (r: Result<Outcome, LoadError>)
    requires Rectangular(g)
    ensures r.Ok? <==> CheckAgents(g, agents).Ok? && (n == 1 || n == 2)
    ensures r.Ok? && r.value.Found? ==>
              var T := r.value.makespan;
              && Solution(g, agents, r.value.logs, T)
              && (forall t | 0 <= t <= T :: Distinct(Column(r.value.logs, t)))
              && (forall t | 1 <= t <= T :: !HasSwap(Column(r.value.logs, t - 1), Column(r.value.logs, t)))
    ensures r.Ok? ==> !r.value.OutOfFuel? && (r.value.HeuristicFailure? <==> n == 2 && |agents| == 0)
  {
    match CheckAgents(g, agents)
    case Err(e) => Err(e)
    case Ok(_) =>
      match SelectHeuristic(n)
      case Err(e) => Err(e)
      case Ok(kind) =>
        AcceptedStartsInsideMap(g, agents);
        var out := AStar(g, agents, kind, DefaultCeiling);
        if out.Found? then
          PlanCollisionFree(g, agents, out.logs, out.makespan);
          Ok(out)
        else Ok(out)
  }
}
