/**
 * The joint A* loop, in its two shapes: the list search that re-sorts its open list before every
 * pop and stops after a ceiling of expansions, and the heap search that pops the tuple-smallest
 * entry and has no ceiling. Both share the body after the pop: goal test, closed-set test,
 * expansion and push.
 */
module Search {
  import opened Wrappers
  import opened Airfield
  import opened Heuristics
  import opened Successors
  import opened Plans
  import opened Frontier

  /** The default bound on expansions of the list search. */
  const DefaultCeiling: nat := 100000

  /** A closed-set key: the joint configuration together with its time step. */
  datatype Key = Key(positions: seq<Pos>, time: nat)

  /**
   * What a search returns: the logs with makespan, initial estimate and expansion count; the
   * initial estimate and expansion count alone when nothing was found (the list search returns
   * this both when the ceiling is hit and when the open list runs dry); a failure of the maximum
   * estimate on an empty list of aircraft; or, for the heap search only, exhausted fuel.
   */
  datatype Outcome =
    | Found(logs: seq<seq<Token>>, makespan: nat, hInitial: nat, expanded: nat)
    | NoSolution(hInitial: nat, expanded: nat)
    | HeuristicFailure
    | OutOfFuel

  /** The map, the aircraft and the chosen estimate. */
  datatype Problem = Problem(grid: Grid, agents: seq<Agent>, kind: Kind)

  /** What the loop relies on once the initial estimate has been computed. */
  predicate Ready(pb: Problem) {
    && Rectangular(pb.grid)
    && InsideMap(pb.grid, Starts(pb.agents))
    && (pb.kind == Maximum ==> |pb.agents| > 0)
  }

  /** The push priority of a node: its time plus the estimate of its configuration. */
  function Cost(pb: Problem, s: State): (c: nat)
    requires Ready(pb) && |s.positions| == |pb.agents|
    ensures c >= s.time
    ensures c == s.time <==> s.positions == Goals(pb.agents)
  {
    var h := Estimate(pb.kind, s.positions, Goals(pb.agents));
    AllAtGoalIsEquality(s.positions, Goals(pb.agents));
    s.time + h.value
  }

  lemma AllAtGoalIsEquality(ps: seq<Pos>, gs: seq<Pos>)
    requires |ps| == |gs|
    ensures AllAtGoal(ps, gs) <==> ps == gs
  {
  }

  /** The open list with the counter, the closed set and the number of expansions. */
  datatype Open = Open(queue: seq<Entry>, counter: nat, visited: set<Key>, expanded: nat)

  /**
   * The loop invariant shared by both searches: every queued node is reached from the start by
   * a valid plan, no queued counter exceeds the current one, and every expansion closed a new key.
   */
  predicate Sound(pb: Problem, o: Open) {
    && Ready(pb)
    && QueueOk(pb, o.queue, o.counter)
    && o.expanded == |o.visited|
  }

  predicate QueueOk(pb: Problem, q: seq<Entry>, counter: nat)
    requires Ready(pb)
  {
    forall e | e in q :: Reached(pb.grid, pb.agents, e.state) && e.seqNo <= counter
  }

  /** Entries taken from a good queue form a good queue. */
  lemma QueueSub(pb: Problem, q: seq<Entry>, rest: seq<Entry>, counter: nat)
    requires Ready(pb) && QueueOk(pb, q, counter)
    requires forall x | x in rest :: x in q
    ensures QueueOk(pb, rest, counter)
  {
  }

  /** Appending reached entries numbered past the old counter gives a good queue for the new one. */
  lemma QueueAppend(pb: Problem, a: seq<Entry>, b: seq<Entry>, counter: nat, counter': nat)
    requires Ready(pb) && QueueOk(pb, a, counter) && counter <= counter'
    requires forall e | e in b :: Reached(pb.grid, pb.agents, e.state) && counter < e.seqNo <= counter'
    ensures QueueOk(pb, a + b, counter')
  {
    forall e | e in a + b ensures Reached(pb.grid, pb.agents, e.state) && e.seqNo <= counter' {
      if e in a {
        assert Reached(pb.grid, pb.agents, e.state) && e.seqNo <= counter;
      }
    }
  }

  /** Generating the successors of a reached node yields reached nodes one step later. */
  function Expansion(pb: Problem, s: State): (succs: seq<State>)
    requires Ready(pb) && Reached(pb.grid, pb.agents, s)
    ensures forall k | 0 <= k < |succs| ::
              |succs[k].positions| == |pb.agents| && Reached(pb.grid, pb.agents, succs[k]) && succs[k].time == s.time + 1
  {
    ReachedInsideMap(pb.grid, pb.agents, s);
    var succs := Generate(pb.grid, Goals(pb.agents), s);
    SuccessorsReached(pb, s, succs);
    succs
  }

  lemma SuccessorsReached(pb: Problem, s: State, succs: seq<State>)
    requires Ready(pb) && Reached(pb.grid, pb.agents, s) && InsideMap(pb.grid, s.positions)
    requires forall k | 0 <= k < |succs| :: IsSuccessor(pb.grid, Goals(pb.agents), s, succs[k])
    ensures forall k | 0 <= k < |succs| ::
              |succs[k].positions| == |pb.agents| && Reached(pb.grid, pb.agents, succs[k]) && succs[k].time == s.time + 1
  {
    forall k | 0 <= k < |succs| ensures Reached(pb.grid, pb.agents, succs[k]) {
      SuccessorReached(pb.grid, pb.agents, s, succs[k]);
    }
  }

  /** The entries pushed for the successors, numbered on from the counter in generation order. */
  function Pushed(pb: Problem, counter: nat, succs: seq<State>): (es: seq<Entry>)
    requires Ready(pb) && forall k | 0 <= k < |succs| :: |succs[k].positions| == |pb.agents|
    ensures |es| == |succs|
    ensures forall k | 0 <= k < |es| :: es[k] == Entry(Cost(pb, succs[k]), counter + 1 + k, succs[k])
  {
    seq(|succs|, k requires 0 <= k < |succs| => Entry(Cost(pb, succs[k]), counter + 1 + k, succs[k]))
  }

  /** Pushed entries carry reached nodes, counters strictly past the old one, in push order. */
  lemma PushedFacts(pb: Problem, counter: nat, succs: seq<State>)
    requires Ready(pb)
    requires forall k | 0 <= k < |succs| :: |succs[k].positions| == |pb.agents| && Reached(pb.grid, pb.agents, succs[k])
    ensures forall e | e in Pushed(pb, counter, succs) ::
              Reached(pb.grid, pb.agents, e.state) && counter < e.seqNo <= counter + |succs|
    ensures FifoTies(Pushed(pb, counter, succs))
  {
    var es := Pushed(pb, counter, succs);
    forall e | e in es ensures Reached(pb.grid, pb.agents, e.state) && counter < e.seqNo <= counter + |succs| {
      var k :| 0 <= k < |es| && es[k] == e;
    }
  }

  /** One loop iteration either continues with a new open list or returns. */
  datatype Next = Continue(open: Open) | Done(outcome: Outcome)

  /** Closing the key of `s`, counting the expansion and pushing the successors of `s`. */
  function ExpandNode(pb: Problem, o: Open, s: State, rest: seq<Entry>): Open
    requires Ready(pb) && Reached(pb.grid, pb.agents, s)
  {
    var succs := Expansion(pb, s);
    Open(rest + Pushed(pb, o.counter, succs), o.counter + |succs|, o.visited + {Key(s.positions, s.time)}, o.expanded + 1)
  }

  /** Expanding a node with an unclosed key keeps the invariant and counts one more key. */
  lemma ExpandSound(pb: Problem, o: Open, s: State, rest: seq<Entry>)
    requires Sound(pb, o) && Reached(pb.grid, pb.agents, s) && Key(s.positions, s.time) !in o.visited
    requires QueueOk(pb, rest, o.counter)
    ensures Sound(pb, ExpandNode(pb, o, s, rest))
  {
    var o' := ExpandNode(pb, o, s, rest);
    ExpandQueueOk(pb, o, s, rest);
    assert |o.visited + {Key(s.positions, s.time)}| == |o.visited| + 1;
  }

  lemma ExpandQueueOk(pb: Problem, o: Open, s: State, rest: seq<Entry>)
    requires Ready(pb) && Reached(pb.grid, pb.agents, s) && QueueOk(pb, rest, o.counter)
    ensures QueueOk(pb, ExpandNode(pb, o, s, rest).queue, ExpandNode(pb, o, s, rest).counter)
  {
    var succs := Expansion(pb, s);
    PushedFacts(pb, o.counter, succs);
    QueueAppend(pb, rest, Pushed(pb, o.counter, succs), o.counter, o.counter + |succs|);
  }

  /** Expanding after a list pop keeps ties in push order. */
  lemma ExpandFifo(pb: Problem, o: Open, s: State, rest: seq<Entry>)
    requires Ready(pb) && Reached(pb.grid, pb.agents, s)
    requires QueueOk(pb, rest, o.counter) && FifoTies(rest)
    ensures FifoTies(ExpandNode(pb, o, s, rest).queue)
  {
    var succs := Expansion(pb, s);
    PushedFacts(pb, o.counter, succs);
    FifoAppend(rest, Pushed(pb, o.counter, succs), o.counter);
  }

  /**
   * The loop body after the pop of `e`, with `rest` left queued: return on the goal, skip a
   * closed key, otherwise close it, count the expansion, stop if that exceeds the ceiling (list
   * search only) and push the successors.
   */
  function AfterPop(pb: Problem, h0: nat, ceiling: Option<nat>, o: Open, e: Entry, rest: seq<Entry>): Next
    requires Ready(pb) && Reached(pb.grid, pb.agents, e.state)
  {
    if e.state.positions == Goals(pb.agents) then Done(Found(e.state.logs, e.state.time, h0, o.expanded))
    else if Key(e.state.positions, e.state.time) in o.visited then Continue(Open(rest, o.counter, o.visited, o.expanded))
    else if ceiling.Some? && o.expanded + 1 > ceiling.value then Done(NoSolution(h0, o.expanded + 1))
    else Continue(ExpandNode(pb, o, e.state, rest))
  }

  /** A returned plan is a solution; otherwise the ceiling was exceeded by exactly one expansion. */
  lemma AfterPopDone(pb: Problem, h0: nat, ceiling: Option<nat>, o: Open, e: Entry, rest: seq<Entry>)
    requires Ready(pb) && Reached(pb.grid, pb.agents, e.state)
    requires AfterPop(pb, h0, ceiling, o, e, rest).Done?
    ensures var out := AfterPop(pb, h0, ceiling, o, e, rest).outcome;
            || (out.Found? && Solution(pb.grid, pb.agents, out.logs, out.makespan) && out.hInitial == h0 && out.expanded == o.expanded)
            || (out == NoSolution(h0, o.expanded + 1) && ceiling.Some? && o.expanded + 1 > ceiling.value)
  {
  }

  /** Continuing keeps the invariant; it either closes one more key or shrinks the open list. */
  lemma AfterPopContinue(pb: Problem, h0: nat, ceiling: Option<nat>, o: Open, e: Entry, rest: seq<Entry>)
    requires Sound(pb, o) && Reached(pb.grid, pb.agents, e.state)
    requires QueueOk(pb, rest, o.counter)
    requires AfterPop(pb, h0, ceiling, o, e, rest).Continue?
    ensures var o' := AfterPop(pb, h0, ceiling, o, e, rest).open;
            && Sound(pb, o')
            && ((o'.expanded == o.expanded + 1 && (ceiling.Some? ==> o'.expanded <= ceiling.value))
                || (o'.expanded == o.expanded && o'.queue == rest))
  {
    if Key(e.state.positions, e.state.time) !in o.visited {
      ExpandSound(pb, o, e.state, rest);
    }
  }

  /** Pushing after a list pop keeps ties in push order. */
  lemma AfterPopFifo(pb: Problem, h0: nat, ceiling: Option<nat>, o: Open, e: Entry, rest: seq<Entry>)
    requires Ready(pb) && Reached(pb.grid, pb.agents, e.state)
    requires QueueOk(pb, rest, o.counter) && FifoTies(rest)
    requires AfterPop(pb, h0, ceiling, o, e, rest).Continue?
    ensures FifoTies(AfterPop(pb, h0, ceiling, o, e, rest).open.queue)
  {
    if Key(e.state.positions, e.state.time) !in o.visited {
      ExpandFifo(pb, o, e.state, rest);
    }
  }

  /** The popped entry and the entries left behind inherit the invariant of the queue. */
  lemma PopSound(pb: Problem, o: Open, e: Entry, rest: seq<Entry>)
    requires Sound(pb, o) && multiset(rest) + multiset{e} == multiset(o.queue)
    ensures Reached(pb.grid, pb.agents, e.state)
    ensures QueueOk(pb, rest, o.counter)
    ensures |rest| < |o.queue|
  {
    assert e in multiset(o.queue);
    forall x | x in rest ensures x in o.queue {
      assert x in multiset(rest);
      assert x in multiset(o.queue);
    }
    QueueSub(pb, o.queue, rest, o.counter);
    assert |multiset(rest)| < |multiset(o.queue)|;
  }

  /** The body of the list search: stable sort by priority, pop the head. */
  function ListStep(pb: Problem, h0: nat, ceiling: nat, o: Open): (n: Next)
    requires Sound(pb, o)
  {
    if |o.queue| == 0 then Done(NoSolution(h0, o.expanded))
    else
      var sorted := SortByPriority(o.queue);
      ListPop(pb, o);
      AfterPop(pb, h0, Some(ceiling), o, sorted[0], sorted[1..])
  }

  /** The list pop takes the head of the sorted queue and leaves its tail. */
  lemma ListPop(pb: Problem, o: Open)
    requires Sound(pb, o) && |o.queue| > 0
    ensures |SortByPriority(o.queue)| == |o.queue|
    ensures Reached(pb.grid, pb.agents, SortByPriority(o.queue)[0].state)
    ensures QueueOk(pb, SortByPriority(o.queue)[1..], o.counter)
  {
    var sorted := SortByPriority(o.queue);
    assert |sorted| == |multiset(sorted)| == |o.queue|;
    TailMultiset(sorted);
    PopSound(pb, o, sorted[0], sorted[1..]);
  }

  /** A list-search return is a solution found within the ceiling, an exhausted list, or the ceiling. */
  lemma ListStepDone(pb: Problem, h0: nat, ceiling: nat, o: Open)
    requires Sound(pb, o) && o.expanded <= ceiling && ListStep(pb, h0, ceiling, o).Done?
    ensures var out := ListStep(pb, h0, ceiling, o).outcome;
            || (out.Found? && Solution(pb.grid, pb.agents, out.logs, out.makespan) && out.hInitial == h0 && out.expanded <= ceiling)
            || (out == NoSolution(h0, o.expanded) && |o.queue| == 0)
            || out == NoSolution(h0, ceiling + 1)
  {
    if |o.queue| > 0 {
      var sorted := SortByPriority(o.queue);
      ListPop(pb, o);
      var n := AfterPop(pb, h0, Some(ceiling), o, sorted[0], sorted[1..]);
      assert ListStep(pb, h0, ceiling, o) == n;
      AfterPopDone(pb, h0, Some(ceiling), o, sorted[0], sorted[1..]);
      if !n.outcome.Found? {
        assert n.outcome == NoSolution(h0, ceiling + 1);
      }
    }
  }

  /** A list-search iteration keeps the invariant and closes a key or shrinks the open list. */
  lemma ListStepContinue(pb: Problem, h0: nat, ceiling: nat, o: Open)
    requires Sound(pb, o) && o.expanded <= ceiling && ListStep(pb, h0, ceiling, o).Continue?
    ensures var o' := ListStep(pb, h0, ceiling, o).open;
            && Sound(pb, o') && o'.expanded <= ceiling
            && (o'.expanded > o.expanded || (o'.expanded == o.expanded && |o'.queue| < |o.queue|))
  {
    var sorted := SortByPriority(o.queue);
    ListPop(pb, o);
    AfterPopContinue(pb, h0, Some(ceiling), o, sorted[0], sorted[1..]);
  }

  /** A list-search iteration keeps ties in push order. */
  lemma ListStepFifo(pb: Problem, h0: nat, ceiling: nat, o: Open)
    requires Sound(pb, o) && FifoTies(o.queue) && ListStep(pb, h0, ceiling, o).Continue?
    ensures FifoTies(ListStep(pb, h0, ceiling, o).open.queue)
  {
    var sorted := SortByPriority(o.queue);
    ListPop(pb, o);
    SortKeepsFifo(o.queue);
    AfterPopFifo(pb, h0, Some(ceiling), o, sorted[0], sorted[1..]);
  }

  /** The body of the heap search: pop the tuple-smallest entry; there is no ceiling. */
  function HeapStep(pb: Problem, h0: nat, o: Open): (n: Next)
    requires Sound(pb, o)
    ensures n.Done? ==>
              || (n.outcome.Found? && Solution(pb.grid, pb.agents, n.outcome.logs, n.outcome.makespan)
                  && n.outcome.hInitial == h0 && n.outcome.expanded == o.expanded)
              || (n.outcome == NoSolution(h0, o.expanded) && |o.queue| == 0)
    ensures n.Continue? ==> Sound(pb, n.open) && n.open.expanded >= o.expanded
  {
    if |o.queue| == 0 then Done(NoSolution(h0, o.expanded))
    else
      var m := MinIndex(o.queue);
      var rest := RemoveAt(o.queue, m);
      PopSound(pb, o, o.queue[m], rest);
      var n := AfterPop(pb, h0, None, o, o.queue[m], rest);
      if n.Done? then
        AfterPopDone(pb, h0, None, o, o.queue[m], rest);
        n
      else
        AfterPopContinue(pb, h0, None, o, o.queue[m], rest);
        n
  }

  /** `a_star` of the list search, from a given open list on. */
  function ListRun(pb: Problem, h0: nat, ceiling: nat, o: Open): (out: Outcome)
    requires Sound(pb, o) && o.expanded <= ceiling
    ensures out.Found? ==> Solution(pb.grid, pb.agents, out.logs, out.makespan) && out.hInitial == h0 && out.expanded <= ceiling
    ensures out.NoSolution? ==> out.hInitial == h0 && out.expanded <= ceiling + 1
    ensures out.Found? || out.NoSolution?
    decreases ceiling - o.expanded, |o.queue|
  {
    var n := ListStep(pb, h0, ceiling, o);
    if n.Done? then
      ListStepDone(pb, h0, ceiling, o);
      n.outcome
    else
      ListStepContinue(pb, h0, ceiling, o);
      ListRun(pb, h0, ceiling, n.open)
  }

  /** `a_estrella` of the heap search, from a given open list on, for at most `fuel` iterations. */
  function HeapRun(pb: Problem, h0: nat, o: Open, fuel: nat): (out: Outcome)
    requires Sound(pb, o)
    ensures out.Found? ==> Solution(pb.grid, pb.agents, out.logs, out.makespan) && out.hInitial == h0 && out.expanded >= o.expanded
    ensures out.NoSolution? ==> out.hInitial == h0
    ensures !out.HeuristicFailure?
    decreases fuel
  {
    if fuel == 0 then OutOfFuel
    else
      var n := HeapStep(pb, h0, o);
      if n.Done? then n.outcome else HeapRun(pb, h0, n.open, fuel - 1)
  }

  /** The open list before the first pop: the start node alone, pushed with counter 0. */
  function Start(pb: Problem, h0: nat): Open {
    Open([Entry(h0, 0, Initial(pb.agents))], 0, {}, 0)
  }

  lemma StartSound(pb: Problem, h0: nat)
    requires Ready(pb)
    ensures Sound(pb, Start(pb, h0)) && FifoTies(Start(pb, h0).queue)
  {
    InitialReached(pb.grid, pb.agents);
  }

  /** The estimate succeeds exactly when the maximum is not taken over an empty list. */
  lemma EstimateDefined(agents: seq<Agent>, kind: Kind)
    ensures Estimate(kind, Starts(agents), Goals(agents)).None? <==> kind == Maximum && |agents| == 0
  {
  }

  /**
   * `AStarAlgorithm.a_star` of the list search: a returned plan is a solution reached within
   * the ceiling, the reported initial estimate is the estimate of the start, the expansion count
   * never passes the ceiling by more than one, and only the maximum estimate over no aircraft fails.
   */
  function AStar(g: Grid, agents: seq<Agent>, kind: Kind, ceiling: nat): (out: Outcome)
    requires Rectangular(g) && InsideMap(g, Starts(agents))
    ensures out.HeuristicFailure? <==> kind == Maximum && |agents| == 0
    ensures out.Found? ==> Solution(g, agents, out.logs, out.makespan) && out.expanded <= ceiling
    ensures out.Found? ==> Estimate(kind, Starts(agents), Goals(agents)) == Some(out.hInitial)
    ensures out.NoSolution? ==> Estimate(kind, Starts(agents), Goals(agents)) == Some(out.hInitial)
    ensures out.NoSolution? ==> out.expanded <= ceiling + 1
    ensures !out.OutOfFuel?
  {
    EstimateDefined(agents, kind);
    match Estimate(kind, Starts(agents), Goals(agents))
    case None => HeuristicFailure
    case Some(h0) =>
      StartSound(Problem(g, agents, kind), h0);
      ListRun(Problem(g, agents, kind), h0, ceiling, Start(Problem(g, agents, kind), h0))
  }

  /**
   * `a_estrella` of the heap search, cut off after `fuel` iterations: a returned plan is a
   * solution, the reported initial estimate is the estimate of the start, and only the maximum
   * estimate over no aircraft fails.
   */
  function HeapAStar(g: Grid, agents: seq<Agent>, kind: Kind, fuel: nat): (out: Outcome)
    requires Rectangular(g) && InsideMap(g, Starts(agents))
    ensures out.HeuristicFailure? <==> kind == Maximum && |agents| == 0
    ensures out.Found? ==> Solution(g, agents, out.logs, out.makespan)
    ensures out.Found? ==> Estimate(kind, Starts(agents), Goals(agents)) == Some(out.hInitial)
    ensures out.NoSolution? ==> Estimate(kind, Starts(agents), Goals(agents)) == Some(out.hInitial)
  {
    EstimateDefined(agents, kind);
    match Estimate(kind, Starts(agents), Goals(agents))
    case None => HeuristicFailure
    case Some(h0) =>
      StartSound(Problem(g, agents, kind), h0);
      HeapRun(Problem(g, agents, kind), h0, Start(Problem(g, agents, kind), h0), fuel)
  }

  /** When every aircraft starts on its goal, both searches return the start logs at once. */
  lemma StartOnGoal(g: Grid, agents: seq<Agent>, kind: Kind, ceiling: nat, fuel: nat)
    requires Rectangular(g) && InsideMap(g, Starts(agents)) && Starts(agents) == Goals(agents)
    requires kind == Summed || |agents| > 0
    requires fuel > 0
    ensures AStar(g, agents, kind, ceiling) == Found(Initial(agents).logs, 0, 0, 0)
    ensures HeapAStar(g, agents, kind, fuel) == Found(Initial(agents).logs, 0, 0, 0)
  {
    var pb := Problem(g, agents, kind);
    var h := Estimate(kind, Starts(agents), Goals(agents));
    assert AllAtGoal(Starts(agents), Goals(agents));
    assert h == Some(0);
    StartSound(pb, 0);
    var o := Start(pb, 0);
    assert SortByPriority(o.queue) == o.queue;
    assert MinIndex(o.queue) == 0;
  }
}
