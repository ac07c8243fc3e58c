/**
 * The list search and the heap search explore the same nodes in the same order. Their open lists
 * hold the same entries at every iteration, so each pop takes the same entry, and the only
 * difference is the ceiling: until the list search gives up there, the heap search, given enough
 * iterations, returns exactly what the list search returns.
 */
module Agreement {
  import opened Wrappers
  import opened Airfield
  import opened Heuristics
  import opened Successors
  import opened Plans
  import opened Frontier
  import opened Search

  /** Same counter, closed set and expansion count, and the same queued entries in any order. */
  predicate Mirrors(a: Open, b: Open) {
    && a.counter == b.counter
    && a.visited == b.visited
    && a.expanded == b.expanded
    && multiset(a.queue) == multiset(b.queue)
  }

  /** The shared loop body returns the same plan from both searches when the popped node is the goal. */
  lemma GoalPopsAgree(pb: Problem, h0: nat, ceiling: nat, a: Open, b: Open, e: Entry, ra: seq<Entry>, rb: seq<Entry>)
    requires Ready(pb) && Reached(pb.grid, pb.agents, e.state)
    requires a.expanded == b.expanded && e.state.positions == Goals(pb.agents)
    ensures AfterPop(pb, h0, Some(ceiling), a, e, ra) == AfterPop(pb, h0, None, b, e, rb)
  {
  }

  /** Both searches skip a node whose key is closed in both. */
  lemma ClosedPopsAgree(pb: Problem, h0: nat, ceiling: nat, a: Open, b: Open, e: Entry, ra: seq<Entry>, rb: seq<Entry>)
    requires Ready(pb) && Reached(pb.grid, pb.agents, e.state)
    requires a.counter == b.counter && a.visited == b.visited && a.expanded == b.expanded
    requires multiset(ra) == multiset(rb)
    requires e.state.positions != Goals(pb.agents) && Key(e.state.positions, e.state.time) in a.visited
    ensures AfterPop(pb, h0, Some(ceiling), a, e, ra) == Continue(Open(ra, a.counter, a.visited, a.expanded))
    ensures AfterPop(pb, h0, None, b, e, rb) == Continue(Open(rb, b.counter, b.visited, b.expanded))
  {
  }

  /** The list search stops when one more expansion would pass the ceiling. */
  lemma CeilingPop(pb: Problem, h0: nat, ceiling: nat, a: Open, e: Entry, ra: seq<Entry>)
    requires Ready(pb) && Reached(pb.grid, pb.agents, e.state)
    requires e.state.positions != Goals(pb.agents) && Key(e.state.positions, e.state.time) !in a.visited
    requires a.expanded == ceiling
    ensures AfterPop(pb, h0, Some(ceiling), a, e, ra) == Done(NoSolution(h0, ceiling + 1))
  {
  }

  /** Below the ceiling both searches expand the popped node. */
  lemma ExpandPopsAgree(pb: Problem, h0: nat, ceiling: nat, a: Open, b: Open, e: Entry, ra: seq<Entry>, rb: seq<Entry>)
    requires Ready(pb) && Reached(pb.grid, pb.agents, e.state)
    requires a.counter == b.counter && a.visited == b.visited && a.expanded == b.expanded && a.expanded < ceiling
    requires multiset(ra) == multiset(rb)
    requires e.state.positions != Goals(pb.agents) && Key(e.state.positions, e.state.time) !in a.visited
    ensures AfterPop(pb, h0, Some(ceiling), a, e, ra) == Continue(ExpandNode(pb, a, e.state, ra))
    ensures AfterPop(pb, h0, None, b, e, rb) == Continue(ExpandNode(pb, b, e.state, rb))
    ensures Mirrors(ExpandNode(pb, a, e.state, ra), ExpandNode(pb, b, e.state, rb))
  {
    ExpandsAgree(pb, a, b, e.state, ra, rb);
  }

  /** Expanding the same node from mirrored open lists gives mirrored open lists. */
  lemma ExpandsAgree(pb: Problem, a: Open, b: Open, s: State, ra: seq<Entry>, rb: seq<Entry>)
    requires Ready(pb) && Reached(pb.grid, pb.agents, s)
    requires a.counter == b.counter && a.visited == b.visited && a.expanded == b.expanded
    requires multiset(ra) == multiset(rb)
    ensures Mirrors(ExpandNode(pb, a, s, ra), ExpandNode(pb, b, s, rb))
  {
    var pushed := Pushed(pb, a.counter, Expansion(pb, s));
    assert multiset(ra + pushed) == multiset(ra) + multiset(pushed);
    assert multiset(rb + pushed) == multiset(rb) + multiset(pushed);
  }

  /** One iteration of each search from mirrored open lists ends alike, short of the ceiling. */
  lemma StepsAgree(pb: Problem, h0: nat, ceiling: nat, a: Open, b: Open)
    requires Sound(pb, a) && Sound(pb, b) && FifoTies(a.queue) && Mirrors(a, b) && a.expanded <= ceiling
    ensures ListStep(pb, h0, ceiling, a).Continue? ==>
              HeapStep(pb, h0, b).Continue? && Mirrors(ListStep(pb, h0, ceiling, a).open, HeapStep(pb, h0, b).open)
    ensures ListStep(pb, h0, ceiling, a).Done? && ListStep(pb, h0, ceiling, a).outcome != NoSolution(h0, ceiling + 1) ==>
              HeapStep(pb, h0, b) == ListStep(pb, h0, ceiling, a)
  {
    assert |a.queue| == |multiset(a.queue)| == |multiset(b.queue)| == |b.queue|;
    if |a.queue| > 0 {
      var sorted := SortByPriority(a.queue);
      ListPop(pb, a);
      PopsAgree(a.queue, b.queue);
      var m := MinIndex(b.queue);
      var e := sorted[0];
      if e.state.positions == Goals(pb.agents) {
        GoalPopsAgree(pb, h0, ceiling, a, b, e, sorted[1..], RemoveAt(b.queue, m));
      } else if Key(e.state.positions, e.state.time) in a.visited {
        ClosedPopsAgree(pb, h0, ceiling, a, b, e, sorted[1..], RemoveAt(b.queue, m));
      } else if a.expanded == ceiling {
        CeilingPop(pb, h0, ceiling, a, e, sorted[1..]);
      } else {
        ExpandPopsAgree(pb, h0, ceiling, a, b, e, sorted[1..], RemoveAt(b.queue, m));
      }
    }
  }

  /** Both loops hold their invariants, the list one keeps ties in push order, and the open lists mirror. */
  predicate Paired(pb: Problem, ceiling: nat, a: Open, b: Open) {
    Sound(pb, a) && Sound(pb, b) && FifoTies(a.queue) && Mirrors(a, b) && a.expanded <= ceiling
  }

  /** An iteration that continues keeps the open lists paired and makes progress on the list side. */
  lemma PairedStep(pb: Problem, h0: nat, ceiling: nat, a: Open, b: Open)
    requires Paired(pb, ceiling, a, b) && ListStep(pb, h0, ceiling, a).Continue?
    ensures HeapStep(pb, h0, b).Continue?
    ensures Paired(pb, ceiling, ListStep(pb, h0, ceiling, a).open, HeapStep(pb, h0, b).open)
    ensures var a' := ListStep(pb, h0, ceiling, a).open;
            a'.expanded > a.expanded || (a'.expanded == a.expanded && |a'.queue| < |a.queue|)
    ensures ListRun(pb, h0, ceiling, a) == ListRun(pb, h0, ceiling, ListStep(pb, h0, ceiling, a).open)
  {
    ListRunUnfold(pb, h0, ceiling, a);
    StepsAgree(pb, h0, ceiling, a, b);
    ListStepContinue(pb, h0, ceiling, a);
    ListStepFifo(pb, h0, ceiling, a);
  }

  /** One more list iteration from `a` is the list search from its successor open list. */
  lemma ListRunUnfold(pb: Problem, h0: nat, ceiling: nat, a: Open)
    requires Sound(pb, a) && a.expanded <= ceiling && ListStep(pb, h0, ceiling, a).Continue?
    ensures Sound(pb, ListStep(pb, h0, ceiling, a).open) && ListStep(pb, h0, ceiling, a).open.expanded <= ceiling
    ensures ListRun(pb, h0, ceiling, a) == ListRun(pb, h0, ceiling, ListStep(pb, h0, ceiling, a).open)
  {
    ListStepContinue(pb, h0, ceiling, a);
  }

  /** One more heap iteration from `b` is one iteration less from its successor open list. */
  lemma HeapRunUnfold(pb: Problem, h0: nat, b: Open, f: nat)
    requires Sound(pb, b) && HeapStep(pb, h0, b).Continue?
    ensures HeapRun(pb, h0, b, f + 1) == HeapRun(pb, h0, HeapStep(pb, h0, b).open, f)
  {
  }

  /** An iteration that returns, short of the ceiling, returns the same from both searches. */
  lemma PairedDone(pb: Problem, h0: nat, ceiling: nat, a: Open, b: Open)
    requires Paired(pb, ceiling, a, b) && ListStep(pb, h0, ceiling, a).Done?
    ensures ListRun(pb, h0, ceiling, a) != NoSolution(h0, ceiling + 1) ==> HeapRun(pb, h0, b, 1) == ListRun(pb, h0, ceiling, a)
  {
    StepsAgree(pb, h0, ceiling, a, b);
  }

  /** With `fuel` iterations the heap search returns what the list search returns, short of the ceiling. */
  predicate Agrees(pb: Problem, h0: nat, ceiling: nat, a: Open, b: Open, fuel: nat)
    requires Sound(pb, a) && Sound(pb, b) && a.expanded <= ceiling
  {
    ListRun(pb, h0, ceiling, a) != NoSolution(h0, ceiling + 1) ==> HeapRun(pb, h0, b, fuel) == ListRun(pb, h0, ceiling, a)
  }

  /**
   * One iteration of both searches, seen from the runs: either both return alike, or both go on
   * to open lists `a'` and `b'` that are paired again and closer to the end of the list search.
   */
  lemma Advance(pb: Problem, h0: nat, ceiling: nat, a: Open, b: Open) returns (done: bool, a': Open, b': Open)
    requires Paired(pb, ceiling, a, b)
    ensures done ==> Agrees(pb, h0, ceiling, a, b, 1)
    ensures !done ==> Paired(pb, ceiling, a', b')
    ensures !done ==> a'.expanded > a.expanded || (a'.expanded == a.expanded && |a'.queue| < |a.queue|)
    ensures !done ==> ListStep(pb, h0, ceiling, a) == Continue(a') && HeapStep(pb, h0, b) == Continue(b')
  {
    var n := ListStep(pb, h0, ceiling, a);
    done := n.Done?;
    if done {
      PairedDone(pb, h0, ceiling, a, b);
      a', b' := a, b;
    } else {
      PairedStep(pb, h0, ceiling, a, b);
      a', b' := n.open, HeapStep(pb, h0, b).open;
    }
  }

  /** Agreement after one continuing iteration carries back to the open lists before it. */
  lemma StepBack(pb: Problem, h0: nat, ceiling: nat, a: Open, b: Open, a': Open, b': Open, f: nat) returns (g: nat)
    requires Paired(pb, ceiling, a, b) && Paired(pb, ceiling, a', b')
    requires ListStep(pb, h0, ceiling, a) == Continue(a') && HeapStep(pb, h0, b) == Continue(b')
    requires Agrees(pb, h0, ceiling, a', b', f)
    ensures Agrees(pb, h0, ceiling, a, b, g)
  {
    g := f + 1;
    ListRunUnfold(pb, h0, ceiling, a);
    HeapRunUnfold(pb, h0, b, f);
  }

  /**
   * From mirrored open lists, the heap search given enough iterations returns what the list
   * search returns, unless the list search stopped at its ceiling.
   */
  lemma {:induction false} RunsAgree(pb: Problem, h0: nat, ceiling: nat, a: Open, b: Open) returns (fuel: nat)
    requires Paired(pb, ceiling, a, b)
    ensures Agrees(pb, h0, ceiling, a, b, fuel)
    decreases ceiling - a.expanded, |a.queue|
  {
    var done, a', b' := Advance(pb, h0, ceiling, a, b);
    if done {
      fuel := 1;
    } else {
      var f := RunsAgree(pb, h0, ceiling, a', b');
      fuel := StepBack(pb, h0, ceiling, a, b, a', b', f);
    }
  }

  /**
   * The two searches agree: whenever the list search does not stop at its ceiling, there is a
   * number of iterations after which the heap search has returned the same outcome.
   */
  lemma SearchesAgree(g: Grid, agents: seq<Agent>, kind: Kind, ceiling: nat) returns (fuel: nat)
    requires Rectangular(g) && InsideMap(g, Starts(agents))
    ensures var out := AStar(g, agents, kind, ceiling);
            (out.NoSolution? ==> out.expanded <= ceiling) ==> HeapAStar(g, agents, kind, fuel) == out
  {
    EstimateDefined(agents, kind);
    var h := Estimate(kind, Starts(agents), Goals(agents));
    if h.Some? {
      var pb := Problem(g, agents, kind);
      StartSound(pb, h.value);
      fuel := RunsAgree(pb, h.value, ceiling, Start(pb, h.value), Start(pb, h.value));
    } else {
      fuel := 0;
    }
  }
}
