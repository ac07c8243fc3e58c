/**
 * Joint plans as recorded in the move logs: what it means for a set of logs to describe a legal,
 * collision-free schedule from the start cells, and the fact that generating a successor keeps
 * that description valid.
 */
module Plans {
  import opened Airfield
  import opened Movement
  import opened Collisions
  import opened Successors

  /** One aircraft of the input: its start and goal cells. */
  datatype Agent = Agent(start: Pos, goal: Pos)

  function Starts(agents: seq<Agent>): (ps: seq<Pos>)
    ensures |ps| == |agents| && forall i | 0 <= i < |agents| :: ps[i] == agents[i].start
  {
    seq(|agents|, i requires 0 <= i < |agents| => agents[i].start)
  }

  function Goals(agents: seq<Agent>): (ps: seq<Pos>)
    ensures |ps| == |agents| && forall i | 0 <= i < |agents| :: ps[i] == agents[i].goal
  {
    seq(|agents|, i requires 0 <= i < |agents| => agents[i].goal)
  }

  /** Every log has an entry for time step `t`. */
  predicate HasColumn(logs: seq<seq<Token>>, t: nat) {
    forall i | 0 <= i < |logs| :: t < |logs[i]|
  }

  /** The joint configuration the logs record at time step `t`. */
  function Column(logs: seq<seq<Token>>, t: nat): (ps: seq<Pos>)
    requires HasColumn(logs, t)
    ensures |ps| == |logs| && forall i | 0 <= i < |logs| :: ps[i] == logs[i][t].at
  {
    seq(|logs|, i requires 0 <= i < |logs| => logs[i][t].at)
  }

  /**
   * The step from time `t - 1` to `t` is one the generator can produce: every aircraft moves to
   * one of its candidates (goal lock included), the step is collision-free, and the token names
   * the direction taken.
   */
  predicate StepOk(g: Grid, goals: seq<Pos>, logs: seq<seq<Token>>, t: nat)
    requires Rectangular(g) && 1 <= t && HasColumn(logs, t) && |goals| == |logs|
  {
    var prev := Column(logs, t - 1);
    var next := Column(logs, t);
    && InsideMap(g, prev)
    && CollisionFree(prev, next)
    && forall i | 0 <= i < |logs| ::
         next[i] in Candidates(g, prev[i], goals[i]) && logs[i][t] == Move(DirectionOf(prev[i], next[i]), next[i])
  }

  /**
   * The logs describe a schedule of `T` steps: one log per aircraft, each starting with the
   * aircraft's start cell and holding one token per step, every step legal.
   */
  predicate ValidPlan(g: Grid, agents: seq<Agent>, logs: seq<seq<Token>>, T: nat)
    requires Rectangular(g)
  {
    && |logs| == |agents|
    && (forall i | 0 <= i < |logs| :: |logs[i]| == T + 1 && logs[i][0] == Origin(agents[i].start))
    && InsideMap(g, Starts(agents))
    && (forall t | 1 <= t <= T :: StepOk(g, Goals(agents), logs, t))
  }

  /** A plan that ends with every aircraft on its goal. */
  predicate Solution(g: Grid, agents: seq<Agent>, logs: seq<seq<Token>>, T: nat)
    requires Rectangular(g)
  {
    ValidPlan(g, agents, logs, T) && Column(logs, T) == Goals(agents)
  }

  /** A search node reachable from the start: its logs are a valid plan ending in its positions. */
  predicate Reached(g: Grid, agents: seq<Agent>, s: State)
    requires Rectangular(g)
  {
    && |s.positions| == |agents|
    && ValidPlan(g, agents, s.logs, s.time)
    && Column(s.logs, s.time) == s.positions
  }

  /** The start node: time 0, every log holding only the start cell. */
  function Initial(agents: seq<Agent>): (s: State)
    ensures s.positions == Starts(agents) && s.time == 0
    ensures |s.logs| == |agents| && forall i | 0 <= i < |agents| :: s.logs[i] == [Origin(agents[i].start)]
  {
    State(Starts(agents), 0, seq(|agents|, i requires 0 <= i < |agents| => [Origin(agents[i].start)]))
  }

  lemma InitialReached(g: Grid, agents: seq<Agent>)
    requires Rectangular(g) && InsideMap(g, Starts(agents))
    ensures Reached(g, agents, Initial(agents))
  {
    var s := Initial(agents);
    assert Column(s.logs, 0) == s.positions;
  }

  /** Every cell of a reached node lies inside the map. */
  lemma ReachedInsideMap(g: Grid, agents: seq<Agent>, s: State)
    requires Rectangular(g) && Reached(g, agents, s)
    ensures InsideMap(g, s.positions)
  {
    if s.time > 0 {
      assert StepOk(g, Goals(agents), s.logs, s.time);
      forall i | 0 <= i < |s.positions| ensures InBounds(g, s.positions[i]) {
        var prev := Column(s.logs, s.time - 1);
        assert s.positions[i] in Candidates(g, prev[i], Goals(agents)[i]);
      }
    } else {
      forall i | 0 <= i < |s.positions| ensures InBounds(g, s.positions[i]) {
        assert s.positions[i] == Starts(agents)[i];
      }
    }
  }

  /** Logs that agree up to time `T` agree on every step check up to `T`. */
  lemma StepOkPrefix(g: Grid, goals: seq<Pos>, a: seq<seq<Token>>, b: seq<seq<Token>>, T: nat, t: nat)
    requires Rectangular(g) && |goals| == |a| == |b|
    requires forall i | 0 <= i < |a| :: T < |a[i]| && T < |b[i]|
    requires forall i, k | 0 <= i < |a| && 0 <= k <= T :: a[i][k] == b[i][k]
    requires 1 <= t <= T
    ensures StepOk(g, goals, a, t) <==> StepOk(g, goals, b, t)
  {
    assert Column(a, t - 1) == Column(b, t - 1);
    assert Column(a, t) == Column(b, t);
  }

  /** The steps a successor inherits from its parent remain legal in its extended logs. */
  lemma InheritedStepsOk(g: Grid, goals: seq<Pos>, a: seq<seq<Token>>, b: seq<seq<Token>>, T: nat)
    requires Rectangular(g) && |goals| == |a| == |b|
    requires forall i | 0 <= i < |a| :: |a[i]| == T + 1
    requires forall i | 0 <= i < |b| :: |b[i]| == T + 2
    requires forall i, k | 0 <= i < |a| && 0 <= k <= T :: a[i][k] == b[i][k]
    requires forall k | 1 <= k <= T :: StepOk(g, goals, a, k)
    ensures forall k | 1 <= k <= T :: StepOk(g, goals, b, k)
  {
    forall k | 1 <= k <= T ensures StepOk(g, goals, b, k) {
      StepOkPrefix(g, goals, a, b, T, k);
    }
  }

  /** A successor's log entries up to its parent's time are the parent's entries. */
  lemma SuccessorLogShape(s: State, t: State, T: nat)
    requires |t.logs| == |s.logs| == |s.positions| == |t.positions|
    requires forall i | 0 <= i < |s.logs| :: |s.logs[i]| == T + 1
    requires forall i | 0 <= i < |t.logs| ::
               t.logs[i] == s.logs[i] + [Move(DirectionOf(s.positions[i], t.positions[i]), t.positions[i])]
    ensures forall i | 0 <= i < |t.logs| :: |t.logs[i]| == T + 2
    ensures forall i, k | 0 <= i < |s.logs| && 0 <= k <= T :: s.logs[i][k] == t.logs[i][k]
    ensures forall i | 0 <= i < |t.logs| :: t.logs[i][T + 1].at == t.positions[i]
  {
  }

  /** The new last step of a successor's logs is a legal step. */
  lemma NewStepOk(g: Grid, agents: seq<Agent>, s: State, t: State)
    requires Rectangular(g) && InsideMap(g, s.positions) && |s.logs| == |s.positions| == |agents|
    requires IsSuccessor(g, Goals(agents), s, t)
    requires HasColumn(t.logs, s.time + 1) && Column(t.logs, s.time) == s.positions
    requires forall i | 0 <= i < |t.logs| :: |t.logs[i]| == s.time + 2
    requires forall i | 0 <= i < |s.logs| :: |s.logs[i]| == s.time + 1
    ensures StepOk(g, Goals(agents), t.logs, s.time + 1)
  {
    assert Column(t.logs, s.time + 1) == t.positions;
  }

  /** The conjuncts of a valid plan, assembled. */
  lemma AssemblePlan(g: Grid, agents: seq<Agent>, logs: seq<seq<Token>>, T: nat)
    requires Rectangular(g) && |logs| == |agents| && InsideMap(g, Starts(agents))
    requires forall i | 0 <= i < |logs| :: |logs[i]| == T + 1 && logs[i][0] == Origin(agents[i].start)
    requires forall k | 1 <= k < T :: StepOk(g, Goals(agents), logs, k)
    requires 1 <= T ==> StepOk(g, Goals(agents), logs, T)
    ensures ValidPlan(g, agents, logs, T)
  {
    forall k | 1 <= k <= T ensures StepOk(g, Goals(agents), logs, k) {
      if k == T {
        assert 1 <= T;
      }
    }
  }

  /** What a successor's logs look like next to its parent's: longer by one, equal before. */
  lemma SuccessorLogFacts(g: Grid, agents: seq<Agent>, s: State, t: State)
    requires Rectangular(g) && Reached(g, agents, s)
    requires InsideMap(g, s.positions)
    requires |s.logs| == |s.positions|
    requires IsSuccessor(g, Goals(agents), s, t)
    ensures |t.logs| == |s.logs| == |agents| == |t.positions|
    ensures forall i | 0 <= i < |t.logs| :: |t.logs[i]| == s.time + 2 && t.logs[i][0] == Origin(agents[i].start)
    ensures forall i, k | 0 <= i < |s.logs| && 0 <= k <= s.time :: s.logs[i][k] == t.logs[i][k]
    ensures forall k | 1 <= k <= s.time :: StepOk(g, Goals(agents), s.logs, k)
    ensures StepOk(g, Goals(agents), t.logs, s.time + 1)
    ensures Column(t.logs, s.time + 1) == t.positions
  {
    var T := s.time;
    SuccessorLogShape(s, t, T);
    assert Column(t.logs, T) == s.positions;
    NewStepOk(g, agents, s, t);
    assert Column(t.logs, T + 1) == t.positions;
  }

  /** A successor of a reached node is reached: generating it extends a valid plan by one step. */
  lemma SuccessorReached(g: Grid, agents: seq<Agent>, s: State, t: State)
    requires Rectangular(g) && Reached(g, agents, s)
    requires InsideMap(g, s.positions)
    requires |s.logs| == |s.positions|
    requires IsSuccessor(g, Goals(agents), s, t)
    ensures Reached(g, agents, t)
  {
    SuccessorLogFacts(g, agents, s, t);
    InheritedStepsOk(g, Goals(agents), s.logs, t.logs, s.time);
    AssemblePlan(g, agents, t.logs, s.time + 1);
  }

  /**
   * With distinct start cells, a valid plan never puts two aircraft on one cell at any time step
   * and never lets two aircraft exchange cells within one step.
   */
  lemma PlanCollisionFree(g: Grid, agents: seq<Agent>, logs: seq<seq<Token>>, T: nat)
    requires Rectangular(g) && ValidPlan(g, agents, logs, T) && Distinct(Starts(agents))
    ensures forall t | 0 <= t <= T :: Distinct(Column(logs, t))
    ensures forall t | 1 <= t <= T :: !HasSwap(Column(logs, t - 1), Column(logs, t))
  {
    assert Column(logs, 0) == Starts(agents);
    forall t | 1 <= t <= T ensures Distinct(Column(logs, t)) && !HasSwap(Column(logs, t - 1), Column(logs, t)) {
      assert StepOk(g, Goals(agents), logs, t);
    }
  }
}
