/** Joint successor generation: candidate combination, collision filtering and log extension. */
module Successors {
  import opened Airfield
  import opened Movement
  import opened Combinations
  import opened Collisions

  /** The move labels `→ ← ↓ ↑` and `w` (wait). */
  datatype Direction = Right | Left | Down | Up | Wait

  /**
   * One entry of an aircraft's move log: the initial `(x,y)` entry, or a labelled step to the
   * resulting cell (rendered `"→ (x,y)"` by the source).
   */
  datatype Token = Origin(at: Pos) | Move(dir: Direction, at: Pos)

  /** A search node: one cell per aircraft, the time step, and one move log per aircraft. */
  datatype State = State(positions: seq<Pos>, time: nat, logs: seq<seq<Token>>)

  /** The label of the step `prev -> next`; an offset outside the table reads as `w`. */
  function DirectionOf(prev: Pos, next: Pos): Direction {
    var d := (next.x - prev.x, next.y - prev.y);
    if d == (0, 1) then Right
    else if d == (0, -1) then Left
    else if d == (1, 0) then Down
    else if d == (-1, 0) then Up
    else Wait
  }

  /** On a single step the label names the offset taken, and `w` means the aircraft stayed. */
  lemma DirectionOfStep(p: Pos, q: Pos)
    requires q == p || Manhattan(p, q) == 1
    ensures DirectionOf(p, q) == Wait <==> q == p
    ensures DirectionOf(p, q) == Right <==> q == Shift(p, 0, 1)
    ensures DirectionOf(p, q) == Left <==> q == Shift(p, 0, -1)
    ensures DirectionOf(p, q) == Down <==> q == Shift(p, 1, 0)
    ensures DirectionOf(p, q) == Up <==> q == Shift(p, -1, 0)
  {
    ManhattanOneIsOrthogonal(p, q);
  }

  predicate InsideMap(g: Grid, ps: seq<Pos>)
    requires Rectangular(g)
  {
    forall i | 0 <= i < |ps| :: InBounds(g, ps[i])
  }

  /** The per-aircraft candidate lists, with the goal lock applied before combination. */
  function CandidateLists(g: Grid, ps: seq<Pos>, goals: seq<Pos>): (cs: seq<seq<Pos>>)
    requires Rectangular(g) && InsideMap(g, ps) && |goals| >= |ps|
    ensures |cs| == |ps|
    ensures forall i | 0 <= i < |ps| :: cs[i] == Candidates(g, ps[i], goals[i])
  {
    seq(|ps|, i requires 0 <= i < |ps| => Candidates(g, ps[i], goals[i]))
  }

  /** Copies every log and appends to each aircraft's copy the token of its step. */
  function ExtendLogs(logs: seq<seq<Token>>, prev: seq<Pos>, next: seq<Pos>): (r: seq<seq<Token>>)
    requires |logs| == |prev| == |next|
    ensures |r| == |logs|
    ensures forall i | 0 <= i < |r| :: r[i] == logs[i] + [Move(DirectionOf(prev[i], next[i]), next[i])]
  {
    seq(|logs|, i requires 0 <= i < |logs| => logs[i] + [Move(DirectionOf(prev[i], next[i]), next[i])])
  }

  /** The combination survives both filters: no shared cell and no exchanged pair. */
  predicate CollisionFree(prev: seq<Pos>, next: seq<Pos>) {
    |next| == |prev| && Distinct(next) && !HasSwap(prev, next)
  }

  /**
   * What a successor of `s` is: the same number of aircraft, one step later, every aircraft on
   * one of its candidates, no collision of either kind, and every log grown by exactly the token
   * of its own step while the parent's entries stay as they were.
   */
  predicate IsSuccessor(g: Grid, goals: seq<Pos>, s: State, t: State)
    requires Rectangular(g) && InsideMap(g, s.positions) && |goals| >= |s.positions|
    requires |s.logs| == |s.positions|
  {
    && |t.positions| == |s.positions|
    && t.time == s.time + 1
    && CollisionFree(s.positions, t.positions)
    && (forall i | 0 <= i < |t.positions| :: t.positions[i] in Candidates(g, s.positions[i], goals[i]))
    && |t.logs| == |s.logs|
    && (forall i | 0 <= i < |t.logs| ::
          t.logs[i] == s.logs[i] + [Move(DirectionOf(s.positions[i], t.positions[i]), t.positions[i])])
  }

  /**
   * The filtering loop over the product: drops every combination that puts two aircraft on one
   * cell (`len(set(...)) != len(...)`) or makes a pair exchange cells, keeping the product's order.
   */
  function Survivors(prev: seq<Pos>, combos: seq<seq<Pos>>): (r: seq<seq<Pos>>)
    requires forall c | c in combos :: |c| == |prev|
    ensures forall c | c in r :: c in combos && CollisionFree(prev, c)
    ensures forall c | c in combos && CollisionFree(prev, c) :: c in r
  {
    if |combos| == 0 then []
    else
      var c := combos[0];
      var rest := Survivors(prev, combos[1..]);
      CellsSizeDetectsSharing(c);
      if |Cells(c)| != |c| then rest
      else if HasSwap(prev, c) then rest
      else [c] + rest
  }

  /** One new state per surviving combination: time plus one, logs copied and extended. */
  function Expand(s: State, survivors: seq<seq<Pos>>): (r: seq<State>)
    requires |s.logs| == |s.positions|
    requires forall c | c in survivors :: |c| == |s.positions|
    ensures |r| == |survivors|
    ensures forall k | 0 <= k < |r| ::
              r[k] == State(survivors[k], s.time + 1, ExtendLogs(s.logs, s.positions, survivors[k]))
  {
    seq(|survivors|, k requires 0 <= k < |survivors| =>
      State(survivors[k], s.time + 1, ExtendLogs(s.logs, s.positions, survivors[k])))
  }

  /** The state built from a surviving combination is a successor. */
  lemma SurvivorIsSuccessor(g: Grid, goals: seq<Pos>, s: State, c: seq<Pos>)
    requires Rectangular(g) && InsideMap(g, s.positions) && |goals| >= |s.positions|
    requires |s.logs| == |s.positions|
    requires Picks(CandidateLists(g, s.positions, goals), c) && CollisionFree(s.positions, c)
    ensures IsSuccessor(g, goals, s, State(c, s.time + 1, ExtendLogs(s.logs, s.positions, c)))
  {
  }

  lemma ExpandedAreSuccessors(g: Grid, goals: seq<Pos>, s: State, survivors: seq<seq<Pos>>)
    requires Rectangular(g) && InsideMap(g, s.positions) && |goals| >= |s.positions|
    requires |s.logs| == |s.positions|
    requires forall c | c in survivors ::
               |c| == |s.positions| && Picks(CandidateLists(g, s.positions, goals), c) && CollisionFree(s.positions, c)
    ensures forall k | 0 <= k < |survivors| :: IsSuccessor(g, goals, s, Expand(s, survivors)[k])
  {
    var r := Expand(s, survivors);
    forall k | 0 <= k < |r| ensures IsSuccessor(g, goals, s, r[k]) {
      assert survivors[k] in survivors;
      SurvivorIsSuccessor(g, goals, s, survivors[k]);
    }
  }

  /** The goal lock seen from the result: an aircraft on its goal is on it in every successor. */
  lemma SuccessorKeepsGoal(g: Grid, goals: seq<Pos>, s: State, t: State, i: nat)
    requires Rectangular(g) && InsideMap(g, s.positions) && |goals| >= |s.positions|
    requires |s.logs| == |s.positions|
    requires IsSuccessor(g, goals, s, t)
    requires i < |s.positions| && s.positions[i] == goals[i]
    ensures t.positions[i] == goals[i]
  {
    assert t.positions[i] in Candidates(g, s.positions[i], goals[i]);
  }

  /** Every successor built from the survivors keeps the aircraft that stand on their goal there. */
  lemma ExpandedKeepGoals(g: Grid, goals: seq<Pos>, s: State, r: seq<State>)
    requires Rectangular(g) && InsideMap(g, s.positions) && |goals| >= |s.positions|
    requires |s.logs| == |s.positions|
    requires forall k | 0 <= k < |r| :: |r[k].positions| == |s.positions| && IsSuccessor(g, goals, s, r[k])
    ensures forall k, i | 0 <= k < |r| && 0 <= i < |s.positions| && s.positions[i] == goals[i] ::
              r[k].positions[i] == goals[i]
  {
    forall k, i | 0 <= k < |r| && 0 <= i < |s.positions| && s.positions[i] == goals[i]
      ensures r[k].positions[i] == goals[i]
    {
      SuccessorKeepsGoal(g, goals, s, r[k], i);
    }
  }

  /** Every collision-free pick of candidates that survives the filter becomes a successor. */
  lemma ExpandedComplete(s: State, cands: seq<seq<Pos>>, survivors: seq<seq<Pos>>)
    requires |s.logs| == |s.positions|
    requires forall c | c in survivors :: |c| == |s.positions|
    requires forall c | Picks(cands, c) && CollisionFree(s.positions, c) :: c in survivors
    ensures forall c | Picks(cands, c) && CollisionFree(s.positions, c) ::
              exists k | 0 <= k < |survivors| :: Expand(s, survivors)[k].positions == c
  {
    var r := Expand(s, survivors);
    forall c | Picks(cands, c) && CollisionFree(s.positions, c)
      ensures exists k | 0 <= k < |survivors| :: r[k].positions == c
    {
      var k :| 0 <= k < |survivors| && survivors[k] == c;
      assert r[k].positions == c;
    }
  }

  /**
   * `generate_successors` / `generar_sucesores`: every returned state is a successor, an aircraft
   * on its goal stays there, and every collision-free combination of candidates is returned.
   */
  function Generate(g: Grid, goals: seq<Pos>, s: State): (r: seq<State>)
    requires Rectangular(g) && InsideMap(g, s.positions) && |goals| >= |s.positions|
    requires |s.logs| == |s.positions|
    ensures forall k | 0 <= k < |r| :: IsSuccessor(g, goals, s, r[k])
    ensures forall k | 0 <= k < |r| :: |r[k].positions| == |s.positions|
    ensures forall k, i | 0 <= k < |r| && 0 <= i < |s.positions| && s.positions[i] == goals[i] ::
              r[k].positions[i] == goals[i]
    ensures forall c | Picks(CandidateLists(g, s.positions, goals), c) && CollisionFree(s.positions, c) ::
              exists k | 0 <= k < |r| :: r[k].positions == c
  {
    var survivors := Survivors(s.positions, Product(CandidateLists(g, s.positions, goals)));
    ExpandedAreSuccessors(g, goals, s, survivors);
    ExpandedKeepGoals(g, goals, s, Expand(s, survivors));
    ExpandedComplete(s, CandidateLists(g, s.positions, goals), survivors);
    Expand(s, survivors)
  }
}
