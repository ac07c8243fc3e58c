/** Per-aircraft move enumeration (`obtain_valid_movements`) and the goal lock. */
module Movement {
  import opened Airfield

  /**
   * Position of a destination in the enumeration order of the source: staying first, then the
   * offsets (0,1), (0,-1), (1,0), (-1,0); anything else ranks last.
   */
  function Rank(p: Pos, q: Pos): int {
    if q == p then -1
    else if q == Shift(p, 0, 1) then 0
    else if q == Shift(p, 0, -1) then 1
    else if q == Shift(p, 1, 0) then 2
    else if q == Shift(p, -1, 0) then 3
    else 4
  }

  /** The four offsets in the order the source tries them. */
  function Offsets(p: Pos): seq<Pos> {
    [Shift(p, 0, 1), Shift(p, 0, -1), Shift(p, 1, 0), Shift(p, -1, 0)]
  }

  /** Keeps the candidate neighbours that are in bounds and not an obstacle, in order. */
  function KeepEnterable(g: Grid, cs: seq<Pos>): (r: seq<Pos>)
    requires Rectangular(g)
    ensures forall q :: q in r <==> q in cs && Enterable(g, q)
    ensures forall i | 0 <= i < |r| :: exists j | 0 <= j < |cs| :: r[i] == cs[j]
  {
    if |cs| == 0 then []
    else if Enterable(g, cs[0]) then [cs[0]] + KeepEnterable(g, cs[1..])
    else KeepEnterable(g, cs[1..])
  }

  /** May an aircraft stay on `p` for one step (the cell is not a must-move cell)? */
  predicate CanWait(g: Grid, p: Pos)
    requires Rectangular(g) && InBounds(g, p)
  {
    Cell(g, p) != MustMove
  }

  /**
   * The cells an aircraft on `p` may occupy next: itself, unless its cell is `"A"`, followed by
   * every orthogonal neighbour inside the map that is not `"G"`, in the fixed offset order.
   */
  function ValidMoves(g: Grid, p: Pos): (r: seq<Pos>)
    requires Rectangular(g) && InBounds(g, p)
    ensures forall q :: q in r <==> (q == p && CanWait(g, p)) || (Manhattan(p, q) == 1 && Enterable(g, q))
    ensures forall i | 0 <= i < |r| :: InBounds(g, r[i]) && (r[i] == p || Cell(g, r[i]) != Obstacle)
    ensures (|r| > 0 && r[0] == p) <==> CanWait(g, p)
    ensures forall i, j | 0 <= i < j < |r| :: Rank(p, r[i]) < Rank(p, r[j])
  {
    var steps := KeepEnterable(g, Offsets(p));
    forall q ensures Manhattan(p, q) == 1 <==> q in Offsets(p) {
      ManhattanOneIsOrthogonal(p, q);
    }
    RankIncreasing(g, p, Offsets(p), 0);
    assert forall i | 0 <= i < |steps| :: steps[i] in steps && Enterable(g, steps[i]);
    if CanWait(g, p) then [p] + steps else steps
  }

  /** Filtering a suffix of the offsets keeps the ranks strictly increasing and above staying. */
  lemma {:induction false} RankIncreasing(g: Grid, p: Pos, cs: seq<Pos>, k: nat)
    requires Rectangular(g)
    requires k <= 4 && cs == Offsets(p)[k..]
    ensures forall i | 0 <= i < |KeepEnterable(g, cs)| :: k <= Rank(p, KeepEnterable(g, cs)[i]) < 4
    ensures forall i, j | 0 <= i < j < |KeepEnterable(g, cs)| ::
              Rank(p, KeepEnterable(g, cs)[i]) < Rank(p, KeepEnterable(g, cs)[j])
  {
    if k < 4 {
      assert cs[0] == Offsets(p)[k];
      assert Rank(p, cs[0]) == k;
      assert cs[1..] == Offsets(p)[k + 1..];
      RankIncreasing(g, p, cs[1..], k + 1);
    }
  }

  /**
   * The candidates the successor generator uses: an aircraft already on its goal may only stay
   * there; any other aircraft gets its valid moves.
   */
  function Candidates(g: Grid, p: Pos, goal: Pos): (r: seq<Pos>)
    requires Rectangular(g) && InBounds(g, p)
    ensures p == goal ==> r == [p]
    ensures forall q | q in r :: InBounds(g, q) && (q == p || Manhattan(p, q) == 1)
  {
    if p == goal then [p] else ValidMoves(g, p)
  }
}
