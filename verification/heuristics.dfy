/** The two cost-to-go estimates of the taxiing search (summed and maximum Manhattan distance). */
module Heuristics {
  import opened Wrappers
  import opened Airfield

  function Min(a: nat, b: nat): nat {
    if a <= b then a else b
  }

  /** Every aircraft that `zip(positions, goals)` pairs up stands on its goal. */
  predicate AllAtGoal(ps: seq<Pos>, gs: seq<Pos>) {
    forall i | 0 <= i < Min(|ps|, |gs|) :: ps[i] == gs[i]
  }

  /** The per-aircraft distances over `zip(positions, goals)`, which stops at the shorter list. */
  function Distances(ps: seq<Pos>, gs: seq<Pos>): (ds: seq<nat>)
    ensures |ds| == Min(|ps|, |gs|)
    ensures forall i | 0 <= i < |ds| :: ds[i] == Manhattan(ps[i], gs[i])
  {
    if |ps| == 0 || |gs| == 0 then [] else [Manhattan(ps[0], gs[0])] + Distances(ps[1..], gs[1..])
  }

  function Sum(ds: seq<nat>): nat {
    if |ds| == 0 then 0 else ds[0] + Sum(ds[1..])
  }

  /** Heuristic 1: the sum of the aircraft's Manhattan distances to their goals. */
  function SumManhattan(ps: seq<Pos>, gs: seq<Pos>): (h: nat)
    ensures h == 0 <==> AllAtGoal(ps, gs)
    ensures forall i | 0 <= i < Min(|ps|, |gs|) :: Manhattan(ps[i], gs[i]) <= h
  {
    if |ps| == 0 || |gs| == 0 then 0
    else
      var rest := SumManhattan(ps[1..], gs[1..]);
      assert AllAtGoal(ps, gs) <==> ps[0] == gs[0] && AllAtGoal(ps[1..], gs[1..]) by {
        if ps[0] == gs[0] && AllAtGoal(ps[1..], gs[1..]) {
          forall i | 0 <= i < Min(|ps|, |gs|) ensures ps[i] == gs[i] {
            if i > 0 { assert ps[1..][i - 1] == ps[i] && gs[1..][i - 1] == gs[i]; }
          }
        }
      }
      Manhattan(ps[0], gs[0]) + rest
  }

  /** The largest element of a non-empty list, as Python's `max`. */
  function MaxOf(ds: seq<nat>): (m: nat)
    requires |ds| > 0
    ensures m in ds
    ensures forall i | 0 <= i < |ds| :: ds[i] <= m
  {
    if |ds| == 1 then ds[0]
    else
      var rest := MaxOf(ds[1..]);
      if ds[0] >= rest then ds[0] else rest
  }

  /**
   * Heuristic 2: the largest per-aircraft Manhattan distance. `max` of an empty list raises
   * `ValueError`, modelled as `None`.
   */
  function MaxManhattan(ps: seq<Pos>, gs: seq<Pos>): (h: Option<nat>)
    ensures h.None? <==> Min(|ps|, |gs|) == 0
    ensures h.Some? ==> exists i | 0 <= i < Min(|ps|, |gs|) :: h.value == Manhattan(ps[i], gs[i])
    ensures h.Some? ==> forall i | 0 <= i < Min(|ps|, |gs|) :: Manhattan(ps[i], gs[i]) <= h.value
  {
    var ds := Distances(ps, gs);
    if |ds| == 0 then None
    else
      var m := MaxOf(ds);
      assert exists i | 0 <= i < |ds| :: ds[i] == m;
      Some(m)
  }

  /** The summed value bounds every single distance from above, hence also the maximum. */
  lemma {:induction false} MaxAtMostSum(ps: seq<Pos>, gs: seq<Pos>)
    requires Min(|ps|, |gs|) > 0
    ensures MaxManhattan(ps, gs).Some?
    ensures MaxManhattan(ps, gs).value <= SumManhattan(ps, gs)
    ensures MaxManhattan(ps, gs).value == 0 <==> AllAtGoal(ps, gs)
  {
    var h := MaxManhattan(ps, gs).value;
    var i :| 0 <= i < Min(|ps|, |gs|) && h == Manhattan(ps[i], gs[i]);
    if h == 0 {
      forall j | 0 <= j < Min(|ps|, |gs|) ensures ps[j] == gs[j] {
        assert Manhattan(ps[j], gs[j]) <= h;
      }
    }
    if AllAtGoal(ps, gs) {
      assert ps[i] == gs[i];
    }
  }

  /** The heuristic chosen on the command line: 1 is the summed, 2 the maximum distance. */
  datatype Kind = Summed | Maximum

  /** The estimate the search uses; `None` where Python's `max` would raise. */
  function Estimate(k: Kind, ps: seq<Pos>, gs: seq<Pos>): (h: Option<nat>)
    ensures h.None? <==> k == Maximum && Min(|ps|, |gs|) == 0
    ensures h.Some? ==> (h.value == 0 <==> AllAtGoal(ps, gs))
  {
    match k
    case Summed => Some(SumManhattan(ps, gs))
    case Maximum =>
      if Min(|ps|, |gs|) > 0 then MaxAtMostSum(ps, gs); MaxManhattan(ps, gs)
      else MaxManhattan(ps, gs)
  }
}
