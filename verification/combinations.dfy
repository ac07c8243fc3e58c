/** The cartesian product of per-aircraft candidate lists, in `itertools.product` order. */
module Combinations {
  import opened Airfield

  /** Every choice lists one entry per position, each taken from that position's candidates. */
  predicate Picks(choices: seq<seq<Pos>>, combo: seq<Pos>) {
    |combo| == |choices| && forall i | 0 <= i < |combo| :: combo[i] in choices[i]
  }

  /** `[[a] + r for r in rests]`. */
  function PrependAll(a: Pos, rests: seq<seq<Pos>>): (r: seq<seq<Pos>>)
    ensures |r| == |rests|
    ensures forall k | 0 <= k < |r| :: r[k] == [a] + rests[k]
  {
    if |rests| == 0 then [] else [[a] + rests[0]] + PrependAll(a, rests[1..])
  }

  /** Membership in `PrependAll(a, rests)` is being `a` followed by a member of `rests`. */
  lemma PrependAllMembers(a: Pos, rests: seq<seq<Pos>>)
    ensures forall c | c in PrependAll(a, rests) :: |c| > 0 && c[0] == a && c[1..] in rests
    ensures forall t | t in rests :: [a] + t in PrependAll(a, rests)
  {
    var head := PrependAll(a, rests);
    forall c | c in head ensures |c| > 0 && c[0] == a && c[1..] in rests {
      var k :| 0 <= k < |head| && head[k] == c;
      assert c[1..] == rests[k];
    }
    forall t | t in rests ensures [a] + t in head {
      var k :| 0 <= k < |rests| && rests[k] == t;
      assert head[k] == [a] + t;
    }
  }

  /** For each first choice in order, every completion in order: the leftmost slot varies slowest. */
  function Spread(firsts: seq<Pos>, rests: seq<seq<Pos>>): (r: seq<seq<Pos>>)
    ensures forall c | c in r :: |c| > 0 && c[0] in firsts && c[1..] in rests
    ensures forall a, t | a in firsts && t in rests :: [a] + t in r
  {
    if |firsts| == 0 then []
    else
      var head := PrependAll(firsts[0], rests);
      PrependAllMembers(firsts[0], rests);
      head + Spread(firsts[1..], rests)
  }

  /** A pick of a non-empty list of choices is a first choice followed by a pick of the rest. */
  lemma PicksCons(choices: seq<seq<Pos>>, c: seq<Pos>)
    requires |choices| > 0
    ensures Picks(choices, c) <==> |c| > 0 && c[0] in choices[0] && Picks(choices[1..], c[1..])
  {
    if |c| > 0 && c[0] in choices[0] && Picks(choices[1..], c[1..]) {
      forall i | 0 <= i < |c| ensures c[i] in choices[i] {
        if i > 0 { assert c[i] == c[1..][i - 1]; }
      }
    }
    if Picks(choices, c) {
      forall i | 0 <= i < |c[1..]| ensures c[1..][i] in choices[1..][i] {
        assert c[1..][i] == c[i + 1];
      }
    }
  }

  /** Spreading the first choices over exactly the picks of the rest gives exactly the picks. */
  lemma SpreadIsPicks(choices: seq<seq<Pos>>, tails: seq<seq<Pos>>)
    requires |choices| > 0
    requires forall c | c in tails :: Picks(choices[1..], c)
    requires forall c | Picks(choices[1..], c) :: c in tails
    ensures forall c | c in Spread(choices[0], tails) :: Picks(choices, c)
    ensures forall c | Picks(choices, c) :: c in Spread(choices[0], tails)
  {
    var r := Spread(choices[0], tails);
    forall c | c in r ensures Picks(choices, c) {
      PicksCons(choices, c);
    }
    forall c | Picks(choices, c) ensures c in r {
      PicksCons(choices, c);
      assert [c[0]] + c[1..] == c;
    }
  }

  /**
   * `product(*choices)`: all combinations, one entry from each list. The contract states that the
   * product contains exactly the valid picks.
   */
  function Product(choices: seq<seq<Pos>>): (r: seq<seq<Pos>>)
    ensures forall c | c in r :: Picks(choices, c)
    ensures forall c | Picks(choices, c) :: c in r
    decreases |choices|
  {
    if |choices| == 0 then
      assert forall c | Picks(choices, c) :: c == [];
      [[]]
    else
      var tails := Product(choices[1..]);
      SpreadIsPicks(choices, tails);
      Spread(choices[0], tails)
  }
}
