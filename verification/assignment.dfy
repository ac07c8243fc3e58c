/**
 * The third version of the maintenance scheduler: each aircraft gets its own domain of cells,
 * the capacity limits bind one workshop at a time, restricted aircraft must sit in specialist
 * workshops from slot `T2` on, and any two aircraft of one slot must stand more than one cell
 * apart. The model states each predicate and relates it to the statements of `Workshops`.
 */
module Assignment {
  import opened Wrappers
  import opened Airfield
  import opened Collisions
  import opened Workshops
  import opened Records

  /** One aircraft as this version reads it: a numeric identifier and a boolean restriction. */
  datatype Plane = Plane(id: nat, kind: string, restricted: bool, t1: nat, t2: nat)

  /**
   * One aircraft line: split on `-` without stripping, then the fields in the order the
   * dictionary reads them: the identifier as an integer, the type and the restriction (true
   * exactly for the text `T`), then the two task counts as integers. A missing field is noticed
   * only when it is reached.
   */
  function ParsePlane(line: string): (r: Result<Plane, RecordError>)
    ensures var parts := Split(line);
            && (ParseNat(parts[0]).None? ==> r == Err(NotANumber(parts[0])))
            && (r == Err(MissingFields(|parts|)) <==>
                  ParseNat(parts[0]).Some? && (|parts| < 4 || (|parts| == 4 && ParseNat(parts[3]).Some?)))
            && (r.Ok? ==> |parts| >= 5 && ParseNat(parts[0]) == Some(r.value.id) && r.value.kind == parts[1])
            && (r.Ok? ==> r.value.restricted == (parts[2] == Restricted))
            && (r.Ok? ==> ParseNat(parts[3]) == Some(r.value.t1) && ParseNat(parts[4]) == Some(r.value.t2))
            && (ParseNat(parts[0]).Some? && |parts| >= 4 && ParseNat(parts[3]).None? ==> r == Err(NotANumber(parts[3])))
            && (ParseNat(parts[0]).Some? && |parts| >= 5 && ParseNat(parts[3]).Some? && ParseNat(parts[4]).None? ==>
                  r == Err(NotANumber(parts[4])))
            && (ParseNat(parts[0]).Some? && |parts| >= 5 && ParseNat(parts[3]).Some? && ParseNat(parts[4]).Some? ==>
                  r == Ok(Plane(ParseNat(parts[0]).value, parts[1], parts[2] == Restricted,
                                ParseNat(parts[3]).value, ParseNat(parts[4]).value)))
  {
    var parts := Split(line);
    match ParseNat(parts[0])
    case None => Err(NotANumber(parts[0]))
    case Some(id) =>
      if |parts| < 4 then Err(MissingFields(|parts|))
      else
        match ParseNat(parts[3])
        case None => Err(NotANumber(parts[3]))
        case Some(t1) =>
          if |parts| < 5 then Err(MissingFields(|parts|))
          else
            match ParseNat(parts[4])
            case None => Err(NotANumber(parts[4]))
            case Some(t2) => Ok(Plane(id, parts[1], parts[2] == Restricted, t1, t2))
  }

  /** The identifier is read before anything else, and the fourth field before the fifth is looked for. */
  lemma FieldsReadInOrder()
    ensures ParsePlane("abc") == Err(NotANumber("abc"))
    ensures ParsePlane("1-STD-T-x") == Err(NotANumber("x"))
  {
    SplitJoin(["abc"]);
    NotDigitLead("abc");
    var parts := ["1", "STD", "T", "x"];
    assert Join(parts) == "1-STD-T-x";
    SplitJoin(parts);
    ParseShow(1);
    NotDigitLead("x");
  }

  /**
   * The counts are read as `int()` reads them: leading zeros and blanks around a count do not
   * matter, so a line ending in a carriage return still gives its fifth field's value.
   */
  lemma ParsePlanePadded(p: Plane, restr: string, z1: nat, z2: nat, post: string)
    requires Dash !in p.kind && Dash !in restr && Dash !in post
    requires forall k | 0 <= k < |post| :: IsSpace(post[k])
    ensures ParsePlane(Join([ShowNat(p.id), p.kind, restr, Zeros(z1) + ShowNat(p.t1), Zeros(z2) + ShowNat(p.t2) + post])) ==
            Ok(p.(restricted := restr == Restricted))
  {
    var parts := [ShowNat(p.id), p.kind, restr, Zeros(z1) + ShowNat(p.t1), Zeros(z2) + ShowNat(p.t2) + post];
    assert Split(Join(parts)) == parts by {
      forall k | 0 <= k < 5 ensures Dash !in parts[k] {
      }
      SplitJoin(parts);
    }
    assert ParseNat(parts[0]) == Some(p.id) by { ParseShow(p.id); }
    assert ParseNat(parts[3]) == Some(p.t1) by {
      assert parts[3] == "" + Zeros(z1) + ShowNat(p.t1) + "";
      ParsePadded("", z1, p.t1, "");
    }
    assert ParseNat(parts[4]) == Some(p.t2) by {
      assert parts[4] == "" + Zeros(z2) + ShowNat(p.t2) + post;
      ParsePadded("", z2, p.t2, post);
    }
    ReadsAs(parts, p);
  }

  /** Five fields that split back out and whose numbers parse to the aircraft's read as the aircraft. */
  lemma ReadsAs(parts: seq<string>, p: Plane)
    requires |parts| == 5 && Split(Join(parts)) == parts && parts[1] == p.kind
    requires ParseNat(parts[0]) == Some(p.id) && ParseNat(parts[3]) == Some(p.t1) && ParseNat(parts[4]) == Some(p.t2)
    ensures ParsePlane(Join(parts)) == Ok(p.(restricted := parts[2] == Restricted))
  {
  }

  /**
   * A line built from an aircraft's fields reads back as that aircraft, with the restriction set
   * exactly when its text is `T`. The results file writes the restriction as `True` or `False`,
   * so a restricted aircraft written there reads back as unrestricted.
   */
  lemma ParsePlaneFields(p: Plane, restr: string)
    requires Dash !in p.kind && Dash !in restr
    ensures ParsePlane(Join([ShowNat(p.id), p.kind, restr, ShowNat(p.t1), ShowNat(p.t2)])) ==
            Ok(p.(restricted := restr == Restricted))
  {
    var parts := [ShowNat(p.id), p.kind, restr, ShowNat(p.t1), ShowNat(p.t2)];
    forall k | 0 <= k < 5 ensures Dash !in parts[k] {
    }
    SplitJoin(parts);
    ParseShow(p.id);
    ParseShow(p.t1);
    ParseShow(p.t2);
  }

  /** The type label of an aircraft allowed in the standard workshops. */
  const StandardKind: string := "STD"

  /**
   * Whether a cell enters an aircraft's domain: every parking, the standard workshops for a
   * `STD` aircraft, and the specialist workshops for a restricted aircraft.
   */
  predicate Allowed(l: Layout, p: Plane, c: Pos) {
    c in l.parking || (c in l.standard && p.kind == StandardKind) || (c in l.special && p.restricted)
  }

  /** The cells of `cs` that enter the aircraft's domain, in their order. */
  function FilterAllowed(l: Layout, p: Plane, cs: seq<Pos>): (d: seq<Pos>)
    ensures |d| <= |cs|
  {
    if |cs| == 0 then []
    else (if Allowed(l, p, cs[0]) then [cs[0]] else []) + FilterAllowed(l, p, cs[1..])
  }

  /** The domain of one aircraft: parkings, standard and specialist workshops, filtered. */
  function PlaneDomain(l: Layout, p: Plane): seq<Pos> {
    FilterAllowed(l, p, l.parking + l.standard + l.special)
  }

  /** Filtering a concatenation filters each part in place, so the filter keeps the order of its input. */
  lemma {:induction false} FilterAppend(l: Layout, p: Plane, a: seq<Pos>, b: seq<Pos>)
    ensures FilterAllowed(l, p, a + b) == FilterAllowed(l, p, a) + FilterAllowed(l, p, b)
  {
    if |a| > 0 {
      FilterAppend(l, p, a[1..], b);
      assert (a + b)[1..] == a[1..] + b;
    } else {
      assert a + b == b;
    }
  }

  /** Every parking is allowed, so an aircraft's domain is all parkings, then its standard workshops, then its specialist ones. */
  lemma PlaneDomainOrder(l: Layout, p: Plane)
    ensures PlaneDomain(l, p) == l.parking + FilterAllowed(l, p, l.standard) + FilterAllowed(l, p, l.special)
  {
    FilterAppend(l, p, l.parking + l.standard, l.special);
    FilterAppend(l, p, l.parking, l.standard);
    FilterKeepsAllowed(l, p, l.parking);
  }

  /** A list of allowed cells passes the filter unchanged. */
  lemma {:induction false} FilterKeepsAllowed(l: Layout, p: Plane, cs: seq<Pos>)
    requires forall k | 0 <= k < |cs| :: Allowed(l, p, cs[k])
    ensures FilterAllowed(l, p, cs) == cs
  {
    if |cs| > 0 {
      FilterKeepsAllowed(l, p, cs[1..]);
      assert cs == [cs[0]] + cs[1..];
    }
  }

  /** The filter keeps every allowed cell as often as it is listed and drops the others entirely. */
  lemma {:induction false} FilterCounts(l: Layout, p: Plane, cs: seq<Pos>, c: Pos)
    ensures multiset(FilterAllowed(l, p, cs))[c] == if Allowed(l, p, c) then multiset(cs)[c] else 0
  {
    if |cs| > 0 {
      FilterCounts(l, p, cs[1..], c);
      assert cs == [cs[0]] + cs[1..];
    }
  }

  /** Filtering a filtered list changes nothing. */
  lemma {:induction false} FilterIdempotent(l: Layout, p: Plane, cs: seq<Pos>)
    ensures FilterAllowed(l, p, FilterAllowed(l, p, cs)) == FilterAllowed(l, p, cs)
  {
    if |cs| > 0 {
      FilterIdempotent(l, p, cs[1..]);
      var rest := FilterAllowed(l, p, cs[1..]);
      if Allowed(l, p, cs[0]) {
        var d := [cs[0]] + rest;
        assert FilterAllowed(l, p, cs) == d;
        assert d[0] == cs[0] && d[1..] == rest;
        assert FilterAllowed(l, p, d) == [cs[0]] + FilterAllowed(l, p, rest);
      } else {
        assert FilterAllowed(l, p, cs) == rest;
      }
    }
  }

  /** An aircraft's domain holds exactly the cells the filter allows, and all of them are cells of the layout. */
  lemma PlaneDomainHas(l: Layout, p: Plane, c: Pos)
    ensures c in PlaneDomain(l, p) <==> Allowed(l, p, c)
    ensures c in PlaneDomain(l, p) ==> InDomain(l, c)
  {
    var cs := l.parking + l.standard + l.special;
    FilterCounts(l, p, cs, c);
  }

  /** `len([v for v in args if v == taller])`. */
  function Count(args: seq<Pos>, taller: Pos): nat {
    if |args| == 0 then 0 else (if args[0] == taller then 1 else 0) + Count(args[1..], taller)
  }

  /** The count of a cell among the arguments is its multiplicity. */
  lemma {:induction false} CountIsMultiplicity(args: seq<Pos>, taller: Pos)
    ensures Count(args, taller) == multiset(args)[taller]
  {
    if |args| > 0 {
      CountIsMultiplicity(args[1..], taller);
      assert args == [args[0]] + args[1..];
    }
  }

  /** `max_dos_aviones` bound to the workshop `taller`. */
  predicate MaxDos(args: seq<Pos>, taller: Pos) {
    Count(args, taller) <= 2
  }

  /** `talleres_std + talleres_spc`: the workshops the capacity limits bind, standard then specialist. */
  function Talleres(l: Layout): seq<Pos> {
    l.standard + l.special
  }

  /** The capacity limit of one slot, one `max_dos_aviones` per workshop. */
  predicate Capacity(l: Layout, args: seq<Pos>) {
    forall k | 0 <= k < |Talleres(l)| :: MaxDos(args, Talleres(l)[k])
  }

  /** The capacity limit holds exactly when no workshop holds more than two aircraft; parkings are not limited. */
  lemma CapacitySays(l: Layout, args: seq<Pos>)
    ensures Capacity(l, args) <==> forall c | c in args && c in Talleres(l) :: multiset(args)[c] <= 2
  {
    var ws := Talleres(l);
    forall k | 0 <= k < |ws| {
      CountIsMultiplicity(args, ws[k]);
    }
    if Capacity(l, args) {
      forall c | c in args && c in ws ensures multiset(args)[c] <= 2 {
        var k :| 0 <= k < |ws| && ws[k] == c;
        assert MaxDos(args, ws[k]);
      }
    }
  }

  /** The one-slot capacity of the other versions, which also limits parkings, implies this one. */
  lemma CapacityOfAtMostTwo(l: Layout, args: seq<Pos>)
    requires AtMostTwoEach(args)
    ensures Capacity(l, args)
  {
    CapacitySays(l, args);
  }

  /** Three aircraft on one parking pass this capacity limit and fail the other versions'. */
  lemma ParkingsUnlimited()
    ensures var l := Layout([], [], [Pos(0, 0)]);
            var args := [Pos(0, 0), Pos(0, 0), Pos(0, 0)];
            Capacity(l, args) && !AtMostTwoEach(args)
  {
    var args := [Pos(0, 0), Pos(0, 0), Pos(0, 0)];
    assert multiset(args)[Pos(0, 0)] == 3;
  }

  /** Aircraft on a cell that is not a workshop, a parking say, never change the capacity verdict. */
  lemma CapacityIgnoresOthers(l: Layout, args: seq<Pos>, c: Pos)
    requires c !in Talleres(l)
    ensures Capacity(l, args + [c]) <==> Capacity(l, args)
  {
    var ws := Talleres(l);
    forall k | 0 <= k < |ws| ensures Count(args + [c], ws[k]) == Count(args, ws[k]) {
      CountIsMultiplicity(args + [c], ws[k]);
      CountIsMultiplicity(args, ws[k]);
      assert multiset(args + [c]) == multiset(args) + multiset{c};
    }
  }

  /** The type label of a jumbo, as the other versions spell it. */
  predicate IsJumboPlane(p: Plane) {
    p.kind == Jumbo
  }

  /** The jumbo variables' values, `jumbo_vars` in the order of the aircraft: the first `n` aircraft. */
  function JumboVars(planes: seq<Plane>, cells: seq<Pos>, n: nat): seq<Pos>
    requires n <= |planes| == |cells|
  {
    if n == 0 then []
    else JumboVars(planes, cells, n - 1) + (if IsJumboPlane(planes[n - 1]) then [cells[n - 1]] else [])
  }

  /** No two of the first `n` jumbos share the cell `c`. */
  predicate OneJumboOn(planes: seq<Plane>, cells: seq<Pos>, n: nat, c: Pos)
    requires n <= |planes| == |cells|
  {
    forall i, j | 0 <= i < j < n && IsJumboPlane(planes[i]) && IsJumboPlane(planes[j]) :: !(cells[i] == c && cells[j] == c)
  }

  /** How many of the first `n` aircraft are jumbos on the cell `c`. */
  function JumbosOn(planes: seq<Plane>, cells: seq<Pos>, n: nat, c: Pos): nat
    requires n <= |planes| == |cells|
  {
    if n == 0 then 0
    else JumbosOn(planes, cells, n - 1, c) + (if IsJumboPlane(planes[n - 1]) && cells[n - 1] == c then 1 else 0)
  }

  /** A cell occurs among the jumbo values once per jumbo standing on it. */
  lemma {:induction false} JumboVarsCount(planes: seq<Plane>, cells: seq<Pos>, n: nat, c: Pos)
    requires n <= |planes| == |cells|
    ensures multiset(JumboVars(planes, cells, n))[c] == JumbosOn(planes, cells, n, c)
  {
    if n > 0 {
      JumboVarsCount(planes, cells, n - 1, c);
      var prev := JumboVars(planes, cells, n - 1);
      var added := if IsJumboPlane(planes[n - 1]) then [cells[n - 1]] else [];
      assert JumboVars(planes, cells, n) == prev + added;
      assert multiset(prev + added) == multiset(prev) + multiset(added);
      assert multiset(added)[c] == if IsJumboPlane(planes[n - 1]) && cells[n - 1] == c then 1 else 0;
    }
  }

  /** No jumbo stands on `c` exactly when the count is zero. */
  lemma {:induction false} JumbosOnMiss(planes: seq<Plane>, cells: seq<Pos>, n: nat, c: Pos)
    requires n <= |planes| == |cells|
    ensures JumbosOn(planes, cells, n, c) == 0 <==>
              forall i | 0 <= i < n && IsJumboPlane(planes[i]) :: cells[i] != c
  {
    if n > 0 {
      JumbosOnMiss(planes, cells, n - 1, c);
    }
  }

  /** At most one jumbo stands on `c` exactly when no two jumbos share it. */
  lemma {:induction false} JumbosOnOnce(planes: seq<Plane>, cells: seq<Pos>, n: nat, c: Pos)
    requires n <= |planes| == |cells|
    ensures JumbosOn(planes, cells, n, c) <= 1 <==> OneJumboOn(planes, cells, n, c)
  {
    if n > 0 {
      JumbosOnOnce(planes, cells, n - 1, c);
      JumbosOnMiss(planes, cells, n - 1, c);
      OneJumboOnStep(planes, cells, n, c);
    }
  }

  /** Adding aircraft `n - 1`: a second jumbo on `c` appears exactly when it is a jumbo on `c` after another. */
  lemma OneJumboOnStep(planes: seq<Plane>, cells: seq<Pos>, n: nat, c: Pos)
    requires 0 < n <= |planes| == |cells|
    ensures OneJumboOn(planes, cells, n, c) <==>
              && OneJumboOn(planes, cells, n - 1, c)
              && !(IsJumboPlane(planes[n - 1]) && cells[n - 1] == c &&
                   exists i | 0 <= i < n - 1 :: IsJumboPlane(planes[i]) && cells[i] == c)
  {
    var last := n - 1;
    if IsJumboPlane(planes[last]) && cells[last] == c && exists i | 0 <= i < n - 1 :: IsJumboPlane(planes[i]) && cells[i] == c {
      var i :| 0 <= i < n - 1 && IsJumboPlane(planes[i]) && cells[i] == c;
      assert !OneJumboOn(planes, cells, n, c) by {
        assert IsJumboPlane(planes[i]) && IsJumboPlane(planes[last]) && cells[i] == c && cells[last] == c;
      }
    }
  }

  /** `max_un_jumbo` bound to the workshop `taller`, over the jumbo variables only. */
  predicate MaxUnJumbo(args: seq<Pos>, taller: Pos) {
    Count(args, taller) <= 1
  }

  /** The jumbo limit of one slot, one `max_un_jumbo` per workshop. */
  predicate JumboCapacity(l: Layout, planes: seq<Plane>, cells: seq<Pos>)
    requires |planes| == |cells|
  {
    forall k | 0 <= k < |Talleres(l)| :: MaxUnJumbo(JumboVars(planes, cells, |planes|), Talleres(l)[k])
  }

  /** The jumbo limit holds exactly when no two jumbos share a workshop; they may share a parking. */
  lemma JumboCapacitySays(l: Layout, planes: seq<Plane>, cells: seq<Pos>)
    requires |planes| == |cells|
    ensures JumboCapacity(l, planes, cells) <==>
              forall c | c in Talleres(l) :: OneJumboOn(planes, cells, |planes|, c)
  {
    var ws := Talleres(l);
    var args := JumboVars(planes, cells, |planes|);
    forall k | 0 <= k < |ws| ensures MaxUnJumbo(args, ws[k]) <==> OneJumboOn(planes, cells, |planes|, ws[k]) {
      CountIsMultiplicity(args, ws[k]);
      JumboVarsCount(planes, cells, |planes|, ws[k]);
      JumbosOnOnce(planes, cells, |planes|, ws[k]);
    }
  }

  /** `especialista`: the cell is a specialist workshop. */
  predicate Especialista(l: Layout, c: Pos) {
    c in l.special
  }

  /** The specialist rule over an aircraft's slots from slot `f` on. */
  function SpecialistFrom(l: Layout, slots: seq<Pos>, f: nat): bool
    requires f <= |slots|
    decreases |slots| - f
  {
    if f == |slots| then true else Especialista(l, slots[f]) && SpecialistFrom(l, slots, f + 1)
  }

  /** A restricted aircraft's slots from `T2` to the last must each satisfy `especialista`; other aircraft are free. */
  function SpecialistRule(l: Layout, p: Plane, slots: seq<Pos>): bool {
    !p.restricted || p.t2 >= |slots| || SpecialistFrom(l, slots, p.t2)
  }

  lemma {:induction false} SpecialistFromSays(l: Layout, slots: seq<Pos>, f: nat)
    requires f <= |slots|
    ensures SpecialistFrom(l, slots, f) <==> forall s | f <= s < |slots| :: slots[s] in l.special
    decreases |slots| - f
  {
    if f < |slots| {
      SpecialistFromSays(l, slots, f + 1);
    }
  }

  /** The specialist rule holds exactly when a restricted aircraft is in a specialist workshop at every slot from `T2` on. */
  lemma SpecialistRuleSays(l: Layout, p: Plane, slots: seq<Pos>)
    ensures SpecialistRule(l, p, slots) <==> (p.restricted ==> forall s | p.t2 <= s < |slots| :: slots[s] in l.special)
  {
    if p.t2 < |slots| {
      SpecialistFromSays(l, slots, p.t2);
    }
  }

  /** `no_adyacentes`: more than one step apart. */
  predicate NoAdyacentes(a: Pos, b: Pos) {
    Abs(a.x - b.x) + Abs(a.y - b.y) > 1
  }

  /** The pairwise rule of one slot: aircraft with different identifiers stand more than one step apart. */
  predicate Separated(planes: seq<Plane>, cells: seq<Pos>)
    requires |planes| == |cells|
  {
    forall i, j | 0 <= i < |planes| && 0 <= j < |planes| && planes[i].id != planes[j].id :: NoAdyacentes(cells[i], cells[j])
  }

  predicate IdsDistinct(planes: seq<Plane>) {
    forall i, j | 0 <= i < j < |planes| :: planes[i].id != planes[j].id
  }

  /** With distinct identifiers, the pairwise rule puts every aircraft on its own cell with no aircraft next to it. */
  lemma SeparatedSays(planes: seq<Plane>, cells: seq<Pos>)
    requires |planes| == |cells| && IdsDistinct(planes)
    ensures Separated(planes, cells) <==>
              Distinct(cells) && forall i, j | 0 <= i < |cells| && 0 <= j < |cells| :: Manhattan(cells[i], cells[j]) != 1
  {
    if Separated(planes, cells) {
      forall i, j | 0 <= i < |cells| && 0 <= j < |cells| ensures Manhattan(cells[i], cells[j]) != 1 {
        if i != j {
          assert planes[i].id != planes[j].id;
          assert NoAdyacentes(cells[i], cells[j]);
        }
      }
    }
    if Distinct(cells) && forall i, j | 0 <= i < |cells| && 0 <= j < |cells| :: Manhattan(cells[i], cells[j]) != 1 {
      forall i, j | 0 <= i < |planes| && 0 <= j < |planes| && planes[i].id != planes[j].id
        ensures NoAdyacentes(cells[i], cells[j])
      {
        if i < j {
          assert cells[i] != cells[j];
        } else {
          assert cells[j] != cells[i];
        }
        assert Manhattan(cells[i], cells[j]) != 1;
      }
    }
  }

  /** Distinct cells occur once each. */
  lemma {:induction false} DistinctOnce(cells: seq<Pos>, c: Pos)
    requires Distinct(cells)
    ensures multiset(cells)[c] <= 1
  {
    if |cells| > 0 {
      DistinctCons(cells);
      DistinctOnce(cells[1..], c);
      assert cells == [cells[0]] + cells[1..];
    }
  }

  /** A separated slot meets the capacity limit of every version. */
  lemma SeparatedWithinCapacity(l: Layout, planes: seq<Plane>, cells: seq<Pos>)
    requires |planes| == |cells| && IdsDistinct(planes) && Separated(planes, cells)
    ensures AtMostTwoEach(cells) && Capacity(l, cells)
  {
    SeparatedSays(planes, cells);
    forall c | c in cells ensures multiset(cells)[c] <= 2 {
      DistinctOnce(cells, c);
    }
    CapacityOfAtMostTwo(l, cells);
  }

  /** The label the results file gives a cell: standard first, then specialist, then parking, else unknown. */
  function RootLabel(l: Layout, c: Pos): Label {
    if c in l.standard then STD
    else if c in l.special then SPC
    else if c in l.parking then PRK
    else UNK
  }

  /**
   * This version's label agrees with the other versions' exactly for a layout cell that is not
   * both a standard and a specialist workshop; the other versions label every other cell a parking.
   */
  lemma RootLabelAgrees(l: Layout, c: Pos)
    ensures RootLabel(l, c) == LabelOf(l, c) <==> InDomain(l, c) && !(c in l.standard && c in l.special)
    ensures RootLabel(l, c) == UNK <==> !InDomain(l, c)
  {
  }
}
