/** Orm::generateSqlComponents: destinations sorted into class
    destinations and waypoints, a route chosen (from an explicit chain, the
    one-class shortcut, or the best route over every ordering of the
    destinations after the first) and the route compiled. */
module Generate {
  import opened Wrappers
  import opened Strings
  import opened Names
  import opened Schema
  import opened Registry
  import opened Destinations
  import opened Router
  import opened Combos
  import opened Chains
  import opened Compiler

  const NoClassMessage: string := "Must set \"class\" variable for destinations"
  const NoDestinationsMessage: string := "Must supply one or more destinations"
  const NoRouteMessage: string := "Could not calculate a valid route for this combination of destinations"
  /** What PHP reports when comboRecurse produced no combinations and
      `$combos` (still NULL) reaches getRoute's `array` type hint. */
  const NullCombosMessage: string := "Argument 2 passed to Orm::getRoute() must be an array, null given"

  // ------------------------------------------------ sorting the destinations

  /** `$class_dests` and `$waypoints`. */
  datatype Sorted = Sorted(classDests: seq<Dest>, waypoints: seq<Spec>)

  /** The waypoints one destination adds: its alias when it is a
      registered class with an alias other than the anchor, and its class
      when it is a registered relationship. */
  function WaypointsOf(st: SchemaState, d: Dest): seq<Spec> {
    (if IsClass(st, ClassOf(d)) && d.alias.Some? && d.alias.value != AliasAnchor then [RuleSpec(None, None, d.alias)] else [])
    + (if IsIRelationship(st, ClassOf(d)) then [RuleSpec(None, None, d.cls)] else [])
  }

  /** The destination loop: every destination must name a class; the
      registered relationships become waypoints, everything else a class
      destination. */
  function SortDests(st: SchemaState, ds: seq<Dest>): Result<Sorted>
    decreases |ds|
  {
    if |ds| == 0 then Ok(Sorted([], []))
    else
      var s :- SortDests(st, ds[..|ds| - 1]);
      var d := ds[|ds| - 1];
      if d.cls.None? then Err(InputError(NoClassMessage))
      else Ok(Sorted(s.classDests + (if IsIRelationship(st, d.cls.value) then [] else [d]), s.waypoints + WaypointsOf(st, d)))
  }

  /** The loop fails exactly when a destination names no class. */
  lemma {:induction false} SortDestsFails(st: SchemaState, ds: seq<Dest>)
    ensures SortDests(st, ds).Ok? <==> forall k | 0 <= k < |ds| :: ds[k].cls.Some?
    ensures SortDests(st, ds).Err? ==> SortDests(st, ds) == Err(InputError(NoClassMessage))
    decreases |ds|
  {
    if |ds| > 0 {
      var init := ds[..|ds| - 1];
      SortDestsFails(st, init);
      assert forall k | 0 <= k < |init| :: init[k] == ds[k];
    }
  }

  /** One more destination adds itself to the class destinations unless
      it is a registered relationship, and adds its waypoints. */
  lemma SortDestsSnoc(st: SchemaState, ds: seq<Dest>)
    requires |ds| > 0 && SortDests(st, ds).Ok?
    ensures var s0 := SortDests(st, ds[..|ds| - 1]); var s := SortDests(st, ds).value; var d := ds[|ds| - 1];
      s0.Ok? && d.cls.Some?
      && s.classDests == s0.value.classDests + (if IsIRelationship(st, ClassOf(d)) then [] else [d])
      && s.waypoints == s0.value.waypoints + WaypointsOf(st, d)
  {
  }

  /** The class destinations are the destinations that are not registered
      relationships, in their order. */
  lemma {:induction false} SortDestsClasses(st: SchemaState, ds: seq<Dest>)
    requires SortDests(st, ds).Ok?
    ensures var s := SortDests(st, ds).value;
      (forall d | d in s.classDests :: d in ds && !IsIRelationship(st, ClassOf(d)))
      && (forall k | 0 <= k < |ds| :: !IsIRelationship(st, ClassOf(ds[k])) ==> ds[k] in s.classDests)
    decreases |ds|
  {
    if |ds| > 0 {
      var init := ds[..|ds| - 1];
      SortDestsSnoc(st, ds);
      SortDestsClasses(st, init);
      assert forall k | 0 <= k < |init| :: init[k] == ds[k];
    }
  }

  /** A first destination that is not a registered relationship is the
      first class destination. */
  lemma {:induction false} SortDestsHead(st: SchemaState, ds: seq<Dest>)
    requires SortDests(st, ds).Ok? && |ds| > 0 && !IsIRelationship(st, ClassOf(ds[0]))
    ensures |SortDests(st, ds).value.classDests| > 0 && SortDests(st, ds).value.classDests[0] == ds[0]
    decreases |ds|
  {
    var init := ds[..|ds| - 1];
    SortDestsSnoc(st, ds);
    if |init| > 0 {
      assert init[0] == ds[0];
      SortDestsHead(st, init);
    }
  }

  /** Every waypoint stipulates only an alias: a destination's alias, or
      the name of a registered relationship. */
  lemma {:induction false} SortDestsWaypoints(st: SchemaState, ds: seq<Dest>)
    requires SortDests(st, ds).Ok?
    ensures forall w | w in SortDests(st, ds).value.waypoints ::
      w.RuleSpec? && w.input.None? && w.output.None? && w.alias.Some?
      && exists k | 0 <= k < |ds| :: w.alias == ds[k].alias || (w.alias == ds[k].cls && IsIRelationship(st, ClassOf(ds[k])))
    decreases |ds|
  {
    if |ds| > 0 {
      var init := ds[..|ds| - 1];
      SortDestsSnoc(st, ds);
      SortDestsWaypoints(st, init);
      assert forall k | 0 <= k < |init| :: init[k] == ds[k];
      var d := ds[|ds| - 1];
      forall w | w in WaypointsOf(st, d)
        ensures w.RuleSpec? && w.input.None? && w.output.None? && w.alias.Some?
        && (w.alias == d.alias || (w.alias == d.cls && IsIRelationship(st, ClassOf(d))))
      {
      }
    }
  }

  // ------------------------------------------------ choosing the route

  /** rshipRespecify: a registered relationship becomes a specification of
      its relationship, any other class stays a class name. */
  function Respecify(st: SchemaState, c: string): Spec {
    if IsIRelationship(st, c) then RelationshipSpec(c) else NameSpec(c)
  }

  /** The classes of the class destinations after the first. */
  function TailClasses(cd: seq<Dest>): (r: seq<string>)
    requires |cd| > 0
    ensures |r| == |cd| - 1 && forall k | 0 <= k < |r| :: r[k] == ClassOf(cd[k + 1])
  {
    seq(|cd| - 1, k requires 0 <= k < |cd| - 1 => ClassOf(cd[k + 1]))
  }

  /** anchorInput then rshipRespecifyArray on every combination: the first
      class in front, every class respecified. */
  function Anchored(st: SchemaState, head: string, combos: seq<seq<string>>): (r: seq<seq<Spec>>)
    ensures |r| == |combos|
    ensures forall k | 0 <= k < |r| ::
      |r[k]| == |combos[k]| + 1 && r[k][0] == Respecify(st, head)
      && forall j | 0 <= j < |combos[k]| :: r[k][j + 1] == Respecify(st, combos[k][j])
  {
    seq(|combos|, k requires 0 <= k < |combos| =>
      [Respecify(st, head)] + seq(|combos[k]|, j requires 0 <= j < |combos[k]| => Respecify(st, combos[k][j])))
  }

  /** The combinations getRoute searches: every ordering of the other
      classes, behind the first class. */
  function CombosFor(st: SchemaState, cd: seq<Dest>): (r: seq<seq<Spec>>)
    requires |cd| > 1
    ensures forall k | 0 <= k < |r| :: |r[k]| >= 2
  {
    var tail := TailClasses(cd);
    PermsSound(tail, []);
    Anchored(st, ClassOf(cd[0]), Perms(tail, []))
  }

  /** The route: the chain's, when a truthy chain is given; the one-rule
      route from the only class to itself over the anchor; or the best
      route found for the combinations. */
  function Plan(st: SchemaState, s: Sorted, dests: seq<Dest>, chain: Option<string>): Result<seq<Rule>> {
    if |s.classDests| == 0 then Err(InputError(NoDestinationsMessage))
    else if Truthy(chain) then ChainRoute(st, chain.value, dests)
    else if |s.classDests| == 1 then
      var head := ClassOf(s.classDests[0]);
      Ok([Rule(head, head, AliasAnchor, [])])
    else ComboPlan(st, s)
  }

  /** The search over the combinations: comboRecurse, anchorInput,
      rshipRespecifyArray and getRoute. */
  function ComboPlan(st: SchemaState, s: Sorted): Result<seq<Rule>>
    requires |s.classDests| > 1
  {
    var combos := CombosFor(st, s.classDests);
    if |combos| == 0 then Err(FatalError(NullCombosMessage))
    else
      var routes := RoutesOf(st.rules, combos, s.waypoints);
      if |routes| == 0 then Err(InputError(NoRouteMessage)) else Ok(Best(routes))
  }

  /** Orm::generateSqlComponents as a value. */
  function Generated(st: SchemaState, cat: Catalog, dests: seq<Dest>, chain: Option<string>): Result<Compiled> {
    var s :- SortDests(st, dests);
    var route :- Plan(st, s, dests, chain);
    CompileSql(st, cat, route, dests, s.classDests)
  }

  // ------------------------------------------------ what the plan promises

  /** With several class destinations (and no chain) the route is one found for some ordering of the other classes behind the first,
      through the waypoints, and no route for any ordering is preferred to
      it; there is none exactly when no ordering has a route. */
  lemma PlanBest(st: SchemaState, s: Sorted, combos: seq<seq<Spec>>, r: Result<seq<Rule>>)
    requires |s.classDests| > 1 && NoDup(TailClasses(s.classDests))
    requires combos == CombosFor(st, s.classDests) && r == ComboPlan(st, s)
    ensures r == Err(InputError(NoRouteMessage)) <==>
      forall k | 0 <= k < |combos| :: ComboRoute(st.rules, combos[k], s.waypoints).None?
    ensures r.Ok? ==> exists k | 0 <= k < |combos| :: ComboRoute(st.rules, combos[k], s.waypoints) == Some(r.value)
    ensures r.Ok? ==> forall k, p | 0 <= k < |combos| && IsRoute(st.rules, combos[k][0], combos[k][|combos[k]| - 1],
                                                                combos[k][1..|combos[k]| - 1] + s.waypoints, p) ::
      NoWorse(r.value, p)
  {
    var tail := TailClasses(s.classDests);
    CombosAreOrderings(tail);
    FactPositive(|tail|);
    GetRouteBest(st.rules, combos, s.waypoints);
  }

  lemma {:induction false} FactPositive(n: nat)
    ensures Fact(n) > 0
  {
    if n > 0 {
      FactPositive(n - 1);
    }
  }

  /** The combinations are exactly the orderings of the other classes,
      anchored at the first class. */
  lemma CombosAreAnchoredOrderings(st: SchemaState, cd: seq<Dest>, c: seq<string>)
    requires |cd| > 1 && NoDup(TailClasses(cd))
    ensures IsOrdering(TailClasses(cd), c) <==>
      exists k | 0 <= k < |Perms(TailClasses(cd), [])| :: Perms(TailClasses(cd), [])[k] == c
    ensures forall k | 0 <= k < |CombosFor(st, cd)| :: CombosFor(st, cd)[k][0] == Respecify(st, ClassOf(cd[0]))
  {
    var tail := TailClasses(cd);
    CombosAreOrderings(tail);
    if IsOrdering(tail, c) {
      OrderingsAreCombos(tail, c);
    }
  }

  /** A repeated class among the other destinations leaves comboRecurse
      without any combination, which getRoute's type hint refuses. */
  lemma RepeatedClassIsFatal(st: SchemaState, s: Sorted)
    requires |s.classDests| > 1 && !NoDup(TailClasses(s.classDests))
    ensures ComboPlan(st, s) == Err(FatalError(NullCombosMessage))
  {
    CombosOfRepeatedItems(TailClasses(s.classDests));
  }

  /** One class destination without a chain is compiled from the single
      rule from that class to itself over the anchor. */
  lemma SingleClassRoute(st: SchemaState, s: Sorted, dests: seq<Dest>, chain: Option<string>)
    requires |s.classDests| == 1 && !Truthy(chain)
    ensures var c := ClassOf(s.classDests[0]);
      Plan(st, s, dests, chain) == Ok([Rule(c, c, AliasAnchor, [])])
  {
  }

  /** A destination without a class, or no class destination, fails before
      any route is looked at. */
  lemma GeneratedErrors(st: SchemaState, cat: Catalog, dests: seq<Dest>, chain: Option<string>)
    ensures (exists k | 0 <= k < |dests| :: dests[k].cls.None?) ==>
      Generated(st, cat, dests, chain) == Err(InputError(NoClassMessage))
    ensures (forall k | 0 <= k < |dests| :: dests[k].cls.Some? && IsIRelationship(st, ClassOf(dests[k]))) ==>
      Generated(st, cat, dests, chain) == Err(InputError(NoDestinationsMessage))
  {
    SortDestsFails(st, dests);
    if SortDests(st, dests).Ok? {
      SortDestsClasses(st, dests);
      var s := SortDests(st, dests).value;
      if |s.classDests| > 0 {
        assert s.classDests[0] in s.classDests;
      }
    }
  }

  // ------------------------------------------------ the method

  /** A destination without a class stops the loop, whatever follows it. */
  lemma {:induction false} SortDestsStops(st: SchemaState, ds: seq<Dest>, n: nat)
    requires n <= |ds| && SortDests(st, ds[..n]).Err?
    ensures SortDests(st, ds) == SortDests(st, ds[..n])
    decreases |ds| - n
  {
    if n < |ds| {
      assert ds[..|ds| - 1][..n] == ds[..n];
      SortDestsStops(st, ds[..|ds| - 1], n);
    } else {
      assert ds[..n] == ds;
    }
  }

  /** The destination loop of Orm::generateSqlComponents. */
  method SortDestinations(st: SchemaState, dests: seq<Dest>) returns (r: Result<Sorted>)
    ensures r == SortDests(st, dests)
  {
    var classDests: seq<Dest> := [];
    var waypoints: seq<Spec> := [];
    for i := 0 to |dests|
      invariant SortDests(st, dests[..i]) == Ok(Sorted(classDests, waypoints))
    {
      var d := dests[i];
      assert dests[..i + 1][..i] == dests[..i];
      if d.cls.None? {
        SortDestsStops(st, dests, i + 1);
        return Err(InputError(NoClassMessage));
      }
      waypoints := waypoints + WaypointsOf(st, d);
      if !IsIRelationship(st, d.cls.value) {
        classDests := classDests + [d];
      } else {
        assert classDests + [] == classDests;
      }
    }
    assert dests[..|dests|] == dests;
    return Ok(Sorted(classDests, waypoints));
  }

  /** The choice of the route in Orm::generateSqlComponents. */
  method ChooseRoute(st: SchemaState, s: Sorted, dests: seq<Dest>, chain: Option<string>) returns (r: Result<seq<Rule>>)
    ensures r == Plan(st, s, dests, chain)
  {
    if |s.classDests| == 0 {
      return Err(InputError(NoDestinationsMessage));
    }
    if Truthy(chain) {
      r := RouteFromChain(st, chain.value, dests);
    } else if |s.classDests| == 1 {
      var head := ClassOf(s.classDests[0]);
      r := Ok([Rule(head, head, AliasAnchor, [])]);
    } else {
      r := SearchRoute(st, s);
    }
  }

  /** The search branch of Orm::generateSqlComponents. */
  method SearchRoute(st: SchemaState, s: Sorted) returns (r: Result<seq<Rule>>)
    requires |s.classDests| > 1
    ensures r == ComboPlan(st, s)
  {
    var tail := TailClasses(s.classDests);
    var orderings := ComboRecurse(tail, [], []);
    var combos := Anchored(st, ClassOf(s.classDests[0]), orderings);
    assert combos == CombosFor(st, s.classDests);
    if |combos| == 0 {
      return Err(FatalError(NullCombosMessage));
    }
    var best := GetRoute(st.rules, combos, s.waypoints);
    if best.None? {
      return Err(InputError(NoRouteMessage));
    }
    r := Ok(best.value);
  }

  /** Orm::generateSqlComponents. */
  method GenerateSqlComponents(st: SchemaState, cat: Catalog, dests: seq<Dest>, chain: Option<string>)
    returns (r: Result<Compiled>)
    ensures r == Generated(st, cat, dests, chain)
  {
    var s := SortDestinations(st, dests);
    if s.Err? {
      return Err(s.error);
    }
    var route := ChooseRoute(st, s.value, dests, chain);
    if route.Err? {
      return Err(route.error);
    }
    r := SqlFromRoute(st, cat, route.value, dests, s.value.classDests);
  }
}
