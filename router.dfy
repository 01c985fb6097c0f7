/** The router of Orm: Orm::isMatch, the depth-first search of
    Orm::routeRecurse and the preference order of Orm::sizeCompare.

    A route is a sequence of schema rules. The search starts from every rule
    matching the input specification, extends a route only by a rule that
    shares an end with its last rule and is not on it yet, records a route as
    soon as its last rule matches the output specification (and only when
    every waypoint is met somewhere on it), and never extends it further. */
module Router {
  import opened Wrappers
  import opened Strings
  import opened Schema

  /** A route specification as the router receives it: a class name, which
      matches either end of a rule; an object stipulating any of input,
      output and alias (the rule's relationship); an object holding only a
      `relationship` field, which is what Orm::rshipRespecify builds; or an
      array of alternatives. */
  datatype Spec =
    | NameSpec(name: string)
    | RuleSpec(input: Option<string>, output: Option<string>, alias: Option<string>)
    | RelationshipSpec(relationship: string)
    | AnySpec(alternatives: seq<Spec>)

  const SpecsMessage := "Specs must be either strings, objects or arrays of objects"
  const RuleMessage := "Rule must be an object with properties input, output, relationship all set"

  predicate FieldMatches(field: Option<string>, value: string) {
    field.None? || field.value == value
  }

  /** Orm::isMatch as its author meant it: an array of specifications is an
      "or" over its alternatives. An object without input, output or alias
      stipulates nothing and so matches every rule. */
  predicate IsMatch(rule: Rule, spec: Spec)
    decreases spec
  {
    match spec
    case NameSpec(n) => n == rule.input || n == rule.output
    case RuleSpec(i, o, a) =>
      FieldMatches(i, rule.input) && FieldMatches(o, rule.output) && FieldMatches(a, rule.relationship)
    case RelationshipSpec(_) => true
    case AnySpec(alts) => exists k | 0 <= k < |alts| :: IsMatch(rule, alts[k])
  }

  /** Orm::isMatch as written. The recursive call for an array passes the
      alternative as the rule and no specification, so the rule check throws
      (no alternative is an object carrying a relationship field); an empty
      array skips the loop and reaches the object check, which throws too. */
  function IsMatchAsWritten(rule: Rule, spec: Spec): (r: Result<bool>)
    ensures r.Err? <==> spec.AnySpec?
    ensures r.Ok? ==> r.value == IsMatch(rule, spec)
  {
    match spec
    case NameSpec(n) => Ok(n == rule.input || n == rule.output)
    case RuleSpec(i, o, a) =>
      Ok(FieldMatches(i, rule.input) && FieldMatches(o, rule.output) && FieldMatches(a, rule.relationship))
    case RelationshipSpec(_) => Ok(true)
    case AnySpec(alts) => if |alts| == 0 then Err(OrmError(SpecsMessage)) else Err(OrmError(RuleMessage))
  }

  /** The array alternative {input: A} or {output: A} matches a rule exactly
      when the class name A does, which the written code never reaches. */
  lemma NameAsAlternatives(rule: Rule, n: string)
    ensures IsMatch(rule, AnySpec([RuleSpec(Some(n), None, None), RuleSpec(None, Some(n), None)]))
      == IsMatch(rule, NameSpec(n))
    ensures IsMatchAsWritten(rule, AnySpec([RuleSpec(Some(n), None, None), RuleSpec(None, Some(n), None)])).Err?
  {
    var alts := [RuleSpec(Some(n), None, None), RuleSpec(None, Some(n), None)];
    assert IsMatch(rule, alts[0]) == (n == rule.input);
    assert IsMatch(rule, alts[1]) == (n == rule.output);
  }

  /** A waypoint given as an array is cast to an object; its numeric keys
      stipulate none of input, output and alias. */
  function WaypointSpec(s: Spec): Spec {
    if s.AnySpec? then RuleSpec(None, None, None) else s
  }

  /** A rule may follow `test` on a route when the two share an end. */
  predicate Adjacent(test: Rule, rule: Rule) {
    test.input == rule.input || test.input == rule.output
    || test.output == rule.input || test.output == rule.output
  }

  predicate Covers(path: seq<Rule>, spec: Spec) {
    exists k | 0 <= k < |path| :: IsMatch(path[k], WaypointSpec(spec))
  }

  predicate CoversAll(path: seq<Rule>, waypoints: seq<Spec>) {
    forall j | 0 <= j < |waypoints| :: Covers(path, waypoints[j])
  }

  /** The rules a route could still be extended by. */
  function Unused(rules: seq<Rule>, path: seq<Rule>): set<Rule> {
    set r | r in rules && r !in path
  }

  lemma UnusedShrinks(rules: seq<Rule>, path: seq<Rule>, r: Rule)
    requires r in rules && r !in path
    ensures Unused(rules, path + [r]) < Unused(rules, path)
  {
    assert r in Unused(rules, path);
    assert r !in Unused(rules, path + [r]);
  }

  // ------------------------------------------------------- the search

  /** The routes recorded from a route in progress, in the order of the
      depth-first search. */
  function Found(rules: seq<Rule>, output: Spec, waypoints: seq<Spec>, path: seq<Rule>): seq<seq<Rule>>
    requires |path| > 0
    decreases Unused(rules, path), |rules| + 1
  {
    if IsMatch(path[|path| - 1], output) then
      if CoversAll(path, waypoints) then [path] else []
    else FoundFrom(rules, output, waypoints, path, 0)
  }

  /** The routes recorded from the extensions by rules[i..]. */
  function FoundFrom(rules: seq<Rule>, output: Spec, waypoints: seq<Spec>, path: seq<Rule>, i: nat): seq<seq<Rule>>
    requires |path| > 0 && i <= |rules|
    decreases Unused(rules, path), |rules| - i
  {
    if i == |rules| then []
    else
      var r := rules[i];
      (if Adjacent(path[|path| - 1], r) && r !in path then
         UnusedShrinks(rules, path, r);
         Found(rules, output, waypoints, path + [r])
       else [])
      + FoundFrom(rules, output, waypoints, path, i + 1)
  }

  /** The routes recorded from the rules[i..] that match the input. */
  function StartFrom(rules: seq<Rule>, input: Spec, output: Spec, waypoints: seq<Spec>, i: nat): seq<seq<Rule>>
    requires i <= |rules|
    decreases |rules| - i
  {
    if i == |rules| then []
    else
      (if IsMatch(rules[i], input) then Found(rules, output, waypoints, [rules[i]]) else [])
      + StartFrom(rules, input, output, waypoints, i + 1)
  }

  /** Every route Orm::routeRecurse records, in the order it records them. */
  function Candidates(rules: seq<Rule>, input: Spec, output: Spec, waypoints: seq<Spec>): seq<seq<Rule>> {
    StartFrom(rules, input, output, waypoints, 0)
  }

  // ------------------------------------------------ what a route is

  predicate Linked(p: seq<Rule>) {
    forall k | 0 < k < |p| :: Adjacent(p[k - 1], p[k])
  }

  predicate Within(p: seq<Rule>, rules: seq<Rule>) {
    forall k | 0 <= k < |p| :: p[k] in rules
  }

  /** No rule before the last matches the output. */
  predicate StopsAtOutput(p: seq<Rule>, output: Spec) {
    forall k | 0 <= k < |p| - 1 :: !IsMatch(p[k], output)
  }

  /** A route in progress, as the search holds it. */
  predicate Partial(rules: seq<Rule>, output: Spec, path: seq<Rule>) {
    |path| > 0 && Linked(path) && NoDup(path) && Within(path, rules) && StopsAtOutput(path, output)
  }

  /** A complete route from `input` to `output` through the waypoints. */
  predicate IsRoute(rules: seq<Rule>, input: Spec, output: Spec, waypoints: seq<Spec>, p: seq<Rule>) {
    Partial(rules, output, p) && IsMatch(p[0], input) && IsMatch(p[|p| - 1], output)
    && CoversAll(p, waypoints)
  }

  /** A route extended by one unused rule adjacent to its end is still in
      progress, or complete. */
  lemma PartialExtend(rules: seq<Rule>, output: Spec, path: seq<Rule>, r: Rule)
    requires Partial(rules, output, path) && !IsMatch(path[|path| - 1], output)
    requires r in rules && r !in path && Adjacent(path[|path| - 1], r)
    ensures Partial(rules, output, path + [r])
  {
    var q := path + [r];
    forall k | 0 < k < |q| ensures Adjacent(q[k - 1], q[k]) {
      if k < |path| {
        assert q[k - 1] == path[k - 1] && q[k] == path[k];
      }
    }
    NoDupSnoc(path, r);
    forall k | 0 <= k < |q| - 1 ensures !IsMatch(q[k], output) {
      assert q[k] == path[k];
    }
  }

  lemma {:induction false} FoundSound(rules: seq<Rule>, output: Spec, waypoints: seq<Spec>, path: seq<Rule>)
    requires Partial(rules, output, path)
    ensures forall p | p in Found(rules, output, waypoints, path) ::
      Partial(rules, output, p) && |p| >= |path| && p[..|path|] == path
      && IsMatch(p[|p| - 1], output) && CoversAll(p, waypoints)
    decreases Unused(rules, path), |rules| + 1
  {
    if !IsMatch(path[|path| - 1], output) {
      FoundFromSound(rules, output, waypoints, path, 0);
    }
  }

  lemma {:induction false} FoundFromSound(rules: seq<Rule>, output: Spec, waypoints: seq<Spec>, path: seq<Rule>, i: nat)
    requires Partial(rules, output, path) && !IsMatch(path[|path| - 1], output) && i <= |rules|
    ensures forall p | p in FoundFrom(rules, output, waypoints, path, i) ::
      Partial(rules, output, p) && |p| >= |path| && p[..|path|] == path
      && IsMatch(p[|p| - 1], output) && CoversAll(p, waypoints)
    decreases Unused(rules, path), |rules| - i
  {
    if i < |rules| {
      var r := rules[i];
      FoundFromSound(rules, output, waypoints, path, i + 1);
      if Adjacent(path[|path| - 1], r) && r !in path {
        UnusedShrinks(rules, path, r);
        PartialExtend(rules, output, path, r);
        var q := path + [r];
        FoundSound(rules, output, waypoints, q);
        forall p | p in Found(rules, output, waypoints, q) ensures p[..|path|] == path {
          assert p[..|path|] == p[..|q|][..|path|];
        }
      }
    }
  }

  /** Every recorded route is a route: it starts at the input, each rule
      shares an end with the one before, no rule repeats, every rule is in
      the schema, it ends at the first rule matching the output, and every
      waypoint is met on it. */
  lemma CandidatesAreRoutes(rules: seq<Rule>, input: Spec, output: Spec, waypoints: seq<Spec>)
    ensures forall p | p in Candidates(rules, input, output, waypoints) :: IsRoute(rules, input, output, waypoints, p)
  {
    StartFromSound(rules, input, output, waypoints, 0);
  }

  lemma {:induction false} StartFromSound(rules: seq<Rule>, input: Spec, output: Spec, waypoints: seq<Spec>, i: nat)
    requires i <= |rules|
    ensures forall p | p in StartFrom(rules, input, output, waypoints, i) :: IsRoute(rules, input, output, waypoints, p)
    decreases |rules| - i
  {
    if i < |rules| {
      StartFromSound(rules, input, output, waypoints, i + 1);
      if IsMatch(rules[i], input) {
        var start := [rules[i]];
        assert Partial(rules, output, start);
        FoundSound(rules, output, waypoints, start);
        forall p | p in Found(rules, output, waypoints, start) ensures p[0] == rules[i] {
          assert p[0] == p[..1][0];
        }
      }
    }
  }

  /** The extensions by rules[i..] include those by rules[j] for j >= i. */
  lemma {:induction false} FoundFromIncludes(rules: seq<Rule>, output: Spec, waypoints: seq<Spec>, path: seq<Rule>, i: nat, j: nat, p: seq<Rule>)
    requires |path| > 0 && i <= j < |rules|
    requires Adjacent(path[|path| - 1], rules[j]) && rules[j] !in path
    requires p in Found(rules, output, waypoints, path + [rules[j]])
    ensures p in FoundFrom(rules, output, waypoints, path, i)
    decreases j - i
  {
    if i < j {
      FoundFromIncludes(rules, output, waypoints, path, i + 1, j, p);
    }
  }

  /** Conversely the search records every route extending a route in
      progress. */
  lemma {:induction false} FoundComplete(rules: seq<Rule>, output: Spec, waypoints: seq<Spec>, path: seq<Rule>, p: seq<Rule>)
    requires Partial(rules, output, p) && IsMatch(p[|p| - 1], output) && CoversAll(p, waypoints)
    requires 0 < |path| <= |p| && p[..|path|] == path
    ensures p in Found(rules, output, waypoints, path)
    decreases |p| - |path|
  {
    var m := |path|;
    if m == |p| {
      assert path == p;
    } else {
      assert path[m - 1] == p[m - 1];
      assert !IsMatch(path[m - 1], output);
      var r := p[m];
      assert Adjacent(path[m - 1], r);
      assert r !in path by {
        forall k | 0 <= k < m ensures path[k] != r {
          assert path[k] == p[k];
        }
      }
      assert r in rules;
      var j :| 0 <= j < |rules| && rules[j] == r;
      var q := path + [r];
      assert p[..m + 1] == q;
      UnusedShrinks(rules, path, r);
      FoundComplete(rules, output, waypoints, q, p);
      FoundFromIncludes(rules, output, waypoints, path, 0, j, p);
    }
  }

  lemma {:induction false} StartFromIncludes(rules: seq<Rule>, input: Spec, output: Spec, waypoints: seq<Spec>, i: nat, j: nat, p: seq<Rule>)
    requires i <= j < |rules| && IsMatch(rules[j], input)
    requires p in Found(rules, output, waypoints, [rules[j]])
    ensures p in StartFrom(rules, input, output, waypoints, i)
    decreases j - i
  {
    if i < j {
      StartFromIncludes(rules, input, output, waypoints, i + 1, j, p);
    }
  }

  /** A sequence of rules is recorded by the search exactly when it is a
      route. */
  lemma CandidatesExact(rules: seq<Rule>, input: Spec, output: Spec, waypoints: seq<Spec>, p: seq<Rule>)
    ensures p in Candidates(rules, input, output, waypoints) <==> IsRoute(rules, input, output, waypoints, p)
  {
    CandidatesAreRoutes(rules, input, output, waypoints);
    if IsRoute(rules, input, output, waypoints, p) {
      var j :| 0 <= j < |rules| && rules[j] == p[0];
      assert p[..1] == [rules[j]];
      FoundComplete(rules, output, waypoints, [rules[j]], p);
      StartFromIncludes(rules, input, output, waypoints, 0, j, p);
    }
  }

  // -------------------------------------------- the preference order

  /** The classes a route touches, input then output of every rule. */
  function Ends(p: seq<Rule>): (e: seq<string>)
    ensures |e| == 2 * |p|
  {
    if |p| == 0 then [] else Ends(p[..|p| - 1]) + [p[|p| - 1].input, p[|p| - 1].output]
  }

  /** The number of distinct classes a route touches. */
  function Distinct(p: seq<Rule>): nat {
    |Dedup(Ends(p))|
  }

  /** Orm::sizeCompare: positive when `a` is preferred to `b`. */
  function SizeCompare(a: seq<Rule>, b: seq<Rule>): int {
    var diff := |b| - |a|;
    if diff != 0 then diff else Distinct(b) - Distinct(a)
  }

  /** `a` is at least as good as `b`: shorter, or as long while touching no
      more distinct classes. */
  predicate NoWorse(a: seq<Rule>, b: seq<Rule>) {
    |a| < |b| || (|a| == |b| && Distinct(a) <= Distinct(b))
  }

  lemma SizeCompareOrder(a: seq<Rule>, b: seq<Rule>)
    ensures SizeCompare(a, b) >= 0 <==> NoWorse(a, b)
    ensures SizeCompare(a, b) == -SizeCompare(b, a)
    ensures SizeCompare(a, a) == 0
  {
  }

  /** What usort with sizeCompare followed by array_pop returns: a most
      preferred path. Among equally preferred paths it takes the last one
      found, as a stable sort would leave it. */
  function Best(paths: seq<seq<Rule>>): (b: seq<Rule>)
    requires |paths| > 0
    ensures b in paths
    ensures forall q | q in paths :: NoWorse(b, q)
  {
    if |paths| == 1 then paths[0]
    else
      var init := paths[..|paths| - 1];
      var last := paths[|paths| - 1];
      var b := Best(init);
      assert forall q | q in paths :: q in init || q == last;
      if SizeCompare(last, b) >= 0 then last else b
  }

  // ------------------------------------------------ Orm::routeRecurse

  lemma ConcatAssoc<T>(a: seq<T>, b: seq<T>, c: seq<T>)
    ensures (a + b) + c == a + (b + c)
  {
  }

  /** The waypoint loop of Orm::routeRecurse: every waypoint must be matched
      by some rule on the path. */
  method WaypointsMatched(path: seq<Rule>, waypoints: seq<Spec>) returns (ok: bool)
    requires |path| > 0
    ensures ok == CoversAll(path, waypoints)
  {
    var j := 0;
    while j < |waypoints|
      invariant 0 <= j <= |waypoints|
      invariant forall j' | 0 <= j' < j :: Covers(path, waypoints[j'])
    {
      var spec := WaypointSpec(waypoints[j]);
      var matched := true;
      var k := 0;
      while k < |path|
        invariant 0 <= k <= |path|
        invariant forall k' | 0 <= k' < k :: !IsMatch(path[k'], spec)
        invariant k == 0 ==> matched
        invariant k > 0 ==> !matched
      {
        matched := IsMatch(path[k], spec);
        if matched {
          break;
        }
        k := k + 1;
      }
      if !matched {
        return false;
      }
      j := j + 1;
    }
    return true;
  }

  /** The recursive branch of Orm::routeRecurse: appends to `paths` every
      route recorded from `path`. */
  method Explore(rules: seq<Rule>, output: Spec, waypoints: seq<Spec>, path: seq<Rule>, paths: seq<seq<Rule>>)
    returns (result: seq<seq<Rule>>)
    requires |path| > 0
    ensures result == paths + Found(rules, output, waypoints, path)
    decreases Unused(rules, path)
  {
    var test := path[|path| - 1];
    if IsMatch(test, output) {
      var ok := WaypointsMatched(path, waypoints);
      if !ok {
        return paths;
      }
      return paths + [path];
    }
    result := paths;
    var i := 0;
    while i < |rules|
      invariant 0 <= i <= |rules|
      invariant result + FoundFrom(rules, output, waypoints, path, i) == paths + Found(rules, output, waypoints, path)
    {
      var rule := rules[i];
      ghost var before := result;
      ghost var step := if Adjacent(test, rule) && rule !in path then Found(rules, output, waypoints, path + [rule]) else [];
      if Adjacent(test, rule) && rule !in path {
        UnusedShrinks(rules, path, rule);
        result := Explore(rules, output, waypoints, path + [rule], result);
      }
      assert result == before + step;
      ConcatAssoc(before, step, FoundFrom(rules, output, waypoints, path, i + 1));
      i := i + 1;
    }
  }

  /** Orm::routeRecurse from its entry point: NULL when no route was
      recorded, otherwise the most preferred recorded route. */
  method RouteRecurse(rules: seq<Rule>, input: Spec, output: Spec, waypoints: seq<Spec>)
    returns (r: Option<seq<Rule>>)
    ensures r == Route(rules, input, output, waypoints)
  {
    var paths := Collect(rules, input, output, waypoints);
    if |paths| == 0 {
      return None;
    }
    return Some(Best(paths));
  }

  /** The loop of Orm::routeRecurse over the starting rules, which records
      every candidate path in `&$paths`. */
  method Collect(rules: seq<Rule>, input: Spec, output: Spec, waypoints: seq<Spec>)
    returns (paths: seq<seq<Rule>>)
    ensures paths == Candidates(rules, input, output, waypoints)
  {
    paths := [];
    var i := 0;
    while i < |rules|
      invariant 0 <= i <= |rules|
      invariant paths + StartFrom(rules, input, output, waypoints, i) == Candidates(rules, input, output, waypoints)
    {
      ghost var before := paths;
      ghost var step := if IsMatch(rules[i], input) then Found(rules, output, waypoints, [rules[i]]) else [];
      if IsMatch(rules[i], input) {
        paths := Explore(rules, output, waypoints, [rules[i]], paths);
      }
      assert paths == before + step;
      ConcatAssoc(before, step, StartFrom(rules, input, output, waypoints, i + 1));
      i := i + 1;
    }
  }

  /** What Orm::routeRecurse returns, as a value: used by the callers that are
      themselves functions. */
  function Route(rules: seq<Rule>, input: Spec, output: Spec, waypoints: seq<Spec>): (r: Option<seq<Rule>>)
    ensures r.Some? ==> IsRoute(rules, input, output, waypoints, r.value)
    ensures r.Some? ==> forall p | IsRoute(rules, input, output, waypoints, p) :: NoWorse(r.value, p)
    ensures r.None? ==> forall p :: !IsRoute(rules, input, output, waypoints, p)
  {
    var c := Candidates(rules, input, output, waypoints);
    CandidatesAreRoutes(rules, input, output, waypoints);
    assert forall p | IsRoute(rules, input, output, waypoints, p) :: p in c by {
      forall p | IsRoute(rules, input, output, waypoints, p) ensures p in c {
        CandidatesExact(rules, input, output, waypoints, p);
      }
    }
    if |c| == 0 then None else Some(Best(c))
  }
}
