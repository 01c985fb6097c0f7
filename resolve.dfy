/** Orm::resolveRelationship: the rule that connects two classes in either
    direction, as written and as evidently intended. */
module Resolve {
  import opened Wrappers
  import opened Strings
  import opened Schema
  import opened Registry

  /** The stored schema object has six public properties (rules, ssql_name,
      classes, relationships, irelationships, sql_result_cache). */
  const SchemaObjectProperties: nat := 6

  const NoMatches: string := "Failed to resolve relationship: no matches found"
  const MultipleMatches: string := "Failed to resolve relationship: multiple matches found: "

  /** `NULL == $s` for a string `$s`: PHP compares NULL as the empty
      string. */
  predicate LooselyNull(s: string) { s == "" }

  /** resolveRelationship as written. The loop runs over the properties of
      the schema object, not its rules; none is an object, so `$rule->input`
      and `$rule->output` read NULL, and either every property matches or
      none does. The matches go to `$possiblities`, so the `reset` of the
      correctly spelled, empty array is never reached; every entry is
      formatted from NULLs. */
  function ResolveAsWritten(st: SchemaState, a: string, b: string): (r: Result<Rule>)
    ensures r.Err? && r.error.ResolutionError?
  {
    var count := if LooselyNull(a) && LooselyNull(b) then SchemaObjectProperties else 0;
    if count == 0 then Err(ResolutionError(NoMatches))
    else Err(ResolutionError(MultipleMatches + Join(seq(count, _ => " to  as "), ", ")))
  }

  predicate Connects(r: Rule, a: string, b: string) {
    (r.input == a && r.output == b) || (r.input == b && r.output == a)
  }

  /** The rules that connect the two classes, in order. */
  function Connecting(rules: seq<Rule>, a: string, b: string): seq<Rule> {
    if |rules| == 0 then []
    else
      var rest := Connecting(rules[..|rules| - 1], a, b);
      if Connects(rules[|rules| - 1], a, b) then rest + [rules[|rules| - 1]] else rest
  }

  function Describe(rules: seq<Rule>): (ds: seq<string>)
    ensures |ds| == |rules|
  {
    seq(|rules|, k requires 0 <= k < |rules| => rules[k].input + " to " + rules[k].output + " as " + rules[k].relationship)
  }

  /** resolveRelationship as evidently intended: over the rules, with one
      spelling of the list of matches. */
  function Resolve(st: SchemaState, a: string, b: string): Result<Rule> {
    var found := Connecting(st.rules, a, b);
    if |found| == 0 then Err(ResolutionError(NoMatches))
    else if |found| == 1 then Ok(found[0])
    else Err(ResolutionError(MultipleMatches + Join(Describe(found), ", ")))
  }

  /** Connecting keeps exactly the rules that connect the two classes: each
      one it keeps is a rule of the schema that connects them, and it is
      empty only when no rule does. */
  lemma {:induction false} ConnectingSpec(rules: seq<Rule>, a: string, b: string)
    ensures forall k | 0 <= k < |Connecting(rules, a, b)| ::
      Connecting(rules, a, b)[k] in rules && Connects(Connecting(rules, a, b)[k], a, b)
    ensures |Connecting(rules, a, b)| == 0 <==> forall k | 0 <= k < |rules| :: !Connects(rules[k], a, b)
  {
    if |rules| > 0 {
      var init := rules[..|rules| - 1];
      ConnectingSpec(init, a, b);
      assert forall k | 0 <= k < |init| :: init[k] == rules[k];
      assert forall r | r in init :: r in rules;
    }
  }

  /** The intended resolution succeeds exactly when one rule connects the
      classes, with that rule; it fails with "no matches" exactly when none
      does. */
  lemma ResolveSpec(st: SchemaState, a: string, b: string)
    ensures Resolve(st, a, b).Ok? <==> |Connecting(st.rules, a, b)| == 1
    ensures Resolve(st, a, b).Ok? ==> Resolve(st, a, b).value in st.rules && Connects(Resolve(st, a, b).value, a, b)
    ensures Resolve(st, a, b) == Err(ResolutionError(NoMatches)) <==>
      forall k | 0 <= k < |st.rules| :: !Connects(st.rules[k], a, b)
  {
    ConnectingSpec(st.rules, a, b);
    var found := Connecting(st.rules, a, b);
    if |found| > 1 {
      assert (MultipleMatches + Join(Describe(found), ", "))[32] == MultipleMatches[32] == 'm';
      assert NoMatches[32] == 'n';
    }
  }

  /** As written, no pair of named classes is ever resolved, whatever the
      rules: a schema with the single rule `Person to Dog as Owns` still
      reports no match. */
  lemma ResolveAsWrittenNeverResolves(st: SchemaState, a: string, b: string)
    requires a != "" || b != ""
    ensures ResolveAsWritten(st, a, b) == Err(ResolutionError(NoMatches))
  {
  }

  lemma ResolveDisagrees()
    ensures var st := SchemaState([Rule("Person", "Dog", "Owns", [])], None, [], [], []);
      ResolveAsWritten(st, "Person", "Dog").Err? && Resolve(st, "Person", "Dog") == Ok(Rule("Person", "Dog", "Owns", []))
  {
    var rules := [Rule("Person", "Dog", "Owns", [])];
    assert rules[..0] == [];
  }

  /** The foreach of resolveRelationship, over the rules. */
  method ResolveLoop(st: SchemaState, a: string, b: string) returns (r: Result<Rule>)
    ensures r == Resolve(st, a, b)
  {
    var found: seq<Rule> := [];
    for k := 0 to |st.rules|
      invariant found == Connecting(st.rules[..k], a, b)
    {
      assert st.rules[..k + 1][..k] == st.rules[..k];
      if Connects(st.rules[k], a, b) {
        found := found + [st.rules[k]];
      }
    }
    assert st.rules[..|st.rules|] == st.rules;
    if |found| == 0 {
      return Err(ResolutionError(NoMatches));
    } else if |found| == 1 {
      return Ok(found[0]);
    }
    return Err(ResolutionError(MultipleMatches + Join(Describe(found), ", ")));
  }
}
