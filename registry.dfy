/** The registry of schemas kept by Orm: Orm::setup, the registration
    queries and Orm::getSchema. A schema is stored under its name (or
    DEFAULT_NAME) before its rules are validated, and every rule then updates
    the stored schema in place, so a schema whose validation throws stays
    registered with whatever the loop had appended so far. */
module Registry {
  import opened Wrappers
  import opened Strings
  import opened Names
  import opened Schema

  /** The stored schema object, without its SQL result cache (the cache
      belongs to the connection layer, which is not part of this model). */
  datatype SchemaState = SchemaState(
    rules: seq<Rule>,
    ssqlName: Option<string>,
    classes: seq<string>,
    relationships: seq<string>,
    irelationships: seq<string>)

  predicate IsEntity(cat: Catalog, cls: string) { cls in cat && cat[cls].base == EntityBase }
  predicate IsRelationshipClass(cat: Catalog, cls: string) { cls in cat && cat[cls].base == RelationshipBase }

  /** Where a rule loop stands: the stored state, and the error that stopped
      it, if any. */
  datatype Outcome = Outcome(state: SchemaState, error: Option<Error>)

  function NotSubclassOf(cls: string, root: string): Error {
    InputError("The specified class " + cls + " exists but is not a subclass of " + root)
  }

  /** A class named by a rule end: appended when it is a declared OrmClass,
      an error when it is declared but not an OrmClass, ignored otherwise. */
  function AddEnd(st: SchemaState, cls: string, cat: Catalog): Outcome {
    if cls !in cat then Outcome(st, None)
    else if cat[cls].base != EntityBase then Outcome(st, Some(NotSubclassOf(cls, "OrmClass")))
    else Outcome(st.(classes := st.classes + [cls]), None)
  }

  /** The body of Orm::setup's loop for one rule, as the state it leaves. */
  function RuleStep(st: SchemaState, rule: Rule, cat: Catalog): Outcome {
    if rule.relationship == Inherits then
      Outcome(st, Some(InputError("The relationship \"Inherits\" is reserved")))
    else
      var o1 := AddEnd(st, rule.input, cat);
      if o1.error.Some? then o1
      else
        var o2 := AddEnd(o1.state, rule.output, cat);
        if o2.error.Some? then o2
        else
          var st2 := o2.state;
          if rule.relationship in st2.relationships then
            Outcome(st2, Some(InputError("Relationships must be unique; \"" + rule.relationship + "\" is already registered")))
          else
            var st3 := st2.(relationships := st2.relationships + [rule.relationship]);
            if rule.relationship !in cat then Outcome(st3, None)
            else if cat[rule.relationship].base != RelationshipBase then
              Outcome(st3, Some(NotSubclassOf(rule.relationship, "OrmRelationship")))
            else Outcome(st3.(irelationships := st3.irelationships + [rule.relationship]), None)
  }

  /** The loop of Orm::setup over rules[..n], stopping at the first error. */
  function RulesLoop(st: SchemaState, rules: seq<Rule>, cat: Catalog): Outcome
    decreases |rules|
  {
    if |rules| == 0 then Outcome(st, None)
    else
      var o := RulesLoop(st, rules[..|rules| - 1], cat);
      if o.error.Some? then o else RuleStep(o.state, rules[|rules| - 1], cat)
  }

  function EmptySchema(rules: seq<Rule>, ssqlName: Option<string>): SchemaState {
    SchemaState(rules, ssqlName, [], [], [])
  }

  /** What Orm::setup leaves stored for the parsed rules: the loop's state,
      with duplicate classes removed when the loop finished. */
  function SetupOutcome(rules: seq<Rule>, ssqlName: Option<string>, cat: Catalog): Outcome {
    Completed(RulesLoop(EmptySchema(rules, ssqlName), rules, cat))
  }

  /** The array_unique on the class list that follows a loop that finished. */
  function Completed(o: Outcome): Outcome {
    if o.error.Some? then o else Outcome(o.state.(classes := Dedup(o.state.classes)), None)
  }

  // --------------------------------------------------- what setup guarantees

  /** The ends of one rule that are declared classes. */
  function EndsOf(r: Rule, cat: Catalog): seq<string> {
    (if r.input in cat then [r.input] else []) + (if r.output in cat then [r.output] else [])
  }

  /** The relationship of one rule, when it is a declared class. */
  function DeclaredRelationshipOf(r: Rule, cat: Catalog): seq<string> {
    if r.relationship in cat then [r.relationship] else []
  }

  /** The rule ends that are declared classes, in rule order. */
  function DeclaredEnds(rules: seq<Rule>, cat: Catalog): seq<string>
    decreases |rules|
  {
    if |rules| == 0 then []
    else DeclaredEnds(rules[..|rules| - 1], cat) + EndsOf(rules[|rules| - 1], cat)
  }

  function RelationshipsOf(rules: seq<Rule>): (rs: seq<string>)
    ensures |rs| == |rules| && forall k | 0 <= k < |rules| :: rs[k] == rules[k].relationship
  {
    seq(|rules|, k requires 0 <= k < |rules| => rules[k].relationship)
  }

  function DeclaredRelationships(rules: seq<Rule>, cat: Catalog): seq<string>
    decreases |rules|
  {
    if |rules| == 0 then []
    else DeclaredRelationships(rules[..|rules| - 1], cat) + DeclaredRelationshipOf(rules[|rules| - 1], cat)
  }

  /** What Orm::setup demands of one rule on its own. */
  predicate RuleAcceptable(r: Rule, cat: Catalog) {
    r.relationship != Inherits
    && (r.input in cat ==> IsEntity(cat, r.input))
    && (r.output in cat ==> IsEntity(cat, r.output))
    && (r.relationship in cat ==> IsRelationshipClass(cat, r.relationship))
  }

  /** Everything Orm::setup demands of a rule list. */
  predicate Acceptable(rules: seq<Rule>, cat: Catalog) {
    (forall k | 0 <= k < |rules| :: RuleAcceptable(rules[k], cat))
    && NoDup(RelationshipsOf(rules))
  }

  /** One pass of the loop body succeeds exactly when the rule is acceptable
      and its relationship is new, and then appends what it declares. */
  lemma RuleStepExact(st: SchemaState, r: Rule, cat: Catalog)
    ensures RuleStep(st, r, cat).error.None? <==>
      RuleAcceptable(r, cat) && r.relationship !in st.relationships
    ensures RuleStep(st, r, cat).error.None? ==>
      RuleStep(st, r, cat).state ==
        st.(classes := st.classes + EndsOf(r, cat),
            relationships := st.relationships + [r.relationship],
            irelationships := st.irelationships + DeclaredRelationshipOf(r, cat))
  {
    if RuleStep(st, r, cat).error.None? {
      assert st.classes + EndsOf(r, cat) ==
        st.classes + (if r.input in cat then [r.input] else []) + (if r.output in cat then [r.output] else []);
    }
  }

  lemma RelationshipsOfSnoc(rules: seq<Rule>)
    requires |rules| > 0
    ensures RelationshipsOf(rules) == RelationshipsOf(rules[..|rules| - 1]) + [rules[|rules| - 1].relationship]
  {
  }

  /** One more turn of the loop. */
  lemma RulesLoopNext(st: SchemaState, rules: seq<Rule>, i: nat, cat: Catalog)
    requires i < |rules|
    requires RulesLoop(st, rules[..i], cat).error.None?
    ensures RulesLoop(st, rules[..i + 1], cat) == RuleStep(RulesLoop(st, rules[..i], cat).state, rules[i], cat)
  {
    assert rules[..i + 1][..i] == rules[..i];
  }

  /** Once the loop has thrown, later rules change nothing. */
  lemma {:induction false} RulesLoopStops(st: SchemaState, rules: seq<Rule>, n: nat, cat: Catalog)
    requires n <= |rules|
    requires RulesLoop(st, rules[..n], cat).error.Some?
    ensures RulesLoop(st, rules, cat) == RulesLoop(st, rules[..n], cat)
    decreases |rules|
  {
    if n < |rules| {
      var init := rules[..|rules| - 1];
      assert init[..n] == rules[..n];
      RulesLoopStops(st, init, n, cat);
    } else {
      assert rules[..n] == rules;
    }
  }

  /** The loop fails exactly when some rule is unacceptable, meets a
      relationship that was already stored, or repeats an earlier one. */
  lemma {:induction false} RulesLoopSucceeds(st: SchemaState, rules: seq<Rule>, cat: Catalog)
    ensures RulesLoop(st, rules, cat).error.None? <==>
      (forall k | 0 <= k < |rules| :: RuleAcceptable(rules[k], cat) && rules[k].relationship !in st.relationships)
      && NoDup(RelationshipsOf(rules))
    ensures RulesLoop(st, rules, cat).error.None? ==>
      RulesLoop(st, rules, cat).state.relationships == st.relationships + RelationshipsOf(rules)
    decreases |rules|
  {
    if |rules| > 0 {
      var init := rules[..|rules| - 1];
      var r := rules[|rules| - 1];
      RulesLoopSucceeds(st, init, cat);
      var o := RulesLoop(st, init, cat);
      RelationshipsOfSnoc(rules);
      NoDupSnoc(RelationshipsOf(init), r.relationship);
      assert forall k | 0 <= k < |init| :: init[k] == rules[k];
      if o.error.None? {
        RuleStepExact(o.state, r, cat);
        assert r.relationship in o.state.relationships <==>
          r.relationship in st.relationships || r.relationship in RelationshipsOf(init);
        assert (st.relationships + RelationshipsOf(init)) + [r.relationship] == st.relationships + RelationshipsOf(rules);
      }
    }
  }

  /** A loop that gets through all its rules appends what they declare. */
  lemma {:induction false} RulesLoopState(st: SchemaState, rules: seq<Rule>, cat: Catalog)
    requires RulesLoop(st, rules, cat).error.None?
    ensures RulesLoop(st, rules, cat).state ==
      st.(classes := st.classes + DeclaredEnds(rules, cat),
          relationships := st.relationships + RelationshipsOf(rules),
          irelationships := st.irelationships + DeclaredRelationships(rules, cat))
    decreases |rules|
  {
    if |rules| > 0 {
      var init := rules[..|rules| - 1];
      var r := rules[|rules| - 1];
      RulesLoopState(st, init, cat);
      RuleStepExact(RulesLoop(st, init, cat).state, r, cat);
      RelationshipsOfSnoc(rules);
      assert (st.classes + DeclaredEnds(init, cat)) + EndsOf(r, cat) == st.classes + DeclaredEnds(rules, cat);
      assert (st.relationships + RelationshipsOf(init)) + [r.relationship] == st.relationships + RelationshipsOf(rules);
      assert (st.irelationships + DeclaredRelationships(init, cat)) + DeclaredRelationshipOf(r, cat)
        == st.irelationships + DeclaredRelationships(rules, cat);
    }
  }

  /** Orm::setup succeeds exactly on the rule lists it demands, and then
      stores every relationship once, in order, the declared ends without
      repeats, and the declared relationship classes. */
  lemma SetupExact(rules: seq<Rule>, ssqlName: Option<string>, cat: Catalog)
    ensures SetupOutcome(rules, ssqlName, cat).error.None? <==> Acceptable(rules, cat)
    ensures SetupOutcome(rules, ssqlName, cat).error.None? ==>
      SetupOutcome(rules, ssqlName, cat).state ==
        SchemaState(rules, ssqlName, Dedup(DeclaredEnds(rules, cat)), RelationshipsOf(rules),
                    DeclaredRelationships(rules, cat))
  {
    var e := EmptySchema(rules, ssqlName);
    RulesLoopSucceeds(e, rules, cat);
    if RulesLoop(e, rules, cat).error.None? {
      RulesLoopState(e, rules, cat);
      assert [] + DeclaredEnds(rules, cat) == DeclaredEnds(rules, cat);
      assert [] + RelationshipsOf(rules) == RelationshipsOf(rules);
      assert [] + DeclaredRelationships(rules, cat) == DeclaredRelationships(rules, cat);
    }
  }

  /** The reserved relationship `Inherits` makes setup throw. */
  lemma SetupRejectsInherits(rules: seq<Rule>, ssqlName: Option<string>, cat: Catalog, k: nat)
    requires k < |rules| && rules[k].relationship == Inherits
    ensures SetupOutcome(rules, ssqlName, cat).error.Some?
  {
    SetupExact(rules, ssqlName, cat);
    assert !RuleAcceptable(rules[k], cat);
  }

  /** A relationship name used twice makes setup throw. */
  lemma SetupRejectsRepeatedRelationship(rules: seq<Rule>, ssqlName: Option<string>, cat: Catalog, i: nat, j: nat)
    requires i < j < |rules| && rules[i].relationship == rules[j].relationship
    ensures SetupOutcome(rules, ssqlName, cat).error.Some?
  {
    SetupExact(rules, ssqlName, cat);
    assert RelationshipsOf(rules)[i] == RelationshipsOf(rules)[j];
  }

  lemma {:induction false} DeclaredRelationshipsAreRelationships(rules: seq<Rule>, cat: Catalog)
    ensures forall x | x in DeclaredRelationships(rules, cat) :: x in RelationshipsOf(rules)
    decreases |rules|
  {
    if |rules| > 0 {
      DeclaredRelationshipsAreRelationships(rules[..|rules| - 1], cat);
      RelationshipsOfSnoc(rules);
    }
  }

  lemma {:induction false} DeclaredEndsAreEntities(rules: seq<Rule>, cat: Catalog)
    requires forall k | 0 <= k < |rules| :: RuleAcceptable(rules[k], cat)
    ensures forall x | x in DeclaredEnds(rules, cat) :: IsEntity(cat, x)
    decreases |rules|
  {
    if |rules| > 0 {
      var init := rules[..|rules| - 1];
      assert forall k | 0 <= k < |init| :: init[k] == rules[k];
      DeclaredEndsAreEntities(init, cat);
      assert RuleAcceptable(rules[|rules| - 1], cat);
    }
  }

  /** After a successful setup the class list has no repeats and holds only
      OrmClass subclasses, and every instantiable relationship is a
      registered relationship. */
  lemma SetupInvariants(rules: seq<Rule>, ssqlName: Option<string>, cat: Catalog)
    requires SetupOutcome(rules, ssqlName, cat).error.None?
    ensures NoDup(SetupOutcome(rules, ssqlName, cat).state.classes)
    ensures NoDup(SetupOutcome(rules, ssqlName, cat).state.relationships)
    ensures forall x | x in SetupOutcome(rules, ssqlName, cat).state.irelationships ::
      x in SetupOutcome(rules, ssqlName, cat).state.relationships
    ensures forall x | x in SetupOutcome(rules, ssqlName, cat).state.classes :: IsEntity(cat, x)
  {
    SetupExact(rules, ssqlName, cat);
    DeclaredRelationshipsAreRelationships(rules, cat);
    DeclaredEndsAreEntities(rules, cat);
  }

  // ---------------------------------------------------------- the registry

  /** The object Orm::setup stores for a schema and then fills in place. */
  class StoredSchema {
    var rules: seq<Rule>
    var ssqlName: Option<string>
    var classes: seq<string>
    var relationships: seq<string>
    var irelationships: seq<string>

    function State(): SchemaState
      reads this
    {
      SchemaState(rules, ssqlName, classes, relationships, irelationships)
    }

    constructor (rules: seq<Rule>, ssqlName: Option<string>)
      ensures State() == EmptySchema(rules, ssqlName)
    {
      this.rules := rules;
      this.ssqlName := ssqlName;
      classes := [];
      relationships := [];
      irelationships := [];
    }

    /** One turn of the rule loop of Orm::setup, appending to the stored
        object in place. The results of the validClassName calls at the top
        of the loop are discarded by the source and have no effect here
        either. */
    method ApplyRule(rule: Rule, cat: Catalog) returns (err: Option<Error>)
      modifies this
      ensures rules == old(rules)
      ensures Outcome(State(), err) == RuleStep(old(State()), rule, cat)
    {
      if rule.relationship == Inherits {
        return Some(InputError("The relationship \"Inherits\" is reserved"));
      }
      if rule.input in cat {
        if cat[rule.input].base != EntityBase {
          return Some(NotSubclassOf(rule.input, "OrmClass"));
        }
        classes := classes + [rule.input];
      }
      if rule.output in cat {
        if cat[rule.output].base != EntityBase {
          return Some(NotSubclassOf(rule.output, "OrmClass"));
        }
        classes := classes + [rule.output];
      }
      if rule.relationship in relationships {
        return Some(InputError("Relationships must be unique; \"" + rule.relationship + "\" is already registered"));
      }
      relationships := relationships + [rule.relationship];
      if rule.relationship in cat {
        if cat[rule.relationship].base != RelationshipBase {
          return Some(NotSubclassOf(rule.relationship, "OrmRelationship"));
        }
        irelationships := irelationships + [rule.relationship];
      }
      return None;
    }

    /** The rule loop of Orm::setup and the array_unique after it. An
        exception leaves the object as far as the loop had filled it. */
    method ApplyRules(cat: Catalog) returns (r: Result<()>)
      modifies this
      ensures var o := Completed(RulesLoop(old(State()), old(rules), cat));
        State() == o.state && (r.Ok? <==> o.error.None?) && (r.Err? ==> r.error == o.error.value)
    {
      ghost var st0 := State();
      var i := 0;
      while i < |rules|
        invariant 0 <= i <= |rules| && rules == st0.rules
        invariant RulesLoop(st0, rules[..i], cat) == Outcome(State(), None)
      {
        RulesLoopNext(st0, rules, i, cat);
        var err := ApplyRule(rules[i], cat);
        if err.Some? {
          RulesLoopStops(st0, rules, i + 1, cat);
          return Err(err.value);
        }
        i := i + 1;
      }
      assert rules[..i] == rules;
      classes := Dedup(classes);
      return Ok(());
    }
  }

  /** Orm's static `$schemas` array. */
  class Registry {
    var schemas: map<string, StoredSchema>

    constructor ()
      ensures schemas == map[]
    {
      schemas := map[];
    }

    /** Orm::setup. `ssqlValid` is the answer of SSql::validName for the
        connection name, which belongs to the connection layer. */
    method Setup(schema: string, ssqlName: Option<string>, ssqlValid: bool, name: Option<string>, cat: Catalog)
      returns (r: Result<()>)
      modifies this
      ensures SchemaKey(name).Err? ==> r.Err? && schemas == old(schemas)
      ensures SchemaKey(name).Ok? && !ssqlValid ==> r.Err? && schemas == old(schemas)
      ensures SchemaKey(name).Ok? && ssqlValid ==>
        var key := SchemaKey(name).value;
        var o := SetupOutcome(ParseRules(schema), ssqlName, cat);
        key in schemas && fresh(schemas[key])
        && schemas == old(schemas)[key := schemas[key]]
        && schemas[key].State() == o.state
        && (r.Ok? <==> o.error.None?)
        && (r.Err? ==> r.error == o.error.value)
    {
      DefaultNameIsInvalid();
      var k := SchemaKey(name);
      if k.Err? {
        return Err(k.error);
      }
      var key := k.value;
      if !ssqlValid {
        return Err(InputError("Invalid SSql Name specified, please ensure you create an SSql connection prior to setting up Orm"));
      }
      var rules := ParseRules(schema);
      var stored := new StoredSchema(rules, ssqlName);
      schemas := schemas[key := stored];
      ghost var stored0 := schemas;
      r := stored.ApplyRules(cat);
      assert schemas == stored0 && schemas[key] == stored;
    }

    /** Orm::getSchema. */
    function GetSchema(name: Option<string>): (r: Result<StoredSchema>)
      reads this
      ensures r.Ok? <==> SchemaKey(name).Ok? && SchemaKey(name).value in schemas
      ensures r.Ok? ==> r.value == schemas[SchemaKey(name).value]
    {
      var key :- SchemaKey(name);
      if key !in schemas then Err(InputError("Invalid Orm name specified")) else Ok(schemas[key])
    }

    /** Orm::isRegisteredClass: membership in the stored class list; an
        unregistered schema name reads as an empty list. */
    function IsRegisteredClass(name: Option<string>, cls: string): (r: Result<bool>)
      reads this, schemas.Values
      ensures r.Ok? <==> ValidName(name)
      ensures r.Ok? ==> (r.value <==> GetSchema(name).Ok? && cls in GetSchema(name).value.classes)
    {
      var key :- SchemaKey(name);
      Ok(key in schemas && cls in schemas[key].classes)
    }

    /** Orm::isRegisteredIRelationship. */
    function IsRegisteredIRelationship(name: Option<string>, rship: string): (r: Result<bool>)
      reads this, schemas.Values
      ensures r.Ok? <==> ValidName(name)
      ensures r.Ok? ==> (r.value <==> GetSchema(name).Ok? && rship in GetSchema(name).value.irelationships)
    {
      var key :- SchemaKey(name);
      Ok(key in schemas && rship in schemas[key].irelationships)
    }

    /** Orm::isRegisteredRelationship. */
    function IsRegisteredRelationship(name: Option<string>, rship: string): (r: Result<bool>)
      reads this, schemas.Values
      ensures r.Ok? <==> ValidName(name)
      ensures r.Ok? ==> (r.value <==> GetSchema(name).Ok? && rship in GetSchema(name).value.relationships)
    {
      var key :- SchemaKey(name);
      Ok(key in schemas && rship in schemas[key].relationships)
    }
  }
}
