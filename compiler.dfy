/** Orm::sqlFromRoute: a route of rules compiled, step by step, into the
    alias chain and the SELECT, FROM and WHERE lists of a query.

    Every step names a table alias `<rel>__<n>__<table>`, where `<rel>` is
    the snake_case name of the relationship the step was reached over ("0"
    for the first step) and `<n>` counts the earlier steps reached over the
    same relationship. */
module Compiler {
  import opened Wrappers
  import opened Strings
  import opened Names
  import opened Schema
  import opened Registry
  import opened Destinations
  import opened ChainFormat

  // ------------------------------------------------ the fixed inputs

  /** `$last_rule`: the previous step's rule, or before the first step the
      dummy rule from nothing to the first class over the anchor "0". */
  datatype Prev = Prev(input: Option<string>, output: Option<string>, relationship: string)

  function PrevOf(r: Rule): Prev {
    Prev(Some(r.input), Some(r.output), r.relationship)
  }

  /** `$nodes`: the classes a rule of the route leads to that are neither
      the first class nor the input of any rule of the route. */
  function Nodes(route: seq<Rule>, first: Option<string>): (nodes: set<string>)
    ensures forall c :: c in nodes <==>
      Some(c) != first && (exists k | 0 <= k < |route| :: route[k].output == c)
      && forall k | 0 <= k < |route| :: route[k].input != c
  {
    set k | 0 <= k < |route| && Some(route[k].output) != first && NotAnInput(route, route[k].output) :: route[k].output
  }

  predicate NotAnInput(route: seq<Rule>, c: string) {
    forall k | 0 <= k < |route| :: route[k].input != c
  }

  /** The class destinations sorted out before the loop: every class
      (`$used`), those with an input on a non-key property
      (`$non_key_inputs`, once per such property) and those with an output
      (`$outputs`). Destination aliases are never read (the source keeps
      `$alias` NULL), so each entry is a class name. */
  datatype Classes = Classes(used: seq<string>, nonKeyInputs: seq<string>, outputs: seq<string>)

  /** The input properties of a destination that are not keys of its class,
      one entry per property; only registered classes are looked at. */
  function NonKeyInputs(st: SchemaState, cat: Catalog, d: Dest): Result<seq<string>> {
    if d.input.None? || |d.input.value| == 0 || !IsClass(st, ClassOf(d)) then Ok([])
    else
      var keys :- GetKeys(cat, ClassOf(d));
      Ok(NonKeyCopies(ClassOf(d), d.input.value, keys))
  }

  function NonKeyCopies(cls: string, pairs: seq<(string, string)>, keys: seq<string>): (r: seq<string>)
    ensures forall k | 0 <= k < |r| :: r[k] == cls
    ensures |r| > 0 <==> exists k | 0 <= k < |pairs| :: pairs[k].0 !in keys
  {
    if |pairs| == 0 then []
    else
      var rest := NonKeyCopies(cls, pairs[1..], keys);
      assert forall k | 1 <= k < |pairs| :: pairs[k] == pairs[1..][k - 1];
      (if pairs[0].0 !in keys then [cls] else []) + rest
  }

  /** The classifying loop over the class destinations. */
  function Classify(st: SchemaState, cat: Catalog, ds: seq<Dest>): Result<Classes> {
    if |ds| == 0 then Ok(Classes([], [], []))
    else
      var c :- Classify(st, cat, ds[..|ds| - 1]);
      var d := ds[|ds| - 1];
      var nk :- NonKeyInputs(st, cat, d);
      Ok(Classes(c.used + [ClassOf(d)], c.nonKeyInputs + nk, c.outputs + (if d.output.Some? then [ClassOf(d)] else [])))
  }

  /** Every class destination is used, in order; outputs and non-key inputs
      are drawn from them, and there are no outputs exactly when no
      destination asks for one. */
  lemma {:induction false} ClassifySpec(st: SchemaState, cat: Catalog, ds: seq<Dest>)
    requires Classify(st, cat, ds).Ok?
    ensures var c := Classify(st, cat, ds).value;
      |c.used| == |ds| && (forall k | 0 <= k < |ds| :: c.used[k] == ClassOf(ds[k]))
      && (forall x | x in c.outputs :: x in c.used)
      && (forall x | x in c.nonKeyInputs :: x in c.used)
      && (|c.outputs| == 0 <==> forall k | 0 <= k < |ds| :: ds[k].output.None?)
  {
    if |ds| > 0 {
      var init := ds[..|ds| - 1];
      ClassifySpec(st, cat, init);
      assert forall k | 0 <= k < |ds| - 1 :: init[k] == ds[k];
      var d := ds[|ds| - 1];
      var nk := NonKeyInputs(st, cat, d).value;
      assert forall k | 0 <= k < |nk| :: nk[k] == ClassOf(d) by {
        if d.input.Some? && |d.input.value| > 0 && IsClass(st, ClassOf(d)) {
          var keys := GetKeys(cat, ClassOf(d)).value;
          assert nk == NonKeyCopies(ClassOf(d), d.input.value, keys);
        }
      }
    }
  }

  method ClassifyDests(st: SchemaState, cat: Catalog, ds: seq<Dest>) returns (r: Result<Classes>)
    ensures r == Classify(st, cat, ds)
  {
    var used: seq<string> := [];
    var nonKey: seq<string> := [];
    var outputs: seq<string> := [];
    for i := 0 to |ds|
      invariant Classify(st, cat, ds[..i]) == Ok(Classes(used, nonKey, outputs))
    {
      assert ds[..i + 1][..i] == ds[..i];
      assert ds[..i + 1][i] == ds[i];
      var nk := NonKeyInputs(st, cat, ds[i]);
      if nk.Err? {
        assert Classify(st, cat, ds[..i + 1]) == Err(nk.error);
        StopsThere(st, cat, ds, i + 1);
        return Err(nk.error);
      }
      var c := Classes(used, nonKey, outputs);
      assert Classify(st, cat, ds[..i + 1]) == Ok(Classes(c.used + [ClassOf(ds[i])], c.nonKeyInputs + nk.value,
        c.outputs + (if ds[i].output.Some? then [ClassOf(ds[i])] else [])));
      used := used + [ClassOf(ds[i])];
      nonKey := nonKey + nk.value;
      if ds[i].output.Some? {
        outputs := outputs + [ClassOf(ds[i])];
      } else {
        assert c.outputs + [] == outputs;
      }
    }
    assert ds[..|ds|] == ds;
    r := Ok(Classes(used, nonKey, outputs));
  }

  /** A failure while classifying a prefix is the failure of the whole. */
  lemma {:induction false} StopsThere(st: SchemaState, cat: Catalog, ds: seq<Dest>, i: nat)
    requires i <= |ds| && Classify(st, cat, ds[..i]).Err?
    ensures Classify(st, cat, ds) == Classify(st, cat, ds[..i])
    decreases |ds| - i
  {
    if i < |ds| {
      assert ds[..i + 1][..i] == ds[..i];
      StopsThere(st, cat, ds, i + 1);
    } else {
      assert ds[..i] == ds;
    }
  }

  /** What every step can consult. */
  datatype Env = Env(st: SchemaState, cat: Catalog, dests: seq<Dest>, nodes: set<string>, classes: Classes)

  // ------------------------------------------------ the loop state

  /** What one step contributed to the alias scheme: the relationship it
      was reached over (`$result_of`) and its snake_case form
      (`$result_of_sql`), the counter of that relationship, the class of the
      step, its table and whether the class is registered. */
  datatype StepInfo = StepInfo(relationship: string, result: string, counter: nat, cls: string, table: string, registered: bool)

  /** `$current_alias` of a step. */
  function AliasText(s: StepInfo): string {
    if s.registered then Alias(s.result, s.counter, s.table) else s.table
  }

  /** The variables the loop of Orm::sqlFromRoute carries from one step to
      the next: the classes and aliases of the last step, `$link_sql`,
      `$last_alias`, `$last_link_sql`, `$last_rule`, the counters
      `$seen_results`, and the lists built so far. `steps` records what each
      step contributed to the alias scheme. */
  datatype Acc = Acc(
    current: Option<string>,
    linked: Option<string>,
    linkedAlias: Option<string>,
    linkSql: Option<string>,
    lastAlias: Option<string>,
    lastLinkSql: Option<string>,
    lastRule: Prev,
    seen: map<string, nat>,
    steps: seq<StepInfo>,
    chain: seq<string>,
    select: seq<string>,
    from: seq<string>,
    where: seq<string>)

  function Start(first: Option<string>): Acc {
    Acc(None, None, None, None, None, None, Prev(None, first, AliasAnchor), map[], [], [], [], [], [])
  }

  /** A variable PHP reads as the empty string when it was never set. */
  function OrEmpty(s: Option<string>): string {
    if s.Some? then s.value else ""
  }

  /** PHP truthiness of `$link`: set, and neither "" nor "0". */
  predicate Truthy(link: Option<string>) {
    link.Some? && link.value != "" && link.value != "0"
  }

  /** Orm::classToDbName of a variable that may be NULL. */
  function DbName(c: Option<string>): (r: Result<string>)
    ensures r.Ok? <==> c.Some? && ValidClassName(c.value)
    ensures r.Ok? ==> r == ClassToDbName(c.value)
  {
    if c.None? then Err(InputError("Must pass a string")) else ClassToDbName(c.value)
  }

  predicate Registered(env: Env, c: Option<string>) {
    c.Some? && IsClass(env.st, c.value)
  }

  // ------------------------------------------------ one step

  /** Which end of the rule the step stands on (`$current_class`) and which
      it leads to (`$linked_class`), and whether the rule's relationship is
      stored with the current class (`$link_stored_here`). The pseudo-rule
      NULL of the last step turns the previous rule around. A rule sharing
      no end with the previous one keeps the current class and links to
      nothing. */
  datatype Orientation = Orientation(current: Option<string>, linked: Option<string>, storedHere: Option<bool>)

  function Orient(acc: Acc, rule: Option<Rule>): Orientation {
    var last := acc.lastRule;
    match rule
    case None =>
      if acc.current == last.input then Orientation(last.output, last.input, Some(false))
      else Orientation(last.input, last.output, Some(true))
    case Some(r) =>
      if Some(r.input) == last.input || Some(r.input) == last.output then
        Orientation(Some(r.input), Some(r.output), Some(true))
      else if Some(r.output) == last.input || Some(r.output) == last.output then
        Orientation(Some(r.output), Some(r.input), Some(false))
      else Orientation(acc.current, None, None)
  }

  /** A rule sharing an end with the previous rule stands on that end and
      leads to its other end; the relationship is stored with the current
      class exactly when the rule runs forward from it. */
  lemma OrientShared(acc: Acc, r: Rule)
    requires Some(r.input) in {acc.lastRule.input, acc.lastRule.output}
      || Some(r.output) in {acc.lastRule.input, acc.lastRule.output}
    ensures var o := Orient(acc, Some(r));
      o.current.Some? && o.linked.Some? && o.storedHere.Some?
      && o.current in {acc.lastRule.input, acc.lastRule.output}
      && [o.current.value, o.linked.value] in {[r.input, r.output], [r.output, r.input]}
      && (o.storedHere.value <==> o.current.value == r.input && o.linked.value == r.output)
  {
  }

  /** The closing step of a route with several class destinations stands on
      the end of the last rule the route did not stand on. */
  lemma OrientClosing(acc: Acc)
    requires acc.current in {acc.lastRule.input, acc.lastRule.output}
    ensures var o := Orient(acc, None);
      {o.current, o.linked} == {acc.lastRule.input, acc.lastRule.output}
      && (acc.current == acc.lastRule.input ==> o.current == acc.lastRule.output)
      && (acc.current != acc.lastRule.input ==> o.current == acc.lastRule.input)
  {
  }

  predicate InNodes(env: Env, c: Option<string>) { c.Some? && c.value in env.nodes }

  predicate Listed(c: Option<string>, l: seq<string>) { c.Some? && c.value in l }

  /** `$curr_unused_node`, `$link_unused_node` and `$input_as_rel_keys`:
      a node class that is not a destination is left out of FROM, and so is
      a node destination asked for neither as output nor with a non-key
      input, whose inputs then constrain the keys stored with the
      relationship instead. */
  datatype Flags = Flags(currUnused: bool, linkUnused: bool, inputAsRelKeys: bool)

  function FlagsOf(env: Env, o: Orientation): Flags {
    var cu := InNodes(env, o.current) && !Listed(o.current, env.classes.used);
    var lu := InNodes(env, o.linked) && !Listed(o.linked, env.classes.used);
    var rel := !cu && InNodes(env, o.current)
      && !Listed(o.current, env.classes.outputs) && !Listed(o.current, env.classes.nonKeyInputs);
    var lrel := !lu && InNodes(env, o.linked)
      && !Listed(o.linked, env.classes.outputs) && !Listed(o.linked, env.classes.nonKeyInputs);
    Flags(cu || rel, lu || lrel, rel)
  }

  /** With outputs and non-key inputs drawn from the destinations, a class
      is left out of FROM exactly when it is a node that is neither an
      output nor given a non-key input; its inputs move onto the
      relationship's keys exactly when it is also a destination. */
  lemma FlagsMeaning(env: Env, o: Orientation)
    requires forall c | c in env.classes.outputs :: c in env.classes.used
    requires forall c | c in env.classes.nonKeyInputs :: c in env.classes.used
    ensures FlagsOf(env, o).currUnused <==>
      InNodes(env, o.current) && !Listed(o.current, env.classes.outputs) && !Listed(o.current, env.classes.nonKeyInputs)
    ensures FlagsOf(env, o).linkUnused <==>
      InNodes(env, o.linked) && !Listed(o.linked, env.classes.outputs) && !Listed(o.linked, env.classes.nonKeyInputs)
    ensures FlagsOf(env, o).inputAsRelKeys <==>
      FlagsOf(env, o).currUnused && Listed(o.current, env.classes.used)
  {
  }

  /** The names a step computes, in the order it computes them:
      `$link_sql`, `$result_of_sql`, `$current_table`, the counter,
      `$current_alias`, `$linked_table` and `$linked_alias`. */
  datatype StepNames = StepNames(linkSql: Option<string>, rsql: string, table: string, counter: nat,
                                 curAlias: string, linkedTable: string, linkedAlias: Option<string>)

  /** The counter a relationship gets next: 0 the first time, one more
      than last time after that. */
  function NextCount(seen: map<string, nat>, rsql: string): nat {
    if rsql in seen then seen[rsql] + 1 else 0
  }

  function ResultSql(resultOf: string): Result<string> {
    if resultOf == AliasAnchor then Ok(resultOf) else ClassToDbName(resultOf)
  }

  function NamesOf(env: Env, acc: Acc, o: Orientation, resultOf: string, link: Option<string>): (r: Result<StepNames>)
    ensures r.Ok? ==> o.current.Some? && o.linked.Some?
  {
    var linkSql :- if Truthy(link) then (var s :- ClassToDbName(link.value); Ok(Some(s))) else Ok(acc.linkSql);
    var rsql :- ResultSql(resultOf);
    var table :- DbName(o.current);
    var counter := NextCount(acc.seen, rsql);
    var seen := acc.seen[rsql := counter];
    var curAlias := if Registered(env, o.current) then Alias(rsql, counter, table) else table;
    var linkedTable :- DbName(o.linked);
    var linkedAlias :-
      if !Truthy(link) then Ok(acc.linkedAlias)
      else if !Registered(env, o.linked) then Err(PlainError("why?"))
      else Ok(Some(Alias(OrEmpty(linkSql), NextCount(seen, OrEmpty(linkSql)), linkedTable)));
    Ok(StepNames(linkSql, rsql, table, counter, curAlias, linkedTable, linkedAlias))
  }

  /** What the lists of one step are built from. */
  datatype Ctx = Ctx(current: Option<string>, resultOf: string, rsql: string, counter: nat, curAlias: string,
                     lastAlias: string, linkedAlias: string, storedHere: bool, inputAsRelKeys: bool)

  /** The SELECT, FROM and WHERE lists. */
  datatype Lists = Lists(select: seq<string>, from: seq<string>, where: seq<string>)

  /** `$result_of_incremented`. */
  function Incremented(ctx: Ctx): string {
    ctx.rsql + "__" + NatToString(ctx.counter)
  }

  function SelectList(alias: string, props: seq<string>): seq<string> {
    seq(|props|, k requires 0 <= k < |props| => alias + "." + props[k] + " AS " + alias + "__" + props[k])
  }

  /** A relationship's own properties, stored with the table that holds
      the relationship. */
  function VarSelectList(table: string, rsql: string, props: seq<string>, prefix: string): seq<string> {
    seq(|props|, k requires 0 <= k < |props| => table + "." + rsql + "__var__" + props[k] + " AS " + prefix + "__" + props[k])
  }

  function KeyJoins(left: string, name: string, keys: seq<string>, right: string): seq<string> {
    seq(|keys|, k requires 0 <= k < |keys| => left + "." + name + "__key__" + keys[k] + " = " + right + "." + keys[k])
  }

  /** The properties selected for a class: getProperties, with `id` in
      front when the keys are the automatic `['id']`. */
  function SelectedProperties(cat: Catalog, cls: string): Result<seq<string>> {
    var props :- GetProperties(cat, cls);
    var keys :- GetKeys(cat, cls);
    Ok(if keys == [AutoPropertyId] then [AutoPropertyId] + props else props)
  }

  /** One instantiable ancestor of an output class: its table joined under
      the alias `<current alias>__inherits__<table>` on the keys, from the
      alias of the instantiable level below. */
  function ParentJoin(cat: Catalog, curAlias: string, cls: string, below: string, l: Lists): Result<(string, Lists)> {
    var table :- ClassToDbName(cls);
    var aliasName := InheritsSql;
    var alias := curAlias + "__" + aliasName + "__" + table;
    var keys :- GetKeys(cat, cls);
    Ok((alias, JoinedParent(l, table, alias, below, aliasName, keys)))
  }

  function JoinedParent(l: Lists, table: string, alias: string, below: string, aliasName: string, keys: seq<string>): Lists {
    Lists(l.select, l.from + [table + " " + alias], l.where + KeyJoins(below, aliasName, keys, alias))
  }

  /** The SELECT walk up an output class's hierarchy: abstract levels are
      skipped, every other level selects its properties. */
  function InheritWalk(cat: Catalog, curAlias: string, current: string, levels: seq<Level>, alias: string, l: Lists): Result<Lists>
    decreases |levels|
  {
    if |levels| == 0 then Ok(l)
    else if !levels[0].instantiable then InheritWalk(cat, curAlias, current, levels[1..], alias, l)
    else
      var cls := levels[0].name;
      var joined :- if cls != current then ParentJoin(cat, curAlias, cls, alias, l) else Ok((alias, l));
      var props :- SelectedProperties(cat, cls);
      var l2 := Lists(joined.1.select + SelectList(joined.0, props), joined.1.from, joined.1.where);
      InheritWalk(cat, curAlias, current, levels[1..], joined.0, l2)
  }

  /** The output part of the destination loop for one destination. */
  function DestOutput(env: Env, ctx: Ctx, d: Dest, l: Lists): Result<Lists> {
    if d.output.None? then Ok(l)
    else if d.cls == ctx.current then
      var cls := ClassOf(d);
      if cls !in env.cat then Err(PlainError("Class " + cls + " does not exist"))
      else InheritWalk(env.cat, ctx.curAlias, cls, [env.cat[cls].self] + env.cat[cls].ancestors, ctx.curAlias, l)
    else if d.cls == Some(ctx.resultOf) then
      var props :- GetProperties(env.cat, ctx.resultOf);
      var table := if ctx.storedHere then ctx.curAlias else ctx.lastAlias;
      Ok(Lists(l.select + VarSelectList(table, ctx.rsql, props, Incremented(ctx)), l.from, l.where))
    else Ok(l)
  }

  function NotMember(key: string, cls: string): Error {
    InputError("Property \"" + key + "\" is not a member of Class \"" + cls + "\"")
  }

  /** The WHERE conditions of the inputs of a destination of the current
      class: on the class's own table, or on the keys the relationship
      stores when the table is left out. */
  function ClassInputs(ctx: Ctx, cls: string, props: seq<string>, pairs: seq<(string, string)>): (r: Result<seq<string>>)
    ensures r.Err? <==> exists k | 0 <= k < |pairs| :: pairs[k].0 !in props || !ValidPropertyName(pairs[k].0)
    ensures r.Ok? ==> |r.value| == |pairs|
  {
    if |pairs| == 0 then Ok([])
    else
      assert forall k | 1 <= k < |pairs| :: pairs[k] == pairs[1..][k - 1];
      var key := pairs[0].0;
      if key !in props then Err(NotMember(key, cls))
      else
        var k :- PropertyToDbName(key);
        var tableKey := if ctx.inputAsRelKeys then ctx.lastAlias + "." + ctx.resultOf + "__key__" + k else ctx.curAlias + "." + k;
        var rest :- ClassInputs(ctx, cls, props, pairs[1..]);
        Ok([tableKey + " = " + pairs[0].1] + rest)
  }

  /** The WHERE conditions of the inputs of a relationship destination: on
      the properties stored with the relationship. */
  function RelationshipInputs(ctx: Ctx, cls: string, props: seq<string>, pairs: seq<(string, string)>): (r: Result<seq<string>>)
    ensures r.Err? <==> exists k | 0 <= k < |pairs| :: pairs[k].0 !in props || !ValidPropertyName(pairs[k].0)
    ensures r.Ok? ==> |r.value| == |pairs|
  {
    if |pairs| == 0 then Ok([])
    else
      assert forall k | 1 <= k < |pairs| :: pairs[k] == pairs[1..][k - 1];
      var key := pairs[0].0;
      if key !in props then Err(NotMember(key, cls))
      else
        var k :- PropertyToDbName(key);
        var table := if ctx.storedHere then ctx.curAlias else ctx.linkedAlias;
        var rest :- RelationshipInputs(ctx, cls, props, pairs[1..]);
        Ok([table + "." + ctx.rsql + "__var__" + k + " = " + pairs[0].1] + rest)
  }

  /** The input part of the destination loop for one destination. */
  function DestInput(env: Env, ctx: Ctx, d: Dest, l: Lists): Result<Lists> {
    if d.input.None? then Ok(l)
    else
      var props :- GetProperties(env.cat, ClassOf(d));
      if d.cls == ctx.current then
        var keys :- GetKeys(env.cat, ClassOf(d));
        var all := if keys == [AutoPropertyId] then [AutoPropertyId] + props else props;
        var w :- ClassInputs(ctx, ClassOf(d), all, d.input.value);
        Ok(Lists(l.select, l.from, l.where + w))
      else if d.cls == Some(ctx.resultOf) then
        var w :- RelationshipInputs(ctx, ClassOf(d), props, d.input.value);
        Ok(Lists(l.select, l.from, l.where + w))
      else Ok(l)
  }

  /** The loop over every destination (the SELECT part of a step). */
  function DestsPart(env: Env, ctx: Ctx, ds: seq<Dest>, l: Lists): Result<Lists>
    decreases |ds|
  {
    if |ds| == 0 then Ok(l)
    else
      var l1 :- DestOutput(env, ctx, ds[0], l);
      var l2 :- DestInput(env, ctx, ds[0], l1);
      DestsPart(env, ctx, ds[1..], l2)
  }

  /** The JOIN part of a step: the keys of the linked class stored with the
      current table, or the keys of the current class stored with the linked
      table. */
  function JoinPart(env: Env, acc: Acc, o: Orientation, f: Flags, n: StepNames, linkTruthy: bool, l: Lists): Result<Lists> {
    if !linkTruthy || o.current.None? || o.linked.None? then Ok(l)
    else if o.storedHere == Some(true) then
      if f.linkUnused then Ok(l)
      else
        var keys :- GetKeys(env.cat, o.linked.value);
        Ok(Lists(l.select, l.from, l.where + KeyJoins(n.curAlias, OrEmpty(n.linkSql), keys, OrEmpty(n.linkedAlias))))
    else
      var prefix := if f.currUnused then OrEmpty(acc.lastAlias) + "." + OrEmpty(acc.lastLinkSql) + "__" else n.curAlias + ".";
      var keys :- GetKeys(env.cat, o.current.value);
      Ok(Lists(l.select, l.from, l.where + StoredKeyJoins(prefix, keys, OrEmpty(n.linkedAlias), OrEmpty(n.linkSql))))
  }

  function StoredKeyJoins(prefix: string, keys: seq<string>, right: string, name: string): seq<string> {
    seq(|keys|, k requires 0 <= k < |keys| => prefix + keys[k] + " = " + right + "." + name + "__key__" + keys[k])
  }

  /** One pass of the loop of Orm::sqlFromRoute; `rule` is NULL for the
      closing step. */
  function Step(env: Env, acc: Acc, rule: Option<Rule>): Result<Acc> {
    var o := Orient(acc, rule);
    var resultOf := acc.lastRule.relationship;
    var link := if rule.Some? then Some(rule.value.relationship) else None;
    var f := FlagsOf(env, o);
    var n :- NamesOf(env, acc, o, resultOf, link);
    var ctx := Ctx(o.current, resultOf, n.rsql, n.counter, n.curAlias, OrEmpty(acc.lastAlias),
                   OrEmpty(n.linkedAlias), o.storedHere == Some(true), f.inputAsRelKeys);
    var l1 :- DestsPart(env, ctx, env.dests, Lists(acc.select, acc.from, acc.where));
    var l2 := if f.currUnused then l1
      else Lists(l1.select, l1.from + [if Registered(env, o.current) then n.table + " " + n.curAlias else n.curAlias], l1.where);
    var l3 :- JoinPart(env, acc, o, f, n, Truthy(link), l2);
    var info := StepInfo(resultOf, n.rsql, n.counter, OrEmpty(o.current), n.table, Registered(env, o.current));
    Ok(Acc(o.current, o.linked, n.linkedAlias, n.linkSql, Some(n.curAlias),
           if n.linkSql.Some? then n.linkSql else acc.lastLinkSql,
           if rule.Some? then PrevOf(rule.value) else acc.lastRule,
           acc.seen[n.rsql := n.counter], acc.steps + [info], acc.chain + [n.curAlias],
           l3.select, l3.from, l3.where))
  }

  // ------------------------------------------------ what a step promises

  /** A step that succeeds appends its alias to the chain: the class it
      stands on, its table, and the relationship it was reached over with
      that relationship's next counter, which the counters then remember. */
  lemma StepAliases(env: Env, acc: Acc, rule: Option<Rule>)
    requires Step(env, acc, rule).Ok?
    ensures var a := Step(env, acc, rule).value; var o := Orient(acc, rule);
      var info := a.steps[|a.steps| - 1];
      |a.steps| == |acc.steps| + 1 && a.steps[..|acc.steps|] == acc.steps
      && a.chain == acc.chain + [AliasText(info)]
      && info.relationship == acc.lastRule.relationship
      && ResultSql(info.relationship) == Ok(info.result)
      && info.counter == NextCount(acc.seen, info.result)
      && a.seen == acc.seen[info.result := info.counter]
      && a.current == o.current && a.current == Some(info.cls)
      && a.linked == o.linked && a.linked.Some?
      && ClassToDbName(info.cls) == Ok(info.table) && info.registered == IsClass(env.st, info.cls)
      && a.lastRule == (if rule.Some? then PrevOf(rule.value) else acc.lastRule)
  {
    var o := Orient(acc, rule);
    var link := if rule.Some? then Some(rule.value.relationship) else None;
    var n := NamesOf(env, acc, o, acc.lastRule.relationship, link);
    assert n.Ok?;
    assert Step(env, acc, rule).value.steps == acc.steps + [StepInfo(acc.lastRule.relationship, n.value.rsql, n.value.counter,
      o.current.value, n.value.table, Registered(env, o.current))];
  }

  /** A step over a relationship links to a registered class under the
      alias that relationship's next counter gives. */
  lemma StepLinkedAlias(env: Env, acc: Acc, r: Rule)
    requires Step(env, acc, Some(r)).Ok? && Truthy(Some(r.relationship))
    ensures var a := Step(env, acc, Some(r)).value; var rsql := ClassToDbName(r.relationship);
      rsql.Ok? && a.linked.Some? && IsClass(env.st, a.linked.value) && ClassToDbName(a.linked.value).Ok?
      && a.linkSql == Some(rsql.value)
      && a.linkedAlias == Some(Alias(rsql.value, NextCount(a.seen, rsql.value), ClassToDbName(a.linked.value).value))
  {
    var o := Orient(acc, Some(r));
    var n := NamesOf(env, acc, o, acc.lastRule.relationship, Some(r.relationship));
    assert n.Ok?;
  }

  /** The alias a step joins to is the alias under which the next step
      brings in the linked class, so the join conditions of one step name
      the table the next step adds. */
  lemma JoinTargetsNextStep(env: Env, acc: Acc, r: Rule, next: Option<Rule>)
    requires Step(env, acc, Some(r)).Ok? && Truthy(Some(r.relationship))
    requires Step(env, Step(env, acc, Some(r)).value, next).Ok?
    requires Step(env, Step(env, acc, Some(r)).value, next).value.current == Step(env, acc, Some(r)).value.linked
    ensures var a := Step(env, acc, Some(r)).value; var b := Step(env, a, next).value;
      a.linkedAlias.Some? && b.chain[|b.chain| - 1] == a.linkedAlias.value
  {
    var a := Step(env, acc, Some(r)).value;
    StepAliases(env, acc, Some(r));
    StepLinkedAlias(env, acc, r);
    StepAliases(env, a, next);
  }

  /** A relationship leading to a class that is not registered stops the
      compilation with 'why?'. */
  lemma StepRejectsUnregisteredLink(env: Env, acc: Acc, r: Rule)
    requires Truthy(Some(r.relationship)) && ValidClassName(r.relationship)
    requires ResultSql(acc.lastRule.relationship).Ok?
    requires DbName(Orient(acc, Some(r)).current).Ok? && DbName(Orient(acc, Some(r)).linked).Ok?
    requires !IsClass(env.st, Orient(acc, Some(r)).linked.value)
    ensures Step(env, acc, Some(r)) == Err(PlainError("why?"))
  {
  }

  // ------------------------------------------------ the whole route

  /** The loop over the route's rules. */
  function Run(env: Env, acc: Acc, route: seq<Rule>): Result<Acc>
    decreases |route|
  {
    if |route| == 0 then Ok(acc)
    else
      var a :- Step(env, acc, Some(route[0]));
      Run(env, a, route[1..])
  }

  /** Orm::sqlFromRoute up to the end of its loop: the classification, the
      check for outputs, the steps of the route and, with more than one
      class destination, the closing step. */
  function Compile(st: SchemaState, cat: Catalog, route: seq<Rule>, dests: seq<Dest>, classDests: seq<Dest>): Result<Acc> {
    var first := if |classDests| > 0 then classDests[0].cls else None;
    var classes :- Classify(st, cat, classDests);
    if |classes.outputs| == 0 then Err(InputError("No Class outputs given"))
    else
      var env := Env(st, cat, dests, Nodes(route, first), classes);
      var acc :- Run(env, Start(first), route);
      if |classDests| > 1 then Step(env, acc, None) else Ok(acc)
  }

  /** Without a class destination with an output nothing is compiled. */
  lemma CompileNeedsOutputs(st: SchemaState, cat: Catalog, route: seq<Rule>, dests: seq<Dest>, classDests: seq<Dest>)
    requires forall k | 0 <= k < |classDests| :: classDests[k].output.None?
    requires Classify(st, cat, classDests).Ok?
    ensures Compile(st, cat, route, dests, classDests) == Err(InputError("No Class outputs given"))
  {
    ClassifySpec(st, cat, classDests);
  }

  /** The clauses Orm::sqlFromRoute sets on its OrmSqlComponents: the
      formatted chain, SELECT, FROM without repeats and, when there is a
      condition, WHERE. */
  datatype Compiled = Compiled(chain: string, select: string, from: string, where: Option<string>)

  function Assemble(a: Acc): Compiled {
    Compiled(FormatChain(Join(a.chain, " -> ")), Join(a.select, ", "), Join(Dedup(a.from), ", "),
             if |a.where| > 0 then Some(Join(a.where, " AND ")) else None)
  }

  function CompileSql(st: SchemaState, cat: Catalog, route: seq<Rule>, dests: seq<Dest>, classDests: seq<Dest>): Result<Compiled> {
    var a :- Compile(st, cat, route, dests, classDests);
    Ok(Assemble(a))
  }

  method SqlFromRoute(st: SchemaState, cat: Catalog, route: seq<Rule>, dests: seq<Dest>, classDests: seq<Dest>)
    returns (r: Result<Compiled>)
    ensures r == CompileSql(st, cat, route, dests, classDests)
  {
    var first := if |classDests| > 0 then classDests[0].cls else None;
    var classes := ClassifyDests(st, cat, classDests);
    if classes.Err? {
      return Err(classes.error);
    }
    if |classes.value.outputs| == 0 {
      return Err(InputError("No Class outputs given"));
    }
    var env := Env(st, cat, dests, Nodes(route, first), classes.value);
    var acc := Start(first);
    var i := 0;
    while i < |route|
      invariant 0 <= i <= |route|
      invariant Run(env, Start(first), route) == Run(env, acc, route[i..])
    {
      var next := Step(env, acc, Some(route[i]));
      assert route[i..][0] == route[i] && route[i..][1..] == route[i + 1..];
      if next.Err? {
        return Err(next.error);
      }
      acc := next.value;
      i := i + 1;
    }
    assert route[i..] == [];
    if |classDests| > 1 {
      var last := Step(env, acc, None);
      if last.Err? {
        return Err(last.error);
      }
      acc := last.value;
    }
    r := Ok(Assemble(acc));
  }

  // ------------------------------------------------ the alias scheme

  /** The chain holds each step's alias, each step's names are the
      conversions of its relationship and class, every counter is at most
      what the counters remember, and no two steps share a relationship and
      a counter. */
  predicate Counted(acc: Acc) {
    |acc.chain| == |acc.steps|
    && (forall k | 0 <= k < |acc.steps| :: acc.chain[k] == AliasText(acc.steps[k]))
    && (forall k | 0 <= k < |acc.steps| ::
          ResultSql(acc.steps[k].relationship) == Ok(acc.steps[k].result)
          && ClassToDbName(acc.steps[k].cls) == Ok(acc.steps[k].table))
    && (forall k | 0 <= k < |acc.steps| ::
          acc.steps[k].result in acc.seen && acc.steps[k].counter <= acc.seen[acc.steps[k].result])
    && (forall j, k | 0 <= j < k < |acc.steps| ::
          acc.steps[j].result != acc.steps[k].result || acc.steps[j].counter != acc.steps[k].counter)
  }

  /** Appending a step whose counter is the next one for its relationship keeps the scheme. */
  lemma CountedSnoc(acc: Acc, a: Acc, info: StepInfo)
    requires Counted(acc)
    requires a.steps == acc.steps + [info] && a.chain == acc.chain + [AliasText(info)]
    requires info.counter == NextCount(acc.seen, info.result) && a.seen == acc.seen[info.result := info.counter]
    requires ResultSql(info.relationship) == Ok(info.result) && ClassToDbName(info.cls) == Ok(info.table)
    ensures Counted(a)
  {
    var n := |acc.steps|;
    assert forall k | 0 <= k < n :: a.steps[k] == acc.steps[k];
    assert a.steps[n] == info;
  }

  lemma StepCounted(env: Env, acc: Acc, rule: Option<Rule>)
    requires Counted(acc) && Step(env, acc, rule).Ok?
    ensures Counted(Step(env, acc, rule).value)
  {
    var a := Step(env, acc, rule).value;
    StepAliases(env, acc, rule);
    var n := |acc.steps|;
    assert a.steps == a.steps[..n] + [a.steps[n]];
    CountedSnoc(acc, a, a.steps[n]);
  }

  lemma {:induction false} RunCounted(env: Env, acc: Acc, route: seq<Rule>)
    requires Counted(acc) && Run(env, acc, route).Ok?
    ensures Counted(Run(env, acc, route).value)
    ensures |Run(env, acc, route).value.steps| == |acc.steps| + |route|
    decreases |route|
  {
    if |route| > 0 {
      StepCounted(env, acc, Some(route[0]));
      StepAliases(env, acc, Some(route[0]));
      RunCounted(env, Step(env, acc, Some(route[0])).value, route[1..]);
    }
  }

  /** The chain of a compiled route holds one alias per rule, plus one for
      the closing step, and no two steps share a relationship name and a
      counter. */
  lemma CompileCounted(st: SchemaState, cat: Catalog, route: seq<Rule>, dests: seq<Dest>, classDests: seq<Dest>)
    requires Compile(st, cat, route, dests, classDests).Ok?
    ensures var a := Compile(st, cat, route, dests, classDests).value;
      Counted(a) && |a.chain| == |route| + (if |classDests| > 1 then 1 else 0)
  {
    var first := if |classDests| > 0 then classDests[0].cls else None;
    var classes := Classify(st, cat, classDests).value;
    var env := Env(st, cat, dests, Nodes(route, first), classes);
    RunCounted(env, Start(first), route);
    if |classDests| > 1 {
      var acc := Run(env, Start(first), route).value;
      StepCounted(env, acc, None);
      StepAliases(env, acc, None);
    }
  }

  // ------------------------------------------------ the aliases as text

  /** Route rules and the first class with non-empty names. */
  predicate RuleNamed(r: Rule) {
    |r.input| > 0 && |r.output| > 0 && |r.relationship| > 0
  }

  predicate NonEmpty(c: Option<string>) {
    c.Some? ==> |c.value| > 0
  }

  predicate NamedInputs(route: seq<Rule>, classDests: seq<Dest>) {
    (forall k | 0 <= k < |route| :: RuleNamed(route[k]))
    && (|classDests| > 0 ==> NonEmpty(classDests[0].cls))
  }

  /** Every name the loop carries, and every step's relationship and class, is non-empty. */
  predicate Named(acc: Acc) {
    |acc.lastRule.relationship| > 0 && NonEmpty(acc.lastRule.input) && NonEmpty(acc.lastRule.output)
    && NonEmpty(acc.current)
    && forall k | 0 <= k < |acc.steps| :: |acc.steps[k].relationship| > 0 && |acc.steps[k].cls| > 0
  }

  /** The class a step stands on is one the loop already carries or an end of the rule. */
  lemma OrientNamed(acc: Acc, rule: Option<Rule>)
    requires Named(acc) && (rule.Some? ==> RuleNamed(rule.value))
    ensures NonEmpty(Orient(acc, rule).current)
  {
  }

  lemma NamedSnoc(acc: Acc, a: Acc, info: StepInfo)
    requires Named(acc) && a.steps == acc.steps + [info] && |info.relationship| > 0 && |info.cls| > 0
    requires |a.lastRule.relationship| > 0 && NonEmpty(a.lastRule.input) && NonEmpty(a.lastRule.output)
    requires NonEmpty(a.current)
    ensures Named(a)
  {
    var n := |acc.steps|;
    assert forall k | 0 <= k < n :: a.steps[k] == acc.steps[k];
  }

  lemma StepNamed(env: Env, acc: Acc, rule: Option<Rule>)
    requires Named(acc) && (rule.Some? ==> RuleNamed(rule.value)) && Step(env, acc, rule).Ok?
    ensures Named(Step(env, acc, rule).value)
  {
    var a := Step(env, acc, rule).value;
    StepAliases(env, acc, rule);
    OrientNamed(acc, rule);
    var n := |acc.steps|;
    assert a.steps == a.steps[..n] + [a.steps[n]];
    NamedSnoc(acc, a, a.steps[n]);
  }

  lemma {:induction false} RunNamed(env: Env, acc: Acc, route: seq<Rule>)
    requires Named(acc) && (forall k | 0 <= k < |route| :: RuleNamed(route[k])) && Run(env, acc, route).Ok?
    ensures Named(Run(env, acc, route).value)
    decreases |route|
  {
    if |route| > 0 {
      StepNamed(env, acc, Some(route[0]));
      assert forall k | 0 <= k < |route| - 1 :: route[1..][k] == route[k + 1];
      RunNamed(env, Step(env, acc, Some(route[0])).value, route[1..]);
    }
  }

  lemma CompileNamed(st: SchemaState, cat: Catalog, route: seq<Rule>, dests: seq<Dest>, classDests: seq<Dest>)
    requires Compile(st, cat, route, dests, classDests).Ok? && NamedInputs(route, classDests)
    ensures Named(Compile(st, cat, route, dests, classDests).value)
  {
    var first := if |classDests| > 0 then classDests[0].cls else None;
    var classes := Classify(st, cat, classDests).value;
    var env := Env(st, cat, dests, Nodes(route, first), classes);
    RunNamed(env, Start(first), route);
    if |classDests| > 1 {
      StepNamed(env, Run(env, Start(first), route).value, None);
    }
  }

  /** How a step appears in the formatted chain: an unregistered class as
      its table, the first step as its class, any other step as
      `(Rel) -> Class`, or `(Rel[$i]) -> Class` when the relationship was
      followed before. */
  function Shown(s: StepInfo): string {
    if !s.registered then s.table
    else if s.relationship == AliasAnchor then s.cls
    else "(" + s.relationship + (if s.counter == 0 then "" else "[$i]") + ") -> " + s.cls
  }

  /** The parts an alias is built from can be read back from it. */
  predicate Decodable(s: StepInfo) {
    |s.result| > 0 && NoDoubleUnderscore(s.result) && !EndsWithUnderscore(s.result)
    && |s.table| > 0 && NoDoubleUnderscore(s.table) && s.table[0] != '_'
  }

  /** The alias of a step with non-empty names is one word, decodable,
      and formats as Shown says. */
  lemma StepWord(s: StepInfo)
    requires |s.relationship| > 0 && |s.cls| > 0
    requires ResultSql(s.relationship) == Ok(s.result) && ClassToDbName(s.cls) == Ok(s.table)
    ensures Decodable(s) && ' ' !in AliasText(s) && FormatWord(AliasText(s)) == Shown(s)
  {
    StepDecodable(s);
    if !s.registered {
      FormatTable(s.cls);
    } else if s.relationship == AliasAnchor {
      FormatAnchorAlias(s.counter, s.cls);
    } else {
      FormatRelationshipAlias(s.relationship, s.counter, s.cls);
    }
  }

  lemma StepDecodable(s: StepInfo)
    requires |s.relationship| > 0 && |s.cls| > 0
    requires ResultSql(s.relationship) == Ok(s.result) && ClassToDbName(s.cls) == Ok(s.table)
    ensures Decodable(s) && ' ' !in AliasText(s)
  {
    TableShape(s.cls);
    if s.relationship != AliasAnchor {
      TableShape(s.relationship);
    }
    var digits := NatToString(s.counter);
    assert ' ' !in digits by {
      forall k | 0 <= k < |digits| ensures digits[k] != ' ' {
        assert IsDigit(digits[k]);
      }
    }
    assert ' ' !in s.result;
  }

  /** Distinct registered steps of a compiled route have distinct aliases:
      the counters keep two visits over one relationship apart, and the
      name rules keep the parts of an alias apart. */
  lemma RegisteredAliasesDistinct(st: SchemaState, cat: Catalog, route: seq<Rule>, dests: seq<Dest>, classDests: seq<Dest>)
    requires Compile(st, cat, route, dests, classDests).Ok? && NamedInputs(route, classDests)
    ensures var a := Compile(st, cat, route, dests, classDests).value;
      |a.chain| == |a.steps|
      && forall j, k | 0 <= j < k < |a.steps| && a.steps[j].registered && a.steps[k].registered :: a.chain[j] != a.chain[k]
  {
    var a := Compile(st, cat, route, dests, classDests).value;
    CompileCounted(st, cat, route, dests, classDests);
    CompileNamed(st, cat, route, dests, classDests);
    forall j, k | 0 <= j < k < |a.steps| && a.steps[j].registered && a.steps[k].registered
      ensures a.chain[j] != a.chain[k]
    {
      var x, y := a.steps[j], a.steps[k];
      StepWord(x);
      StepWord(y);
      if a.chain[j] == a.chain[k] {
        AliasInjective(x.result, x.counter, x.table, y.result, y.counter, y.table);
        assert false;
      }
    }
  }

  /** The chain of a compiled route as Orm::chainFormat shows it: each
      step as Shown says, joined by arrows. */
  lemma ChainShown(st: SchemaState, cat: Catalog, route: seq<Rule>, dests: seq<Dest>, classDests: seq<Dest>)
    requires Compile(st, cat, route, dests, classDests).Ok? && NamedInputs(route, classDests)
    ensures var a := Compile(st, cat, route, dests, classDests).value;
      Assemble(a).chain == Join(seq(|a.steps|, k requires 0 <= k < |a.steps| => Shown(a.steps[k])), " -> ")
  {
    var a := Compile(st, cat, route, dests, classDests).value;
    CompileCounted(st, cat, route, dests, classDests);
    CompileNamed(st, cat, route, dests, classDests);
    forall k | 0 <= k < |a.steps| ensures ' ' !in a.chain[k] && FormatWord(a.chain[k]) == Shown(a.steps[k]) {
      StepWord(a.steps[k]);
    }
    FormatJoined(a.chain);
    assert FormatWords(a.chain) == seq(|a.steps|, k requires 0 <= k < |a.steps| => Shown(a.steps[k]));
  }
}
