/** What Orm::sqlFromRoute selects: for an output destination of the class
    a step stands on, the properties of every instantiable level of the
    class's hierarchy, each ancestor's table joined on its keys under
    `<alias>__inherits__<table>`; for every entry of the SELECT list, the
    column name it gives its value; and where Orm::objectsFromResult files
    that column. */
module Selection {
  import opened Wrappers
  import opened Strings
  import opened Names
  import opened Schema
  import opened Registry
  import opened Destinations
  import opened ChainFormat
  import opened Compiler
  import opened Hydrator

  // ------------------------------------------------ growing lists

  /** Each list is a prefix of the later one. */
  predicate Grows(l: Lists, r: Lists) {
    l.select <= r.select && l.from <= r.from && l.where <= r.where
  }

  function ListsOf(a: Acc): Lists {
    Lists(a.select, a.from, a.where)
  }

  lemma GrowsTrans(l: Lists, m: Lists, r: Lists)
    requires Grows(l, m) && Grows(m, r)
    ensures Grows(l, r)
  {
  }

  lemma InPrefix(x: string, a: seq<string>, b: seq<string>)
    requires x in a && a <= b
    ensures x in b
  {
    var i :| 0 <= i < |a| && a[i] == x;
    assert b[i] == x;
  }

  // ------------------------------------------------ column names

  /** `e` is a SELECT entry `<expression> AS <name>`. */
  predicate SelectsAs(e: string, name: string) {
    |e| >= |name| + 4 && e[|e| - |name| - 4..] == " AS " + name
  }

  lemma SelectsAsOf(x: string, name: string)
    ensures SelectsAs(x + " AS " + name, name)
  {
    var e := x + " AS " + name;
    assert e == x + (" AS " + name);
    assert e[|x|..] == " AS " + name;
  }

  lemma SelectEntryNames(alias: string, p: string)
    ensures SelectsAs(alias + "." + p + " AS " + alias + "__" + p, alias + "__" + p)
  {
    assert alias + "." + p + " AS " + alias + "__" + p == (alias + "." + p) + " AS " + (alias + "__" + p);
    SelectsAsOf(alias + "." + p, alias + "__" + p);
  }

  lemma VarEntryNames(table: string, rsql: string, prefix: string, p: string)
    ensures SelectsAs(table + "." + rsql + "__var__" + p + " AS " + prefix + "__" + p, prefix + "__" + p)
  {
    assert table + "." + rsql + "__var__" + p + " AS " + prefix + "__" + p
      == (table + "." + rsql + "__var__" + p) + " AS " + (prefix + "__" + p);
    SelectsAsOf(table + "." + rsql + "__var__" + p, prefix + "__" + p);
  }

  /** What a column of the SELECT holds: a property of the step's class, a
      property of one of its instantiable ancestors (`cls`, stored in
      `table`), or a property of the relationship the step was reached
      over. */
  datatype Column = OwnColumn(prop: string) | ParentColumn(cls: string, table: string, prop: string) | VarColumn(prop: string)

  predicate ColumnOk(c: Column) {
    ValidPropertyName(c.prop) && (c.ParentColumn? ==> ClassToDbName(c.cls) == Ok(c.table))
  }

  /** The alias an ancestor's table is joined under. */
  function ParentAlias(curAlias: string, table: string): string {
    curAlias + "__" + InheritsSql + "__" + table
  }

  /** The name a column gets in a step with alias `curAlias` and
      relationship prefix `incremented` (`$result_of_incremented`). */
  function ColumnName(curAlias: string, incremented: string, c: Column): string {
    match c
    case OwnColumn(p) => curAlias + "__" + p
    case ParentColumn(_, t, p) => ParentAlias(curAlias, t) + "__" + p
    case VarColumn(p) => incremented + "__" + p
  }

  function IncrementedOf(s: StepInfo): string {
    s.result + "__" + NatToString(s.counter)
  }

  /** `e` selects a column of the step with these names. */
  ghost predicate StepColumn(e: string, curAlias: string, incremented: string) {
    exists c: Column :: ColumnOk(c) && SelectsAs(e, ColumnName(curAlias, incremented, c))
  }

  /** Every entry of `sel` from position `from` on selects a column of one step. */
  ghost predicate ColumnsFrom(sel: seq<string>, from: nat, curAlias: string, incremented: string) {
    forall j | from <= j < |sel| :: StepColumn(sel[j], curAlias, incremented)
  }

  lemma SelectedValid(cat: Catalog, cls: string)
    requires SelectedProperties(cat, cls).Ok?
    ensures forall p | p in SelectedProperties(cat, cls).value :: ValidPropertyName(p)
  {
    assert ValidPropertyName(AutoPropertyId);
  }

  /** The properties of one level selected under the class's own alias or
      under an ancestor's alias are columns of the step. */
  lemma SelectBlockColumns(alias: string, props: seq<string>, sel: seq<string>, curAlias: string, inc: string,
                           parent: Option<string>)
    requires forall p | p in props :: ValidPropertyName(p)
    requires parent.None? ==> alias == curAlias
    requires parent.Some? ==> ClassToDbName(parent.value).Ok? && alias == ParentAlias(curAlias, ClassToDbName(parent.value).value)
    ensures ColumnsFrom(sel + SelectList(alias, props), |sel|, curAlias, inc)
  {
    var all := sel + SelectList(alias, props);
    forall j | |sel| <= j < |all| ensures StepColumn(all[j], curAlias, inc) {
      var p := props[j - |sel|];
      assert p in props;
      SelectEntryNames(alias, p);
      var c := if parent.None? then OwnColumn(p) else ParentColumn(parent.value, ClassToDbName(parent.value).value, p);
      assert ColumnName(curAlias, inc, c) == alias + "__" + p;
      assert ColumnOk(c) && SelectsAs(all[j], ColumnName(curAlias, inc, c));
    }
  }

  /** The walk up an output class's hierarchy selects only columns of the
      class itself, under the step's alias, or of an ancestor, under that
      ancestor's alias. */
  lemma {:induction false} InheritWalkColumns(cat: Catalog, curAlias: string, current: string, levels: seq<Level>,
                                               alias: string, l: Lists, inc: string, parent: Option<string>)
    requires InheritWalk(cat, curAlias, current, levels, alias, l).Ok?
    requires parent.None? ==> alias == curAlias
    requires parent.Some? ==> ClassToDbName(parent.value).Ok? && alias == ParentAlias(curAlias, ClassToDbName(parent.value).value)
    ensures var r := InheritWalk(cat, curAlias, current, levels, alias, l).value;
      Grows(l, r) && ColumnsFrom(r.select, |l.select|, curAlias, inc)
    decreases |levels|
  {
    if |levels| > 0 && !levels[0].instantiable {
      InheritWalkColumns(cat, curAlias, current, levels[1..], alias, l, inc, parent);
    } else if |levels| > 0 {
      var cls := levels[0].name;
      var joined := (if cls != current then ParentJoin(cat, curAlias, cls, alias, l) else Ok((alias, l))).value;
      var props := SelectedProperties(cat, cls).value;
      var l2 := Lists(joined.1.select + SelectList(joined.0, props), joined.1.from, joined.1.where);
      var parent2 := if cls != current then Some(cls) else parent;
      SelectedValid(cat, cls);
      assert joined.1.select == l.select;
      SelectBlockColumns(joined.0, props, l.select, curAlias, inc, parent2);
      InheritWalkColumns(cat, curAlias, current, levels[1..], joined.0, l2, inc, parent2);
      var r := InheritWalk(cat, curAlias, current, levels, alias, l).value;
      assert r == InheritWalk(cat, curAlias, current, levels[1..], joined.0, l2).value;
      forall j | |l.select| <= j < |l2.select| ensures StepColumn(r.select[j], curAlias, inc) {
        assert r.select[j] == l2.select[j];
      }
    }
  }

  /** One destination's output selects only columns of the step. */
  lemma DestOutputColumns(env: Env, ctx: Ctx, d: Dest, l: Lists)
    requires DestOutput(env, ctx, d, l).Ok?
    ensures var r := DestOutput(env, ctx, d, l).value;
      Grows(l, r) && ColumnsFrom(r.select, |l.select|, ctx.curAlias, Incremented(ctx))
  {
    var r := DestOutput(env, ctx, d, l).value;
    if d.output.Some? && d.cls == ctx.current {
      var cls := ClassOf(d);
      InheritWalkColumns(env.cat, ctx.curAlias, cls, [env.cat[cls].self] + env.cat[cls].ancestors, ctx.curAlias, l,
                         Incremented(ctx), None);
    } else if d.output.Some? && d.cls == Some(ctx.resultOf) {
      var props := GetProperties(env.cat, ctx.resultOf).value;
      var table := if ctx.storedHere then ctx.curAlias else ctx.lastAlias;
      assert r.select == l.select + VarSelectList(table, ctx.rsql, props, Incremented(ctx));
      forall j | |l.select| <= j < |r.select| ensures StepColumn(r.select[j], ctx.curAlias, Incremented(ctx)) {
        var p := props[j - |l.select|];
        VarEntryNames(table, ctx.rsql, Incremented(ctx), p);
        var c := VarColumn(p);
        assert ColumnName(ctx.curAlias, Incremented(ctx), c) == Incremented(ctx) + "__" + p;
        assert ColumnOk(c) && SelectsAs(r.select[j], ColumnName(ctx.curAlias, Incremented(ctx), c));
      }
    }
  }

  /** The input part only adds WHERE conditions. */
  lemma DestInputGrows(env: Env, ctx: Ctx, d: Dest, l: Lists)
    requires DestInput(env, ctx, d, l).Ok?
    ensures var r := DestInput(env, ctx, d, l).value;
      r.select == l.select && r.from == l.from && l.where <= r.where
  {
  }

  lemma {:induction false} DestsPartColumns(env: Env, ctx: Ctx, ds: seq<Dest>, l: Lists)
    requires DestsPart(env, ctx, ds, l).Ok?
    ensures var r := DestsPart(env, ctx, ds, l).value;
      Grows(l, r) && ColumnsFrom(r.select, |l.select|, ctx.curAlias, Incremented(ctx))
    decreases |ds|
  {
    if |ds| > 0 {
      var l1 := DestOutput(env, ctx, ds[0], l).value;
      var l2 := DestInput(env, ctx, ds[0], l1).value;
      DestOutputColumns(env, ctx, ds[0], l);
      DestInputGrows(env, ctx, ds[0], l1);
      DestsPartColumns(env, ctx, ds[1..], l2);
      var r := DestsPart(env, ctx, ds, l).value;
      assert r == DestsPart(env, ctx, ds[1..], l2).value;
      forall j | |l.select| <= j < |r.select| ensures StepColumn(r.select[j], ctx.curAlias, Incremented(ctx)) {
        if j < |l2.select| {
          assert r.select[j] == l2.select[j] == l1.select[j];
        }
      }
    }
  }

  /** Every entry of the SELECT list names a column of one of the steps. */
  ghost predicate Columns(a: Acc) {
    forall j | 0 <= j < |a.select| :: exists k | 0 <= k < |a.steps| ::
      StepColumn(a.select[j], AliasText(a.steps[k]), IncrementedOf(a.steps[k]))
  }

  /** The context a step hands its destination loop. */
  function StepCtx(env: Env, acc: Acc, rule: Option<Rule>): Ctx
    requires NamesOf(env, acc, Orient(acc, rule), acc.lastRule.relationship,
                     if rule.Some? then Some(rule.value.relationship) else None).Ok?
  {
    var o := Orient(acc, rule);
    var n := NamesOf(env, acc, o, acc.lastRule.relationship, if rule.Some? then Some(rule.value.relationship) else None).value;
    Ctx(o.current, acc.lastRule.relationship, n.rsql, n.counter, n.curAlias, OrEmpty(acc.lastAlias),
        OrEmpty(n.linkedAlias), o.storedHere == Some(true), FlagsOf(env, o).inputAsRelKeys)
  }

  /** The JOIN part only adds WHERE conditions. */
  lemma JoinPartGrows(env: Env, acc: Acc, o: Orientation, f: Flags, n: StepNames, linkTruthy: bool, l: Lists)
    requires JoinPart(env, acc, o, f, n, linkTruthy, l).Ok?
    ensures var r := JoinPart(env, acc, o, f, n, linkTruthy, l).value;
      r.select == l.select && r.from == l.from && l.where <= r.where
  {
  }

  /** A step runs its destination loop under its own alias and
      relationship prefix, from the lists so far, and then only adds FROM
      and WHERE entries. */
  lemma StepParts(env: Env, acc: Acc, rule: Option<Rule>)
    requires Step(env, acc, rule).Ok?
    ensures NamesOf(env, acc, Orient(acc, rule), acc.lastRule.relationship,
                    if rule.Some? then Some(rule.value.relationship) else None).Ok?
    ensures var a := Step(env, acc, rule).value; var info := a.steps[|a.steps| - 1]; var ctx := StepCtx(env, acc, rule);
      |a.steps| == |acc.steps| + 1 && a.steps[..|acc.steps|] == acc.steps
      && ctx.curAlias == AliasText(info) && Incremented(ctx) == IncrementedOf(info) && ctx.current == Some(info.cls)
      && DestsPart(env, ctx, env.dests, ListsOf(acc)).Ok?
      && a.select == DestsPart(env, ctx, env.dests, ListsOf(acc)).value.select
      && Grows(DestsPart(env, ctx, env.dests, ListsOf(acc)).value, ListsOf(a))
  {
    StepAliases(env, acc, rule);
    var o := Orient(acc, rule);
    var link := if rule.Some? then Some(rule.value.relationship) else None;
    var f := FlagsOf(env, o);
    var n := NamesOf(env, acc, o, acc.lastRule.relationship, link).value;
    var ctx := StepCtx(env, acc, rule);
    var l1 := DestsPart(env, ctx, env.dests, ListsOf(acc)).value;
    var l2 := if f.currUnused then l1
      else Lists(l1.select, l1.from + [if Registered(env, o.current) then n.table + " " + n.curAlias else n.curAlias], l1.where);
    JoinPartGrows(env, acc, o, f, n, Truthy(link), l2);
  }

  /** A step selects only columns under its own alias and relationship prefix. */
  lemma StepColumns(env: Env, acc: Acc, rule: Option<Rule>)
    requires Step(env, acc, rule).Ok?
    ensures var a := Step(env, acc, rule).value; var info := a.steps[|a.steps| - 1];
      |a.steps| == |acc.steps| + 1 && a.steps[..|acc.steps|] == acc.steps
      && acc.select <= a.select && ColumnsFrom(a.select, |acc.select|, AliasText(info), IncrementedOf(info))
  {
    StepParts(env, acc, rule);
    DestsPartColumns(env, StepCtx(env, acc, rule), env.dests, ListsOf(acc));
  }

  lemma StepKeepsColumns(env: Env, acc: Acc, rule: Option<Rule>)
    requires Columns(acc) && Step(env, acc, rule).Ok?
    ensures Columns(Step(env, acc, rule).value)
  {
    var a := Step(env, acc, rule).value;
    StepColumns(env, acc, rule);
    var last := |a.steps| - 1;
    forall j | 0 <= j < |a.select|
      ensures exists k | 0 <= k < |a.steps| :: StepColumn(a.select[j], AliasText(a.steps[k]), IncrementedOf(a.steps[k]))
    {
      if j < |acc.select| {
        var k :| 0 <= k < |acc.steps| && StepColumn(acc.select[j], AliasText(acc.steps[k]), IncrementedOf(acc.steps[k]));
        assert a.select[j] == acc.select[j] && a.steps[k] == acc.steps[k];
      } else {
        assert StepColumn(a.select[j], AliasText(a.steps[last]), IncrementedOf(a.steps[last]));
      }
    }
  }

  lemma {:induction false} RunColumns(env: Env, acc: Acc, route: seq<Rule>)
    requires Columns(acc) && Run(env, acc, route).Ok?
    ensures Columns(Run(env, acc, route).value)
    decreases |route|
  {
    if |route| > 0 {
      StepKeepsColumns(env, acc, Some(route[0]));
      RunColumns(env, Step(env, acc, Some(route[0])).value, route[1..]);
    }
  }

  /** Every entry of a compiled SELECT list is `<expression> AS <name>`,
      the name that of a property of the class of one of the steps, of one
      of that class's ancestors, or of the relationship the step was
      reached over. */
  lemma CompileColumns(st: SchemaState, cat: Catalog, route: seq<Rule>, dests: seq<Dest>, classDests: seq<Dest>)
    requires Compile(st, cat, route, dests, classDests).Ok?
    ensures Columns(Compile(st, cat, route, dests, classDests).value)
  {
    var first := if |classDests| > 0 then classDests[0].cls else None;
    var classes := Classify(st, cat, classDests).value;
    var env := Env(st, cat, dests, Nodes(route, first), classes);
    RunColumns(env, Start(first), route);
    if |classDests| > 1 {
      StepKeepsColumns(env, Run(env, Start(first), route).value, None);
    }
  }

  // ------------------------------------------------ reading the columns back

  /** The cell a column selected for a step goes to: a column of the
      class, or of one of its ancestors, to the class bag `Rel__n__Class`
      (an ancestor's `id` as `__Parent__id`), a column of the relationship
      to the bag `Rel__n`. */
  function ColumnCell(s: StepInfo, c: Column): Cell {
    match c
    case OwnColumn(p) => ClassCell(Alias(s.relationship, s.counter, s.cls), p)
    case ParentColumn(parent, _, p) =>
      ClassCell(Alias(s.relationship, s.counter, s.cls), if p == AutoPropertyId then "__" + parent + "__" + AutoPropertyId else p)
    case VarColumn(p) => RshipCell(s.relationship + "__" + NatToString(s.counter), p)
  }

  lemma ColumnDecodes(s: StepInfo, c: Column)
    requires ResultSql(s.relationship) == Ok(s.result) && ClassToDbName(s.cls) == Ok(s.table) && ColumnOk(c)
    requires s.registered || c.VarColumn?
    ensures DecodeColumn(ColumnName(AliasText(s), IncrementedOf(s), c)) == Ok(ColumnCell(s, c))
  {
    match c
    case OwnColumn(p) => ClassColumnDecodes(s.relationship, s.result, s.counter, s.cls, s.table, p);
    case ParentColumn(parent, t, p) => InheritsColumnDecodes(s.relationship, s.result, s.counter, s.cls, s.table, parent, t, p);
    case VarColumn(p) => RshipColumnDecodes(s.relationship, s.result, s.counter, p);
  }

  /** `e` selects a column of step `s` that DecodeColumn reads back into
      the step's bags, when the step's class is registered or the column
      is the relationship's. */
  ghost predicate DecodesFor(e: string, s: StepInfo) {
    exists c: Column :: ColumnOk(c) && SelectsAs(e, ColumnName(AliasText(s), IncrementedOf(s), c))
      && ((s.registered || c.VarColumn?) ==> DecodeColumn(ColumnName(AliasText(s), IncrementedOf(s), c)) == Ok(ColumnCell(s, c)))
  }

  lemma StepColumnDecodes(e: string, s: StepInfo)
    requires StepColumn(e, AliasText(s), IncrementedOf(s))
    requires ResultSql(s.relationship) == Ok(s.result) && ClassToDbName(s.cls) == Ok(s.table)
    ensures DecodesFor(e, s)
  {
    var c: Column :| ColumnOk(c) && SelectsAs(e, ColumnName(AliasText(s), IncrementedOf(s), c));
    if s.registered || c.VarColumn? {
      ColumnDecodes(s, c);
    }
  }

  /** Entry `j` of the SELECT list is read back into the bags of one of the steps. */
  ghost predicate EntryDecodes(a: Acc, j: int)
    requires 0 <= j < |a.select|
  {
    exists k | 0 <= k < |a.steps| :: DecodesFor(a.select[j], a.steps[k])
  }

  /** Every entry of a compiled SELECT list is `<expression> AS <name>`
      with the name of a column of one of the steps, and objectsFromResult
      files that column under the step's class bag or relationship bag. */
  lemma CompiledColumnsDecode(st: SchemaState, cat: Catalog, route: seq<Rule>, dests: seq<Dest>, classDests: seq<Dest>)
    requires Compile(st, cat, route, dests, classDests).Ok?
    ensures var a := Compile(st, cat, route, dests, classDests).value;
      forall j | 0 <= j < |a.select| :: EntryDecodes(a, j)
  {
    CompileColumns(st, cat, route, dests, classDests);
    CompileCounted(st, cat, route, dests, classDests);
    ColumnsDecode(Compile(st, cat, route, dests, classDests).value);
  }

  lemma ColumnsDecode(a: Acc)
    requires Columns(a) && Counted(a)
    ensures forall j | 0 <= j < |a.select| :: EntryDecodes(a, j)
  {
    forall j | 0 <= j < |a.select| ensures EntryDecodes(a, j) {
      var k :| 0 <= k < |a.steps| && StepColumn(a.select[j], AliasText(a.steps[k]), IncrementedOf(a.steps[k]));
      StepColumnDecodes(a.select[j], a.steps[k]);
    }
  }

  // ------------------------------------------------ the output classes

  /** The alias a level's properties are selected under: the alias below
      for the class itself, `<step alias>__inherits__<table>` for an
      ancestor. */
  function LevelAlias(curAlias: string, current: string, cls: string, below: string): string {
    if cls == current then below
    else match ClassToDbName(cls)
      case Ok(t) => ParentAlias(curAlias, t)
      case Err(_) => below
  }

  /** The alias of the nearest instantiable level below level `k`, or the
      step's alias when there is none. */
  function AliasBelow(curAlias: string, current: string, levels: seq<Level>, alias: string, k: nat): string
    requires k <= |levels|
  {
    if k == 0 then alias
    else
      var below := AliasBelow(curAlias, current, levels, alias, k - 1);
      if levels[k - 1].instantiable then LevelAlias(curAlias, current, levels[k - 1].name, below) else below
  }

  lemma {:induction false} AliasBelowShift(curAlias: string, current: string, levels: seq<Level>, alias: string, k: nat)
    requires 1 <= k <= |levels|
    ensures AliasBelow(curAlias, current, levels, alias, k)
      == AliasBelow(curAlias, current, levels[1..], AliasBelow(curAlias, current, levels, alias, 1), k - 1)
    decreases k
  {
    if k > 1 {
      AliasBelowShift(curAlias, current, levels, alias, k - 1);
      assert levels[1..][k - 2] == levels[k - 1];
    }
  }

  /** An instantiable level below which the alias is `below`: every
      selected property as `<alias>.<p> AS <alias>__<p>`, and for an
      ancestor its table under its alias and one join per key from the
      level below. */
  predicate LevelEmitted(cat: Catalog, curAlias: string, current: string, lv: Level, below: string, l: Lists) {
    var a := LevelAlias(curAlias, current, lv.name, below);
    SelectedProperties(cat, lv.name).Ok?
    && (forall p | p in SelectedProperties(cat, lv.name).value :: a + "." + p + " AS " + a + "__" + p in l.select)
    && (lv.name != current ==>
          ClassToDbName(lv.name).Ok? && GetKeys(cat, lv.name).Ok? && a == ParentAlias(curAlias, ClassToDbName(lv.name).value)
          && ClassToDbName(lv.name).value + " " + a in l.from
          && forall key | key in GetKeys(cat, lv.name).value ::
               below + "." + InheritsSql + "__key__" + key + " = " + a + "." + key in l.where)
  }

  lemma LevelEmittedGrows(cat: Catalog, curAlias: string, current: string, lv: Level, below: string, l: Lists, r: Lists)
    requires LevelEmitted(cat, curAlias, current, lv, below, l) && Grows(l, r)
    ensures LevelEmitted(cat, curAlias, current, lv, below, r)
  {
    var a := LevelAlias(curAlias, current, lv.name, below);
    forall p | p in SelectedProperties(cat, lv.name).value ensures a + "." + p + " AS " + a + "__" + p in r.select {
      InPrefix(a + "." + p + " AS " + a + "__" + p, l.select, r.select);
    }
    if lv.name != current {
      InPrefix(ClassToDbName(lv.name).value + " " + a, l.from, r.from);
      forall key | key in GetKeys(cat, lv.name).value
        ensures below + "." + InheritsSql + "__key__" + key + " = " + a + "." + key in r.where
      {
        InPrefix(below + "." + InheritsSql + "__key__" + key + " = " + a + "." + key, l.where, r.where);
      }
    }
  }

  lemma SelectListHas(alias: string, props: seq<string>, p: string)
    requires p in props
    ensures alias + "." + p + " AS " + alias + "__" + p in SelectList(alias, props)
  {
    var i :| 0 <= i < |props| && props[i] == p;
    assert SelectList(alias, props)[i] == alias + "." + p + " AS " + alias + "__" + p;
  }

  lemma KeyJoinsHas(left: string, name: string, keys: seq<string>, right: string, key: string)
    requires key in keys
    ensures left + "." + name + "__key__" + key + " = " + right + "." + key in KeyJoins(left, name, keys, right)
  {
    var i :| 0 <= i < |keys| && keys[i] == key;
    assert KeyJoins(left, name, keys, right)[i] == left + "." + name + "__key__" + key + " = " + right + "." + key;
  }

  /** The level the walk stands on is emitted into the lists it passes on. */
  lemma HeadEmitted(cat: Catalog, curAlias: string, current: string, levels: seq<Level>, alias: string, l: Lists)
    requires |levels| > 0 && levels[0].instantiable
    requires InheritWalk(cat, curAlias, current, levels, alias, l).Ok?
    ensures var cls := levels[0].name;
      var joined := if cls != current then ParentJoin(cat, curAlias, cls, alias, l) else Ok((alias, l));
      joined.Ok? && SelectedProperties(cat, cls).Ok?
      && var l2 := Lists(joined.value.1.select + SelectList(joined.value.0, SelectedProperties(cat, cls).value),
                         joined.value.1.from, joined.value.1.where);
      Grows(l, l2) && joined.value.0 == LevelAlias(curAlias, current, cls, alias)
      && LevelEmitted(cat, curAlias, current, levels[0], alias, l2)
  {
    var cls := levels[0].name;
    var joined := (if cls != current then ParentJoin(cat, curAlias, cls, alias, l) else Ok((alias, l))).value;
    var props := SelectedProperties(cat, cls).value;
    var l2 := Lists(joined.1.select + SelectList(joined.0, props), joined.1.from, joined.1.where);
    var a := joined.0;
    forall p | p in props ensures a + "." + p + " AS " + a + "__" + p in l2.select {
      SelectListHas(a, props, p);
    }
    if cls != current {
      var table := ClassToDbName(cls).value;
      var keys := GetKeys(cat, cls).value;
      assert l2.from == l.from + [table + " " + a];
      assert l2.where == l.where + KeyJoins(alias, InheritsSql, keys, a);
      forall key | key in keys ensures alias + "." + InheritsSql + "__key__" + key + " = " + a + "." + key in l2.where {
        KeyJoinsHas(alias, InheritsSql, keys, a, key);
      }
    }
  }

  /** The walk emits every instantiable level of the hierarchy. */
  lemma {:induction false} InheritWalkEmits(cat: Catalog, curAlias: string, current: string, levels: seq<Level>,
                                             alias: string, l: Lists)
    requires InheritWalk(cat, curAlias, current, levels, alias, l).Ok?
    ensures var r := InheritWalk(cat, curAlias, current, levels, alias, l).value;
      Grows(l, r)
      && forall k | 0 <= k < |levels| && levels[k].instantiable ::
           LevelEmitted(cat, curAlias, current, levels[k], AliasBelow(curAlias, current, levels, alias, k), r)
    decreases |levels|
  {
    if |levels| > 0 {
      var r := InheritWalk(cat, curAlias, current, levels, alias, l).value;
      var next: string, l2: Lists;
      if !levels[0].instantiable {
        next, l2 := alias, l;
      } else {
        var cls := levels[0].name;
        HeadEmitted(cat, curAlias, current, levels, alias, l);
        var joined := (if cls != current then ParentJoin(cat, curAlias, cls, alias, l) else Ok((alias, l))).value;
        next := joined.0;
        l2 := Lists(joined.1.select + SelectList(joined.0, SelectedProperties(cat, cls).value), joined.1.from, joined.1.where);
      }
      assert r == InheritWalk(cat, curAlias, current, levels[1..], next, l2).value;
      assert next == AliasBelow(curAlias, current, levels, alias, 1);
      InheritWalkEmits(cat, curAlias, current, levels[1..], next, l2);
      forall k | 0 <= k < |levels| && levels[k].instantiable
        ensures LevelEmitted(cat, curAlias, current, levels[k], AliasBelow(curAlias, current, levels, alias, k), r)
      {
        if k == 0 {
          LevelEmittedGrows(cat, curAlias, current, levels[0], alias, l2, r);
        } else {
          AliasBelowShift(curAlias, current, levels, alias, k);
          assert levels[1..][k - 1] == levels[k];
        }
      }
    }
  }

  /** An output destination of class `cls` at a step with alias
      `curAlias`: the class is declared and every instantiable level of its
      hierarchy, the class first, is emitted, the class itself under
      `curAlias`. */
  predicate OutputEmitted(cat: Catalog, curAlias: string, cls: string, l: Lists) {
    cls in cat
    && var levels := [cat[cls].self] + cat[cls].ancestors;
    forall k | 0 <= k < |levels| && levels[k].instantiable ::
      LevelEmitted(cat, curAlias, cls, levels[k], AliasBelow(curAlias, cls, levels, curAlias, k), l)
  }

  lemma OutputEmittedGrows(cat: Catalog, curAlias: string, cls: string, l: Lists, r: Lists)
    requires OutputEmitted(cat, curAlias, cls, l) && Grows(l, r)
    ensures OutputEmitted(cat, curAlias, cls, r)
  {
    var levels := [cat[cls].self] + cat[cls].ancestors;
    forall k | 0 <= k < |levels| && levels[k].instantiable
      ensures LevelEmitted(cat, curAlias, cls, levels[k], AliasBelow(curAlias, cls, levels, curAlias, k), r)
    {
      LevelEmittedGrows(cat, curAlias, cls, levels[k], AliasBelow(curAlias, cls, levels, curAlias, k), l, r);
    }
  }

  lemma DestOutputEmits(env: Env, ctx: Ctx, d: Dest, l: Lists)
    requires DestOutput(env, ctx, d, l).Ok?
    ensures var r := DestOutput(env, ctx, d, l).value;
      Grows(l, r) && (d.output.Some? && d.cls == ctx.current ==> OutputEmitted(env.cat, ctx.curAlias, ClassOf(d), r))
  {
    if d.output.Some? && d.cls == ctx.current {
      var cls := ClassOf(d);
      InheritWalkEmits(env.cat, ctx.curAlias, cls, [env.cat[cls].self] + env.cat[cls].ancestors, ctx.curAlias, l);
    }
  }

  lemma {:induction false} DestsPartEmits(env: Env, ctx: Ctx, ds: seq<Dest>, l: Lists)
    requires DestsPart(env, ctx, ds, l).Ok?
    ensures var r := DestsPart(env, ctx, ds, l).value;
      Grows(l, r) && forall d | d in ds && d.output.Some? && d.cls == ctx.current :: OutputEmitted(env.cat, ctx.curAlias, ClassOf(d), r)
    decreases |ds|
  {
    if |ds| > 0 {
      var l1 := DestOutput(env, ctx, ds[0], l).value;
      var l2 := DestInput(env, ctx, ds[0], l1).value;
      DestOutputEmits(env, ctx, ds[0], l);
      DestInputGrows(env, ctx, ds[0], l1);
      DestsPartEmits(env, ctx, ds[1..], l2);
      var r := DestsPart(env, ctx, ds, l).value;
      assert r == DestsPart(env, ctx, ds[1..], l2).value;
      GrowsTrans(l1, l2, r);
      if ds[0].output.Some? && ds[0].cls == ctx.current {
        OutputEmittedGrows(env.cat, ctx.curAlias, ClassOf(ds[0]), l1, r);
      }
      assert forall d | d in ds :: d == ds[0] || d in ds[1..];
    }
  }

  /** A step emits every output destination of the class it stands on,
      under its own alias. */
  lemma StepEmits(env: Env, acc: Acc, rule: Option<Rule>)
    requires Step(env, acc, rule).Ok?
    ensures var a := Step(env, acc, rule).value; var info := a.steps[|a.steps| - 1];
      |a.steps| == |acc.steps| + 1 && a.steps[..|acc.steps|] == acc.steps && Grows(ListsOf(acc), ListsOf(a))
      && forall d | d in env.dests && d.output.Some? && d.cls == Some(info.cls) ::
           OutputEmitted(env.cat, AliasText(info), info.cls, ListsOf(a))
  {
    StepParts(env, acc, rule);
    var ctx := StepCtx(env, acc, rule);
    var l1 := DestsPart(env, ctx, env.dests, ListsOf(acc)).value;
    DestsPartEmits(env, ctx, env.dests, ListsOf(acc));
    var a := Step(env, acc, rule).value;
    var info := a.steps[|a.steps| - 1];
    GrowsTrans(ListsOf(acc), l1, ListsOf(a));
    forall d | d in env.dests && d.output.Some? && d.cls == Some(info.cls)
      ensures OutputEmitted(env.cat, AliasText(info), info.cls, ListsOf(a))
    {
      OutputEmittedGrows(env.cat, ctx.curAlias, ClassOf(d), l1, ListsOf(a));
    }
  }

  /** Every output destination of the class of every step is emitted
      under that step's alias. */
  predicate OutputsEmitted(cat: Catalog, dests: seq<Dest>, a: Acc) {
    forall k, d | 0 <= k < |a.steps| && d in dests && d.output.Some? && d.cls == Some(a.steps[k].cls) ::
      OutputEmitted(cat, AliasText(a.steps[k]), a.steps[k].cls, ListsOf(a))
  }

  lemma StepKeepsEmitted(env: Env, acc: Acc, rule: Option<Rule>)
    requires OutputsEmitted(env.cat, env.dests, acc) && Step(env, acc, rule).Ok?
    ensures OutputsEmitted(env.cat, env.dests, Step(env, acc, rule).value)
  {
    var a := Step(env, acc, rule).value;
    StepEmits(env, acc, rule);
    forall k, d | 0 <= k < |a.steps| && d in env.dests && d.output.Some? && d.cls == Some(a.steps[k].cls)
      ensures OutputEmitted(env.cat, AliasText(a.steps[k]), a.steps[k].cls, ListsOf(a))
    {
      if k < |acc.steps| {
        assert a.steps[k] == acc.steps[k];
        OutputEmittedGrows(env.cat, AliasText(a.steps[k]), a.steps[k].cls, ListsOf(acc), ListsOf(a));
      }
    }
  }

  lemma {:induction false} RunEmitted(env: Env, acc: Acc, route: seq<Rule>)
    requires OutputsEmitted(env.cat, env.dests, acc) && Run(env, acc, route).Ok?
    ensures OutputsEmitted(env.cat, env.dests, Run(env, acc, route).value)
    decreases |route|
  {
    if |route| > 0 {
      StepKeepsEmitted(env, acc, Some(route[0]));
      RunEmitted(env, Step(env, acc, Some(route[0])).value, route[1..]);
    }
  }

  /** In a compiled route, every output destination of the class of a step
      selects that class's properties under the step's alias, and every
      instantiable ancestor's properties under
      `<alias>__inherits__<table>`, with the ancestor's table in FROM and
      its key joins in WHERE. */
  lemma CompileSelectsOutputs(st: SchemaState, cat: Catalog, route: seq<Rule>, dests: seq<Dest>, classDests: seq<Dest>)
    requires Compile(st, cat, route, dests, classDests).Ok?
    ensures OutputsEmitted(cat, dests, Compile(st, cat, route, dests, classDests).value)
  {
    var first := if |classDests| > 0 then classDests[0].cls else None;
    var classes := Classify(st, cat, classDests).value;
    var env := Env(st, cat, dests, Nodes(route, first), classes);
    RunEmitted(env, Start(first), route);
    if |classDests| > 1 {
      StepKeepsEmitted(env, Run(env, Start(first), route).value, None);
    }
  }
}
