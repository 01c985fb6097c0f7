/** OrmSqlComponents: the clauses of one SQL statement, held under fixed
    keys in a fixed order, and the formatted route chain they came from. */
module Components {
  import opened Wrappers
  import opened Strings
  import opened Compiler

  /** The keys of a fresh clause array, in the order __toString writes them. */
  const ClauseKeys: seq<string> := ["SELECT", "INSERT", "UPDATE", "DELETE", "FROM", "WHERE", "GROUP BY", "HAVING", "ORDER BY", "LIMIT"]

  /** An ordered string-keyed PHP array. */
  type Items = seq<(string, string)>

  function KeysOf(items: Items): (ks: seq<string>)
    ensures |ks| == |items| && forall k | 0 <= k < |items| :: ks[k] == items[k].0
  {
    seq(|items|, k requires 0 <= k < |items| => items[k].0)
  }

  /** Every key of the fresh array, with the empty string. */
  function Defaults(): (d: Items)
    ensures KeysOf(d) == ClauseKeys
  {
    seq(|ClauseKeys|, k requires 0 <= k < |ClauseKeys| => (ClauseKeys[k], ""))
  }

  /** `$items[$key]`, when the key is set. */
  function Lookup(items: Items, key: string): (r: Option<string>)
    ensures r.Some? <==> key in KeysOf(items)
    ensures r.Some? ==> exists k | 0 <= k < |items| :: items[k] == (key, r.value)
  {
    if |items| == 0 then None
    else if items[0].0 == key then Some(items[0].1)
    else
      var r := Lookup(items[1..], key);
      assert forall k | 1 <= k < |items| :: items[k] == items[1..][k - 1];
      r
  }

  /** `$items[$key] = $val` for a key that is set: the value changes in
      place, the order of the keys does not. */
  function Update(items: Items, key: string, val: string): (r: Items)
    ensures KeysOf(r) == KeysOf(items)
  {
    seq(|items|, k requires 0 <= k < |items| => if items[k].0 == key then (key, val) else items[k])
  }

  /** `$items[$key] = $val`: an existing key is updated in place, a new one
      goes at the end. */
  function Put(items: Items, key: string, val: string): Items {
    if key in KeysOf(items) then Update(items, key, val) else items + [(key, val)]
  }

  /** array_merge of two string-keyed arrays. */
  function Merge(items: Items, more: Items): Items
    decreases |more|
  {
    if |more| == 0 then items else Merge(Put(items, more[0].0, more[0].1), more[1..])
  }

  /** PHP's empty() on a string: the empty string and "0". */
  predicate EmptyText(s: string) {
    s == "" || s == "0"
  }

  /** The `"<command> <args>"` parts of __toString, for the non-empty clauses in order. */
  function Commands(items: Items): seq<string> {
    if |items| == 0 then []
    else Clause(items[0].0, items[0].1) + Commands(items[1..])
  }

  /** OrmSqlComponents::__toString. */
  function Render(items: Items): string {
    Join(Commands(items), " ")
  }

  function KeyMissing(item: string): Error {
    InputError("Key " + item + " does not exist")
  }

  class SqlComponents {
    var chain: string
    var items: Items

    /** The keys never repeat and the fixed clause keys come first, in order. */
    predicate Valid()
      reads this
    {
      |items| >= |ClauseKeys| && NoDup(KeysOf(items)) && KeysOf(items)[..|ClauseKeys|] == ClauseKeys
    }

    /** OrmSqlComponents::__construct: the fixed clauses, merged with the
        given items. */
    constructor(chain: string, more: Items)
      requires NoDup(KeysOf(more))
      ensures Valid() && this.chain == chain && items == Merge(Defaults(), more)
    {
      this.chain := chain;
      items := Merge(Defaults(), more);
      DefaultsDistinct();
      MergeKeeps(Defaults(), more);
    }

    /** OrmSqlComponents::get as written: it checks the key and returns the
        key itself. */
    function Get(item: string): (r: Result<string>)
      reads this
      ensures r.Ok? <==> item in KeysOf(items)
      ensures r.Ok? ==> r.value == item
    {
      if Lookup(items, item).None? then Err(KeyMissing(item)) else Ok(item)
    }

    /** What get evidently means to return: the value under the key. */
    function Value(item: string): (r: Result<string>)
      reads this
      ensures r.Ok? <==> item in KeysOf(items)
      ensures r.Ok? ==> exists k | 0 <= k < |items| :: items[k] == (item, r.value)
    {
      var v := Lookup(items, item);
      if v.None? then Err(KeyMissing(item)) else Ok(v.value)
    }

    /** OrmSqlComponents::set: only a key already present can be set. */
    method Set(item: string, val: string) returns (r: Result<()>)
      requires Valid()
      modifies this
      ensures Valid() && chain == old(chain)
      ensures r.Ok? <==> item in KeysOf(old(items))
      ensures items == (if r.Ok? then Update(old(items), item, val) else old(items))
    {
      if Lookup(items, item).None? {
        return Err(KeyMissing(item));
      }
      items := Update(items, item, val);
      r := Ok(());
    }

    /** OrmSqlComponents::__toString. */
    function ToString(): string
      reads this
    {
      Render(items)
    }

    /** OrmSqlComponents::getChain. */
    function GetChain(): string
      reads this
    {
      chain
    }
  }

  lemma DefaultsDistinct()
    ensures NoDup(KeysOf(Defaults()))
  {
  }

  /** Setting a present key changes its value and nothing else. */
  lemma UpdateLookup(items: Items, key: string, val: string, other: string)
    requires NoDup(KeysOf(items)) && key in KeysOf(items)
    ensures Lookup(Update(items, key, val), key) == Some(val)
    ensures other != key ==> Lookup(Update(items, key, val), other) == Lookup(items, other)
    decreases |items|
  {
    if |items| > 0 && items[0].0 != key {
      var rest := items[1..];
      assert KeysOf(rest) == KeysOf(items)[1..];
      assert Update(items, key, val)[1..] == Update(rest, key, val);
      UpdateLookup(rest, key, val, other);
    }
  }

  /** array_merge keeps the keys of the first array in front, in order,
      and repeats no key. */
  lemma {:induction false} MergeKeeps(items: Items, more: Items)
    requires NoDup(KeysOf(items)) && |items| >= |ClauseKeys|
    ensures NoDup(KeysOf(Merge(items, more)))
    ensures |Merge(items, more)| >= |items|
    ensures KeysOf(Merge(items, more))[..|items|] == KeysOf(items)
    decreases |more|
  {
    if |more| > 0 {
      var p := Put(items, more[0].0, more[0].1);
      if more[0].0 !in KeysOf(items) {
        NoDupSnoc(KeysOf(items), more[0].0);
        assert KeysOf(p) == KeysOf(items) + [more[0].0];
      }
      MergeKeeps(p, more[1..]);
    }
  }

  // ------------------------------------------------ the statement of a compiled query

  /** The clauses sqlFromRoute sets: SELECT, FROM and, when there is a
      condition, WHERE. */
  function Filled(c: Compiled): Items {
    var base := Update(Update(Defaults(), "SELECT", c.select), "FROM", c.from);
    if c.where.Some? then Update(base, "WHERE", c.where.value) else base
  }

  /** A fresh clause array with SELECT, FROM and WHERE filled in. */
  function Clauses(select: string, from: string, where: string): Items {
    [("SELECT", select), ("INSERT", ""), ("UPDATE", ""), ("DELETE", ""), ("FROM", from),
     ("WHERE", where), ("GROUP BY", ""), ("HAVING", ""), ("ORDER BY", ""), ("LIMIT", "")]
  }

  /** The clause array of a compiled query, written out. */
  lemma FilledItems(c: Compiled)
    ensures Filled(c) == Clauses(c.select, c.from, if c.where.Some? then c.where.value else "")
  {
  }

  /** The part of the statement one clause contributes. */
  function Clause(command: string, args: string): seq<string> {
    if EmptyText(args) then [] else [command + " " + args]
  }

  /** Only the three filled clauses contribute, in their fixed order. */
  lemma ClausesCommands(select: string, from: string, where: string)
    ensures Commands(Clauses(select, from, where)) == Clause("SELECT", select) + (Clause("FROM", from) + Clause("WHERE", where))
  {
    var f := Clauses(select, from, where);
    assert Commands(f[6..]) == [] by {
      CommandsAt(f, 9);
      assert f[10..] == [];
      CommandsAt(f, 8);
      CommandsAt(f, 7);
      CommandsAt(f, 6);
    }
    assert Commands(f[4..]) == Clause("FROM", from) + Clause("WHERE", where) by {
      CommandsAt(f, 5);
      CommandsAt(f, 4);
    }
    assert Commands(f[1..]) == Commands(f[4..]) by {
      CommandsAt(f, 3);
      CommandsAt(f, 2);
      CommandsAt(f, 1);
    }
    CommandsAt(f, 0);
    assert f[0..] == f;
  }

  /** The statement of a compiled query lists its clauses in the fixed
      order, each clause once, and leaves out the empty ones. */
  lemma FilledStatement(c: Compiled)
    ensures Render(Filled(c)) == Join(Clause("SELECT", c.select)
      + (Clause("FROM", c.from) + (if c.where.None? then [] else Clause("WHERE", c.where.value))), " ")
  {
    FilledItems(c);
    ClausesCommands(c.select, c.from, if c.where.Some? then c.where.value else "");
  }

  /** One step of Commands, at a position of the array. */
  lemma CommandsAt(items: Items, k: nat)
    requires k < |items|
    ensures Commands(items[k..]) == Clause(items[k].0, items[k].1) + Commands(items[k + 1..])
  {
    assert items[k..][1..] == items[k + 1..];
  }

  /** The end of Orm::sqlFromRoute: a new OrmSqlComponents for the chain,
      with SELECT, FROM and, when there is a condition, WHERE set. */
  method Build(c: Compiled) returns (o: SqlComponents)
    ensures fresh(o) && o.Valid() && o.chain == c.chain && o.items == Filled(c)
  {
    o := new SqlComponents(c.chain, []);
    assert KeysOf(o.items) == ClauseKeys;
    var r := o.Set("SELECT", c.select);
    assert r.Ok?;
    r := o.Set("FROM", c.from);
    assert r.Ok?;
    if c.where.Some? {
      r := o.Set("WHERE", c.where.value);
      assert r.Ok?;
    }
  }
}
