/** Orm::getSql without its cache: the anchor-first ordering of the
    destinations, the rewriting of literal input values into named
    placeholders, and the cache key (hash) of the query's shape. */
module Query {
  import opened Wrappers
  import opened Strings
  import opened Names
  import opened Schema
  import opened Registry
  import opened Destinations
  import opened Compiler
  import opened Generate

  // ------------------------------------------------ ordering

  /** Orm::cmpDests. The input branch never decides: ksort returns true on
      both sides, so the serialised values always agree. The output branch
      returns `$a['output'] && $b['output']` as usort reads it: 1 or 0,
      never -1. */
  function CmpDests(a: Dest, b: Dest): (r: int)
    ensures StrCmp(ClassOf(a), ClassOf(b)) != 0 ==> r == StrCmp(ClassOf(a), ClassOf(b))
    ensures ClassOf(a) == ClassOf(b) ==> r == (if a.output == Some(true) && b.output == Some(true) then 1 else 0)
  {
    var cmp := StrCmp(ClassOf(a), ClassOf(b));
    if cmp != 0 then cmp
    else if a.output.Some? && b.output.Some? then (if a.output.value && b.output.value then 1 else 0)
    else 0
  }

  /** Two destinations of the same class, both with a truthy output, each
      compare greater than the other. */
  lemma CmpDestsNotAntisymmetric()
    ensures var d := Dest(Some("A"), None, None, Some(true)); CmpDests(d, d) == 1
  {
  }

  /** Insertion of one destination into a sorted run, scanning from the back
      past every element that compares greater. */
  function Insert(x: Dest, s: seq<Dest>): (r: seq<Dest>)
    ensures multiset(r) == multiset(s) + multiset{x}
  {
    if |s| == 0 then [x]
    else if CmpDests(s[|s| - 1], x) > 0 then
      assert s == s[..|s| - 1] + [s[|s| - 1]];
      Insert(x, s[..|s| - 1]) + [s[|s| - 1]]
    else s + [x]
  }

  /** usort with cmpDests, as one insertion sort. */
  function SortTail(s: seq<Dest>): (r: seq<Dest>)
    ensures multiset(r) == multiset(s)
  {
    if |s| == 0 then []
    else
      assert s == s[..|s| - 1] + [s[|s| - 1]];
      Insert(s[|s| - 1], SortTail(s[..|s| - 1]))
  }

  /** The empty object an absent head becomes: array_shift of an empty array
      gives NULL and objectify turns it into an object with no fields. */
  const NoDest := Dest(None, None, None, None)

  /** The first lines of getSql: the head is kept apart, the tail sorted,
      the head put back in front. */
  function Ordered(dests: seq<Dest>): seq<Dest> {
    if |dests| == 0 then [NoDest] else [dests[0]] + SortTail(dests[1..])
  }

  predicate ClassLe(a: Dest, b: Dest) {
    StrCmp(ClassOf(a), ClassOf(b)) <= 0
  }

  predicate ClassSorted(s: seq<Dest>) {
    forall j, k | 0 <= j < k < |s| :: ClassLe(s[j], s[k])
  }

  lemma {:induction false} InsertSorted(x: Dest, s: seq<Dest>)
    requires ClassSorted(s)
    ensures ClassSorted(Insert(x, s))
    decreases |s|
  {
    if |s| > 0 {
      if CmpDests(s[|s| - 1], x) > 0 {
        InsertSorted(x, s[..|s| - 1]);
        InsertBehind(x, s);
      } else {
        InsertAtEnd(x, s);
      }
    }
  }

  /** An element that compares greater stays behind the inserted one. */
  lemma InsertBehind(x: Dest, s: seq<Dest>)
    requires |s| > 0 && ClassSorted(s) && CmpDests(s[|s| - 1], x) > 0
    requires ClassSorted(Insert(x, s[..|s| - 1]))
    ensures ClassSorted(Insert(x, s))
  {
    var init, last := s[..|s| - 1], s[|s| - 1];
    StrCmpAntisymmetric(ClassOf(last), ClassOf(x));
    var r := Insert(x, init);
    forall y | y in r
      ensures ClassLe(y, last)
    {
      assert y in multiset(r);
      if y != x {
        assert y in multiset(init);
      }
    }
    assert Insert(x, s) == r + [last];
  }

  /** An element that does not compare greater than any sorted
      predecessor's last goes at the end. */
  lemma InsertAtEnd(x: Dest, s: seq<Dest>)
    requires |s| > 0 && ClassSorted(s) && CmpDests(s[|s| - 1], x) <= 0
    ensures ClassSorted(Insert(x, s))
  {
    var last := s[|s| - 1];
    forall j | 0 <= j < |s|
      ensures ClassLe(s[j], x)
    {
      StrCmpTransitive(ClassOf(s[j]), ClassOf(last), ClassOf(x));
    }
    assert Insert(x, s) == s + [x];
  }

  lemma {:induction false} SortTailSorted(s: seq<Dest>)
    ensures ClassSorted(SortTail(s))
  {
    if |s| > 0 {
      SortTailSorted(s[..|s| - 1]);
      InsertSorted(s[|s| - 1], SortTail(s[..|s| - 1]));
    }
  }

  /** getSql keeps the first destination first, and the rest are the other
      destinations, each once, in class order. */
  lemma OrderedSpec(dests: seq<Dest>)
    ensures |dests| == 0 ==> Ordered(dests) == [NoDest]
    ensures |dests| > 0 ==> Ordered(dests)[0] == dests[0] && multiset(Ordered(dests)) == multiset(dests)
    ensures ClassSorted(Ordered(dests)[1..])
  {
    if |dests| > 0 {
      SortTailSorted(dests[1..]);
      assert dests == [dests[0]] + dests[1..];
      assert Ordered(dests)[1..] == SortTail(dests[1..]);
    }
  }

  // ------------------------------------------------ placeholders

  /** The placeholder name of input `key` of destination `i`:
      `$i<i>_<table>[_<alias table>]_<column>`. */
  function VarName(i: nat, d: Dest, key: string): (r: Result<string>)
    ensures r.Ok? <==> DbName(d.cls).Ok? && (d.alias.Some? ==> ValidClassName(d.alias.value)) && ValidPropertyName(key)
  {
    var table :- DbName(d.cls);
    var alias :- if d.alias.Some? then (var a :- ClassToDbName(d.alias.value); Ok("_" + a)) else Ok("");
    var column :- PropertyToDbName(key);
    Ok("$i" + NatToString(i) + "_" + table + alias + "_" + column)
  }

  /** Orm::sqlVar for a string value: quoted after escaping. The escaping
      belongs to the connection and is a parameter here. */
  function SqlVar(val: string, escape: string -> string): string {
    "'" + escape(val) + "'"
  }

  /** The text a placeholder is replaced by in the input spec. */
  function Braced(name: string): string {
    "{" + name + "}"
  }

  /** What rewriting one run of inputs gives: the rewritten pairs, the
      placeholder names and the quoted values. */
  datatype Rewritten = Rewritten(pairs: seq<(string, string)>, names: seq<string>, vals: seq<string>)

  /** The inner loop of getSql over one destination's inputs. */
  function RewriteInputs(i: nat, d: Dest, ps: seq<(string, string)>, escape: string -> string): Result<Rewritten> {
    if |ps| == 0 then Ok(Rewritten([], [], []))
    else
      var w :- RewriteInputs(i, d, ps[..|ps| - 1], escape);
      var (key, val) := ps[|ps| - 1];
      var name :- VarName(i, d, key);
      Ok(Rewritten(w.pairs + [(key, Braced(name))], w.names + [name], w.vals + [SqlVar(val, escape)]))
  }

  /** One destination with its inputs rewritten. */
  function RewriteDest(i: nat, d: Dest, escape: string -> string): Result<(Dest, Rewritten)> {
    if d.input.None? then Ok((d, Rewritten([], [], [])))
    else
      var w :- RewriteInputs(i, d, d.input.value, escape);
      Ok((d.(input := Some(w.pairs)), w))
  }

  /** The `$hash` contribution of one destination: `<class>_<alias>` when
      its output is set. */
  function OutputTag(d: Dest): string {
    if d.output.None? then "" else ClassOf(d) + "_" + (if d.alias.Some? then d.alias.value else "")
  }

  /** The state of getSql's loop: the destinations done so far, the
      placeholder names, the quoted values and the output tags. */
  datatype Draft = Draft(dests: seq<Dest>, names: seq<string>, vals: seq<string>, tags: string)

  /** The outer loop of getSql. */
  function Rewrite(ds: seq<Dest>, escape: string -> string): (r: Result<Draft>)
    ensures r.Ok? ==> |r.value.dests| == |ds|
  {
    if |ds| == 0 then Ok(Draft([], [], [], ""))
    else
      var a :- Rewrite(ds[..|ds| - 1], escape);
      var x :- RewriteDest(|ds| - 1, ds[|ds| - 1], escape);
      Ok(Draft(a.dests + [x.0], a.names + x.1.names, a.vals + x.1.vals, a.tags + OutputTag(ds[|ds| - 1])))
  }

  /** PHP's serialize of the chain argument. */
  function Serialize(chain: Option<string>): string {
    if chain.None? then "N;" else "s:" + NatToString(|chain.value|) + ":\"" + chain.value + "\";"
  }

  /** The placeholder part of getSql: the rewritten destinations, the
      function arguments, the values and the hash with its pre-image. */
  datatype Prepared = Prepared(dests: seq<Dest>, args: seq<string>, vals: seq<string>, preimage: string, hash: string)

  function Prepare(chain: Option<string>, ds: seq<Dest>, escape: string -> string, sha1: string -> string): Result<Prepared> {
    var a :- Rewrite(ds, escape);
    var pre := Serialize(chain) + a.tags + Join(a.names, ", ");
    Ok(Prepared(a.dests, a.names, a.vals, pre, "h" + sha1(pre)))
  }

  /** A query as getSql hands it to the generated function: the placeholder
      data and the SQL components compiled for the rewritten destinations. */
  datatype Sql = Sql(prepared: Prepared, components: Compiled)

  function GetSqlOf(st: SchemaState, cat: Catalog, dests: seq<Dest>, chain: Option<string>,
                    escape: string -> string, sha1: string -> string): Result<Sql> {
    var p :- Prepare(chain, Ordered(dests), escape, sha1);
    var c :- Generated(st, cat, p.dests, chain);
    Ok(Sql(p, c))
  }

  // ------------------------------------------------ what the rewriting promises

  /** The input keys of destination `d` can all be named. */
  predicate Nameable(d: Dest) {
    d.input.None? || |d.input.value| == 0 ||
    (DbName(d.cls).Ok? && (d.alias.Some? ==> ValidClassName(d.alias.value))
     && forall k | 0 <= k < |d.input.value| :: ValidPropertyName(d.input.value[k].0))
  }

  /** Each input becomes a placeholder named after its destination and key,
      its value becomes the quoted escaped text, and the loop fails exactly
      when some key cannot be named. */
  lemma {:induction false} RewriteInputsSpec(i: nat, d: Dest, ps: seq<(string, string)>, escape: string -> string)
    ensures RewriteInputs(i, d, ps, escape).Ok? <==> Nameable(d.(input := Some(ps)))
    ensures RewriteInputs(i, d, ps, escape).Ok? ==>
      var w := RewriteInputs(i, d, ps, escape).value;
      |w.pairs| == |w.names| == |w.vals| == |ps| &&
      forall k | 0 <= k < |ps| ::
        VarName(i, d, ps[k].0) == Ok(w.names[k]) && w.pairs[k] == (ps[k].0, Braced(w.names[k]))
        && w.vals[k] == SqlVar(ps[k].1, escape)
    decreases |ps|
  {
    if |ps| > 0 {
      var init := ps[..|ps| - 1];
      RewriteInputsSpec(i, d, init, escape);
      assert forall k | 0 <= k < |init| :: init[k] == ps[k];
    }
  }

  /** The loop over the destinations succeeds exactly when every
      destination's inputs can be named. */
  lemma {:induction false} RewriteOk(ds: seq<Dest>, escape: string -> string)
    ensures Rewrite(ds, escape).Ok? <==> forall k | 0 <= k < |ds| :: Nameable(ds[k])
    decreases |ds|
  {
    if |ds| > 0 {
      var init := ds[..|ds| - 1];
      RewriteOk(init, escape);
      RewriteDestOk(|ds| - 1, ds[|ds| - 1], escape);
      RewriteSnocOk(ds, escape);
      AllNameableSnoc(ds, init);
    }
  }

  lemma RewriteSnocOk(ds: seq<Dest>, escape: string -> string)
    requires |ds| > 0
    ensures Rewrite(ds, escape).Ok? <==>
      Rewrite(ds[..|ds| - 1], escape).Ok? && RewriteDest(|ds| - 1, ds[|ds| - 1], escape).Ok?
  {
  }

  lemma AllNameableSnoc(ds: seq<Dest>, init: seq<Dest>)
    requires |ds| > 0 && init == ds[..|ds| - 1]
    ensures (forall k | 0 <= k < |ds| :: Nameable(ds[k])) <==>
      (forall k | 0 <= k < |init| :: Nameable(init[k])) && Nameable(ds[|ds| - 1])
  {
    assert forall k | 0 <= k < |init| :: init[k] == ds[k];
  }

  lemma RewriteDestOk(i: nat, d: Dest, escape: string -> string)
    ensures RewriteDest(i, d, escape).Ok? <==> Nameable(d)
  {
    if d.input.Some? {
      RewriteInputsSpec(i, d, d.input.value, escape);
      assert d.(input := Some(d.input.value)) == d;
    }
  }

  /** The loop keeps every destination in its place, with only the input
      values replaced. */
  lemma {:induction false} RewriteDests(ds: seq<Dest>, escape: string -> string)
    requires Rewrite(ds, escape).Ok?
    ensures forall k | 0 <= k < |ds| ::
      RewriteDest(k, ds[k], escape).Ok? && Rewrite(ds, escape).value.dests[k] == RewriteDest(k, ds[k], escape).value.0
    decreases |ds|
  {
    if |ds| > 0 {
      var init := ds[..|ds| - 1];
      RewriteDests(init, escape);
      assert forall k | 0 <= k < |init| :: init[k] == ds[k];
    }
  }

  /** The destination index a placeholder name carries after `$i`. */
  function NameIndex(m: string): nat {
    if |m| < 2 then 0 else DecValue(TakeDigits(m[2..]))
  }

  lemma VarNameIndex(i: nat, d: Dest, key: string)
    requires VarName(i, d, key).Ok?
    ensures NameIndex(VarName(i, d, key).value) == i
  {
    var m := VarName(i, d, key).value;
    var n := NatToString(i);
    var rest := m[2 + |n|..];
    assert m == "$i" + n + rest && rest[0] == '_';
    assert |"$i"| == 2 && m == "$i" + (n + rest);
    assert m[2..] == n + rest;
    TakeDigitsPrefix(n, rest);
    DecValueOfNatToString(i);
  }

  /** Within one destination the name is fixed up to the key. */
  lemma VarNameKey(i: nat, d: Dest, k1: string, k2: string)
    requires VarName(i, d, k1).Ok? && VarName(i, d, k2).Ok? && VarName(i, d, k1) == VarName(i, d, k2)
    ensures k1 == k2
  {
    var m := VarName(i, d, k1).value;
    var p := m[..|m| - |k1|];
    assert m == p + k1;
    assert VarName(i, d, k2).value == p + k2;
  }

  /** PHP array keys: each input key once. */
  predicate DistinctKeys(ds: seq<Dest>) {
    forall k | 0 <= k < |ds| :: ds[k].input.Some? ==>
      forall a, b | 0 <= a < b < |ds[k].input.value| :: ds[k].input.value[a].0 != ds[k].input.value[b].0
  }

  lemma RewriteDestDistinct(i: nat, d: Dest, escape: string -> string)
    requires RewriteDest(i, d, escape).Ok?
    requires d.input.Some? ==> forall a, b | 0 <= a < b < |d.input.value| :: d.input.value[a].0 != d.input.value[b].0
    ensures NoDup(RewriteDest(i, d, escape).value.1.names)
    ensures forall m | m in RewriteDest(i, d, escape).value.1.names :: NameIndex(m) == i
  {
    if d.input.Some? {
      var ps := d.input.value;
      RewriteInputsSpec(i, d, ps, escape);
      var w := RewriteInputs(i, d, ps, escape).value;
      forall a, b | 0 <= a < b < |w.names|
        ensures w.names[a] != w.names[b]
      {
        if w.names[a] == w.names[b] {
          VarNameKey(i, d, ps[a].0, ps[b].0);
        }
      }
      forall m | m in w.names
        ensures NameIndex(m) == i
      {
        var k :| 0 <= k < |w.names| && w.names[k] == m;
        VarNameIndex(i, d, ps[k].0);
      }
    }
  }

  /** The placeholder names of one request are pairwise distinct, so they
      can all be parameters of one generated function. */
  lemma {:induction false} RewriteNamesDistinct(ds: seq<Dest>, escape: string -> string)
    requires Rewrite(ds, escape).Ok? && DistinctKeys(ds)
    ensures NoDup(Rewrite(ds, escape).value.names)
    ensures forall m | m in Rewrite(ds, escape).value.names :: NameIndex(m) < |ds|
    decreases |ds|
  {
    if |ds| > 0 {
      var n := |ds| - 1;
      var init := ds[..n];
      assert forall k | 0 <= k < n :: init[k] == ds[k];
      RewriteNamesDistinct(init, escape);
      RewriteDestDistinct(n, ds[n], escape);
      var a := Rewrite(init, escape).value.names;
      var b := RewriteDest(n, ds[n], escape).value.1.names;
      assert Rewrite(ds, escape).value.names == a + b;
      forall x, y | 0 <= x < y < |a + b|
        ensures (a + b)[x] != (a + b)[y]
      {
        if x < |a| && y >= |a| {
          assert (a + b)[x] in a && (a + b)[y] in b;
        }
      }
    }
  }

  // ------------------------------------------------ the shape of a request

  /** A destination with its literal input values forgotten. */
  function Shape(d: Dest): Dest {
    if d.input.None? then d
    else d.(input := Some(seq(|d.input.value|, k requires 0 <= k < |d.input.value| => (d.input.value[k].0, ""))))
  }

  /** Two requests that differ at most in their literal input values. */
  predicate SameShape(a: seq<Dest>, b: seq<Dest>) {
    |a| == |b| && forall k | 0 <= k < |a| :: Shape(a[k]) == Shape(b[k])
  }

  lemma ShapeFields(a: Dest, b: Dest)
    requires Shape(a) == Shape(b)
    ensures a.cls == b.cls && a.alias == b.alias && a.output == b.output && a.input.Some? == b.input.Some?
    ensures a.input.Some? ==> (|a.input.value| == |b.input.value| &&
      forall k | 0 <= k < |a.input.value| :: a.input.value[k].0 == b.input.value[k].0)
  {
    if a.input.Some? {
      assert Shape(a).input.value == Shape(b).input.value;
      forall k | 0 <= k < |a.input.value|
        ensures a.input.value[k].0 == b.input.value[k].0
      {
        assert Shape(a).input.value[k] == Shape(b).input.value[k];
      }
    }
  }

  lemma SameShapeSnoc(s: seq<Dest>, t: seq<Dest>, x: Dest, y: Dest)
    requires SameShape(s, t) && Shape(x) == Shape(y)
    ensures SameShape(s + [x], t + [y])
  {
  }

  lemma SameShapeInit(s: seq<Dest>, t: seq<Dest>)
    requires SameShape(s, t) && |s| > 0
    ensures SameShape(s[..|s| - 1], t[..|t| - 1]) && Shape(s[|s| - 1]) == Shape(t[|t| - 1])
  {
  }

  /** cmpDests reads no literal input value. */
  lemma CmpDestsShape(a: Dest, b: Dest, c: Dest, d: Dest)
    requires Shape(a) == Shape(c) && Shape(b) == Shape(d)
    ensures CmpDests(a, b) == CmpDests(c, d)
  {
    ShapeFields(a, c);
    ShapeFields(b, d);
  }

  lemma {:induction false} InsertShape(x: Dest, s: seq<Dest>, y: Dest, t: seq<Dest>)
    requires Shape(x) == Shape(y) && SameShape(s, t)
    ensures SameShape(Insert(x, s), Insert(y, t))
    decreases |s|
  {
    if |s| == 0 {
      assert Insert(x, s) == [x] && Insert(y, t) == [y];
    } else {
      var n := |s| - 1;
      SameShapeInit(s, t);
      CmpDestsShape(s[n], x, t[n], y);
      if CmpDests(s[n], x) > 0 {
        InsertShape(x, s[..n], y, t[..n]);
        assert Insert(x, s) == Insert(x, s[..n]) + [s[n]];
        assert Insert(y, t) == Insert(y, t[..n]) + [t[n]];
        SameShapeSnoc(Insert(x, s[..n]), Insert(y, t[..n]), s[n], t[n]);
      } else {
        assert Insert(x, s) == s + [x] && Insert(y, t) == t + [y];
        SameShapeSnoc(s, t, x, y);
      }
    }
  }

  lemma {:induction false} SortTailShape(s: seq<Dest>, t: seq<Dest>)
    requires SameShape(s, t)
    ensures SameShape(SortTail(s), SortTail(t))
    decreases |s|
  {
    if |s| > 0 {
      SameShapeInit(s, t);
      SortTailShape(s[..|s| - 1], t[..|t| - 1]);
      InsertShape(s[|s| - 1], SortTail(s[..|s| - 1]), t[|t| - 1], SortTail(t[..|t| - 1]));
    }
  }

  /** cmpDests looks at classes and outputs only, so requests of the same
      shape are ordered alike. */
  lemma OrderedShape(a: seq<Dest>, b: seq<Dest>)
    requires SameShape(a, b)
    ensures SameShape(Ordered(a), Ordered(b))
  {
    if |a| > 0 {
      SortTailShape(a[1..], b[1..]);
    }
  }

  lemma {:induction false} RewriteInputsShape(i: nat, d: Dest, ps: seq<(string, string)>, e: Dest, qs: seq<(string, string)>, escape: string -> string)
    requires d.cls == e.cls && d.alias == e.alias && |ps| == |qs|
    requires forall k | 0 <= k < |ps| :: ps[k].0 == qs[k].0
    ensures RewriteInputs(i, d, ps, escape).Ok? == RewriteInputs(i, e, qs, escape).Ok?
    ensures RewriteInputs(i, d, ps, escape).Ok? ==>
      RewriteInputs(i, d, ps, escape).value.pairs == RewriteInputs(i, e, qs, escape).value.pairs &&
      RewriteInputs(i, d, ps, escape).value.names == RewriteInputs(i, e, qs, escape).value.names
    decreases |ps|
  {
    if |ps| > 0 {
      RewriteInputsShape(i, d, ps[..|ps| - 1], e, qs[..|qs| - 1], escape);
      assert VarName(i, d, ps[|ps| - 1].0) == VarName(i, e, qs[|qs| - 1].0);
    }
  }

  lemma RewriteDestShape(i: nat, d: Dest, e: Dest, escape: string -> string)
    requires Shape(d) == Shape(e)
    ensures RewriteDest(i, d, escape).Ok? == RewriteDest(i, e, escape).Ok?
    ensures RewriteDest(i, d, escape).Ok? ==>
      RewriteDest(i, d, escape).value.0 == RewriteDest(i, e, escape).value.0 &&
      RewriteDest(i, d, escape).value.1.names == RewriteDest(i, e, escape).value.1.names
  {
    ShapeFields(d, e);
    if d.input.Some? {
      RewriteInputsShape(i, d, d.input.value, e, e.input.value, escape);
    } else {
      assert d == e by {
        assert Shape(d) == d && Shape(e) == e;
      }
    }
  }

  /** Requests of the same shape are rewritten to the same destinations,
      the same placeholder names and the same output tags. */
  lemma {:induction false} RewriteShape(a: seq<Dest>, b: seq<Dest>, escape: string -> string)
    requires SameShape(a, b)
    ensures Rewrite(a, escape).Ok? == Rewrite(b, escape).Ok?
    ensures Rewrite(a, escape).Ok? ==>
      Rewrite(a, escape).value.dests == Rewrite(b, escape).value.dests &&
      Rewrite(a, escape).value.names == Rewrite(b, escape).value.names &&
      Rewrite(a, escape).value.tags == Rewrite(b, escape).value.tags
    decreases |a|
  {
    if |a| > 0 {
      var n := |a| - 1;
      RewriteShape(a[..n], b[..n], escape);
      RewriteDestShape(n, a[n], b[n], escape);
      ShapeFields(a[n], b[n]);
      assert OutputTag(a[n]) == OutputTag(b[n]);
    }
  }

  /** Two requests differing only in their literal input values get the
      same hash, the same placeholder names and the same SQL: only the
      quoted values passed to the cached function differ. */
  lemma SameShapeSameSql(st: SchemaState, cat: Catalog, a: seq<Dest>, b: seq<Dest>, chain: Option<string>,
                         escape: string -> string, sha1: string -> string)
    requires SameShape(a, b)
    ensures GetSqlOf(st, cat, a, chain, escape, sha1).Ok? == GetSqlOf(st, cat, b, chain, escape, sha1).Ok?
    ensures GetSqlOf(st, cat, a, chain, escape, sha1).Ok? ==>
      var x, y := GetSqlOf(st, cat, a, chain, escape, sha1).value, GetSqlOf(st, cat, b, chain, escape, sha1).value;
      x.prepared.hash == y.prepared.hash && x.prepared.preimage == y.prepared.preimage &&
      x.prepared.args == y.prepared.args && x.components == y.components
  {
    OrderedShape(a, b);
    RewriteShape(Ordered(a), Ordered(b), escape);
  }

  // ------------------------------------------------ the cache key

  /** The hash pre-image of getSql leaves out every destination that has
      neither an input nor an output: two requests that differ only in the
      class of such a destination share the pre-image, and so the cached
      query, though the destinations handed to the SQL generation differ. */
  lemma PreimageMissesBareDestination(escape: string -> string, sha1: string -> string)
    ensures var a := [Dest(Some("A"), None, None, Some(true)), Dest(Some("B"), None, None, None)];
      var b := [Dest(Some("A"), None, None, Some(true)), Dest(Some("C"), None, None, None)];
      Ordered(a) == a && Ordered(b) == b
      && Prepare(None, a, escape, sha1).Ok? && Prepare(None, b, escape, sha1).Ok?
      && Prepare(None, a, escape, sha1).value.preimage == Prepare(None, b, escape, sha1).value.preimage
      && Prepare(None, a, escape, sha1).value.dests != Prepare(None, b, escape, sha1).value.dests
  {
    var x := Dest(Some("A"), None, None, Some(true));
    var y, z := Dest(Some("B"), None, None, None), Dest(Some("C"), None, None, None);
    OrderedPair(x, y);
    OrderedPair(x, z);
    RewriteBarePair(x, y, escape);
    RewriteBarePair(x, z, escape);
  }

  lemma OrderedPair(x: Dest, y: Dest)
    ensures Ordered([x, y]) == [x, y]
  {
    assert [x, y][1..] == [y] && [y][..0] == [];
  }

  /** A pair whose second destination has neither input nor output
      contributes only the first one's output tag. */
  lemma RewriteBarePair(x: Dest, y: Dest, escape: string -> string)
    requires x.input.None? && y.input.None? && y.output.None?
    ensures Rewrite([x, y], escape) == Ok(Draft([x, y], [], [], OutputTag(x)))
  {
    var none := Rewritten([], [], []);
    var nil: seq<string> := [];
    var ds := [x, y];
    assert ds[..0] == [] && ds[..2] == ds;
    RewriteNext(ds, 0, escape, Draft([], [], [], ""), x, none);
    assert [] + [x] == [x] && nil + nil == nil && "" + OutputTag(x) == OutputTag(x);
    RewriteNext(ds, 1, escape, Draft([x], [], [], OutputTag(x)), y, none);
    assert [x] + [y] == ds && OutputTag(x) + OutputTag(y) == OutputTag(x);
  }

  /** A string with its length in front, as PHP's serialize writes one, so
      that the length tells where the string ends. */
  function Framed(s: string): string {
    NatToString(|s|) + ":" + s
  }

  function FramedList(xs: seq<string>): string {
    if |xs| == 0 then "" else Framed(xs[0]) + FramedList(xs[1..])
  }

  /** The digits in front of a framed string are its length. */
  lemma FramedLength(x: string, r: string, y: string, t: string)
    requires Framed(x) + r == Framed(y) + t
    ensures |x| == |y|
  {
    var s := Framed(x) + r;
    var dx, dy := NatToString(|x|), NatToString(|y|);
    assert s == dx + (":" + x + r) && s == dy + (":" + y + t);
    TakeDigitsPrefix(dx, ":" + x + r);
    TakeDigitsPrefix(dy, ":" + y + t);
    NatToStringInjective(|x|, |y|);
  }

  lemma FramedSplit(x: string, r: string, y: string, t: string)
    requires Framed(x) + r == Framed(y) + t
    ensures x == y && r == t
  {
    FramedLength(x, r, y, t);
    var s := Framed(x) + r;
    var dx := NatToString(|x|);
    assert s == dx + ":" + (x + r) && s == dx + ":" + (y + t);
    var n := |dx| + 1;
    assert s[n..] == x + r && s[n..] == y + t;
    assert x == (x + r)[..|x|] && y == (y + t)[..|y|];
    assert r == (x + r)[|x|..] && t == (y + t)[|y|..];
  }

  /** A list of framed strings reads back as the list. */
  lemma {:induction false} FramedListInjective(xs: seq<string>, ys: seq<string>)
    requires FramedList(xs) == FramedList(ys)
    ensures xs == ys
    decreases |xs|
  {
    if |xs| > 0 && |ys| > 0 {
      FramedSplit(xs[0], FramedList(xs[1..]), ys[0], FramedList(ys[1..]));
      FramedListInjective(xs[1..], ys[1..]);
      assert xs == [xs[0]] + xs[1..] && ys == [ys[0]] + ys[1..];
    }
  }

  function OptionField(o: Option<string>): string {
    if o.None? then "-" else "+" + o.value
  }

  function OutputField(o: Option<bool>): string {
    if o.None? then "-" else if o.value then "1" else "0"
  }

  function InputKeys(ps: seq<(string, string)>): seq<string> {
    seq(|ps|, k requires 0 <= k < |ps| => ps[k].0)
  }

  function InputField(i: Option<seq<(string, string)>>): string {
    if i.None? then "-" else "+" + FramedList(InputKeys(i.value))
  }

  /** Everything of a destination the SQL depends on: its class, alias,
      output and input keys. */
  function DestField(d: Dest): string {
    FramedList([OptionField(d.cls), OptionField(d.alias), OutputField(d.output), InputField(d.input)])
  }

  /** A cache key that covers every destination, not just the outputs. */
  function CorrectedKey(chain: Option<string>, ds: seq<Dest>): string {
    FramedList([OptionField(chain)] + seq(|ds|, k requires 0 <= k < |ds| => DestField(ds[k])))
  }

  lemma OptionFieldInjective(a: Option<string>, b: Option<string>)
    requires OptionField(a) == OptionField(b)
    ensures a == b
  {
    var f := OptionField(a);
    assert a.Some? <==> f[0] == '+';
    assert b.Some? <==> f[0] == '+';
    if a.Some? {
      assert a.value == f[1..] && b.value == OptionField(b)[1..];
    }
  }

  lemma DestFieldShape(a: Dest, b: Dest)
    requires DestField(a) == DestField(b)
    ensures Shape(a) == Shape(b)
  {
    var fa := [OptionField(a.cls), OptionField(a.alias), OutputField(a.output), InputField(a.input)];
    var fb := [OptionField(b.cls), OptionField(b.alias), OutputField(b.output), InputField(b.input)];
    FramedListInjective(fa, fb);
    assert fa[0] == fb[0] && fa[1] == fb[1] && fa[2] == fb[2] && fa[3] == fb[3];
    OptionFieldInjective(a.cls, b.cls);
    OptionFieldInjective(a.alias, b.alias);
    assert OutputField(a.output)[0] == (if a.output.None? then '-' else if a.output.value then '1' else '0');
    assert OutputField(b.output)[0] == (if b.output.None? then '-' else if b.output.value then '1' else '0');
    assert a.input.Some? <==> InputField(a.input)[0] == '+';
    assert b.input.Some? <==> InputField(b.input)[0] == '+';
    if a.input.Some? {
      assert FramedList(InputKeys(a.input.value)) == InputField(a.input)[1..];
      assert FramedList(InputKeys(b.input.value)) == InputField(b.input)[1..];
      FramedListInjective(InputKeys(a.input.value), InputKeys(b.input.value));
      var pa, pb := a.input.value, b.input.value;
      forall k | 0 <= k < |pa| ensures Shape(a).input.value[k] == Shape(b).input.value[k] {
        assert InputKeys(pa)[k] == InputKeys(pb)[k];
      }
      assert |pa| == |InputKeys(pa)| == |InputKeys(pb)| == |pb|;
      assert Shape(a).input.value == Shape(b).input.value;
    }
    assert a.cls == b.cls && a.alias == b.alias;
    assert a.output == b.output;
    assert a.input.Some? == b.input.Some?;
  }

  lemma ShapeDestField(a: Dest, b: Dest)
    requires Shape(a) == Shape(b)
    ensures DestField(a) == DestField(b)
  {
    ShapeFields(a, b);
    if a.input.Some? {
      assert InputKeys(a.input.value) == InputKeys(b.input.value);
    }
  }

  /** Two requests get the same corrected key exactly when they have the
      same chain and the same shape. */
  lemma CorrectedKeyShape(c1: Option<string>, a: seq<Dest>, c2: Option<string>, b: seq<Dest>)
    ensures CorrectedKey(c1, a) == CorrectedKey(c2, b) <==> c1 == c2 && SameShape(a, b)
  {
    var fa := [OptionField(c1)] + seq(|a|, k requires 0 <= k < |a| => DestField(a[k]));
    var fb := [OptionField(c2)] + seq(|b|, k requires 0 <= k < |b| => DestField(b[k]));
    if CorrectedKey(c1, a) == CorrectedKey(c2, b) {
      FramedListInjective(fa, fb);
      assert fa[0] == fb[0];
      OptionFieldInjective(c1, c2);
      forall k | 0 <= k < |a| ensures Shape(a[k]) == Shape(b[k]) {
        assert fa[k + 1] == fb[k + 1];
        DestFieldShape(a[k], b[k]);
      }
    }
    if c1 == c2 && SameShape(a, b) {
      forall k | 0 <= k < |a| ensures DestField(a[k]) == DestField(b[k]) {
        ShapeDestField(a[k], b[k]);
      }
      assert fa == fb;
    }
  }

  /** Requests whose ordered destinations get the same corrected key get
      the same placeholder names and the same SQL, so a cache keyed on it
      never hands one request the query of another. */
  lemma CorrectedKeySameSql(st: SchemaState, cat: Catalog, a: seq<Dest>, b: seq<Dest>, c1: Option<string>, c2: Option<string>,
                            escape: string -> string, sha1: string -> string)
    requires CorrectedKey(c1, Ordered(a)) == CorrectedKey(c2, Ordered(b))
    ensures c1 == c2
    ensures GetSqlOf(st, cat, a, c1, escape, sha1).Ok? == GetSqlOf(st, cat, b, c2, escape, sha1).Ok?
    ensures GetSqlOf(st, cat, a, c1, escape, sha1).Ok? ==>
      var x, y := GetSqlOf(st, cat, a, c1, escape, sha1).value, GetSqlOf(st, cat, b, c2, escape, sha1).value;
      x.prepared.args == y.prepared.args && x.components == y.components
  {
    CorrectedKeyShape(c1, Ordered(a), c2, Ordered(b));
    OrderedShapeSameSql(st, cat, a, b, c1, escape, sha1);
  }

  lemma OrderedShapeSameSql(st: SchemaState, cat: Catalog, a: seq<Dest>, b: seq<Dest>, chain: Option<string>,
                            escape: string -> string, sha1: string -> string)
    requires SameShape(Ordered(a), Ordered(b))
    ensures GetSqlOf(st, cat, a, chain, escape, sha1).Ok? == GetSqlOf(st, cat, b, chain, escape, sha1).Ok?
    ensures GetSqlOf(st, cat, a, chain, escape, sha1).Ok? ==>
      var x, y := GetSqlOf(st, cat, a, chain, escape, sha1).value, GetSqlOf(st, cat, b, chain, escape, sha1).value;
      x.prepared.args == y.prepared.args && x.components == y.components
  {
    PrepareShape(chain, Ordered(a), Ordered(b), escape, sha1);
  }

  lemma PrepareShape(chain: Option<string>, a: seq<Dest>, b: seq<Dest>, escape: string -> string, sha1: string -> string)
    requires SameShape(a, b)
    ensures Prepare(chain, a, escape, sha1).Ok? == Prepare(chain, b, escape, sha1).Ok?
    ensures Prepare(chain, a, escape, sha1).Ok? ==>
      Prepare(chain, a, escape, sha1).value.dests == Prepare(chain, b, escape, sha1).value.dests
      && Prepare(chain, a, escape, sha1).value.args == Prepare(chain, b, escape, sha1).value.args
  {
    RewriteShape(a, b, escape);
  }

  // ------------------------------------------------ the loops

  lemma {:induction false} RewriteStops(ds: seq<Dest>, i: nat, escape: string -> string)
    requires i < |ds| && Rewrite(ds[..i], escape).Ok? && RewriteDest(i, ds[i], escape).Err?
    ensures Rewrite(ds, escape) == Err(RewriteDest(i, ds[i], escape).error)
    decreases |ds|
  {
    if i + 1 < |ds| {
      assert ds[..|ds| - 1][..i] == ds[..i];
      RewriteStops(ds[..|ds| - 1], i, escape);
    } else {
      assert ds[..|ds| - 1] == ds[..i];
    }
  }

  lemma {:induction false} RewriteInputsStops(i: nat, d: Dest, ps: seq<(string, string)>, k: nat, escape: string -> string)
    requires k < |ps| && RewriteInputs(i, d, ps[..k], escape).Ok? && VarName(i, d, ps[k].0).Err?
    ensures RewriteInputs(i, d, ps, escape) == Err(VarName(i, d, ps[k].0).error)
    decreases |ps|
  {
    if k + 1 < |ps| {
      assert ps[..|ps| - 1][..k] == ps[..k];
      RewriteInputsStops(i, d, ps[..|ps| - 1], k, escape);
    } else {
      assert ps[..|ps| - 1] == ps[..k];
    }
  }

  lemma RewriteNext(ds: seq<Dest>, i: nat, escape: string -> string, a: Draft, d: Dest, w: Rewritten)
    requires i < |ds| && Rewrite(ds[..i], escape) == Ok(a) && RewriteDest(i, ds[i], escape) == Ok((d, w))
    ensures Rewrite(ds[..i + 1], escape) == Ok(Draft(a.dests + [d], a.names + w.names, a.vals + w.vals, a.tags + OutputTag(ds[i])))
  {
    assert ds[..i + 1][..i] == ds[..i];
  }

  lemma PrepareOf(chain: Option<string>, ds: seq<Dest>, escape: string -> string, sha1: string -> string, a: Draft)
    requires Rewrite(ds, escape) == Ok(a)
    ensures Prepare(chain, ds, escape, sha1) == Ok(Prepared(a.dests, a.names, a.vals,
      Serialize(chain) + a.tags + Join(a.names, ", "), "h" + sha1(Serialize(chain) + a.tags + Join(a.names, ", "))))
  {
  }

  /** The inputs of destination `i` rewritten in place, one key at a time. */
  method RewriteInputsLoop(i: nat, d: Dest, ps: seq<(string, string)>, escape: string -> string)
    returns (r: Result<Rewritten>)
    ensures r == RewriteInputs(i, d, ps, escape)
  {
    var inputs := ps;
    var names: seq<string> := [];
    var vals: seq<string> := [];
    for k := 0 to |ps|
      invariant |inputs| == |ps| && inputs[k..] == ps[k..]
      invariant RewriteInputs(i, d, ps[..k], escape) == Ok(Rewritten(inputs[..k], names, vals))
    {
      var (key, val) := ps[k];
      var name := VarName(i, d, key);
      if name.Err? {
        RewriteInputsStops(i, d, ps, k, escape);
        return Err(name.error);
      }
      assert ps[..k + 1][..k] == ps[..k];
      names := names + [name.value];
      vals := vals + [SqlVar(val, escape)];
      inputs := inputs[k := (key, Braced(name.value))];
      assert inputs[..k + 1] == inputs[..k] + [(key, Braced(name.value))];
    }
    assert ps[..|ps|] == ps && inputs[..|ps|] == inputs;
    r := Ok(Rewritten(inputs, names, vals));
  }

  /** One destination of getSql's loop: its inputs, if set, rewritten. */
  method RewriteDestLoop(i: nat, d: Dest, escape: string -> string) returns (r: Result<(Dest, Rewritten)>)
    ensures r == RewriteDest(i, d, escape)
  {
    if d.input.None? {
      return Ok((d, Rewritten([], [], [])));
    }
    var x := RewriteInputsLoop(i, d, d.input.value, escape);
    if x.Err? {
      return Err(x.error);
    }
    r := Ok((d.(input := Some(x.value.pairs)), x.value));
  }

  /** The loop of getSql: each destination's inputs are replaced in place by
      their placeholders, while the names, the values and the output tags of
      the hash are collected. */
  method PrepareQuery(chain: Option<string>, ds: seq<Dest>, escape: string -> string, sha1: string -> string)
    returns (r: Result<Prepared>)
    ensures r == Prepare(chain, ds, escape, sha1)
  {
    var dests := ds;
    var names: seq<string> := [];
    var vals: seq<string> := [];
    var tags := "";
    for i := 0 to |ds|
      invariant |dests| == |ds| && dests[i..] == ds[i..]
      invariant Rewrite(ds[..i], escape) == Ok(Draft(dests[..i], names, vals, tags))
    {
      var d := dests[i];
      assert d == ds[i];
      var x := RewriteDestLoop(i, d, escape);
      if x.Err? {
        RewriteStops(ds, i, escape);
        return Err(x.error);
      }
      var w := x.value.1;
      dests := dests[i := x.value.0];
      RewriteNext(ds, i, escape, Draft(dests[..i], names, vals, tags), x.value.0, w);
      names := names + w.names;
      vals := vals + w.vals;
      tags := tags + OutputTag(d);
      assert dests[..i + 1] == dests[..i] + [dests[i]];
    }
    assert ds[..|ds|] == ds && dests[..|ds|] == dests;
    var hash := Serialize(chain) + tags + Join(names, ", ");
    PrepareOf(chain, ds, escape, sha1, Draft(dests, names, vals, tags));
    r := Ok(Prepared(dests, names, vals, hash, "h" + sha1(hash)));
  }

  /** Orm::getSql up to the SQL components: order, rewrite, hash, and
      compile the rewritten destinations. */
  method GetSql(st: SchemaState, cat: Catalog, dests: seq<Dest>, chain: Option<string>,
                escape: string -> string, sha1: string -> string) returns (r: Result<Sql>)
    ensures r == GetSqlOf(st, cat, dests, chain, escape, sha1)
  {
    var p := PrepareQuery(chain, Ordered(dests), escape, sha1);
    if p.Err? {
      return Err(p.error);
    }
    var c := GenerateSqlComponents(st, cat, p.value.dests, chain);
    if c.Err? {
      return Err(c.error);
    }
    r := Ok(Sql(p.value, c.value));
  }
}
