/** Orm::objectsFromResult: every row of a result is cut by column name
    into per-alias bags of property values, each bag becomes an object, and
    the rows are collected in an OrmChainResult. Also the result rows,
    OrmChainRow, with their keyed lookups. */
module Hydrator {
  import opened Wrappers
  import opened Strings
  import opened Names
  import opened Registry
  import opened Destinations
  import opened ChainFormat
  import opened Compiler

  // ------------------------------------------------ column names

  /** Where one column's value goes: a property of a relationship bag
      `Alias__i`, or of a class bag `Alias__i__Class`. */
  datatype Cell = RshipCell(bag: string, prop: string) | ClassCell(bag: string, prop: string)

  /** A piece of a column name as a class name: the source converts it
      twice, once on reading the parts and again when building the key. */
  function Back(piece: string): string {
    DbToClassName(DbToClassName(piece))
  }

  /** The body of print_r for a list of strings. */
  function PrintREntries(parts: seq<string>): string {
    if |parts| == 0 then ""
    else PrintREntries(parts[..|parts| - 1]) + "    [" + NatToString(|parts| - 1) + "] => " + parts[|parts| - 1] + "\n"
  }

  /** print_r($parts, true). */
  function PrintR(parts: seq<string>): string {
    "Array\n(\n" + PrintREntries(parts) + ")\n"
  }

  function CellOf(parts: seq<string>, key: string): Result<Cell> {
    if |parts| == 3 then Ok(RshipCell(Back(parts[0]) + "__" + parts[1], parts[2]))
    else if |parts| == 4 then Ok(ClassCell(Back(parts[0]) + "__" + parts[1] + "__" + Back(parts[2]), parts[3]))
    else if |parts| == 6 then
      if DbToClassName(parts[3]) != Inherits then Err(OrmError("Not expecting key of form " + key))
      else
        var prop := if parts[5] == AutoPropertyId then "__" + DbToClassName(parts[4]) + "__" + AutoPropertyId else parts[5];
        Ok(ClassCell(Back(parts[0]) + "__" + parts[1] + "__" + Back(parts[2]), prop))
    else Err(OrmError("Unexpected key encountered: " + PrintR(parts)))
  }

  /** The switch on the number of `__`-separated parts of a column name. */
  function DecodeColumn(key: string): Result<Cell> {
    CellOf(Explode(key), key)
  }

  /** A piece that can stand before a "__" separator. */
  predicate Piece(p: string) {
    NoDoubleUnderscore(p) && !EndsWithUnderscore(p)
  }

  lemma DigitsPiece(n: nat)
    ensures Piece(NatToString(n))
  {
    var s := NatToString(n);
    assert forall k | 0 <= k < |s| :: s[k] != '_';
  }

  lemma Join4(a: string, b: string, c: string, d: string)
    ensures Join([a, b, c, d], "__") == a + "__" + b + "__" + c + "__" + d
  {
    Join3(b, c, d);
    assert [a, b, c, d][1..] == [b, c, d];
    assert Join([a, b, c, d], "__") == a + "__" + (b + "__" + c + "__" + d);
  }

  lemma Join3(a: string, b: string, c: string)
    ensures Join([a, b, c], "__") == a + "__" + b + "__" + c
  {
    assert [a, b, c][1..] == [b, c] && [b, c][1..] == [c];
    assert Join([b, c], "__") == b + "__" + c;
    assert Join([a, b, c], "__") == a + "__" + (b + "__" + c);
  }

  lemma Join6(a: string, b: string, c: string, d: string, e: string, f: string)
    ensures Join([a, b, c, d, e, f], "__") == a + "__" + b + "__" + c + "__" + d + "__" + e + "__" + f
  {
    assert [a, b, c, d, e, f][1..] == [b, c, d, e, f] && [b, c, d, e, f][1..] == [c, d, e, f];
    Join4(c, d, e, f);
  }

  /** The relationship part of a compiled alias reads back as the
      relationship: "0" for the first step, the class name otherwise. */
  lemma ResultBack(rel: string, rsql: string)
    requires ResultSql(rel) == Ok(rsql)
    ensures Piece(rsql) && Back(rsql) == rel
  {
    if rel == AliasAnchor {
      assert rsql == "0";
      assert DbToClassName("0") == "0" by {
        DbFromFusion("0", true);
      }
    } else {
      TableBack(rel, rsql);
    }
  }

  /** A table name reads back as its class. */
  lemma TableBack(cls: string, table: string)
    requires ClassToDbName(cls) == Ok(table)
    ensures Piece(table) && Back(table) == cls
  {
    DbToClassNameIdempotent(table);
  }

  /** The column `<rel>__<n>__<table>__<prop>` the compiler selects for a
      property of a class goes to the class bag `Rel__n__Class`. */
  lemma ClassColumnDecodes(rel: string, rsql: string, n: nat, cls: string, table: string, prop: string)
    requires ResultSql(rel) == Ok(rsql) && ClassToDbName(cls) == Ok(table) && ValidPropertyName(prop)
    ensures DecodeColumn(Alias(rsql, n, table) + "__" + prop) == Ok(ClassCell(Alias(rel, n, cls), prop))
  {
    ResultBack(rel, rsql);
    TableBack(cls, table);
    DigitsPiece(n);
    Join4(rsql, NatToString(n), table, prop);
    ExplodeJoin([rsql, NatToString(n), table, prop]);
  }

  /** The column `<rel>__<n>__<prop>` the compiler selects for a property
      of a relationship goes to the relationship bag `Rel__n`. */
  lemma RshipColumnDecodes(rel: string, rsql: string, n: nat, prop: string)
    requires ResultSql(rel) == Ok(rsql) && ValidPropertyName(prop)
    ensures DecodeColumn(rsql + "__" + NatToString(n) + "__" + prop) == Ok(RshipCell(rel + "__" + NatToString(n), prop))
  {
    ResultBack(rel, rsql);
    DigitsPiece(n);
    Join3(rsql, NatToString(n), prop);
    ExplodeJoin([rsql, NatToString(n), prop]);
  }

  lemma {:induction false} DbFromLower(x: string)
    requires forall k | 0 <= k < |x| :: IsLower(x[k])
    ensures DbFrom(x, false) == x
  {
    if |x| > 0 {
      DbFromLower(x[1..]);
    }
  }

  /** A lower-case word reads back with its first letter capitalised. */
  lemma LowerWordBack(x: string)
    requires |x| > 0 && forall k | 0 <= k < |x| :: IsLower(x[k])
    ensures DbToClassName(x) == [ToUpper(x[0])] + x[1..]
  {
    DbFromFusion(x, true);
    DbFromLower(x[1..]);
    DbFromCons(x[0], x[1..], true);
    assert [x[0]] + x[1..] == x;
  }

  /** The ancestor-join marker is a lower-case word ... */
  lemma InheritsLower(marker: string)
    requires marker == InheritsSql
    ensures |marker| > 0 && forall k | 0 <= k < |marker| :: IsLower(marker[k])
  {
  }

  /** ... whose capitalised form is the reserved relationship. */
  lemma InheritsCapital(marker: string)
    requires marker == InheritsSql
    ensures [ToUpper(marker[0])] + marker[1..] == Inherits
  {
  }

  /** So the marker reads back as the reserved relationship, and is one
      piece of a column name. */
  lemma InheritsBack(marker: string)
    requires marker == InheritsSql
    ensures DbToClassName(marker) == Inherits && Piece(marker)
  {
    InheritsLower(marker);
    InheritsCapital(marker);
    LowerWordBack(marker);
    LowerPiece(marker);
  }

  lemma LowerPiece(x: string)
    requires forall k | 0 <= k < |x| :: IsLower(x[k])
    ensures Piece(x)
  {
  }

  /** The column `<rel>__<n>__<table>__inherits__<parent table>__<prop>`
      the compiler selects for an ancestor's property goes to the bag of
      the child, `id` renamed to `__Parent__id`. */
  lemma InheritsColumnDecodes(rel: string, rsql: string, n: nat, cls: string, table: string,
                              parent: string, ptable: string, prop: string)
    requires ResultSql(rel) == Ok(rsql) && ClassToDbName(cls) == Ok(table)
    requires ClassToDbName(parent) == Ok(ptable) && ValidPropertyName(prop)
    ensures DecodeColumn(Alias(rsql, n, table) + "__" + InheritsSql + "__" + ptable + "__" + prop)
      == Ok(ClassCell(Alias(rel, n, cls), if prop == AutoPropertyId then "__" + parent + "__" + AutoPropertyId else prop))
  {
    InheritsBack(InheritsSql);
    MarkedColumnDecodes(rel, rsql, n, cls, table, InheritsSql, parent, ptable, prop);
  }

  lemma MarkedColumnDecodes(rel: string, rsql: string, n: nat, cls: string, table: string,
                            marker: string, parent: string, ptable: string, prop: string)
    requires ResultSql(rel) == Ok(rsql) && ClassToDbName(cls) == Ok(table)
    requires ClassToDbName(parent) == Ok(ptable) && ValidPropertyName(prop)
    requires DbToClassName(marker) == Inherits && Piece(marker)
    ensures DecodeColumn(Alias(rsql, n, table) + "__" + marker + "__" + ptable + "__" + prop)
      == Ok(ClassCell(Alias(rel, n, cls), if prop == AutoPropertyId then "__" + parent + "__" + AutoPropertyId else prop))
  {
    ResultBack(rel, rsql);
    TableBack(cls, table);
    TableBack(parent, ptable);
    DigitsPiece(n);
    Join6(rsql, NatToString(n), table, marker, ptable, prop);
    ExplodeJoin([rsql, NatToString(n), table, marker, ptable, prop]);
  }

  /** A column that is not cut into 3, 4 or 6 parts, or whose 6 parts miss
      the `inherits` marker, stops the hydration. */
  lemma DecodeRejects(key: string)
    ensures var parts := Explode(key);
      (|parts| != 3 && |parts| != 4 && |parts| != 6) || (|parts| == 6 && DbToClassName(parts[3]) != Inherits)
      <==> DecodeColumn(key).Err?
  {
  }

  /** The bag key of a decoded column cuts back into the parts the second
      phase reads: alias, counter and, for a class bag, the class. */
  lemma BagKeyParts(key: string)
    requires DecodeColumn(key).Ok?
    ensures var parts, c := Explode(key), DecodeColumn(key).value;
      Explode(c.bag) == if c.RshipCell? then [Back(parts[0]), parts[1]] else [Back(parts[0]), parts[1], Back(parts[2])]
  {
    var parts := Explode(key);
    ExplodeSeparable(key);
    assert Piece(parts[1]);
    DbToClassNameNoUnderscore(DbToClassName(parts[0]));
    DbToClassNameNoUnderscore(DbToClassName(parts[2]));
    var c := DecodeColumn(key).value;
    if c.RshipCell? {
      assert [Back(parts[0]), parts[1]][1..] == [parts[1]];
      ExplodeJoin([Back(parts[0]), parts[1]]);
    } else {
      Join3(Back(parts[0]), parts[1], Back(parts[2]));
      ExplodeJoin([Back(parts[0]), parts[1], Back(parts[2])]);
    }
  }

  // ------------------------------------------------ bags

  /** The bags of one row in order of first use, each a map of property
      values. */
  type Bags = seq<(string, map<string, string>)>

  function BagKeys(b: Bags): (ks: seq<string>)
    ensures |ks| == |b| && forall k | 0 <= k < |b| :: ks[k] == b[k].0
  {
    seq(|b|, k requires 0 <= k < |b| => b[k].0)
  }

  /** `$bags[$key][$prop] = $val`, the bag created empty on first use. */
  function Deposit(b: Bags, key: string, prop: string, val: string): Bags {
    if |b| == 0 then [(key, map[prop := val])]
    else if b[0].0 == key then [(key, b[0].1[prop := val])] + b[1..]
    else [b[0]] + Deposit(b[1..], key, prop, val)
  }

  /** `$bags[$key]`, when set. */
  function BagOf(b: Bags, key: string): (r: Option<map<string, string>>)
    ensures r.Some? <==> key in BagKeys(b)
  {
    if |b| == 0 then None
    else if b[0].0 == key then Some(b[0].1)
    else
      assert BagKeys(b) == [b[0].0] + BagKeys(b[1..]);
      BagOf(b[1..], key)
  }

  /** The class bags and the relationship bags of a row. */
  datatype RowBags = RowBags(classes: Bags, rships: Bags)

  function Place(b: RowBags, c: Cell, val: string): RowBags {
    match c
    case RshipCell(bag, prop) => b.(rships := Deposit(b.rships, bag, prop, val))
    case ClassCell(bag, prop) => b.(classes := Deposit(b.classes, bag, prop, val))
  }

  /** The column loop of one row. */
  function Fill(cols: seq<(string, string)>): Result<RowBags> {
    if |cols| == 0 then Ok(RowBags([], []))
    else
      var b :- Fill(cols[..|cols| - 1]);
      var c :- DecodeColumn(cols[|cols| - 1].0);
      Ok(Place(b, c, cols[|cols| - 1].1))
  }

  /** The value of `$bags[$key]` when set, or the empty bag. */
  function VarsOf(o: Option<map<string, string>>): map<string, string> {
    if o.Some? then o.value else map[]
  }

  lemma BagKeysCons(x: (string, map<string, string>), t: Bags)
    ensures BagKeys([x] + t) == [x.0] + BagKeys(t)
  {
  }

  /** A deposit into a new bag appends its key; into an existing one keeps
      the order. */
  lemma {:induction false} DepositKeys(b: Bags, key: string, prop: string, val: string)
    ensures BagKeys(Deposit(b, key, prop, val)) == if key in BagKeys(b) then BagKeys(b) else BagKeys(b) + [key]
  {
    if |b| > 0 {
      BagKeysCons(b[0], b[1..]);
      assert b == [b[0]] + b[1..];
      if b[0].0 == key {
        BagKeysCons((key, b[0].1[prop := val]), b[1..]);
      } else {
        DepositKeys(b[1..], key, prop, val);
        BagKeysCons(b[0], Deposit(b[1..], key, prop, val));
      }
    }
  }

  /** A deposit sets one property of one bag and changes nothing else. */
  lemma {:induction false} DepositBag(b: Bags, key: string, prop: string, val: string, other: string)
    ensures BagOf(Deposit(b, key, prop, val), other)
      == if other == key then Some(VarsOf(BagOf(b, key))[prop := val]) else BagOf(b, other)
  {
    if |b| > 0 && b[0].0 != key {
      DepositBag(b[1..], key, prop, val, other);
      var d := Deposit(b, key, prop, val);
      assert d[0] == b[0] && d[1..] == Deposit(b[1..], key, prop, val);
    } else if |b| > 0 {
      var d := Deposit(b, key, prop, val);
      assert d[0].0 == key && d[1..] == b[1..];
    }
  }

  lemma DepositDistinct(b: Bags, key: string, prop: string, val: string)
    requires NoDup(BagKeys(b))
    ensures NoDup(BagKeys(Deposit(b, key, prop, val)))
  {
    DepositKeys(b, key, prop, val);
    if key !in BagKeys(b) {
      NoDupSnoc(BagKeys(b), key);
    }
  }

  /** The hydration of a row goes through exactly when every column name
      decodes. */
  lemma {:induction false} FillOk(cols: seq<(string, string)>)
    ensures Fill(cols).Ok? <==> forall k | 0 <= k < |cols| :: DecodeColumn(cols[k].0).Ok?
  {
    FillPrefixOk(cols, |cols|);
    assert cols[..|cols|] == cols;
  }

  lemma {:induction false} FillPrefixOk(cols: seq<(string, string)>, n: nat)
    requires n <= |cols|
    ensures Fill(cols[..n]).Ok? <==> forall k | 0 <= k < n :: DecodeColumn(cols[k].0).Ok?
  {
    if n > 0 {
      FillPrefixOk(cols, n - 1);
      var p := cols[..n];
      assert p[..n - 1] == cols[..n - 1];
      FillStep(p);
      assert p[n - 1] == cols[n - 1];
      if !forall k | 0 <= k < n :: DecodeColumn(cols[k].0).Ok? {
        var k :| 0 <= k < n && !DecodeColumn(cols[k].0).Ok?;
        assert k < n - 1 ==> !Fill(cols[..n - 1]).Ok?;
      }
    }
  }

  lemma FillStep(cols: seq<(string, string)>)
    requires |cols| > 0
    ensures Fill(cols).Ok? <==> Fill(cols[..|cols| - 1]).Ok? && DecodeColumn(cols[|cols| - 1].0).Ok?
  {
  }

  /** Each kind of bag is a PHP array: its keys are distinct. */
  lemma {:induction false} FillDistinct(cols: seq<(string, string)>)
    requires Fill(cols).Ok?
    ensures NoDup(BagKeys(Fill(cols).value.classes)) && NoDup(BagKeys(Fill(cols).value.rships))
  {
    if |cols| > 0 {
      var b := Fill(cols[..|cols| - 1]).value;
      FillDistinct(cols[..|cols| - 1]);
      var c := DecodeColumn(cols[|cols| - 1].0).value;
      if c.RshipCell? {
        DepositDistinct(b.rships, c.bag, c.prop, cols[|cols| - 1].1);
      } else {
        DepositDistinct(b.classes, c.bag, c.prop, cols[|cols| - 1].1);
      }
    }
  }

  /** The bags a row fills, of the kind a cell names. */
  function BagsFor(b: RowBags, c: Cell): Bags {
    if c.RshipCell? then b.rships else b.classes
  }

  /** Placing a value touches only the bag of its own cell. */
  lemma PlaceBag(b: RowBags, last: Cell, val: string, c: Cell)
    ensures BagOf(BagsFor(Place(b, last, val), c), c.bag)
      == if c.RshipCell? == last.RshipCell? && c.bag == last.bag
         then Some(VarsOf(BagOf(BagsFor(b, c), c.bag))[last.prop := val])
         else BagOf(BagsFor(b, c), c.bag)
  {
    if last.RshipCell? {
      DepositBag(b.rships, last.bag, last.prop, val, c.bag);
    } else {
      DepositBag(b.classes, last.bag, last.prop, val, c.bag);
    }
  }

  /** The bag of the cell holds the value under the cell's property. */
  predicate Holds(bags: RowBags, c: Cell, val: string) {
    var bag := BagOf(BagsFor(bags, c), c.bag);
    bag.Some? && c.prop in bag.value && bag.value[c.prop] == val
  }

  /** A placed value is held by its cell ... */
  lemma PlaceHolds(b: RowBags, c: Cell, val: string)
    ensures Holds(Place(b, c, val), c, val)
  {
    PlaceBag(b, c, val, c);
  }

  /** ... and a value placed in another cell leaves it held. */
  lemma PlaceKeeps(b: RowBags, last: Cell, v: string, c: Cell, val: string)
    requires Holds(b, c, val) && last != c
    ensures Holds(Place(b, last, v), c, val)
  {
    PlaceBag(b, last, v, c);
  }

  /** A column's value ends up in its bag under its property unless a later
      column of the row writes the same cell. */
  lemma {:induction false} FillLastWins(cols: seq<(string, string)>, bags: RowBags, k: nat)
    requires Fill(cols) == Ok(bags) && k < |cols|
    requires forall j | k < j < |cols| :: DecodeColumn(cols[j].0) != DecodeColumn(cols[k].0)
    ensures DecodeColumn(cols[k].0).Ok? && Holds(bags, DecodeColumn(cols[k].0).value, cols[k].1)
  {
    FillStep(cols);
    var n := |cols| - 1;
    var init := cols[..n];
    var b := Fill(init).value;
    var last := DecodeColumn(cols[n].0).value;
    assert bags == Place(b, last, cols[n].1);
    if k < n {
      assert init[k] == cols[k];
      assert forall j | k < j < |init| :: init[j] == cols[j];
      FillLastWins(init, b, k);
      PlaceKeeps(b, last, cols[n].1, DecodeColumn(cols[k].0).value, cols[k].1);
    } else {
      PlaceHolds(b, last, cols[n].1);
    }
  }

  // ------------------------------------------------ objects

  /** A hydrated object: its class (get_class) and the property values it
      was populated with. */
  datatype Obj = Obj(cls: string, vars: map<string, string>)

  /** An ordered PHP array of objects by key. */
  type Objs = seq<(string, Obj)>

  function ObjKeys(objs: Objs): (ks: seq<string>)
    ensures |ks| == |objs| && forall k | 0 <= k < |objs| :: ks[k] == objs[k].0
  {
    seq(|objs|, k requires 0 <= k < |objs| => objs[k].0)
  }

  /** `$objs[$key] = $obj`: an existing key keeps its place. */
  function PutObj(objs: Objs, key: string, o: Obj): Objs {
    if |objs| == 0 then [(key, o)]
    else if objs[0].0 == key then [(key, o)] + objs[1..]
    else [objs[0]] + PutObj(objs[1..], key, o)
  }

  /** `$objs[$key]`, when set. */
  function Find(objs: Objs, key: string): (r: Option<Obj>)
    ensures r.Some? <==> key in ObjKeys(objs)
  {
    if |objs| == 0 then None
    else if objs[0].0 == key then Some(objs[0].1)
    else
      assert ObjKeys(objs) == [objs[0].0] + ObjKeys(objs[1..]);
      Find(objs[1..], key)
  }

  /** An element `list()` reads from an exploded key: NULL past the end,
      which prints, and compares loosely, as the empty string. */
  function At(parts: seq<string>, k: nat): string {
    if k < |parts| then parts[k] else ""
  }

  function UnregisteredClass(cls: string, name: string): Error {
    OrmError("Class " + cls + " is not registered for Schema " + name)
  }

  function UnregisteredRelationship(cls: string, name: string): Error {
    OrmError("Relationship " + cls + " is not registered or is not instanciable for Schema " + name)
  }

  /** The loop over the class bags: each becomes an object of the class its
      key names, stored under `Alias__i`. */
  function ClassObjects(name: string, st: SchemaState, bags: Bags): Result<Objs> {
    if |bags| == 0 then Ok([])
    else
      var objs :- ClassObjects(name, st, bags[..|bags| - 1]);
      var (key, vars) := bags[|bags| - 1];
      var cls := BagClass(key);
      if !IsClass(st, cls) then Err(UnregisteredClass(cls, name))
      else Ok(PutObj(objs, BagSlot(key), Obj(cls, vars)))
  }

  /** The loop over the relationship bags: each becomes an object of the
      relationship its key names, stored under the bag's own key. */
  function RshipObjects(name: string, st: SchemaState, bags: Bags): Result<Objs> {
    if |bags| == 0 then Ok([])
    else
      var objs :- RshipObjects(name, st, bags[..|bags| - 1]);
      var (key, vars) := bags[|bags| - 1];
      var cls := Explode(key)[0];
      if !IsIRelationship(st, cls) then Err(UnregisteredRelationship(cls, name))
      else Ok(PutObj(objs, key, Obj(cls, vars)))
  }

  lemma ObjKeysCons(x: (string, Obj), t: Objs)
    ensures ObjKeys([x] + t) == [x.0] + ObjKeys(t)
  {
  }

  /** Storing under a new key appends it; under an existing one keeps the
      order. */
  lemma {:induction false} PutObjKeys(objs: Objs, key: string, o: Obj)
    ensures ObjKeys(PutObj(objs, key, o)) == if key in ObjKeys(objs) then ObjKeys(objs) else ObjKeys(objs) + [key]
  {
    if |objs| > 0 {
      ObjKeysCons(objs[0], objs[1..]);
      assert objs == [objs[0]] + objs[1..];
      if objs[0].0 == key {
        ObjKeysCons((key, o), objs[1..]);
      } else {
        PutObjKeys(objs[1..], key, o);
        ObjKeysCons(objs[0], PutObj(objs[1..], key, o));
      }
    }
  }

  /** Storing sets one key and changes nothing else. */
  lemma {:induction false} FindPutObj(objs: Objs, key: string, o: Obj, other: string)
    ensures Find(PutObj(objs, key, o), other) == if other == key then Some(o) else Find(objs, other)
  {
    if |objs| > 0 && objs[0].0 != key {
      FindPutObj(objs[1..], key, o, other);
      var d := PutObj(objs, key, o);
      assert d[0] == objs[0] && d[1..] == PutObj(objs[1..], key, o);
    } else if |objs| > 0 {
      var d := PutObj(objs, key, o);
      assert d[0].0 == key && d[1..] == objs[1..];
    }
  }

  /** The class a class bag's key names. */
  function BagClass(key: string): string {
    At(Explode(key), 2)
  }

  /** Where a class bag's object is stored: `Alias__i`. */
  function BagSlot(key: string): string {
    var parts := Explode(key);
    parts[0] + "__" + At(parts, 1)
  }

  /** The class objects are built exactly when every class bag names a
      registered class; otherwise the first bag that does not is reported. */
  lemma {:induction false} ClassObjectsOk(name: string, st: SchemaState, bags: Bags)
    ensures ClassObjects(name, st, bags).Ok? <==> forall k | 0 <= k < |bags| :: IsClass(st, BagClass(bags[k].0))
    ensures ClassObjects(name, st, bags).Err? ==>
      exists k | 0 <= k < |bags| :: !IsClass(st, BagClass(bags[k].0)) &&
        (forall j | 0 <= j < k :: IsClass(st, BagClass(bags[j].0))) &&
        ClassObjects(name, st, bags).error == UnregisteredClass(BagClass(bags[k].0), name)
  {
    if |bags| > 0 {
      var init := bags[..|bags| - 1];
      ClassObjectsOk(name, st, init);
      assert forall k | 0 <= k < |init| :: init[k] == bags[k];
    }
  }

  /** Every class bag leaves an object at its `Alias__i` slot. */
  lemma {:induction false} ClassObjectsSlots(name: string, st: SchemaState, bags: Bags, k: nat)
    requires ClassObjects(name, st, bags).Ok? && k < |bags|
    ensures BagSlot(bags[k].0) in ObjKeys(ClassObjects(name, st, bags).value)
  {
    var n := |bags| - 1;
    var objs := ClassObjects(name, st, bags[..n]).value;
    var (key, vars) := bags[n];
    PutObjKeys(objs, BagSlot(key), Obj(BagClass(key), vars));
    if k < n {
      ClassObjectsSlots(name, st, bags[..n], k);
    }
  }

  /** The relationship objects are built exactly when every relationship
      bag names a registered relationship; otherwise the first bag that does
      not is reported. */
  lemma {:induction false} RshipObjectsOk(name: string, st: SchemaState, bags: Bags)
    ensures RshipObjects(name, st, bags).Ok? <==> forall k | 0 <= k < |bags| :: IsIRelationship(st, Explode(bags[k].0)[0])
    ensures RshipObjects(name, st, bags).Err? ==>
      exists k | 0 <= k < |bags| :: !IsIRelationship(st, Explode(bags[k].0)[0]) &&
        (forall j | 0 <= j < k :: IsIRelationship(st, Explode(bags[j].0)[0])) &&
        RshipObjects(name, st, bags).error == UnregisteredRelationship(Explode(bags[k].0)[0], name)
  {
    if |bags| > 0 {
      var init := bags[..|bags| - 1];
      RshipObjectsOk(name, st, init);
      assert forall k | 0 <= k < |init| :: init[k] == bags[k];
    }
  }

  /** With distinct bag keys, each relationship bag becomes the object
      stored under its own key, of the relationship the key names and with
      the bag's values. */
  lemma {:induction false} RshipObjectsExact(name: string, st: SchemaState, bags: Bags, k: nat)
    requires RshipObjects(name, st, bags).Ok? && NoDup(BagKeys(bags)) && k < |bags|
    ensures Find(RshipObjects(name, st, bags).value, bags[k].0) == Some(Obj(Explode(bags[k].0)[0], bags[k].1))
  {
    var n := |bags| - 1;
    var init := bags[..n];
    var objs := RshipObjects(name, st, init).value;
    var (key, vars) := bags[n];
    FindPutObj(objs, key, Obj(Explode(key)[0], vars), bags[k].0);
    if k < n {
      assert BagKeys(init) == BagKeys(bags)[..n];
      assert BagKeys(bags)[k] != BagKeys(bags)[n];
      RshipObjectsExact(name, st, init, k);
    }
  }

  // ------------------------------------------------ rows

  /** OrmChainRow: the chain, the class objects by `Alias__i` and the
      relationship objects by `Alias__i`. There are no setters: __set
      throws. */
  datatype ChainRow = ChainRow(chain: string, classes: Objs, rships: Objs)

  function NoAlias(key: string): Error {
    InputError("No alias with the name " + key + " exists")
  }

  /** OrmChainRow::_rshipByAlias. */
  function RshipByAlias(row: ChainRow, alias: string, i: nat): (r: Result<Obj>)
    ensures r.Ok? <==> alias + "__" + NatToString(i) in ObjKeys(row.rships)
  {
    var key := alias + "__" + NatToString(i);
    var o := Find(row.rships, key);
    if o.None? then Err(NoAlias(key)) else Ok(o.value)
  }

  /** OrmChainRow::_classByAlias. */
  function ClassByAlias(row: ChainRow, alias: string, i: nat): (r: Result<Obj>)
    ensures r.Ok? <==> alias + "__" + NatToString(i) in ObjKeys(row.classes)
  {
    var key := alias + "__" + NatToString(i);
    var o := Find(row.classes, key);
    if o.None? then Err(NoAlias(key)) else Ok(o.value)
  }

  /** OrmChainRow::_anchored: the class object of the first step. */
  function Anchored(row: ChainRow): (r: Result<Obj>)
    ensures r.Ok? <==> "0__0" in ObjKeys(row.classes)
  {
    assert AliasAnchor + "__" + NatToString(0) == "0__0";
    ClassByAlias(row, AliasAnchor, 0)
  }

  /** OrmChainRow::__isset as written: the alias is looked up without the
      `__0` that __get adds. */
  function IsSetAsWritten(row: ChainRow, alias: string): (r: bool)
    ensures r <==> alias in ObjKeys(row.rships)
  {
    Find(row.rships, alias).Some?
  }

  /** What __isset evidently means: whether __get would find the alias. */
  function IsSet(row: ChainRow, alias: string): (r: bool)
    ensures r <==> RshipByAlias(row, alias, 0).Ok?
  {
    Find(row.rships, alias + "__" + NatToString(0)).Some?
  }

  /** A row whose relationship `Owns` __get returns, while __isset says it
      is not set. */
  lemma IsSetDisagrees()
    ensures var row := ChainRow("", [], [("Owns__0", Obj("Owns", map[]))]);
      RshipByAlias(row, "Owns", 0).Ok? && !IsSetAsWritten(row, "Owns") && IsSet(row, "Owns")
  {
    var row := ChainRow("", [], [("Owns__0", Obj("Owns", map[]))]);
    assert NatToString(0) == "0";
    assert "Owns" + "__" + "0" == "Owns__0";
    assert "Owns" != "Owns__0" by {
      assert |"Owns"| != |"Owns__0"|;
    }
  }

  /** The objects of one array that are of the given class, in order. */
  function OfClass(objs: Objs, cls: string): seq<Obj> {
    if |objs| == 0 then []
    else
      var rest := OfClass(objs[..|objs| - 1], cls);
      if objs[|objs| - 1].1.cls == cls then rest + [objs[|objs| - 1].1] else rest
  }

  /** OfClass keeps only objects of the class, and is empty exactly when no
      object has it. */
  lemma {:induction false} OfClassSpec(objs: Objs, cls: string)
    ensures forall k | 0 <= k < |OfClass(objs, cls)| :: OfClass(objs, cls)[k].cls == cls
    ensures |OfClass(objs, cls)| == 0 <==> forall k | 0 <= k < |objs| :: objs[k].1.cls != cls
    ensures |OfClass(objs, cls)| <= |objs|
  {
    if |objs| > 0 {
      var init := objs[..|objs| - 1];
      OfClassSpec(init, cls);
      assert forall k | 0 <= k < |init| :: init[k] == objs[k];
    }
  }

  function NotUnique(cls: string): Error {
    InputError("The class " + cls + " is not unique in the chain, try using chain aliases")
  }

  /** OrmChainRow::_byClass: the object of the class among the class
      objects and the relationship objects. */
  function ByClassOf(row: ChainRow, cls: string): Result<Option<Obj>> {
    var found := OfClass(row.classes, cls) + OfClass(row.rships, cls);
    if |found| == 0 then Ok(None)
    else if |found| == 1 then Ok(Some(found[0]))
    else Err(NotUnique(cls))
  }

  /** _byClass fails when the class is met twice, is NULL when no object
      has the class, and otherwise is the one object of the class. */
  lemma ByClassOfSpec(row: ChainRow, cls: string)
    ensures ByClassOf(row, cls).Err? <==> |OfClass(row.classes, cls)| + |OfClass(row.rships, cls)| >= 2
    ensures ByClassOf(row, cls) == Ok(None) <==>
      (forall k | 0 <= k < |row.classes| :: row.classes[k].1.cls != cls) &&
      (forall k | 0 <= k < |row.rships| :: row.rships[k].1.cls != cls)
    ensures ByClassOf(row, cls).Ok? && ByClassOf(row, cls).value.Some? ==> ByClassOf(row, cls).value.value.cls == cls
  {
    var a, b := OfClass(row.classes, cls), OfClass(row.rships, cls);
    OfClassSpec(row.classes, cls);
    OfClassSpec(row.rships, cls);
    if |a + b| == 1 {
      assert (a + b)[0] == if |a| == 1 then a[0] else b[0];
    }
  }

  // ------------------------------------------------ the whole result

  /** One row of the result: its columns in order, by name. */
  type ResultRow = seq<(string, string)>

  function HydrateRow(name: string, st: SchemaState, chain: string, cols: ResultRow): Result<ChainRow> {
    var b :- Fill(cols);
    var classes :- ClassObjects(name, st, b.classes);
    var rships :- RshipObjects(name, st, b.rships);
    Ok(ChainRow(chain, classes, rships))
  }

  /** The row loop of objectsFromResult. */
  function Hydrate(name: string, st: SchemaState, chain: string, rows: seq<ResultRow>): Result<seq<ChainRow>> {
    if |rows| == 0 then Ok([])
    else
      var done :- Hydrate(name, st, chain, rows[..|rows| - 1]);
      var row :- HydrateRow(name, st, chain, rows[|rows| - 1]);
      Ok(done + [row])
  }

  lemma HydrateStep(name: string, st: SchemaState, chain: string, rows: seq<ResultRow>)
    requires |rows| > 0
    ensures Hydrate(name, st, chain, rows).Ok? <==>
      Hydrate(name, st, chain, rows[..|rows| - 1]).Ok? && HydrateRow(name, st, chain, rows[|rows| - 1]).Ok?
    ensures Hydrate(name, st, chain, rows).Ok? ==>
      Hydrate(name, st, chain, rows).value
        == Hydrate(name, st, chain, rows[..|rows| - 1]).value + [HydrateRow(name, st, chain, rows[|rows| - 1]).value]
  {
  }

  /** A result hydrates exactly when every row does ... */
  lemma {:induction false} HydrateOk(name: string, st: SchemaState, chain: string, rows: seq<ResultRow>, n: nat)
    requires n <= |rows|
    ensures Hydrate(name, st, chain, rows[..n]).Ok? <==> forall k | 0 <= k < n :: HydrateRow(name, st, chain, rows[k]).Ok?
  {
    if n > 0 {
      HydrateOk(name, st, chain, rows, n - 1);
      var p := rows[..n];
      assert p[..n - 1] == rows[..n - 1];
      assert p[n - 1] == rows[n - 1];
      HydrateStep(name, st, chain, p);
      if !forall k | 0 <= k < n :: HydrateRow(name, st, chain, rows[k]).Ok? {
        var k :| 0 <= k < n && !HydrateRow(name, st, chain, rows[k]).Ok?;
        assert k < n - 1 ==> !Hydrate(name, st, chain, rows[..n - 1]).Ok?;
      }
    }
  }

  lemma HydrateSnoc(name: string, st: SchemaState, chain: string, init: seq<ResultRow>, last: ResultRow,
                    done: seq<ChainRow>)
    requires Hydrate(name, st, chain, init + [last]) == Ok(done)
    ensures |done| > 0 && Hydrate(name, st, chain, init) == Ok(done[..|done| - 1])
    ensures HydrateRow(name, st, chain, last) == Ok(done[|done| - 1])
  {
    var rows := init + [last];
    assert rows[..|rows| - 1] == init && rows[|rows| - 1] == last;
    var d := Hydrate(name, st, chain, init).value;
    assert done == d + [HydrateRow(name, st, chain, last).value];
    assert done[..|done| - 1] == d;
  }

  /** ... into one chain row per result row, in order. */
  lemma {:induction false} HydrateRows(name: string, st: SchemaState, chain: string, rows: seq<ResultRow>,
                                       n: nat, done: seq<ChainRow>)
    requires n <= |rows| && Hydrate(name, st, chain, rows[..n]) == Ok(done)
    ensures |done| == n && forall k | 0 <= k < n :: HydrateRow(name, st, chain, rows[k]) == Ok(done[k])
  {
    if n > 0 {
      assert rows[..n] == rows[..n - 1] + [rows[n - 1]];
      HydrateSnoc(name, st, chain, rows[..n - 1], rows[n - 1], done);
      HydrateRows(name, st, chain, rows, n - 1, done[..|done| - 1]);
    }
  }

  // ------------------------------------------------ the loops

  lemma {:induction false} FillErrStays(cols: seq<(string, string)>, i: nat)
    requires i <= |cols| && Fill(cols[..i]).Err?
    ensures Fill(cols) == Fill(cols[..i])
  {
    if i < |cols| {
      var init := cols[..|cols| - 1];
      assert init[..i] == cols[..i];
      FillErrStays(init, i);
    } else {
      assert cols[..i] == cols;
    }
  }

  /** The column loop of objectsFromResult. */
  method FillBags(cols: seq<(string, string)>) returns (r: Result<RowBags>)
    ensures r == Fill(cols)
  {
    var b := RowBags([], []);
    for k := 0 to |cols|
      invariant Fill(cols[..k]) == Ok(b)
    {
      assert cols[..k + 1][..k] == cols[..k];
      var c := DecodeColumn(cols[k].0);
      if c.Err? {
        FillErrStays(cols, k + 1);
        return Err(c.error);
      }
      b := Place(b, c.value, cols[k].1);
    }
    assert cols[..|cols|] == cols;
    return Ok(b);
  }

  lemma {:induction false} ClassObjectsErrStays(name: string, st: SchemaState, bags: Bags, i: nat)
    requires i <= |bags| && ClassObjects(name, st, bags[..i]).Err?
    ensures ClassObjects(name, st, bags) == ClassObjects(name, st, bags[..i])
  {
    if i < |bags| {
      var init := bags[..|bags| - 1];
      assert init[..i] == bags[..i];
      ClassObjectsErrStays(name, st, init, i);
    } else {
      assert bags[..i] == bags;
    }
  }

  /** The loop over the class bags. */
  method BuildClassObjects(name: string, st: SchemaState, bags: Bags) returns (r: Result<Objs>)
    ensures r == ClassObjects(name, st, bags)
  {
    var objs: Objs := [];
    for k := 0 to |bags|
      invariant ClassObjects(name, st, bags[..k]) == Ok(objs)
    {
      assert bags[..k + 1][..k] == bags[..k];
      var (key, vars) := bags[k];
      var cls := BagClass(key);
      if !IsClass(st, cls) {
        ClassObjectsErrStays(name, st, bags, k + 1);
        return Err(UnregisteredClass(cls, name));
      }
      objs := PutObj(objs, BagSlot(key), Obj(cls, vars));
    }
    assert bags[..|bags|] == bags;
    return Ok(objs);
  }

  lemma {:induction false} RshipObjectsErrStays(name: string, st: SchemaState, bags: Bags, i: nat)
    requires i <= |bags| && RshipObjects(name, st, bags[..i]).Err?
    ensures RshipObjects(name, st, bags) == RshipObjects(name, st, bags[..i])
  {
    if i < |bags| {
      var init := bags[..|bags| - 1];
      assert init[..i] == bags[..i];
      RshipObjectsErrStays(name, st, init, i);
    } else {
      assert bags[..i] == bags;
    }
  }

  /** The loop over the relationship bags. */
  method BuildRshipObjects(name: string, st: SchemaState, bags: Bags) returns (r: Result<Objs>)
    ensures r == RshipObjects(name, st, bags)
  {
    var objs: Objs := [];
    for k := 0 to |bags|
      invariant RshipObjects(name, st, bags[..k]) == Ok(objs)
    {
      assert bags[..k + 1][..k] == bags[..k];
      var (key, vars) := bags[k];
      var cls := Explode(key)[0];
      if !IsIRelationship(st, cls) {
        RshipObjectsErrStays(name, st, bags, k + 1);
        return Err(UnregisteredRelationship(cls, name));
      }
      objs := PutObj(objs, key, Obj(cls, vars));
    }
    assert bags[..|bags|] == bags;
    return Ok(objs);
  }

  /** The body of the row loop: the row's objects, collected in an
      OrmChainRow. */
  method BuildRow(name: string, st: SchemaState, chain: string, cols: ResultRow) returns (r: Result<ChainRow>)
    ensures r == HydrateRow(name, st, chain, cols)
  {
    var b := FillBags(cols);
    if b.Err? {
      return Err(b.error);
    }
    var classes := BuildClassObjects(name, st, b.value.classes);
    if classes.Err? {
      return Err(classes.error);
    }
    var rships := BuildRshipObjects(name, st, b.value.rships);
    if rships.Err? {
      return Err(rships.error);
    }
    return Ok(ChainRow(chain, classes.value, rships.value));
  }
}
