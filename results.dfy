/** OrmChainRow::_byClass as the loop it is, and OrmChainResult: the
    collection of chain rows objectsFromResult fills and finalizes, its
    per-alias and per-class lookups over every row, and its Iterator
    methods over an internal array position. */
module Results {
  import opened Wrappers
  import opened Strings
  import opened Names
  import opened Registry
  import opened Hydrator

  // ------------------------------------------------ OrmChainRow::_byClass

  /** At most one object of the class has been seen, and `item` holds it. */
  predicate AtMostOne(found: seq<Obj>, item: Option<Obj>) {
    |found| <= 1 && item == if |found| == 0 then None else Some(found[0])
  }

  lemma OfClassSnoc(objs: Objs, i: nat, cls: string)
    requires i < |objs|
    ensures OfClass(objs[..i + 1], cls)
      == OfClass(objs[..i], cls) + if objs[i].1.cls == cls then [objs[i].1] else []
  {
    assert objs[..i + 1][..i] == objs[..i];
  }

  lemma {:induction false} OfClassGrows(objs: Objs, i: nat, cls: string)
    requires i <= |objs|
    ensures |OfClass(objs[..i], cls)| <= |OfClass(objs, cls)|
  {
    if i < |objs| {
      var init := objs[..|objs| - 1];
      assert init[..i] == objs[..i];
      OfClassGrows(init, i, cls);
    } else {
      assert objs[..i] == objs;
    }
  }

  /** One loop of _byClass over an array of objects, after the objects
      `before` of the class were met: it stops at the second object of the
      class met in all. */
  method ScanClass(objs: Objs, cls: string, ghost before: seq<Obj>, item0: Option<Obj>)
    returns (r: Result<Option<Obj>>)
    requires AtMostOne(before, item0)
    ensures |before + OfClass(objs, cls)| >= 2 ==> r == Err(NotUnique(cls))
    ensures |before + OfClass(objs, cls)| <= 1 ==> r.Ok? && AtMostOne(before + OfClass(objs, cls), r.value)
  {
    var item := item0;
    for i := 0 to |objs|
      invariant AtMostOne(before + OfClass(objs[..i], cls), item)
    {
      OfClassSnoc(objs, i, cls);
      assert before + OfClass(objs[..i + 1], cls)
        == (before + OfClass(objs[..i], cls)) + if objs[i].1.cls == cls then [objs[i].1] else [];
      if objs[i].1.cls == cls {
        if item.Some? {
          OfClassGrows(objs, i + 1, cls);
          return Err(NotUnique(cls));
        }
        item := Some(objs[i].1);
      }
    }
    assert objs[..|objs|] == objs;
    return Ok(item);
  }

  /** OrmChainRow::_byClass: the class objects, then the relationship
      objects. */
  method RowByClass(row: ChainRow, cls: string) returns (r: Result<Option<Obj>>)
    ensures r == ByClassOf(row, cls)
  {
    assert [] + OfClass(row.classes, cls) == OfClass(row.classes, cls);
    var first := ScanClass(row.classes, cls, [], None);
    if first.Err? {
      return first;
    }
    r := ScanClass(row.rships, cls, OfClass(row.classes, cls), first.value);
  }

  // ------------------------------------------------ lookups over every row

  /** OrmChainResult::rshipByAlias: `$r->$alias` of every row. */
  function RshipsOf(rows: seq<ChainRow>, alias: string): Result<seq<Obj>> {
    if |rows| == 0 then Ok([])
    else
      var done :- RshipsOf(rows[..|rows| - 1], alias);
      var o :- RshipByAlias(rows[|rows| - 1], alias, 0);
      Ok(done + [o])
  }

  /** OrmChainResult::classByAlias: `$r->$alias()` of every row. */
  function ClassesOf(rows: seq<ChainRow>, alias: string): Result<seq<Obj>> {
    if |rows| == 0 then Ok([])
    else
      var done :- ClassesOf(rows[..|rows| - 1], alias);
      var o :- ClassByAlias(rows[|rows| - 1], alias, 0);
      Ok(done + [o])
  }

  /** OrmChainResult::byClass: `_byClass` of every row. */
  function ByClassAll(rows: seq<ChainRow>, cls: string): Result<seq<Option<Obj>>> {
    if |rows| == 0 then Ok([])
    else
      var done :- ByClassAll(rows[..|rows| - 1], cls);
      var o :- ByClassOf(rows[|rows| - 1], cls);
      Ok(done + [o])
  }

  /** The relationships of an alias are collected exactly when every row has
      the alias, one per row in order; otherwise the lookup fails with the
      missing key. */
  lemma {:induction false} RshipsOfSpec(rows: seq<ChainRow>, alias: string)
    ensures RshipsOf(rows, alias).Ok? <==> forall k | 0 <= k < |rows| :: RshipByAlias(rows[k], alias, 0).Ok?
    ensures RshipsOf(rows, alias).Ok? ==> (|RshipsOf(rows, alias).value| == |rows| &&
      forall k | 0 <= k < |rows| :: RshipByAlias(rows[k], alias, 0) == Ok(RshipsOf(rows, alias).value[k]))
    ensures RshipsOf(rows, alias).Err? ==> RshipsOf(rows, alias).error == NoAlias(alias + "__" + NatToString(0))
  {
    if |rows| > 0 {
      var init := rows[..|rows| - 1];
      RshipsOfSpec(init, alias);
      assert forall k | 0 <= k < |init| :: init[k] == rows[k];
    }
  }

  /** The same for the class objects of an alias. */
  lemma {:induction false} ClassesOfSpec(rows: seq<ChainRow>, alias: string)
    ensures ClassesOf(rows, alias).Ok? <==> forall k | 0 <= k < |rows| :: ClassByAlias(rows[k], alias, 0).Ok?
    ensures ClassesOf(rows, alias).Ok? ==> (|ClassesOf(rows, alias).value| == |rows| &&
      forall k | 0 <= k < |rows| :: ClassByAlias(rows[k], alias, 0) == Ok(ClassesOf(rows, alias).value[k]))
    ensures ClassesOf(rows, alias).Err? ==> ClassesOf(rows, alias).error == NoAlias(alias + "__" + NatToString(0))
  {
    if |rows| > 0 {
      var init := rows[..|rows| - 1];
      ClassesOfSpec(init, alias);
      assert forall k | 0 <= k < |init| :: init[k] == rows[k];
    }
  }

  lemma ByClassAllSnoc(init: seq<ChainRow>, last: ChainRow, cls: string)
    ensures ByClassAll(init + [last], cls).Ok? <==> ByClassAll(init, cls).Ok? && ByClassOf(last, cls).Ok?
    ensures ByClassAll(init + [last], cls).Ok? ==>
      ByClassAll(init + [last], cls).value == ByClassAll(init, cls).value + [ByClassOf(last, cls).value]
    ensures ByClassAll(init + [last], cls).Err? ==>
      ByClassAll(init + [last], cls).error == NotUnique(cls) || ByClassAll(init + [last], cls) == ByClassAll(init, cls)
  {
    var rows := init + [last];
    assert rows[..|rows| - 1] == init && rows[|rows| - 1] == last;
  }

  /** The objects of a class are collected exactly when the class is unique
      in every row, one (or NULL) per row in order. */
  lemma {:induction false} ByClassAllSpec(rows: seq<ChainRow>, cls: string)
    ensures ByClassAll(rows, cls).Ok? <==> forall k | 0 <= k < |rows| :: ByClassOf(rows[k], cls).Ok?
    ensures ByClassAll(rows, cls).Ok? ==> (|ByClassAll(rows, cls).value| == |rows| &&
      forall k | 0 <= k < |rows| :: ByClassOf(rows[k], cls) == Ok(ByClassAll(rows, cls).value[k]))
    ensures ByClassAll(rows, cls).Err? ==> ByClassAll(rows, cls).error == NotUnique(cls)
  {
    if |rows| > 0 {
      var n := |rows| - 1;
      var init := rows[..n];
      ByClassAllSpec(init, cls);
      assert rows == init + [rows[n]];
      ByClassAllSnoc(init, rows[n], cls);
      assert forall k | 0 <= k < n :: init[k] == rows[k];
      if !forall k | 0 <= k < |rows| :: ByClassOf(rows[k], cls).Ok? {
        var k :| 0 <= k < |rows| && !ByClassOf(rows[k], cls).Ok?;
        assert k < n ==> !ByClassAll(init, cls).Ok?;
      }
    }
  }

  /** What OrmChainResult::__get returns: the anchored objects, the objects
      of a class, or NULL. */
  datatype Got = Objects(objs: seq<Obj>) | MaybeObjects(items: seq<Option<Obj>>) | Null

  // ------------------------------------------------ OrmChainResult

  class ChainResult {
    var chain: string
    var final: bool
    var rows: seq<ChainRow>
    /** The internal array position of `$rows`: an index, past the end when
        current() is false. */
    var pos: nat

    predicate Inv()
      reads this
    {
      pos <= |rows|
    }

    constructor(chain: string)
      ensures this.chain == chain && !final && rows == [] && pos == 0 && Inv()
    {
      this.chain := chain;
      final := false;
      rows := [];
      pos := 0;
    }

    /** OrmChainResult::add: refused once finalized. */
    method Add(row: ChainRow) returns (r: Result<()>)
      requires Inv()
      modifies this
      ensures old(final) ==> r == Err(OrmError("Cannot add to a finalized OrmChainResult")) && rows == old(rows)
      ensures !old(final) ==> r == Ok(()) && rows == old(rows) + [row]
      ensures chain == old(chain) && final == old(final) && pos == old(pos) && Inv()
    {
      if final {
        return Err(OrmError("Cannot add to a finalized OrmChainResult"));
      }
      rows := rows + [row];
      return Ok(());
    }

    /** OrmChainResult::finalize: no row can be added afterwards. */
    method Finalize()
      modifies this
      ensures final && chain == old(chain) && rows == old(rows) && pos == old(pos)
    {
      final := true;
    }

    method RshipByAlias(alias: string) returns (r: Result<seq<Obj>>)
      ensures r == RshipsOf(rows, alias)
    {
      var arr: seq<Obj> := [];
      for k := 0 to |rows|
        invariant RshipsOf(rows[..k], alias) == Ok(arr)
      {
        assert rows[..k + 1][..k] == rows[..k];
        var o := Hydrator.RshipByAlias(rows[k], alias, 0);
        if o.Err? {
          RshipsOfSpec(rows, alias);
          return Err(o.error);
        }
        arr := arr + [o.value];
      }
      assert rows[..|rows|] == rows;
      return Ok(arr);
    }

    method ClassByAlias(alias: string) returns (r: Result<seq<Obj>>)
      ensures r == ClassesOf(rows, alias)
    {
      var arr: seq<Obj> := [];
      for k := 0 to |rows|
        invariant ClassesOf(rows[..k], alias) == Ok(arr)
      {
        assert rows[..k + 1][..k] == rows[..k];
        var o := Hydrator.ClassByAlias(rows[k], alias, 0);
        if o.Err? {
          ClassesOfSpec(rows, alias);
          return Err(o.error);
        }
        arr := arr + [o.value];
      }
      assert rows[..|rows|] == rows;
      return Ok(arr);
    }

    /** OrmChainResult::anchored: the anchor's object of every row. */
    method Anchored() returns (r: Result<seq<Obj>>)
      ensures r == ClassesOf(rows, AliasAnchor)
    {
      r := ClassByAlias(AliasAnchor);
    }

    method ByClass(cls: string) returns (r: Result<seq<Option<Obj>>>)
      ensures r == ByClassAll(rows, cls)
    {
      var arr: seq<Option<Obj>> := [];
      for k := 0 to |rows|
        invariant ByClassAll(rows[..k], cls) == Ok(arr)
      {
        assert rows[..k + 1][..k] == rows[..k];
        var o := RowByClass(rows[k], cls);
        if o.Err? {
          ByClassAllSpec(rows, cls);
          return Err(o.error);
        }
        arr := arr + [o.value];
      }
      assert rows[..|rows|] == rows;
      return Ok(arr);
    }

    /** OrmChainResult::__get: `anchored`, `class<Name>`, or NULL for any
        other name. */
    method Get(cmd: string) returns (r: Result<Got>)
      ensures cmd == "anchored" ==>
        (r.Ok? <==> ClassesOf(rows, AliasAnchor).Ok?) &&
        (r.Ok? ==> r.value == Objects(ClassesOf(rows, AliasAnchor).value))
      ensures cmd != "anchored" && |cmd| >= 5 && cmd[..5] == "class" ==>
        (r.Ok? <==> ByClassAll(rows, cmd[5..]).Ok?) &&
        (r.Ok? ==> r.value == MaybeObjects(ByClassAll(rows, cmd[5..]).value))
      ensures cmd != "anchored" && !(|cmd| >= 5 && cmd[..5] == "class") ==> r == Ok(Null)
    {
      if cmd == "anchored" {
        var a := Anchored();
        if a.Err? {
          return Err(a.error);
        }
        return Ok(Objects(a.value));
      } else if |cmd| >= 5 && cmd[..5] == "class" {
        var b := ByClass(cmd[5..]);
        if b.Err? {
          return Err(b.error);
        }
        return Ok(MaybeObjects(b.value));
      }
      return Ok(Null);
    }

    /** OrmChainResult::__isset: asks the current row, which is a fatal
        error when the cursor is past the end. */
    method IsSet(alias: string) returns (r: Result<bool>)
      requires Inv()
      ensures pos < |rows| ==> r == Ok(Hydrator.IsSet(rows[pos], alias))
      ensures pos == |rows| ==> r.Err? && r.error.FatalError?
    {
      if pos == |rows| {
        return Err(FatalError("Call to a member function __isset() on a non-object"));
      }
      return Ok(Hydrator.IsSet(rows[pos], alias));
    }

    method Rewind()
      modifies this
      ensures pos == 0 && chain == old(chain) && final == old(final) && rows == old(rows)
    {
      pos := 0;
    }

    /** current(): the row under the cursor, or false. */
    method Current() returns (r: Option<ChainRow>)
      requires Inv()
      ensures r.Some? <==> pos < |rows|
      ensures r.Some? ==> r.value == rows[pos]
    {
      if pos < |rows| {
        return Some(rows[pos]);
      }
      return None;
    }

    /** key(): the index under the cursor, or NULL. */
    method Key() returns (r: Option<nat>)
      requires Inv()
      ensures r.Some? <==> pos < |rows|
      ensures r.Some? ==> r.value == pos
    {
      if pos < |rows| {
        return Some(pos);
      }
      return None;
    }

    /** next(): moves the cursor on, and stays past the end once there. */
    method Next() returns (r: Option<ChainRow>)
      requires Inv()
      modifies this
      ensures pos == if old(pos) < |rows| then old(pos) + 1 else old(pos)
      ensures chain == old(chain) && final == old(final) && rows == old(rows) && Inv()
      ensures r.Some? <==> pos < |rows|
      ensures r.Some? ==> r.value == rows[pos]
    {
      if pos < |rows| {
        pos := pos + 1;
      }
      r := Current();
    }

    method Valid() returns (r: bool)
      requires Inv()
      ensures r <==> pos < |rows|
    {
      var c := Current();
      return c.Some?;
    }
  }

  /** A foreach over an OrmChainResult: rewind, then current and next while
      valid. It visits every row once, in order. */
  method Traverse(res: ChainResult) returns (seen: seq<ChainRow>)
    requires res.Inv()
    modifies res
    ensures seen == res.rows && res.rows == old(res.rows) && res.pos == |res.rows|
    ensures res.chain == old(res.chain) && res.final == old(res.final)
  {
    res.Rewind();
    seen := [];
    var more := res.Valid();
    while more
      invariant res.Inv() && res.rows == old(res.rows)
      invariant res.chain == old(res.chain) && res.final == old(res.final)
      invariant seen == res.rows[..res.pos] && (more <==> res.pos < |res.rows|)
      decreases |res.rows| - res.pos
    {
      var row := res.Current();
      seen := seen + [row.value];
      var moved := res.Next();
      more := res.Valid();
    }
    assert res.rows[..|res.rows|] == res.rows;
  }

  lemma {:induction false} HydrateErrStays(name: string, st: SchemaState, chain: string, rows: seq<ResultRow>, i: nat)
    requires i <= |rows| && Hydrate(name, st, chain, rows[..i]).Err?
    ensures Hydrate(name, st, chain, rows) == Hydrate(name, st, chain, rows[..i])
  {
    if i < |rows| {
      var init := rows[..|rows| - 1];
      assert init[..i] == rows[..i];
      HydrateErrStays(name, st, chain, init, i);
    } else {
      assert rows[..i] == rows;
    }
  }

  /** Orm::objectsFromResult: one chain row per result row, added to a new
      OrmChainResult that is then finalized; the first failing row stops
      it. */
  method ObjectsFromResult(name: string, st: SchemaState, chain: string, result: seq<ResultRow>)
    returns (r: Result<ChainResult>)
    ensures Hydrate(name, st, chain, result).Err? ==> r == Err(Hydrate(name, st, chain, result).error)
    ensures Hydrate(name, st, chain, result).Ok? ==>
      r.Ok? && fresh(r.value) && r.value.final && r.value.chain == chain && r.value.pos == 0 &&
      r.value.rows == Hydrate(name, st, chain, result).value
  {
    var res := new ChainResult(chain);
    for k := 0 to |result|
      invariant fresh(res) && res.chain == chain && !res.final && res.pos == 0
      invariant Hydrate(name, st, chain, result[..k]) == Ok(res.rows)
    {
      assert result[..k + 1][..k] == result[..k];
      var row := BuildRow(name, st, chain, result[k]);
      if row.Err? {
        HydrateErrStays(name, st, chain, result, k + 1);
        return Err(row.error);
      }
      var added := res.Add(row.value);
    }
    res.Finalize();
    assert result[..|result|] == result;
    return Ok(res);
  }
}
