/** Orm::comboRecurse, which lists the orderings of the destination classes,
    and Orm::getRoute, which searches one route per ordering and keeps the
    most preferred. */
module Combos {
  import opened Wrappers
  import opened Strings
  import opened Schema
  import opened Router

  function Fact(n: nat): (f: nat)
    ensures f >= 1
  {
    if n == 0 then 1 else n * Fact(n - 1)
  }

  function Free(items: seq<string>, used: seq<string>): set<string> {
    set x | x in items && x !in used
  }

  lemma FreeShrinks(items: seq<string>, used: seq<string>, x: string)
    requires x in items && x !in used
    ensures Free(items, used + [x]) < Free(items, used)
  {
    assert x in Free(items, used);
    assert x !in Free(items, used + [x]);
  }

  /** The combinations comboRecurse appends for a partial ordering `used`, in
      the order it appends them. */
  function Perms(items: seq<string>, used: seq<string>): seq<seq<string>>
    decreases Free(items, used), |items| + 1
  {
    if |items| == |used| then [used] else PermsFrom(items, used, 0)
  }

  function PermsFrom(items: seq<string>, used: seq<string>, i: nat): seq<seq<string>>
    requires i <= |items|
    decreases Free(items, used), |items| - i
  {
    if i == |items| then []
    else
      (if items[i] !in used then
         FreeShrinks(items, used, items[i]);
         Perms(items, used + [items[i]])
       else [])
      + PermsFrom(items, used, i + 1)
  }

  /** An ordering of `items`: each of them once, nothing else. */
  predicate IsOrdering(items: seq<string>, c: seq<string>) {
    |c| == |items| && NoDup(c) && (forall x | x in c :: x in items) && (forall x | x in items :: x in c)
  }

  // ------------------------------------------------------------ counting

  lemma {:induction false} NoDupCard(s: seq<string>)
    requires NoDup(s)
    ensures |set x | x in s| == |s|
  {
    if |s| > 0 {
      var init := s[..|s| - 1];
      assert NoDup(init) by {
        assert forall i, j | 0 <= i < j < |init| :: init[i] == s[i] && init[j] == s[j];
      }
      NoDupCard(init);
      NoDupSnoc(init, s[|s| - 1]);
      assert s == init + [s[|s| - 1]];
      assert (set x | x in s) == (set x | x in init) + {s[|s| - 1]};
    }
  }

  lemma {:induction false} DupCard(s: seq<string>)
    requires !NoDup(s)
    ensures |set x | x in s| < |s|
  {
    var init := s[..|s| - 1];
    var last := s[|s| - 1];
    assert s == init + [last];
    NoDupSnoc(init, last);
    assert (set x | x in s) == (set x | x in init) + {last};
    if NoDup(init) {
      NoDupCard(init);
    } else {
      DupCard(init);
    }
  }

  lemma SubsetCard(a: set<string>, b: set<string>)
    requires a <= b
    ensures |a| <= |b|
    ensures |a| == |b| ==> a == b
  {
    assert b == a + (b - a);
    assert a * (b - a) == {};
  }

  /** The number of free items among items[i..]. */
  function FreeFrom(items: seq<string>, used: seq<string>, i: nat): nat
    requires i <= |items|
    decreases |items| - i
  {
    if i == |items| then 0 else (if items[i] !in used then 1 else 0) + FreeFrom(items, used, i + 1)
  }

  lemma {:induction false} FreeFromCard(items: seq<string>, used: seq<string>, i: nat)
    requires NoDup(items) && i <= |items|
    ensures FreeFrom(items, used, i) == |set x | x in items[i..] && x !in used|
    decreases |items| - i
  {
    if i < |items| {
      FreeFromCard(items, used, i + 1);
      var a := set x | x in items[i + 1..] && x !in used;
      var b := set x | x in items[i..] && x !in used;
      assert items[i..] == [items[i]] + items[i + 1..];
      assert items[i] !in items[i + 1..] by {
        forall k | i + 1 <= k < |items| ensures items[k] != items[i] {
        }
      }
      if items[i] !in used {
        assert b == a + {items[i]};
      } else {
        assert b == a;
      }
    } else {
      assert (set x | x in items[i..] && x !in used) == {};
    }
  }

  lemma FreeCount(items: seq<string>, used: seq<string>)
    requires NoDup(items) && NoDup(used) && forall x | x in used :: x in items
    ensures FreeFrom(items, used, 0) == |items| - |used|
  {
    FreeFromCard(items, used, 0);
    assert items[0..] == items;
    var all := set x | x in items;
    var taken := set x | x in used;
    assert (set x | x in items && x !in used) == all - taken;
    assert taken <= all;
    NoDupCard(items);
    NoDupCard(used);
  }

  lemma {:induction false} PermsFromCount(items: seq<string>, used: seq<string>, i: nat)
    requires NoDup(items) && NoDup(used) && forall x | x in used :: x in items
    requires |used| < |items| && i <= |items|
    ensures |PermsFrom(items, used, i)| == FreeFrom(items, used, i) * Fact(|items| - |used| - 1)
    decreases Free(items, used), |items| - i
  {
    if i < |items| {
      var k := Fact(|items| - |used| - 1);
      var f := FreeFrom(items, used, i + 1);
      PermsFromCount(items, used, i + 1);
      var step := if items[i] !in used then Perms(items, used + [items[i]]) else [];
      assert PermsFrom(items, used, i) == step + PermsFrom(items, used, i + 1);
      if items[i] !in used {
        var u := used + [items[i]];
        FreeShrinks(items, used, items[i]);
        NoDupSnoc(used, items[i]);
        assert forall x | x in u :: x in items;
        PermsCount(items, u);
        MulStep(f, k);
      }
    }
  }

  lemma MulStep(f: nat, k: nat)
    ensures (1 + f) * k == k + f * k
  {
  }

  lemma {:induction false} PermsCount(items: seq<string>, used: seq<string>)
    requires NoDup(items) && NoDup(used) && forall x | x in used :: x in items
    ensures |used| <= |items|
    ensures |Perms(items, used)| == Fact(|items| - |used|)
    decreases Free(items, used), |items| + 1
  {
    NoDupCard(items);
    NoDupCard(used);
    SubsetCard(set x | x in used, set x | x in items);
    if |items| != |used| {
      PermsFromCount(items, used, 0);
      FreeCount(items, used);
    }
  }

  // ------------------------------------------------------- soundness

  lemma {:induction false} PermsSound(items: seq<string>, used: seq<string>)
    requires NoDup(used) && forall x | x in used :: x in items
    ensures forall c | c in Perms(items, used) ::
      |c| == |items| && NoDup(c) && (forall x | x in c :: x in items) && used <= c
    decreases Free(items, used), |items| + 1
  {
    if |items| != |used| {
      PermsFromSound(items, used, 0);
    }
  }

  lemma {:induction false} PermsFromSound(items: seq<string>, used: seq<string>, i: nat)
    requires NoDup(used) && forall x | x in used :: x in items
    requires i <= |items|
    ensures forall c | c in PermsFrom(items, used, i) ::
      |c| == |items| && NoDup(c) && (forall x | x in c :: x in items) && used <= c
    decreases Free(items, used), |items| - i
  {
    if i < |items| {
      PermsFromSound(items, used, i + 1);
      if items[i] !in used {
        var u := used + [items[i]];
        FreeShrinks(items, used, items[i]);
        NoDupSnoc(used, items[i]);
        PermsSound(items, u);
        assert used <= u;
      }
    }
  }

  lemma FillsItems(items: seq<string>, c: seq<string>)
    requires NoDup(items) && NoDup(c) && |c| == |items| && forall x | x in c :: x in items
    ensures IsOrdering(items, c)
  {
    NoDupCard(items);
    NoDupCard(c);
    var sc := set x | x in c;
    var si := set x | x in items;
    SubsetCard(sc, si);
    forall x | x in items ensures x in c {
      assert x in si;
    }
  }

  /** For distinct items comboRecurse yields n! combinations, each an
      ordering of the items. */
  lemma CombosAreOrderings(items: seq<string>)
    requires NoDup(items)
    ensures |Perms(items, [])| == Fact(|items|)
    ensures forall c | c in Perms(items, []) :: IsOrdering(items, c)
  {
    PermsCount(items, []);
    PermsSound(items, []);
    forall c | c in Perms(items, []) ensures IsOrdering(items, c) {
      FillsItems(items, c);
    }
  }

  /** With a repeated item no ordering can use every item, so comboRecurse
      yields nothing at all. */
  lemma CombosOfRepeatedItems(items: seq<string>)
    requires !NoDup(items)
    ensures Perms(items, []) == []
  {
    PermsSound(items, []);
    if |Perms(items, [])| > 0 {
      var c := Perms(items, [])[0];
      NoDupCard(c);
      DupCard(items);
      SubsetCard(set x | x in c, set x | x in items);
      assert false;
    }
  }

  // ---------------------------------------------------- completeness

  lemma {:induction false} PermsFromIncludes(items: seq<string>, used: seq<string>, i: nat, j: nat, c: seq<string>)
    requires i <= j < |items| && items[j] !in used
    requires c in Perms(items, used + [items[j]])
    ensures c in PermsFrom(items, used, i)
    decreases j - i
  {
    if i < j {
      PermsFromIncludes(items, used, i + 1, j, c);
    }
  }

  lemma {:induction false} PermsComplete(items: seq<string>, used: seq<string>, c: seq<string>)
    requires IsOrdering(items, c) && |used| <= |c| && c[..|used|] == used
    ensures c in Perms(items, used)
    decreases |c| - |used|
  {
    var m := |used|;
    if m == |items| {
      assert c == used;
    } else {
      var x := c[m];
      assert x !in used by {
        forall k | 0 <= k < m ensures used[k] != x {
          assert used[k] == c[k];
        }
      }
      assert x in items;
      var j :| 0 <= j < |items| && items[j] == x;
      assert c[..m + 1] == used + [x];
      FreeShrinks(items, used, x);
      PermsComplete(items, used + [x], c);
      PermsFromIncludes(items, used, 0, j, c);
    }
  }

  /** Every ordering of the items is among the combinations. */
  lemma OrderingsAreCombos(items: seq<string>, c: seq<string>)
    requires IsOrdering(items, c)
    ensures c in Perms(items, [])
  {
    assert c[..0] == [];
    PermsComplete(items, [], c);
  }

  // ------------------------------------------------ Orm::comboRecurse

  /** Orm::comboRecurse: appends to `combos` every completion of `used`. */
  method ComboRecurse(items: seq<string>, combos: seq<seq<string>>, used: seq<string>)
    returns (result: seq<seq<string>>)
    ensures result == combos + Perms(items, used)
    decreases Free(items, used)
  {
    if |items| == |used| {
      return combos + [used];
    }
    result := combos;
    var i := 0;
    while i < |items|
      invariant 0 <= i <= |items|
      invariant result + PermsFrom(items, used, i) == combos + Perms(items, used)
    {
      var item := items[i];
      ghost var before := result;
      ghost var step := if item !in used then Perms(items, used + [item]) else [];
      if item !in used {
        FreeShrinks(items, used, item);
        result := ComboRecurse(items, result, used + [item]);
      }
      assert result == before + step;
      ConcatAssoc(before, step, PermsFrom(items, used, i + 1));
      i := i + 1;
    }
  }

  // --------------------------------------------------- Orm::getRoute

  /** The search for one combination: from its first element to its last,
      through the elements between them and then the stipulations. */
  function ComboRoute(rules: seq<Rule>, combo: seq<Spec>, stipulations: seq<Spec>): Option<seq<Rule>>
    requires |combo| >= 2
  {
    Route(rules, combo[0], combo[|combo| - 1], combo[1..|combo| - 1] + stipulations)
  }

  /** The routes found for the combinations, in order. */
  function RoutesOf(rules: seq<Rule>, combos: seq<seq<Spec>>, stipulations: seq<Spec>): seq<seq<Rule>>
    requires forall k | 0 <= k < |combos| :: |combos[k]| >= 2
    decreases |combos|
  {
    if |combos| == 0 then []
    else
      var r := ComboRoute(rules, combos[|combos| - 1], stipulations);
      RoutesOf(rules, combos[..|combos| - 1], stipulations) + (if r.Some? then [r.value] else [])
  }

  lemma {:induction false} RoutesOfAreRoutes(rules: seq<Rule>, combos: seq<seq<Spec>>, stipulations: seq<Spec>)
    requires forall k | 0 <= k < |combos| :: |combos[k]| >= 2
    ensures forall p | p in RoutesOf(rules, combos, stipulations) :: exists k | 0 <= k < |combos| ::
      ComboRoute(rules, combos[k], stipulations) == Some(p)
    decreases |combos|
  {
    if |combos| > 0 {
      var init := combos[..|combos| - 1];
      RoutesOfAreRoutes(rules, init, stipulations);
      forall p | p in RoutesOf(rules, init, stipulations)
        ensures exists k | 0 <= k < |combos| :: ComboRoute(rules, combos[k], stipulations) == Some(p)
      {
        var k :| 0 <= k < |init| && ComboRoute(rules, init[k], stipulations) == Some(p);
        assert combos[k] == init[k];
      }
    }
  }

  lemma {:induction false} RoutesOfComplete(rules: seq<Rule>, combos: seq<seq<Spec>>, stipulations: seq<Spec>, k: nat)
    requires forall k | 0 <= k < |combos| :: |combos[k]| >= 2
    requires k < |combos| && ComboRoute(rules, combos[k], stipulations).Some?
    ensures ComboRoute(rules, combos[k], stipulations).value in RoutesOf(rules, combos, stipulations)
    decreases |combos|
  {
    if k < |combos| - 1 {
      var init := combos[..|combos| - 1];
      assert init[k] == combos[k];
      RoutesOfComplete(rules, init, stipulations, k);
    }
  }

  lemma RoutesOfSnoc(rules: seq<Rule>, combos: seq<seq<Spec>>, stipulations: seq<Spec>, i: nat)
    requires forall k | 0 <= k < |combos| :: |combos[k]| >= 2
    requires i < |combos|
    ensures var r := ComboRoute(rules, combos[i], stipulations);
      RoutesOf(rules, combos[..i + 1], stipulations)
      == RoutesOf(rules, combos[..i], stipulations) + (if r.Some? then [r.value] else [])
  {
    assert combos[..i + 1][..i] == combos[..i];
  }

  /** Orm::getRoute: the most preferred of the routes found for the
      combinations, or NULL when none was. */
  method GetRoute(rules: seq<Rule>, combos: seq<seq<Spec>>, stipulations: seq<Spec>)
    returns (r: Option<seq<Rule>>)
    requires forall k | 0 <= k < |combos| :: |combos[k]| >= 2
    ensures var routes := RoutesOf(rules, combos, stipulations);
      r == if |routes| == 0 then None else Some(Best(routes))
  {
    var routes: seq<seq<Rule>> := [];
    var i := 0;
    while i < |combos|
      invariant 0 <= i <= |combos|
      invariant routes == RoutesOf(rules, combos[..i], stipulations)
    {
      var combo := combos[i];
      var a := combo[0];
      var b := combo[|combo| - 1];
      var route := RouteRecurse(rules, a, b, combo[1..|combo| - 1] + stipulations);
      RoutesOfSnoc(rules, combos, stipulations, i);
      assert route == ComboRoute(rules, combo, stipulations);
      if route.Some? {
        routes := routes + [route.value];
      }
      i := i + 1;
    }
    assert combos[..i] == combos;
    if |routes| == 0 {
      return None;
    }
    return Some(Best(routes));
  }

  /** What getRoute returns is a route for one of the combinations, and no
      route for any combination is preferred to it; it returns NULL exactly
      when no combination has a route. */
  lemma GetRouteBest(rules: seq<Rule>, combos: seq<seq<Spec>>, stipulations: seq<Spec>)
    requires forall k | 0 <= k < |combos| :: |combos[k]| >= 2
    ensures var routes := RoutesOf(rules, combos, stipulations);
      |routes| == 0 <==> forall k | 0 <= k < |combos| :: ComboRoute(rules, combos[k], stipulations).None?
    ensures var routes := RoutesOf(rules, combos, stipulations);
      |routes| > 0 ==>
        (exists k | 0 <= k < |combos| :: ComboRoute(rules, combos[k], stipulations) == Some(Best(routes)))
        && forall k, p | 0 <= k < |combos| && IsRoute(rules, combos[k][0], combos[k][|combos[k]| - 1],
                                                       combos[k][1..|combos[k]| - 1] + stipulations, p) ::
             NoWorse(Best(routes), p)
  {
    var routes := RoutesOf(rules, combos, stipulations);
    RoutesOfAreRoutes(rules, combos, stipulations);
    forall k | 0 <= k < |combos| && ComboRoute(rules, combos[k], stipulations).Some?
      ensures ComboRoute(rules, combos[k], stipulations).value in routes
    {
      RoutesOfComplete(rules, combos, stipulations, k);
    }
    if |routes| > 0 {
      var b := Best(routes);
      forall k, p | 0 <= k < |combos| && IsRoute(rules, combos[k][0], combos[k][|combos[k]| - 1],
                                                 combos[k][1..|combos[k]| - 1] + stipulations, p)
        ensures NoWorse(b, p)
      {
        var q := ComboRoute(rules, combos[k], stipulations);
        assert q.Some?;
        assert NoWorse(b, q.value);
        assert NoWorse(q.value, p);
      }
    }
  }
}
