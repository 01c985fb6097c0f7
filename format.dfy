/** Orm::chainFormatCallback and the preg_replace_callback that applies it
    to the alias chain of a compiled query: every `<rel>__<n>__<table>`
    alias becomes `(Rel) -> Class`, `(Rel[$i]) -> Class` or, for the anchor,
    `Class`. */
module ChainFormat {
  import opened Wrappers
  import opened Strings
  import opened Names

  predicate PairAt(t: string, p: nat) {
    p + 1 < |t| && t[p] == '_' && t[p + 1] == '_'
  }

  /** The last "__" starting between lo and hi. */
  function LastPair(t: string, lo: nat, hi: int): (r: Option<nat>)
    ensures r.Some? ==> lo <= r.value <= hi && PairAt(t, r.value)
    ensures r.Some? ==> forall p | r.value < p <= hi :: !PairAt(t, p)
    ensures r.None? ==> forall p | lo <= p <= hi :: !PairAt(t, p)
    decreases if hi < lo then 0 else hi - lo + 1
  {
    if hi < lo then None else if PairAt(t, hi) then Some(hi) else LastPair(t, lo, hi - 1)
  }

  lemma {:induction false} LastPairAt(t: string, lo: nat, hi: int, q: nat)
    requires lo <= q <= hi && PairAt(t, q)
    requires forall p | q < p <= hi :: !PairAt(t, p)
    ensures LastPair(t, lo, hi) == Some(q)
    decreases hi - q
  {
    if q < hi {
      LastPairAt(t, lo, hi - 1, q);
    }
  }

  /** The three groups of one match. */
  datatype Groups = Groups(alias: string, index: string, cls: string)

  /** The pattern `([^ ]+)__([^ ]+)__([^ ]+)` on one word without spaces.
      The greedy first group ends at the last "__" that still leaves room for
      a non-empty second group and another "__" before a non-empty third
      group; the greedy second group then ends at the last "__" before a
      non-empty third group. */
  function MatchWord(t: string): (r: Option<Groups>)
    ensures r.Some? ==>
      |r.value.alias| > 0 && |r.value.index| > 0 && |r.value.cls| > 0
      && t == r.value.alias + "__" + r.value.index + "__" + r.value.cls
  {
    match LastPair(t, 4, |t| - 3)
    case None => None
    case Some(q) =>
      match LastPair(t, 1, q - 3)
      case None => None
      case Some(p) =>
        var g := Groups(t[..p], t[p + 2..q], t[q + 2..]);
        assert t == t[..p] + t[p..p + 2] + t[p + 2..q] + t[q..q + 2] + t[q + 2..];
        Some(g)
  }

  /** A word holds a match exactly when it has two "__" with a non-empty
      text before, between and after them. */
  lemma MatchWordExists(t: string)
    ensures MatchWord(t).None? <==>
      forall p, q | 1 <= p && p + 3 <= q && q + 3 <= |t| :: !(PairAt(t, p) && PairAt(t, q))
  {
    var lq := LastPair(t, 4, |t| - 3);
    if lq.Some? {
      var lp := LastPair(t, 1, lq.value - 3);
      if lp.None? {
        forall p, q | 1 <= p && p + 3 <= q && q + 3 <= |t| ensures !(PairAt(t, p) && PairAt(t, q)) {
          if PairAt(t, q) {
            assert q <= lq.value;
          }
        }
      }
    }
  }

  /** The pieces of `a__i__c`, character by character. */
  lemma AliasChars(a: string, i: string, c: string)
    ensures var t := a + "__" + i + "__" + c; var q := |a| + 2 + |i|;
      |t| == q + 2 + |c|
      && (forall k | 0 <= k < |a| :: t[k] == a[k])
      && t[|a|] == '_' && t[|a| + 1] == '_'
      && (forall k | 0 <= k < |i| :: t[|a| + 2 + k] == i[k])
      && t[q] == '_' && t[q + 1] == '_'
      && (forall k | 0 <= k < |c| :: t[q + 2 + k] == c[k])
  {
    var t := a + "__" + i + "__" + c;
    var q := |a| + 2 + |i|;
    assert t == a + ("__" + i + "__" + c);
    assert t == (a + "__" + i) + ("__" + c);
  }

  /** A word `a__i__c` whose relationship part has no "__" and does not end
      in '_', whose index is digits and whose class part has no "__" and
      does not start with '_' is read back into exactly those groups. */
  lemma MatchWordAlias(a: string, i: string, c: string)
    requires |a| > 0 && NoDoubleUnderscore(a) && !EndsWithUnderscore(a)
    requires |i| > 0 && AllDigits(i)
    requires |c| > 0 && NoDoubleUnderscore(c) && c[0] != '_'
    ensures MatchWord(a + "__" + i + "__" + c) == Some(Groups(a, i, c))
  {
    var t := a + "__" + i + "__" + c;
    var q := |a| + 2 + |i|;
    AliasChars(a, i, c);
    forall p | q < p <= |t| - 3 ensures !PairAt(t, p) {
      if p == q + 1 {
        assert t[p + 1] == c[0];
      } else {
        assert t[p] == c[p - q - 2] && t[p + 1] == c[p - q - 1];
      }
    }
    LastPairAt(t, 4, |t| - 3, q);
    forall p | |a| < p <= q - 3 ensures !PairAt(t, p) {
      if p == |a| + 1 {
        assert t[p + 1] == i[0];
      } else {
        assert t[p] == i[p - |a| - 2];
      }
    }
    LastPairAt(t, 1, q - 3, |a|);
    assert t[..|a|] == a;
    assert t[|a| + 2..q] == i;
    assert t[q + 2..] == c;
  }

  /** A word without "__" holds no match. */
  lemma MatchWordPlain(t: string)
    requires NoDoubleUnderscore(t)
    ensures MatchWord(t).None?
  {
    forall p: nat | p + 1 < |t| ensures !PairAt(t, p) {
    }
  }

  /** Orm::chainFormatCallback. The index is shown as the literal text
      `[$i]` (a single-quoted format string), never as the number. */
  function Callback(g: Groups): string {
    if g.alias == AliasAnchor then DbToClassName(g.cls)
    else "(" + DbToClassName(g.alias) + (if g.index == "0" then "" else "[$i]") + ") -> " + DbToClassName(g.cls)
  }

  /** One word after the replacement: its match replaced, or unchanged. */
  function FormatWord(t: string): string {
    match MatchWord(t)
    case None => t
    case Some(g) => Callback(g)
  }

  function MapWords(ws: seq<string>, f: string -> string): (r: seq<string>)
    ensures |r| == |ws| && forall k | 0 <= k < |ws| :: r[k] == f(ws[k])
  {
    seq(|ws|, k requires 0 <= k < |ws| => f(ws[k]))
  }

  function FormatWords(ws: seq<string>): (r: seq<string>)
    ensures |r| == |ws| && forall k | 0 <= k < |ws| :: r[k] == FormatWord(ws[k])
  {
    MapWords(ws, FormatWord)
  }

  /** preg_replace_callback of the chain pattern over a whole string. None of
      the three groups can hold a space, so every match lies inside one
      space-delimited word; a match inside a word can always be widened to
      start at the word's start, and the greedy third group runs to the
      word's end, so each word is either replaced as a whole or left as it
      is. */
  function FormatChain(s: string): string {
    Join(FormatWords(Split(s, ' ')), " ")
  }

  /** The words and arrows of `x1 -> x2 -> ...`. */
  function Arrowed(xs: seq<string>): (r: seq<string>)
    ensures |xs| >= 1 ==> |r| >= 1
  {
    if |xs| <= 1 then xs else [xs[0], "->"] + Arrowed(xs[1..])
  }

  lemma {:induction false} JoinArrowed(xs: seq<string>)
    ensures Join(xs, " -> ") == Join(Arrowed(xs), " ")
  {
    if |xs| > 1 {
      JoinArrowed(xs[1..]);
      var rest := Arrowed(xs[1..]);
      var a := [xs[0], "->"] + rest;
      assert a[1..] == ["->"] + rest && a[1..][1..] == rest;
      assert Join(a, " ") == xs[0] + " " + ("->" + " " + Join(rest, " "));
    }
  }

  lemma {:induction false} ArrowedNoSpace(xs: seq<string>)
    requires forall k | 0 <= k < |xs| :: ' ' !in xs[k]
    ensures forall k | 0 <= k < |Arrowed(xs)| :: ' ' !in Arrowed(xs)[k]
  {
    if |xs| > 1 {
      assert forall k | 0 <= k < |xs| - 1 :: xs[1..][k] == xs[k + 1];
      ArrowedNoSpace(xs[1..]);
    }
  }

  /** A map that keeps the arrow commutes with putting the arrows in. */
  lemma {:induction false} MapArrowed(xs: seq<string>, f: string -> string)
    requires f("->") == "->"
    ensures MapWords(Arrowed(xs), f) == Arrowed(MapWords(xs, f))
  {
    if |xs| > 1 {
      var fs := MapWords(xs, f);
      assert fs[1..] == MapWords(xs[1..], f);
      MapArrowed(xs[1..], f);
      var rest := Arrowed(xs[1..]);
      var l := [xs[0], "->"] + rest;
      var r := [fs[0], "->"] + MapWords(rest, f);
      assert forall k | 2 <= k < |l| :: l[k] == rest[k - 2];
      assert forall k | 2 <= k < |r| :: r[k] == MapWords(rest, f)[k - 2];
      assert MapWords(l, f) == r;
    }
  }

  lemma FormatArrowed(xs: seq<string>)
    ensures FormatWords(Arrowed(xs)) == Arrowed(FormatWords(xs))
  {
    MatchWordPlain("->");
    MapArrowed(xs, FormatWord);
  }

  /** Formatting the chain `x1 -> x2 -> ...` formats each alias on its own. */
  lemma FormatJoined(xs: seq<string>)
    requires forall k | 0 <= k < |xs| :: ' ' !in xs[k]
    ensures FormatChain(Join(xs, " -> ")) == Join(FormatWords(xs), " -> ")
  {
    JoinArrowed(xs);
    JoinArrowed(FormatWords(xs));
    if |xs| == 0 {
      assert Split("", ' ') == [""];
      MatchWordPlain("");
    } else {
      ArrowedNoSpace(xs);
      SplitJoin(Arrowed(xs), ' ');
      FormatArrowed(xs);
    }
  }

  /** The alias `<rel>__<n>__<table>` of the compiler. */
  function Alias(rel: string, n: nat, table: string): string {
    rel + "__" + NatToString(n) + "__" + table
  }

  lemma NatToStringZero(n: nat)
    ensures NatToString(n) == "0" <==> n == 0
  {
    if n >= 10 {
      assert |NatToString(n)| >= 2 by {
        assert NatToString(n) == NatToString(n / 10) + [DigitChar(n % 10)];
      }
    }
  }

  /** A snake_case table name of a non-empty class name. */
  lemma TableShape(cls: string)
    requires ValidClassName(cls) && |cls| > 0
    ensures var d := ClassToDbName(cls).value;
      |d| > 0 && NoDoubleUnderscore(d) && !EndsWithUnderscore(d) && IsLower(d[0]) && ' ' !in d
  {
    var d := ClassToDbName(cls).value;
    assert d == Snake(cls);
    assert |d| > 0;
    forall k | 0 <= k < |d| ensures d[k] != ' ' {
      assert IsPropertyChar(d[k]);
    }
  }

  /** The alias of a step reached over relationship `rel` is shown as
      `(Rel) -> Class` the first time and `(Rel[$i]) -> Class` after. */
  lemma FormatRelationshipAlias(rel: string, n: nat, cls: string)
    requires ValidClassName(rel) && |rel| > 0 && ValidClassName(cls) && |cls| > 0
    ensures FormatWord(Alias(ClassToDbName(rel).value, n, ClassToDbName(cls).value))
      == "(" + rel + (if n == 0 then "" else "[$i]") + ") -> " + cls
  {
    var a := ClassToDbName(rel).value;
    var c := ClassToDbName(cls).value;
    TableShape(rel);
    TableShape(cls);
    MatchWordAlias(a, NatToString(n), c);
    NatToStringZero(n);
    assert a != AliasAnchor by {
      assert IsLower(a[0]);
    }
  }

  /** The alias of the anchor step (relationship "0") is shown as its
      class. */
  lemma FormatAnchorAlias(n: nat, cls: string)
    requires ValidClassName(cls) && |cls| > 0
    ensures FormatWord(Alias(AliasAnchor, n, ClassToDbName(cls).value)) == cls
  {
    TableShape(cls);
    MatchWordAlias(AliasAnchor, NatToString(n), ClassToDbName(cls).value);
  }

  /** The bare table name of an unregistered class is left as it is: it is
      not turned back into the class name. */
  lemma FormatTable(cls: string)
    requires ValidClassName(cls)
    ensures FormatWord(ClassToDbName(cls).value) == ClassToDbName(cls).value
  {
    MatchWordPlain(ClassToDbName(cls).value);
  }

  /** Aliases with decodable parts are equal only when their parts are. */
  lemma AliasInjective(a: string, m: nat, c: string, a': string, m': nat, c': string)
    requires |a| > 0 && NoDoubleUnderscore(a) && !EndsWithUnderscore(a)
    requires |a'| > 0 && NoDoubleUnderscore(a') && !EndsWithUnderscore(a')
    requires |c| > 0 && NoDoubleUnderscore(c) && c[0] != '_'
    requires |c'| > 0 && NoDoubleUnderscore(c') && c'[0] != '_'
    requires Alias(a, m, c) == Alias(a', m', c')
    ensures a == a' && m == m' && c == c'
  {
    MatchWordAlias(a, NatToString(m), c);
    MatchWordAlias(a', NatToString(m'), c');
    NatToStringInjective(m, m');
  }
}
