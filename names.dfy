/** Identifier rules of the ORM: schema names, class names, property names,
    and the CamelCase <-> snake_case conversion between class and table
    names. The doubled-underscore ban on property names and the ban on
    underscores in class names are what make the `__`-joined column aliases
    of the SQL compiler decodable again. */
module Names {
  import opened Wrappers
  import opened Strings

  /** Orm::DEFAULT_NAME: the key a schema registered without a name gets. */
  const DefaultName: string := "-"
  /** Orm::RELATIONSHIP_INHERITS: reserved relationship, used for ancestor joins. */
  const Inherits: string := "Inherits"
  /** classToDbName(RELATIONSHIP_INHERITS), written out: the name of the
      ancestor joins, 'Inherits' with its capital lowered. */
  const InheritsSql: string := "inherits"
  /** Orm::ALIAS_ANCHOR: the alias of the anchor destination. */
  const AliasAnchor: string := "0"
  /** Orm::AUTO_PROPERTY_ID: the automatic key property. */
  const AutoPropertyId: string := "id"

  /** Orm::validName: NULL, or letters, digits and underscores not starting
      with a digit or an underscore (the empty string passes). */
  predicate ValidName(name: Option<string>) {
    match name
    case None => true
    case Some(s) =>
      (forall i | 0 <= i < |s| :: IsWordChar(s[i])) && (|s| == 0 || IsAlpha(s[0]))
  }

  lemma DefaultNameIsInvalid()
    ensures !ValidName(Some(DefaultName))
  {
    assert !IsWordChar(DefaultName[0]);
  }

  /** Orm::name: validates a schema name and substitutes DEFAULT_NAME for NULL.
      Because DEFAULT_NAME is not itself a valid name, the default schema can
      never collide with a named one. */
  function SchemaKey(name: Option<string>): (r: Result<string>)
    ensures r.Ok? <==> ValidName(name)
    ensures r.Ok? ==> (r.value == DefaultName <==> name.None?)
    ensures r.Ok? && name.Some? ==> r.value == name.value
  {
    if !ValidName(name) then
      Err(InputError("$name must be a string of alphanumerics and underscores, starting with a letter. You passed "
                     + (if name.Some? then name.value else "")))
    else if name.None? then Ok(DefaultName)
    else
      assert name.value != DefaultName by {
        DefaultNameIsInvalid();
      }
      Ok(name.value)
  }

  /** Orm::validClassName: letters and digits, starting with a capital
      (the empty string passes). */
  predicate ValidClassName(s: string) {
    (forall i | 0 <= i < |s| :: IsAlnum(s[i])) && (|s| == 0 || IsUpper(s[0]))
  }

  predicate IsPropertyChar(c: char) { IsLower(c) || IsDigit(c) || c == '_' }

  /** Orm::validPropertyName: lower-case letters, digits and underscores,
      starting with a letter, never two underscores in a row (the empty string
      passes). */
  predicate ValidPropertyName(s: string) {
    (forall i | 0 <= i < |s| :: IsPropertyChar(s[i]))
    && (|s| == 0 || IsLower(s[0]))
    && NoDoubleUnderscore(s)
  }

  /** The message of Orm::testClassName. */
  function ClassNameError(s: string): Error {
    InputError("Class " + s + " does not adhere to class name rules")
  }

  /** The message of Orm::testPropertyName. */
  function PropertyNameError(s: string): Error {
    InputError("Property " + s + " does not adhere to property name rules")
  }

  /** The snake_case body of Orm::classToDbName after its first character:
      every capital becomes an underscore and its lower-case letter. */
  function SnakeTail(t: string): string {
    if |t| == 0 then ""
    else (if IsUpper(t[0]) then "_" + [ToLower(t[0])] else [t[0]]) + SnakeTail(t[1..])
  }

  /** The character loop of Orm::classToDbName: no underscore before the
      first character ('BaseReport' -> 'base_report'). */
  function Snake(s: string): string {
    if |s| == 0 then "" else [ToLower(s[0])] + SnakeTail(s[1..])
  }

  /** Orm::classToDbName. */
  function ClassToDbName(s: string): (r: Result<string>)
    ensures r.Ok? <==> ValidClassName(s)
    ensures r.Ok? ==> ValidPropertyName(r.value) && DbToClassName(r.value) == s
    ensures r.Ok? ==> !EndsWithUnderscore(r.value)
  {
    if !ValidClassName(s) then Err(ClassNameError(s))
    else
      SnakeIsValidProperty(s);
      ClassNameRoundTrip(s);
      Ok(Snake(s))
  }

  /** Orm::propertyToDbName: validation, then the name unchanged; its inverse
      Orm::dbToPropertyName is the identity. */
  function PropertyToDbName(s: string): (r: Result<string>)
    ensures r.Ok? <==> ValidPropertyName(s)
    ensures r.Ok? ==> r.value == s
  {
    if !ValidPropertyName(s) then Err(PropertyNameError(s)) else Ok(s)
  }

  /** str_replace(from, to, s) for single characters. */
  function ReplaceChar(s: string, from: char, to: char): string {
    if |s| == 0 then "" else [if s[0] == from then to else s[0]] + ReplaceChar(s[1..], from, to)
  }

  /** str_replace(c, '', s) for a single character. */
  function RemoveChar(s: string, c: char): string {
    if |s| == 0 then "" else (if s[0] == c then "" else [s[0]]) + RemoveChar(s[1..], c)
  }

  /** PHP's ucwords with its default delimiters: the first character and every
      character after a whitespace character is upper-cased. `start` says
      whether the next character begins a word. */
  function UcWordsFrom(s: string, start: bool): string {
    if |s| == 0 then ""
    else [if start then ToUpper(s[0]) else s[0]] + UcWordsFrom(s[1..], IsSpace(s[0]))
  }

  /** Orm::dbToClassName: underscores become spaces, words are capitalised,
      spaces are removed ('base_report' -> 'BaseReport'). */
  function DbToClassName(d: string): string {
    RemoveChar(UcWordsFrom(ReplaceChar(d, '_', ' '), true), ' ')
  }

  /** The three passes of DbToClassName fused into one left-to-right scan. */
  function DbFrom(x: string, start: bool): string {
    if |x| == 0 then ""
    else
      var c := if x[0] == '_' then ' ' else x[0];
      var u := if start then ToUpper(c) else c;
      (if u == ' ' then "" else [u]) + DbFrom(x[1..], IsSpace(c))
  }

  lemma {:induction false} DbFromFusion(x: string, start: bool)
    ensures RemoveChar(UcWordsFrom(ReplaceChar(x, '_', ' '), start), ' ') == DbFrom(x, start)
  {
    if |x| > 0 {
      var r := ReplaceChar(x, '_', ' ');
      assert r[0] == (if x[0] == '_' then ' ' else x[0]);
      assert r[1..] == ReplaceChar(x[1..], '_', ' ');
      var w := UcWordsFrom(r, start);
      assert w[1..] == UcWordsFrom(r[1..], IsSpace(r[0]));
      CaseRoundTrip(r[0]);
      DbFromFusion(x[1..], IsSpace(r[0]));
    }
  }

  /** One step of DbFrom on a string split after its first character. */
  lemma DbFromCons(c: char, x: string, b: bool)
    ensures DbFrom([c] + x, b) ==
      (var c' := if c == '_' then ' ' else c;
       var u := if b then ToUpper(c') else c';
       (if u == ' ' then "" else [u]) + DbFrom(x, IsSpace(c')))
  {
    assert ([c] + x)[1..] == x;
  }

  lemma SnakeStepUpper(c: char, rest: string)
    requires IsUpper(c)
    ensures DbFrom(['_', ToLower(c)] + rest, false) == [c] + DbFrom(rest, false)
  {
    CaseRoundTrip(c);
    assert ['_', ToLower(c)] + rest == ['_'] + ([ToLower(c)] + rest);
    DbFromCons('_', [ToLower(c)] + rest, false);
    DbFromCons(ToLower(c), rest, true);
  }

  lemma SnakeStepOther(c: char, rest: string)
    requires IsAlnum(c) && !IsUpper(c)
    ensures DbFrom([c] + rest, false) == [c] + DbFrom(rest, false)
  {
    DbFromCons(c, rest, false);
  }

  lemma {:induction false} SnakeTailRoundTrip(t: string)
    requires forall i | 0 <= i < |t| :: IsAlnum(t[i])
    ensures DbFrom(SnakeTail(t), false) == t
  {
    if |t| > 0 {
      var rest := SnakeTail(t[1..]);
      assert DbFrom(rest, false) == t[1..] by {
        SnakeTailRoundTrip(t[1..]);
      }
      if IsUpper(t[0]) {
        assert SnakeTail(t) == ['_', ToLower(t[0])] + rest;
        SnakeStepUpper(t[0], rest);
      } else {
        assert SnakeTail(t) == [t[0]] + rest;
        SnakeStepOther(t[0], rest);
      }
      assert [t[0]] + t[1..] == t;
    }
  }

  /** dbToClassName(classToDbName(s)) == s for every valid class name. */
  lemma ClassNameRoundTrip(s: string)
    requires ValidClassName(s)
    ensures DbToClassName(Snake(s)) == s
  {
    DbFromFusion(Snake(s), true);
    if |s| > 0 {
      var x := Snake(s);
      CaseRoundTrip(s[0]);
      assert x[1..] == SnakeTail(s[1..]);
      SnakeTailRoundTrip(s[1..]);
      assert [s[0]] + s[1..] == s;
    }
  }

  lemma ClassToDbNameInjective(a: string, b: string)
    requires ClassToDbName(a).Ok? && ClassToDbName(b).Ok?
    requires ClassToDbName(a).value == ClassToDbName(b).value
    ensures a == b
  {
  }

  lemma {:induction false} NoDoubleUnderscoreConcat(a: string, b: string)
    requires NoDoubleUnderscore(a) && NoDoubleUnderscore(b)
    requires !(EndsWithUnderscore(a) && |b| > 0 && b[0] == '_')
    ensures NoDoubleUnderscore(a + b)
  {
    var s := a + b;
    forall i | 0 <= i < |s| - 1 ensures !(s[i] == '_' && s[i + 1] == '_') {
      if i + 1 < |a| {
        assert s[i] == a[i] && s[i + 1] == a[i + 1];
      } else if i + 1 == |a| {
        assert s[i] == a[|a| - 1] && s[i + 1] == b[0];
      } else {
        assert s[i] == b[i - |a|] && s[i + 1] == b[i - |a| + 1];
      }
    }
  }

  lemma {:induction false} SnakeTailShape(t: string)
    requires forall i | 0 <= i < |t| :: IsAlnum(t[i])
    ensures forall i | 0 <= i < |SnakeTail(t)| :: IsPropertyChar(SnakeTail(t)[i])
    ensures NoDoubleUnderscore(SnakeTail(t))
    ensures !EndsWithUnderscore(SnakeTail(t))
  {
    if |t| > 0 {
      var rest := SnakeTail(t[1..]);
      SnakeTailShape(t[1..]);
      CaseRoundTrip(t[0]);
      var head := if IsUpper(t[0]) then "_" + [ToLower(t[0])] else [t[0]];
      assert SnakeTail(t) == head + rest;
      assert NoDoubleUnderscore(head);
      NoDoubleUnderscoreConcat(head, rest);
      forall i | 0 <= i < |head + rest| ensures IsPropertyChar((head + rest)[i]) {
        if i >= |head| {
          assert (head + rest)[i] == rest[i - |head|];
        }
      }
    }
  }

  /** classToDbName's output is a valid property name: no capitals, no
      leading underscore and never two underscores in a row. */
  lemma SnakeIsValidProperty(s: string)
    requires ValidClassName(s)
    ensures ValidPropertyName(Snake(s))
    ensures !EndsWithUnderscore(Snake(s))
  {
    if |s| > 0 {
      CaseRoundTrip(s[0]);
      SnakeTailShape(s[1..]);
      var head := [ToLower(s[0])];
      assert Snake(s) == head + SnakeTail(s[1..]);
      NoDoubleUnderscoreConcat(head, SnakeTail(s[1..]));
      forall i | 0 <= i < |Snake(s)| ensures IsPropertyChar(Snake(s)[i]) {
        if i >= 1 {
          assert Snake(s)[i] == SnakeTail(s[1..])[i - 1];
        }
      }
      if |SnakeTail(s[1..])| > 0 {
        assert Snake(s)[|Snake(s)| - 1] == SnakeTail(s[1..])[|SnakeTail(s[1..])| - 1];
      }
    }
  }

  lemma {:induction false} DbFromIdempotent(x: string, b: bool, b2: bool)
    requires b2 ==> b
    ensures DbFrom(DbFrom(x, b), b2) == DbFrom(x, b)
  {
    if |x| > 0 {
      var c := if x[0] == '_' then ' ' else x[0];
      var u := if b then ToUpper(c) else c;
      CaseRoundTrip(c);
      if u == ' ' {
        assert DbFrom(x, b) == DbFrom(x[1..], IsSpace(c));
        DbFromIdempotent(x[1..], true, b2);
      } else {
        var rest := DbFrom(x[1..], IsSpace(c));
        assert DbFrom(x, b) == [u] + rest;
        assert ([u] + rest)[1..] == rest;
        DbFromIdempotent(x[1..], IsSpace(c), IsSpace(u));
      }
    }
  }

  /** dbToClassName is idempotent, so applying it to a name it produced
      changes nothing. */
  lemma DbToClassNameIdempotent(d: string)
    ensures DbToClassName(DbToClassName(d)) == DbToClassName(d)
  {
    DbFromFusion(d, true);
    DbFromFusion(DbToClassName(d), true);
    DbFromIdempotent(d, true, true);
  }

  lemma {:induction false} DbFromNoUnderscore(x: string, b: bool)
    ensures forall k | 0 <= k < |DbFrom(x, b)| :: DbFrom(x, b)[k] != '_'
    decreases |x|
  {
    if |x| > 0 {
      DbFromNoUnderscore(x[1..], IsSpace(if x[0] == '_' then ' ' else x[0]));
    }
  }

  /** A name converted back from the database holds no underscore, so it
      is one piece of a "__"-joined column name. */
  lemma DbToClassNameNoUnderscore(d: string)
    ensures forall k | 0 <= k < |DbToClassName(d)| :: DbToClassName(d)[k] != '_'
    ensures NoDoubleUnderscore(DbToClassName(d)) && !EndsWithUnderscore(DbToClassName(d))
  {
    DbFromFusion(d, true);
    DbFromNoUnderscore(d, true);
  }
}
