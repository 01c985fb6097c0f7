/** Rule records and the class catalog of the ORM.

    A schema is a text of `Input to Output as Relationship [options]` lines;
    Orm::parseRules turns it into rule records. PHP reflection over the
    declared classes is replaced by an explicit catalog: for every declared
    class, whether it descends from OrmClass, OrmRelationship or neither,
    its own level (name, instantiable flag, the non-static, non-private
    properties it declares) and its ancestor levels up to, not including,
    OrmClass / OrmRelationship, plus the optional `X_keys` constant. */
module Schema {
  import opened Wrappers
  import opened Strings
  import opened Names

  /** One parsed schema line. */
  datatype Rule = Rule(input: string, output: string, relationship: string, options: seq<string>)

  // ---------------------------------------------------------------- parsing

  /** The end of the maximal run of \w characters starting at i. */
  function WordEnd(s: string, i: nat): (j: nat)
    requires i <= |s|
    ensures i <= j <= |s|
    ensures forall k | i <= k < j :: IsWordChar(s[k])
    ensures j < |s| ==> !IsWordChar(s[j])
    decreases |s| - i
  {
    if i < |s| && IsWordChar(s[i]) then WordEnd(s, i + 1) else i
  }

  /** The end of the maximal run of \s characters starting at i. */
  function SpaceEnd(s: string, i: nat): (j: nat)
    requires i <= |s|
    ensures i <= j <= |s|
    ensures forall k | i <= k < j :: IsSpace(s[k])
    ensures j < |s| ==> !IsSpace(s[j])
    decreases |s| - i
  {
    if i < |s| && IsSpace(s[i]) then SpaceEnd(s, i + 1) else i
  }

  /** preg_split('#\s+#', s): the pieces between maximal runs of whitespace,
      empty pieces included. */
  function SplitSpaces(s: string): (parts: seq<string>)
    ensures |parts| >= 1
  {
    if |s| == 0 then [""]
    else if IsSpace(s[0]) then
      var j := SpaceEnd(s, 0);
      [""] + SplitSpaces(s[j..])
    else
      var rest := SplitSpaces(s[1..]);
      [[s[0]] + rest[0]] + rest[1..]
  }

  /** preg_split("#\r?\n#", code): split at every line feed, dropping one
      carriage return just before it. */
  function Lines(code: string): (lines: seq<string>)
    ensures |lines| >= 1
  {
    var pieces := Split(code, '\n');
    seq(|pieces|, k requires 0 <= k < |pieces| =>
      if k < |pieces| - 1 && EndsWithCR(pieces[k]) then pieces[k][..|pieces[k]| - 1] else pieces[k])
  }

  predicate EndsWithCR(s: string) { |s| > 0 && s[|s| - 1] == '\r' }

  predicate IsWord(s: string) {
    |s| > 0 && forall k | 0 <= k < |s| :: IsWordChar(s[k])
  }

  /** The options group `(\s+(.+))?$` after the third word, which ends at g:
      nothing at all, or whitespace and then the rest of the line. The \s+
      can only match a maximal run, except when nothing but whitespace
      follows the third word: then `.+` takes the last whitespace character
      alone, which needs at least two of them. */
  function ParseOptions(l: string, g: nat): (r: Option<seq<string>>)
    requires g <= |l|
  {
    if g == |l| then Some([])
    else
      var h := SpaceEnd(l, g);
      if h == g then None
      else if h < |l| then Some(SplitSpaces(l[h..]))
      else if h - g >= 2 then Some(SplitSpaces(l[h - 1..]))
      else None
  }

  /** The maximal word at i, as a slice. */
  function WordAt(s: string, i: nat): (w: string)
    requires i <= |s|
    ensures |w| == WordEnd(s, i) - i && w == s[i..WordEnd(s, i)]
    ensures |w| > 0 ==> IsWord(w)
  {
    var j := WordEnd(s, i);
    assert forall k | 0 <= k < j - i :: s[i..j][k] == s[i + k];
    s[i..j]
  }

  /** `\s+xy\s+` at i, for the two-letter keyword xy: the index after it. */
  function Separator(l: string, i: nat, x: char, y: char): (r: Option<nat>)
    requires i <= |l|
    ensures r.Some? ==> i < r.value <= |l|
  {
    var b := SpaceEnd(l, i);
    if b == i || b + 2 > |l| || l[b] != x || l[b + 1] != y then None
    else
      var c := SpaceEnd(l, b + 2);
      if c == b + 2 then None else Some(c)
  }

  /** One line against `^(\w+)\s+to\s+(\w+)\s+as\s+(\w+)(\s+(.+))?$`.
      Each \w+ and each \s+ between the words can only match a maximal run:
      backing off would leave a word character where whitespace or the
      literal must follow. */
  function ParseLine(l: string): (r: Option<Rule>)
    ensures r.Some? ==> IsWord(r.value.input) && IsWord(r.value.output) && IsWord(r.value.relationship)
  {
    var a := WordEnd(l, 0);
    if a == 0 then None
    else match Separator(l, a, 't', 'o')
      case None => None
      case Some(c) =>
        var d := WordEnd(l, c);
        if d == c then None
        else match Separator(l, d, 'a', 's')
          case None => None
          case Some(f) =>
            var g := WordEnd(l, f);
            if g == f then None
            else match ParseOptions(l, g)
              case None => None
              case Some(opts) => Some(Rule(WordAt(l, 0), WordAt(l, c), WordAt(l, f), opts))
  }

  /** Orm::parseRules: the rules of the lines that match, in order; other
      lines are skipped. */
  function ParseRules(code: string): (rules: seq<Rule>)
  {
    ParseAll(Lines(code))
  }

  function ParseAll(lines: seq<string>): (rules: seq<Rule>)
    ensures |rules| <= |lines|
    ensures forall r | r in rules :: exists l | l in lines :: ParseLine(l) == Some(r)
  {
    if |lines| == 0 then []
    else
      var rest := ParseAll(lines[1..]);
      assert forall l | l in lines[1..] :: l in lines;
      match ParseLine(lines[0])
      case Some(r) => [r] + rest
      case None => rest
  }

  // ------------------------------------------------------ schema formatting

  /** An option that survives the whitespace split unchanged. */
  predicate IsOption(s: string) {
    |s| > 0 && forall k | 0 <= k < |s| :: !IsSpace(s[k]) && s[k] != '\n'
  }

  /** A rule a schema line can express. */
  predicate Expressible(r: Rule) {
    IsWord(r.input) && IsWord(r.output) && IsWord(r.relationship)
    && forall k | 0 <= k < |r.options| :: IsOption(r.options[k])
  }

  /** The canonical schema line of a rule. */
  /** The words of a rule line in order: the three names around the
      keywords, then the options. */
  function Fields(r: Rule): seq<string> {
    [r.input, "to", r.output, "as", r.relationship] + r.options
  }

  /** A rule written back as one schema line, words separated by one space. */
  function FormatRule(r: Rule): string {
    Join(Fields(r), " ")
  }

  function FormatRules(rules: seq<Rule>): seq<string> {
    seq(|rules|, k requires 0 <= k < |rules| => FormatRule(rules[k]))
  }

  lemma {:induction false} WordEndAt(s: string, i: nat, j: nat)
    requires i <= j <= |s|
    requires forall k | i <= k < j :: IsWordChar(s[k])
    requires j < |s| ==> !IsWordChar(s[j])
    ensures WordEnd(s, i) == j
    decreases j - i
  {
    if i < j {
      WordEndAt(s, i + 1, j);
    }
  }

  lemma {:induction false} SpaceEndAt(s: string, i: nat, j: nat)
    requires i <= j <= |s|
    requires forall k | i <= k < j :: IsSpace(s[k])
    requires j < |s| ==> !IsSpace(s[j])
    ensures SpaceEnd(s, i) == j
    decreases j - i
  {
    if i < j {
      SpaceEndAt(s, i + 1, j);
    }
  }

  lemma {:induction false} SplitSpacesSingle(p: string)
    requires forall k | 0 <= k < |p| :: !IsSpace(p[k])
    ensures SplitSpaces(p) == [p]
  {
    if |p| > 0 {
      SplitSpacesSingle(p[1..]);
      assert [p[0]] + p[1..] == p;
    }
  }

  lemma {:induction false} SplitSpacesCons(p: string, t: string)
    requires forall k | 0 <= k < |p| :: !IsSpace(p[k])
    requires |t| > 0 ==> !IsSpace(t[0])
    ensures SplitSpaces(p + " " + t) == [p] + SplitSpaces(t)
  {
    var s := p + " " + t;
    if |p| == 0 {
      assert s == " " + t;
      SpaceEndAt(s, 0, 1);
      assert s[1..] == t;
    } else {
      assert s[0] == p[0];
      assert s[1..] == p[1..] + " " + t;
      SplitSpacesCons(p[1..], t);
      assert [p[0]] + p[1..] == p;
    }
  }

  lemma {:induction false} SplitSpacesJoin(opts: seq<string>)
    requires |opts| >= 1
    requires forall k | 0 <= k < |opts| :: IsOption(opts[k])
    ensures SplitSpaces(Join(opts, " ")) == opts
  {
    if |opts| == 1 {
      SplitSpacesSingle(opts[0]);
    } else {
      assert forall k | 0 <= k < |opts[1..]| :: opts[1..][k] == opts[k + 1];
      SplitSpacesJoin(opts[1..]);
      var t := Join(opts[1..], " ");
      assert t == opts[1] || t == opts[1] + " " + Join(opts[2..], " ");
      assert t[0] == opts[1][0];
      SplitSpacesCons(opts[0], t);
      assert [opts[0]] + opts[1..] == opts;
    }
  }

  lemma WordInContext(s: string, pre: string, w: string, post: string)
    requires s == pre + w + post
    requires IsWord(w)
    requires |post| > 0 ==> !IsWordChar(post[0])
    ensures WordEnd(s, |pre|) == |pre| + |w|
    ensures WordAt(s, |pre|) == w
  {
    assert forall k | |pre| <= k < |pre| + |w| :: s[k] == w[k - |pre|];
    WordEndAt(s, |pre|, |pre| + |w|);
    assert s[|pre|..|pre| + |w|] == w;
  }

  lemma SpaceInContext(pre: string, post: string)
    requires |post| > 0 ==> !IsSpace(post[0])
    ensures SpaceEnd(pre + " " + post, |pre|) == |pre| + 1
  {
    var s := pre + " " + post;
    SpaceEndAt(s, |pre|, |pre| + 1);
  }

  /** The options of a formatted rule parse back unchanged. */
  lemma ParseFormattedOptions(l: string, head: string, r: Rule)
    requires l == head + Tail(r)
    requires forall k | 0 <= k < |r.options| :: IsOption(r.options[k])
    ensures ParseOptions(l, |head|) == Some(r.options)
  {
    var opts := r.options;
    if |opts| > 0 {
      var j := Join(opts, " ");
      assert j[0] == opts[0][0] by {
        assert j == opts[0] || j == opts[0] + " " + Join(opts[1..], " ");
      }
      assert IsOption(opts[0]);
      assert l == head + " " + j;
      SpaceInContext(head, j);
      assert l[|head| + 1..] == j;
      SplitSpacesJoin(opts);
    }
  }

  lemma SeparatorAt(l: string, i: nat, x: char, y: char)
    requires i + 4 < |l|
    requires l[i] == ' ' && l[i + 1] == x && l[i + 2] == y && l[i + 3] == ' '
    requires !IsSpace(x) && !IsSpace(l[i + 4])
    ensures Separator(l, i, x, y) == Some(i + 4)
  {
    SpaceEndAt(l, i, i + 1);
    SpaceEndAt(l, i + 3, i + 4);
  }

  function Tail(r: Rule): string {
    if |r.options| == 0 then "" else " " + Join(r.options, " ")
  }

  /** Offsets of a formatted line: the second word starts at c, the third
      at f, and the options group at g. */
  function OffC(r: Rule): nat { |r.input| + 4 }
  function OffF(r: Rule): nat { |r.input| + |r.output| + 8 }
  function OffG(r: Rule): nat { |r.input| + |r.output| + |r.relationship| + 8 }

  lemma JoinCons(p: string, rest: seq<string>, sep: string)
    requires |rest| > 0
    ensures Join([p] + rest, sep) == p + sep + Join(rest, sep)
  {
    assert ([p] + rest)[1..] == rest;
  }

  /** The formatted line spelled out around its keywords. */
  lemma FormatRuleSpelled(r: Rule)
    ensures FormatRule(r) == r.input + " to " + r.output + " as " + r.relationship + Tail(r)
  {
    var o := r.options;
    if |o| == 0 {
      assert [r.relationship] + o == [r.relationship];
    } else {
      JoinCons(r.relationship, o, " ");
    }
    var j5 := Join([r.relationship] + o, " ");
    assert j5 == r.relationship + Tail(r);
    JoinCons("as", [r.relationship] + o, " ");
    assert ["as"] + ([r.relationship] + o) == ["as", r.relationship] + o;
    JoinCons(r.output, ["as", r.relationship] + o, " ");
    assert [r.output] + (["as", r.relationship] + o) == [r.output, "as", r.relationship] + o;
    JoinCons("to", [r.output, "as", r.relationship] + o, " ");
    assert ["to"] + ([r.output, "as", r.relationship] + o) == ["to", r.output, "as", r.relationship] + o;
    JoinCons(r.input, ["to", r.output, "as", r.relationship] + o, " ");
    assert [r.input] + (["to", r.output, "as", r.relationship] + o) == Fields(r);
    assert FormatRule(r) == r.input + " " + ("to" + " " + (r.output + " " + ("as" + " " + j5)));
  }

  lemma FormattedInput(r: Rule)
    requires Expressible(r)
    ensures |FormatRule(r)| >= OffG(r)
    ensures WordEnd(FormatRule(r), 0) == |r.input| && WordAt(FormatRule(r), 0) == r.input
  {
    FormatRuleSpelled(r);
    var t := " to " + r.output + " as " + r.relationship + Tail(r);
    assert FormatRule(r) == [] + r.input + t;
    WordInContext(FormatRule(r), [], r.input, t);
  }

  lemma FormattedTo(r: Rule)
    requires Expressible(r)
    ensures Separator(FormatRule(r), |r.input|, 't', 'o') == Some(OffC(r))
  {
    FormatRuleSpelled(r);
    var l := FormatRule(r);
    var q := r.input + " to ";
    assert l == q + r.output + (" as " + r.relationship + Tail(r)) by {
      FormattedInput(r);
    }
    var i := |r.input|;
    assert l[i] == ' ' && l[i + 1] == 't' && l[i + 2] == 'o' && l[i + 3] == ' ';
    assert l[i + 4] == r.output[0];
    SeparatorAt(l, i, 't', 'o');
  }

  lemma FormattedOutput(r: Rule)
    requires Expressible(r)
    ensures OffG(r) <= |FormatRule(r)|
    ensures WordEnd(FormatRule(r), OffC(r)) == OffC(r) + |r.output|
    ensures WordAt(FormatRule(r), OffC(r)) == r.output
  {
    FormatRuleSpelled(r);
    var t := " as " + r.relationship + Tail(r);
    assert FormatRule(r) == (r.input + " to ") + r.output + t;
    WordInContext(FormatRule(r), r.input + " to ", r.output, t);
  }

  lemma FormattedAs(r: Rule)
    requires Expressible(r)
    ensures OffG(r) <= |FormatRule(r)|
    ensures Separator(FormatRule(r), OffC(r) + |r.output|, 'a', 's') == Some(OffF(r))
  {
    FormatRuleSpelled(r);
    var l := FormatRule(r);
    var q := r.input + " to " + r.output + " as ";
    assert l == q + r.relationship + Tail(r);
    var i := OffC(r) + |r.output|;
    assert |q| == i + 4;
    assert l[i] == ' ' && l[i + 1] == 'a' && l[i + 2] == 's' && l[i + 3] == ' ';
    assert l[i + 4] == r.relationship[0];
    SeparatorAt(l, i, 'a', 's');
  }

  lemma FormattedRelationship(r: Rule)
    requires Expressible(r)
    ensures OffG(r) <= |FormatRule(r)|
    ensures WordEnd(FormatRule(r), OffF(r)) == OffG(r)
    ensures WordAt(FormatRule(r), OffF(r)) == r.relationship
  {
    FormatRuleSpelled(r);
    var p := r.input + " to " + r.output + " as ";
    assert |Tail(r)| > 0 ==> Tail(r)[0] == ' ';
    assert FormatRule(r) == p + r.relationship + Tail(r);
    WordInContext(FormatRule(r), p, r.relationship, Tail(r));
  }

  lemma FormattedOptions(r: Rule)
    requires Expressible(r)
    ensures OffG(r) <= |FormatRule(r)|
    ensures ParseOptions(FormatRule(r), OffG(r)) == Some(r.options)
  {
    FormatRuleSpelled(r);
    var p := r.input + " to " + r.output + " as " + r.relationship;
    assert FormatRule(r) == p + Tail(r);
    ParseFormattedOptions(FormatRule(r), p, r);
  }

  /** A formatted rule parses back to itself. */
  lemma ParseFormattedLine(r: Rule)
    requires Expressible(r)
    ensures ParseLine(FormatRule(r)) == Some(r)
  {
    FormattedInput(r);
    FormattedTo(r);
    FormattedOutput(r);
    FormattedAs(r);
    FormattedRelationship(r);
    FormattedOptions(r);
    var l := FormatRule(r);
    assert 0 < |r.input| <= |l|;
    assert OffC(r) < OffC(r) + |r.output| <= |l|;
    assert OffF(r) < OffG(r) <= |l|;
    assert WordEnd(l, 0) == |r.input|;
    assert Separator(l, |r.input|, 't', 'o') == Some(OffC(r));
    assert WordEnd(l, OffC(r)) == OffC(r) + |r.output|;
    assert Separator(l, OffC(r) + |r.output|, 'a', 's') == Some(OffF(r));
    assert WordEnd(l, OffF(r)) == OffG(r);
    assert ParseOptions(l, OffG(r)) == Some(r.options);
    assert WordAt(l, 0) == r.input;
    assert WordAt(l, OffC(r)) == r.output;
    assert WordAt(l, OffF(r)) == r.relationship;
    assert ParseLine(l) == Some(r);
  }

  lemma {:induction false} LinesOfJoin(lines: seq<string>)
    requires |lines| >= 1
    requires forall k | 0 <= k < |lines| :: '\n' !in lines[k] && !EndsWithCR(lines[k])
    ensures Lines(Join(lines, "\n")) == lines
  {
    SplitJoin(lines, '\n');
  }

  lemma WordExcludes(w: string, c: char)
    requires IsWord(w) && !IsWordChar(c)
    ensures c !in w
  {
  }

  /** A formatted rule is one line and does not end with a carriage return. */
  lemma FormatRuleShape(r: Rule)
    requires Expressible(r)
    ensures '\n' !in FormatRule(r) && !EndsWithCR(FormatRule(r))
  {
    FormatRuleSpelled(r);
    WordExcludes(r.input, '\n');
    WordExcludes(r.output, '\n');
    WordExcludes(r.relationship, '\n');
    var head := r.input + " to " + r.output + " as " + r.relationship;
    assert head[|head| - 1] == r.relationship[|r.relationship| - 1];
    if |r.options| > 0 {
      forall k | 0 <= k < |r.options| ensures '\n' !in r.options[k] {
        assert IsOption(r.options[k]);
      }
      JoinExcludes(r.options, " ", '\n');
      JoinLast(r.options, " ");
      var j := Join(r.options, " ");
      assert IsOption(r.options[|r.options| - 1]);
      assert (head + " " + j)[|head + " " + j| - 1] == j[|j| - 1];
    }
  }

  /** Schema lines joined with line feeds parse back to the rules they
      format. */
  lemma {:induction false} ParseFormattedRules(rules: seq<Rule>)
    requires |rules| >= 1
    requires forall k | 0 <= k < |rules| :: Expressible(rules[k])
    ensures ParseRules(Join(FormatRules(rules), "\n")) == rules
  {
    forall k | 0 <= k < |rules|
      ensures '\n' !in FormatRules(rules)[k] && !EndsWithCR(FormatRules(rules)[k])
    {
      FormatRuleShape(rules[k]);
    }
    LinesOfJoin(FormatRules(rules));
    ParseAllFormatted(rules);
  }

  lemma {:induction false} ParseAllOf(lines: seq<string>, rules: seq<Rule>)
    requires |lines| == |rules|
    requires forall k | 0 <= k < |lines| :: ParseLine(lines[k]) == Some(rules[k])
    ensures ParseAll(lines) == rules
  {
    if |lines| > 0 {
      assert ParseLine(lines[0]) == Some(rules[0]);
      ParseAllOf(lines[1..], rules[1..]);
      assert [rules[0]] + rules[1..] == rules;
    }
  }

  lemma ParseAllFormatted(rules: seq<Rule>)
    requires forall k | 0 <= k < |rules| :: Expressible(rules[k])
    ensures ParseAll(FormatRules(rules)) == rules
  {
    var ls := FormatRules(rules);
    forall k | 0 <= k < |rules| ensures ParseLine(ls[k]) == Some(rules[k]) {
      ParseFormattedLine(rules[k]);
    }
    ParseAllOf(ls, rules);
  }

  // ------------------------------------------------------------- the catalog

  /** Which of the ORM's root classes a declared class descends from. */
  datatype Base = EntityBase | RelationshipBase | OtherBase

  /** One class of a hierarchy: its name, whether it is instantiable, and
      the non-static, non-private properties it declares itself. */
  datatype Level = Level(name: string, instantiable: bool, declared: seq<string>)

  /** A declared class: its root, its own level, its ancestors from the
      parent upwards (stopping below OrmClass / OrmRelationship), and the
      value of its `<Class>::<Class>_keys` constant when defined. */
  datatype ClassDecl = ClassDecl(base: Base, self: Level, ancestors: seq<Level>, keys: Option<string>)

  /** The declared classes by name; class_exists is membership. */
  type Catalog = map<string, ClassDecl>

  /** is_subclass_of($class, 'Orm'). */
  predicate IsOrmSubclass(cat: Catalog, cls: string) {
    cls in cat && cat[cls].base != OtherBase
  }

  /** The abstract ancestors directly above a class, nearest first. */
  function AbstractPrefix(ls: seq<Level>): (p: seq<Level>)
    ensures |p| <= |ls| && p == ls[..|p|]
    ensures forall k | 0 <= k < |p| :: !p[k].instantiable
    ensures |p| < |ls| ==> ls[|p|].instantiable
  {
    if |ls| == 0 || ls[0].instantiable then [] else [ls[0]] + AbstractPrefix(ls[1..])
  }

  /** The levels Orm::getProperties visits: the class itself, then each
      parent while the parent is abstract. */
  function Walk(d: ClassDecl): seq<Level> {
    [d.self] + AbstractPrefix(d.ancestors)
  }

  function DeclaredOf(levels: seq<Level>): seq<string> {
    if |levels| == 0 then [] else levels[0].declared + DeclaredOf(levels[1..])
  }

  /** The first failure of the per-property checks at one level: the
      reserved 'id', then the class name, then the property name. */
  function LevelErrors(lv: Level, ps: seq<string>): Option<Error> {
    if |ps| == 0 then None
    else if ps[0] == AutoPropertyId then
      Some(InputError("Class \"" + lv.name + "\" may not contain the reserved property \"id\""))
    else if !ValidClassName(lv.name) then Some(ClassNameError(lv.name))
    else if !ValidPropertyName(ps[0]) then Some(PropertyNameError(ps[0]))
    else LevelErrors(lv, ps[1..])
  }

  function WalkProperties(levels: seq<Level>): (r: Result<seq<string>>)
  {
    if |levels| == 0 then Ok([])
    else
      match LevelErrors(levels[0], levels[0].declared)
      case Some(e) => Err(e)
      case None =>
        var rest :- WalkProperties(levels[1..]);
        Ok(levels[0].declared + rest)
  }

  /** Every property a level check accepts is a valid property name other
      than 'id'. */
  predicate CleanLevel(lv: Level) {
    forall k | 0 <= k < |lv.declared| ::
      lv.declared[k] != AutoPropertyId && ValidClassName(lv.name) && ValidPropertyName(lv.declared[k])
  }

  lemma {:induction false} LevelErrorsNone(lv: Level, ps: seq<string>)
    ensures LevelErrors(lv, ps).None? <==>
      forall k | 0 <= k < |ps| :: ps[k] != AutoPropertyId && ValidClassName(lv.name) && ValidPropertyName(ps[k])
  {
    if |ps| > 0 {
      LevelErrorsNone(lv, ps[1..]);
      assert forall k | 1 <= k < |ps| :: ps[k] == ps[1..][k - 1];
    }
  }

  lemma {:induction false} WalkPropertiesSpec(levels: seq<Level>)
    ensures WalkProperties(levels).Ok? <==> forall k | 0 <= k < |levels| :: CleanLevel(levels[k])
    ensures WalkProperties(levels).Ok? ==> WalkProperties(levels).value == DeclaredOf(levels)
  {
    if |levels| > 0 {
      LevelErrorsNone(levels[0], levels[0].declared);
      WalkPropertiesSpec(levels[1..]);
      assert forall k | 1 <= k < |levels| :: levels[k] == levels[1..][k - 1];
    }
  }

  /** Orm::getProperties over the catalog. The `$flat` argument of the
      source has no effect (see README) and is not modelled. */
  function GetProperties(cat: Catalog, cls: string): (r: Result<seq<string>>)
    ensures !IsOrmSubclass(cat, cls) ==> r.Err?
    ensures IsOrmSubclass(cat, cls) ==>
      (r.Ok? <==> forall k | 0 <= k < |Walk(cat[cls])| :: CleanLevel(Walk(cat[cls])[k]))
    ensures r.Ok? ==> r.value == DeclaredOf(Walk(cat[cls]))
    ensures r.Ok? ==> forall k | 0 <= k < |r.value| :: r.value[k] != AutoPropertyId && ValidPropertyName(r.value[k])
  {
    if !IsOrmSubclass(cat, cls) then Err(InputError("Given class is not a subclass of Orm"))
    else
      WalkPropertiesSpec(Walk(cat[cls]));
      var r := WalkProperties(Walk(cat[cls]));
      if r.Ok? then
        CleanDeclared(Walk(cat[cls]));
        r
      else r
  }

  lemma {:induction false} CleanDeclared(levels: seq<Level>)
    requires forall k | 0 <= k < |levels| :: CleanLevel(levels[k])
    ensures forall k | 0 <= k < |DeclaredOf(levels)| ::
      DeclaredOf(levels)[k] != AutoPropertyId && ValidPropertyName(DeclaredOf(levels)[k])
  {
    if |levels| > 0 {
      assert forall k | 1 <= k < |levels| :: levels[k] == levels[1..][k - 1];
      CleanDeclared(levels[1..]);
      var h := levels[0].declared;
      var t := DeclaredOf(levels[1..]);
      assert CleanLevel(levels[0]);
      forall k | 0 <= k < |h + t|
        ensures (h + t)[k] != AutoPropertyId && ValidPropertyName((h + t)[k])
      {
        if k >= |h| {
          assert (h + t)[k] == t[k - |h|];
        }
      }
    }
  }

  /** The first key in `keys` that is not in `props`. */
  function FirstMissing(keys: seq<string>, props: seq<string>): (m: Option<string>)
    ensures m.None? <==> forall k | 0 <= k < |keys| :: keys[k] in props
    ensures m.Some? ==> m.value in keys && m.value !in props
  {
    if |keys| == 0 then None
    else if keys[0] !in props then Some(keys[0])
    else
      var m := FirstMissing(keys[1..], props);
      assert forall k | 1 <= k < |keys| :: keys[k] == keys[1..][k - 1];
      m
  }

  /** Orm::getKeys: `['id']` without an `X_keys` constant; otherwise the
      comma-separated list without repeats, every one a property of the
      class. */
  function GetKeys(cat: Catalog, cls: string): (r: Result<seq<string>>)
    ensures !IsOrmSubclass(cat, cls) ==> r.Err?
    ensures IsOrmSubclass(cat, cls) && cat[cls].keys.None? ==> r == Ok([AutoPropertyId])
    ensures r.Ok? && cat[cls].keys.Some? ==>
      GetProperties(cat, cls).Ok?
      && r.value == Dedup(Split(cat[cls].keys.value, ','))
      && (forall k | 0 <= k < |r.value| :: r.value[k] in GetProperties(cat, cls).value)
    ensures r.Ok? ==> |r.value| >= 1 && NoDup(r.value)
    ensures IsOrmSubclass(cat, cls) && cat[cls].keys.Some? && GetProperties(cat, cls).Ok?
      ==> (r.Ok? <==> forall x | x in Split(cat[cls].keys.value, ',') :: x in GetProperties(cat, cls).value)
  {
    if !IsOrmSubclass(cat, cls) then Err(InputError("Supply a subclass of Orm"))
    else match cat[cls].keys
      case None => Ok([AutoPropertyId])
      case Some(list) =>
        var keys := Dedup(Split(list, ','));
        assert keys[0] in Split(list, ',');
        var props :- GetProperties(cat, cls);
        match FirstMissing(keys, props)
        case Some(key) => Err(InputError(key + " is not a member of class " + cls))
        case None =>
          assert forall x | x in Split(list, ',') :: x in keys;
          Ok(keys)
  }
}
