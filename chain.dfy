/** Orm::routeFromChain: a route given explicitly as a chain
    `A -> (R) -> B -> (R2) -> C`, checked against the destinations and
    matched step by step against the rules. */
module Chains {
  import opened Wrappers
  import opened Strings
  import opened Schema
  import opened Registry
  import opened Destinations

  /** The end of the run of characters other than `stop` starting at i. */
  function RunEnd(s: string, i: nat, stop: char): (j: nat)
    requires i <= |s|
    ensures i <= j <= |s|
    ensures forall k | i <= k < j :: s[k] != stop
    ensures j < |s| ==> s[j] == stop
    decreases |s| - i
  {
    if i == |s| || s[i] == stop then i else RunEnd(s, i + 1, stop)
  }

  lemma {:induction false} RunEndAt(s: string, i: nat, j: nat, stop: char)
    requires i <= j <= |s|
    requires forall k | i <= k < j :: s[k] != stop
    requires j < |s| ==> s[j] == stop
    ensures RunEnd(s, i, stop) == j
    decreases j - i
  {
    if i < j {
      RunEndAt(s, i + 1, j, stop);
    }
  }

  const Open: string := " -> ("
  const Close: string := ") -> "

  predicate OpenAt(s: string, i: nat) {
    i + 5 <= |s| && s[i] == ' ' && s[i + 1] == '-' && s[i + 2] == '>' && s[i + 3] == ' ' && s[i + 4] == '('
  }

  predicate CloseAt(s: string, i: nat) {
    i + 5 <= |s| && s[i] == ')' && s[i + 1] == ' ' && s[i + 2] == '-' && s[i + 3] == '>' && s[i + 4] == ' '
  }

  predicate NoChar(s: string, c: char) {
    forall k | 0 <= k < |s| :: s[k] != c
  }

  /** One `A -> (R) -> B` step of a chain. */
  datatype Step = Step(from: string, relationship: string, to: string)

  /** A step found at the head of a chain and how many characters
      precede its right-hand class. */
  datatype Parsed = Parsed(step: Step, consumed: nat)

  /** The text a step matches: `$m[0]`, the subchain of the error message. */
  function StepText(s: Step): string {
    s.from + Open + s.relationship + Close + s.to
  }

  /** The pattern `^([^ ]+) -> \(([^\)]+)\) -> ([^ ]+)` at the head of a
      chain. Each group can only end where the next literal begins, so the
      match is found by three maximal runs. */
  function ParseStep(chain: string): (r: Option<Parsed>)
    ensures r.Some? ==> 0 < r.value.consumed < |chain|
  {
    Scan(chain, 0, 0, 0)
  }

  /** The three runs of ParseStep, one per stage: `stage` says which group
      is read next, `w` and `e` where the first two groups ended. */
  function Scan(chain: string, stage: nat, w: nat, e: nat): (r: Option<Parsed>)
    requires stage <= 2
    requires stage >= 1 ==> 0 < w && OpenAt(chain, w)
    requires stage == 2 ==> w + 5 < e && CloseAt(chain, e)
    ensures r.Some? ==> 0 < r.value.consumed < |chain|
    decreases 2 - stage
  {
    if stage == 0 then
      var w' := RunEnd(chain, 0, ' ');
      if w' == 0 || !OpenAt(chain, w') then None else Scan(chain, 1, w', 0)
    else if stage == 1 then
      var e' := RunEnd(chain, w + 5, ')');
      if e' == w + 5 || !CloseAt(chain, e') then None else Scan(chain, 2, w, e')
    else
      var z := RunEnd(chain, e + 5, ' ');
      if z == e + 5 then None
      else Some(Parsed(Step(chain[..w], chain[w + 5..e], chain[e + 5..z]), e + 5))
  }

  /** What a successful match says about the chain: the consumed text is
      `A -> (R) -> `, the classes hold no space and the relationship no
      closing parenthesis, and the rest of the chain begins with the whole
      right-hand class. */
  lemma ParseStepShape(chain: string)
    requires ParseStep(chain).Some?
    ensures var p := ParseStep(chain).value; var s := p.step;
      |s.from| > 0 && |s.relationship| > 0 && |s.to| > 0
      && NoChar(s.from, ' ') && NoChar(s.relationship, ')') && NoChar(s.to, ' ')
      && p.consumed == |s.from| + |s.relationship| + 10
      && chain[..p.consumed] == s.from + Open + s.relationship + Close
      && RunEnd(chain[p.consumed..], 0, ' ') == |s.to|
      && chain[p.consumed..][..|s.to|] == s.to
  {
    var w := RunEnd(chain, 0, ' ');
    assert Scan(chain, 0, 0, 0) == Scan(chain, 1, w, 0);
    var e := RunEnd(chain, w + 5, ')');
    assert Scan(chain, 1, w, 0) == Scan(chain, 2, w, e);
    var z := RunEnd(chain, e + 5, ' ');
    HeadShape(chain, w, e);
    RestShape(chain, e + 5, z);
  }

  /** The text before the right-hand class of a match at w and e. */
  lemma HeadShape(chain: string, w: nat, e: nat)
    requires 0 < w && OpenAt(chain, w) && w + 5 < e && CloseAt(chain, e)
    requires forall k | 0 <= k < w :: chain[k] != ' '
    requires forall k | w + 5 <= k < e :: chain[k] != ')'
    ensures NoChar(chain[..w], ' ') && NoChar(chain[w + 5..e], ')')
    ensures chain[..e + 5] == chain[..w] + Open + chain[w + 5..e] + Close
  {
    assert chain[w..w + 5] == Open;
    assert chain[e..e + 5] == Close;
    assert chain[..e + 5] == chain[..w] + chain[w..w + 5] + chain[w + 5..e] + chain[e..e + 5];
  }

  /** The right-hand class of a match, read from the rest of the chain. */
  lemma RestShape(chain: string, i: nat, z: nat)
    requires i < z <= |chain|
    requires forall k | i <= k < z :: chain[k] != ' '
    requires z < |chain| ==> chain[z] == ' '
    ensures NoChar(chain[i..z], ' ')
    ensures RunEnd(chain[i..], 0, ' ') == z - i && chain[i..][..z - i] == chain[i..z]
  {
    var rest := chain[i..];
    forall k | 0 <= k < z - i ensures rest[k] != ' ' {
      assert rest[k] == chain[i + k];
    }
    if z < |chain| {
      assert rest[z - i] == chain[z];
    }
    RunEndAt(rest, 0, z - i, ' ');
  }

  /** Every step the loop of Orm::routeFromChain finds, in order. */
  function Steps(chain: string): seq<Step>
    decreases |chain|
  {
    match ParseStep(chain)
    case None => []
    case Some(p) => [p.step] + Steps(chain[p.consumed..])
  }

  /** Each step starts at the class where the step before it ended. */
  lemma {:induction false} StepsLinked(chain: string)
    ensures forall k | 0 < k < |Steps(chain)| :: Steps(chain)[k].from == Steps(chain)[k - 1].to
    decreases |chain|
  {
    match ParseStep(chain)
    case None =>
    case Some(p) =>
      var rest := chain[p.consumed..];
      StepsLinked(rest);
      ParseStepShape(chain);
      if ParseStep(rest).Some? {
        assert Steps(rest)[0].from == rest[..RunEnd(rest, 0, ' ')];
      }
  }

  // ------------------------------------------------ writing a chain out

  /** One hop of a chain: a relationship and the class it leads to. */
  datatype Hop = Hop(relationship: string, to: string)

  /** The chain `first -> (R1) -> C1 -> (R2) -> C2 ...`. */
  function Render(first: string, hops: seq<Hop>): string
    decreases |hops|
  {
    if |hops| == 0 then first
    else first + Open + hops[0].relationship + Close + Render(hops[0].to, hops[1..])
  }

  /** The steps a chain of hops spells. */
  function StepsOf(first: string, hops: seq<Hop>): seq<Step>
    decreases |hops|
  {
    if |hops| == 0 then [] else [Step(first, hops[0].relationship, hops[0].to)] + StepsOf(hops[0].to, hops[1..])
  }

  /** Names a chain can carry: non-empty class names without spaces and
      non-empty relationship names without a closing parenthesis. */
  predicate Writable(first: string, hops: seq<Hop>) {
    |first| > 0 && NoChar(first, ' ')
    && forall k | 0 <= k < |hops| ::
      |hops[k].relationship| > 0 && NoChar(hops[k].relationship, ')')
      && |hops[k].to| > 0 && NoChar(hops[k].to, ' ')
  }

  lemma {:induction false} RenderStart(first: string, hops: seq<Hop>)
    requires Writable(first, hops)
    ensures |Render(first, hops)| >= |first|
    ensures Render(first, hops)[..|first|] == first
    ensures |hops| == 0 ==> Render(first, hops) == first
    ensures |hops| > 0 ==> OpenAt(Render(first, hops), |first|)
  {
    if |hops| > 0 {
      var t := Render(first, hops);
      var tail := hops[0].relationship + Close + Render(hops[0].to, hops[1..]);
      assert t == first + (Open + tail);
      assert t[..|first|] == first;
      assert (Open + tail)[..5] == Open;
      forall k | 0 <= k < 5 ensures t[|first| + k] == Open[k] {
        assert t[|first| + k] == (Open + tail)[k];
      }
    }
  }

  lemma NoCharSlice(t: string, i: nat, j: nat, c: char)
    requires i <= j <= |t| && NoChar(t[i..j], c)
    ensures forall k | i <= k < j :: t[k] != c
  {
    assert forall k | i <= k < j :: t[k] == t[i..j][k - i];
  }

  lemma OpenSlice(t: string, w: nat)
    requires w + 5 <= |t| && t[w..w + 5] == Open
    ensures OpenAt(t, w)
  {
    assert forall k | w <= k < w + 5 :: t[k] == t[w..w + 5][k - w];
  }

  lemma CloseSlice(t: string, e: nat)
    requires e + 5 <= |t| && t[e..e + 5] == Close
    ensures CloseAt(t, e)
  {
    assert forall k | e <= k < e + 5 :: t[k] == t[e..e + 5][k - e];
  }

  /** The first run of ParseStep ends at w. */
  lemma ScanFrom(t: string, w: nat)
    requires 0 < w <= |t| && OpenAt(t, w)
    requires forall k | 0 <= k < w :: t[k] != ' '
    ensures Scan(t, 0, 0, 0) == Scan(t, 1, w, 0)
  {
    RunEndAt(t, 0, w, ' ');
  }

  /** The second run of ParseStep ends at e. */
  lemma ScanRelationship(t: string, w: nat, e: nat)
    requires 0 < w && OpenAt(t, w) && w + 5 < e && CloseAt(t, e)
    requires forall k | w + 5 <= k < e :: t[k] != ')'
    ensures Scan(t, 1, w, 0) == Scan(t, 2, w, e)
  {
    RunEndAt(t, w + 5, e, ')');
  }

  /** The third run of ParseStep ends at z. */
  lemma ScanTo(t: string, w: nat, e: nat, z: nat)
    requires 0 < w && OpenAt(t, w) && w + 5 < e && CloseAt(t, e) && e + 5 < z <= |t|
    requires forall k | e + 5 <= k < z :: t[k] != ' '
    requires z < |t| ==> t[z] == ' '
    ensures Scan(t, 2, w, e) == Some(Parsed(Step(t[..w], t[w + 5..e], t[e + 5..z]), e + 5))
  {
    RunEndAt(t, e + 5, z, ' ');
  }

  /** The three runs of ParseStep, given the three groups they find. */
  lemma ParseStepAt(t: string, a: string, r: string, b: string)
    requires |a| > 0 && |r| > 0 && |b| > 0
    requires |a| + |r| + |b| + 10 <= |t|
    requires t[..|a|] == a && t[|a|..|a| + 5] == Open && t[|a| + 5..|a| + 5 + |r|] == r
    requires t[|a| + 5 + |r|..|a| + |r| + 10] == Close && t[|a| + |r| + 10..|a| + |r| + 10 + |b|] == b
    requires NoChar(a, ' ') && NoChar(r, ')') && NoChar(b, ' ')
    requires |a| + |r| + 10 + |b| < |t| ==> t[|a| + |r| + 10 + |b|] == ' '
    ensures ParseStep(t) == Some(Parsed(Step(a, r, b), |a| + |r| + 10))
  {
    var w := |a|;
    var e := w + 5 + |r|;
    var z := e + 5 + |b|;
    NoCharSlice(t, 0, w, ' ');
    OpenSlice(t, w);
    NoCharSlice(t, w + 5, e, ')');
    CloseSlice(t, e);
    NoCharSlice(t, e + 5, z, ' ');
    ScanFrom(t, w);
    ScanRelationship(t, w, e);
    ScanTo(t, w, e, z);
  }

  /** Where the pieces of a concatenation sit. */
  lemma Piece(t: string, a: string, m: string, b: string)
    requires t == a + m + b
    ensures t[..|a|] == a && t[|a|..|a| + |m|] == m && t[|a| + |m|..] == b
  {
  }

  /** Where the pieces of `A -> (R) -> ` + rest sit. */
  lemma HeadPieces(first: string, rel: string, rest: string)
    ensures var t := first + Open + rel + Close + rest;
      var w := |first|; var e := w + 5 + |rel|;
      |t| == e + 5 + |rest|
      && t[..w] == first && t[w..w + 5] == Open && t[w + 5..e] == rel && t[e..e + 5] == Close
      && t[e + 5..] == rest
  {
    var t := first + Open + rel + Close + rest;
    Piece(t, first, Open, rel + Close + rest);
    Piece(t, first + Open, rel, Close + rest);
    Piece(t, first + Open + rel, Close, rest);
  }

  /** The class at the start of the rest of a chain, and what follows it. */
  lemma RestStart(t: string, i: nat, to: string)
    requires i <= |t| && |t[i..]| >= |to| && t[i..][..|to|] == to
    requires |t[i..]| > |to| ==> t[i..][|to|] == ' '
    ensures t[i..i + |to|] == to && (i + |to| < |t| ==> t[i + |to|] == ' ')
  {
    assert t[i..i + |to|] == t[i..][..|to|];
    if i + |to| < |t| {
      assert t[i + |to|] == t[i..][|to|];
    }
  }

  /** The match at the head of `A -> (R) -> ` followed by text that
      begins with the whole class B. */
  lemma ParseHead(t: string, first: string, rel: string, to: string, rest: string)
    requires t == first + Open + rel + Close + rest
    requires |first| > 0 && |rel| > 0 && |to| > 0
    requires NoChar(first, ' ') && NoChar(rel, ')') && NoChar(to, ' ')
    requires |rest| >= |to| && rest[..|to|] == to && (|rest| > |to| ==> rest[|to|] == ' ')
    ensures ParseStep(t) == Some(Parsed(Step(first, rel, to), |first| + |rel| + 10))
    ensures t[|first| + |rel| + 10..] == rest
  {
    HeadPieces(first, rel, rest);
    RestStart(t, |first| + |rel| + 10, to);
    ParseStepAt(t, first, rel, to);
  }

  lemma WritableTail(first: string, hops: seq<Hop>)
    requires |hops| > 0 && Writable(first, hops)
    ensures Writable(hops[0].to, hops[1..])
  {
    assert forall k | 0 <= k < |hops| - 1 :: hops[1..][k] == hops[k + 1];
  }

  /** A written chain begins with its whole first class. */
  lemma RenderHead(first: string, hops: seq<Hop>)
    requires Writable(first, hops)
    ensures var t := Render(first, hops);
      |t| >= |first| && t[..|first|] == first && (|t| > |first| ==> t[|first|] == ' ')
  {
    RenderStart(first, hops);
  }

  /** The match at the head of a written chain is its first hop. */
  lemma ParseFirstHop(first: string, hops: seq<Hop>)
    requires |hops| > 0 && Writable(first, hops)
    ensures ParseStep(Render(first, hops))
      == Some(Parsed(Step(first, hops[0].relationship, hops[0].to), |first| + |hops[0].relationship| + 10))
  {
    var h := hops[0];
    assert |h.relationship| > 0 && NoChar(h.relationship, ')') && |h.to| > 0 && NoChar(h.to, ' ');
    WritableTail(first, hops);
    var rest := Render(h.to, hops[1..]);
    RenderHead(h.to, hops[1..]);
    ParseHead(Render(first, hops), first, h.relationship, h.to, rest);
  }

  /** What the first hop leaves of a written chain is the chain of the
      remaining hops. */
  lemma RenderRest(first: string, hops: seq<Hop>)
    requires |hops| > 0
    ensures Render(first, hops)[|first| + |hops[0].relationship| + 10..] == Render(hops[0].to, hops[1..])
  {
    var rel := hops[0].relationship;
    var rest := Render(hops[0].to, hops[1..]);
    Piece(Render(first, hops), first + Open + rel, Close, rest);
  }

  /** Reading a written chain back gives exactly its hops. */
  lemma {:induction false} StepsOfRender(first: string, hops: seq<Hop>)
    requires Writable(first, hops)
    ensures Steps(Render(first, hops)) == StepsOf(first, hops)
    decreases |hops|
  {
    if |hops| == 0 {
      RenderStart(first, hops);
      var w := RunEnd(first, 0, ' ');
      RunEndAt(first, 0, |first|, ' ');
    } else {
      WritableTail(first, hops);
      ParseFirstHop(first, hops);
      RenderRest(first, hops);
      StepsOfRender(hops[0].to, hops[1..]);
    }
  }

  // ------------------------------------------------ matching the rules

  /** A rule with the step's relationship joining its two classes, in
      either direction. */
  predicate Connects(rule: Rule, s: Step) {
    rule.relationship == s.relationship
    && ((rule.input == s.from && rule.output == s.to) || (rule.input == s.to && rule.output == s.from))
  }

  /** The rules the inner loop appends for one step, in rule order. */
  function Matching(rules: seq<Rule>, s: Step): (m: seq<Rule>)
    ensures forall k | 0 <= k < |m| :: m[k] in rules && Connects(m[k], s)
    ensures |m| == 0 <==> forall k | 0 <= k < |rules| :: !Connects(rules[k], s)
    decreases |rules|
  {
    if |rules| == 0 then []
    else
      var init := Matching(rules[..|rules| - 1], s);
      var last := rules[|rules| - 1];
      assert forall k | 0 <= k < |rules| - 1 :: rules[k] == rules[..|rules| - 1][k];
      init + (if Connects(last, s) then [last] else [])
  }

  /** With relationship names unique, as Orm::setup demands, at most one
      rule matches a step. */
  lemma {:induction false} MatchingUnique(rules: seq<Rule>, s: Step)
    requires NoDup(RelationshipsOf(rules))
    ensures |Matching(rules, s)| <= 1
    decreases |rules|
  {
    if |rules| > 0 {
      var init := rules[..|rules| - 1];
      assert NoDup(RelationshipsOf(init)) by {
        forall i, j | 0 <= i < j < |init|
          ensures RelationshipsOf(init)[i] != RelationshipsOf(init)[j]
        {
          assert RelationshipsOf(init)[i] == RelationshipsOf(rules)[i];
          assert RelationshipsOf(init)[j] == RelationshipsOf(rules)[j];
        }
      }
      MatchingUnique(init, s);
      var last := rules[|rules| - 1];
      if Connects(last, s) {
        forall k | 0 <= k < |init| ensures !Connects(init[k], s) {
          assert RelationshipsOf(rules)[k] != RelationshipsOf(rules)[|rules| - 1];
        }
      }
    }
  }

  function NoRuleError(s: Step): Error {
    InputError("No defined rule was found to match the subchain \"" + StepText(s) + "\"")
  }

  /** The rules matched for a list of steps: every step must match at
      least one rule. */
  function StepsRoute(rules: seq<Rule>, steps: seq<Step>): (r: Result<seq<Rule>>)
    decreases |steps|
  {
    if |steps| == 0 then Ok([])
    else
      var m := Matching(rules, steps[0]);
      if |m| == 0 then Err(NoRuleError(steps[0]))
      else
        var rest :- StepsRoute(rules, steps[1..]);
        Ok(m + rest)
  }

  /** The loop of Orm::routeFromChain on what is left of the chain. */
  function ChainSteps(rules: seq<Rule>, chain: string): Result<seq<Rule>>
    decreases |chain|
  {
    match ParseStep(chain)
    case None => Ok([])
    case Some(p) =>
      var m := Matching(rules, p.step);
      if |m| == 0 then Err(NoRuleError(p.step))
      else
        var rest :- ChainSteps(rules, chain[p.consumed..]);
        Ok(m + rest)
  }

  lemma {:induction false} ChainStepsOfSteps(rules: seq<Rule>, chain: string)
    ensures ChainSteps(rules, chain) == StepsRoute(rules, Steps(chain))
    decreases |chain|
  {
    match ParseStep(chain)
    case None =>
    case Some(p) =>
      ChainStepsOfSteps(rules, chain[p.consumed..]);
      assert Steps(chain)[1..] == Steps(chain[p.consumed..]);
  }

  /** The steps succeed exactly when each matches a rule. */
  lemma {:induction false} StepsRouteOk(rules: seq<Rule>, steps: seq<Step>)
    ensures StepsRoute(rules, steps).Ok? <==> forall k | 0 <= k < |steps| :: |Matching(rules, steps[k])| > 0
    decreases |steps|
  {
    if |steps| > 0 {
      StepsRouteOk(rules, steps[1..]);
      assert forall k | 1 <= k < |steps| :: steps[k] == steps[1..][k - 1];
    }
  }

  /** A failure names the first step without a match. */
  lemma {:induction false} StepsRouteErr(rules: seq<Rule>, steps: seq<Step>)
    requires StepsRoute(rules, steps).Err?
    ensures exists k | 0 <= k < |steps| ::
      |Matching(rules, steps[k])| == 0 && StepsRoute(rules, steps).error == NoRuleError(steps[k])
      && forall j | 0 <= j < k :: |Matching(rules, steps[j])| > 0
    decreases |steps|
  {
    if |Matching(rules, steps[0])| > 0 {
      var tail := steps[1..];
      StepsRouteErr(rules, tail);
      var k :| 0 <= k < |tail| && |Matching(rules, tail[k])| == 0
        && StepsRoute(rules, tail).error == NoRuleError(tail[k])
        && forall j | 0 <= j < k :: |Matching(rules, tail[j])| > 0;
      assert forall j | 1 <= j < k + 1 :: steps[j] == tail[j - 1];
      assert steps[k + 1] == tail[k];
    }
  }

  /** Every rule of a successful route joins the classes of some step. */
  lemma {:induction false} StepsRouteRules(rules: seq<Rule>, steps: seq<Step>)
    requires StepsRoute(rules, steps).Ok?
    ensures forall x | x in StepsRoute(rules, steps).value ::
      x in rules && exists k | 0 <= k < |steps| :: Connects(x, steps[k])
    decreases |steps|
  {
    if |steps| > 0 {
      var tail := steps[1..];
      StepsRouteRules(rules, tail);
      var m := Matching(rules, steps[0]);
      var rest := StepsRoute(rules, tail).value;
      assert StepsRoute(rules, steps).value == m + rest;
      forall x | x in m + rest ensures x in rules && exists k | 0 <= k < |steps| :: Connects(x, steps[k]) {
        if x in m {
          var i :| 0 <= i < |m| && m[i] == x;
          assert Connects(x, steps[0]);
        } else {
          var k :| 0 <= k < |tail| && Connects(x, tail[k]);
          assert Connects(x, steps[k + 1]);
        }
      }
    }
  }

  /** With unique relationship names the route has exactly one rule per
      step, the k-th joining the classes of the k-th step. */
  lemma {:induction false} StepsRouteOnePerStep(rules: seq<Rule>, steps: seq<Step>)
    requires NoDup(RelationshipsOf(rules))
    requires StepsRoute(rules, steps).Ok?
    ensures var p := StepsRoute(rules, steps).value;
      |p| == |steps| && forall k | 0 <= k < |steps| :: p[k] in rules && Connects(p[k], steps[k])
    decreases |steps|
  {
    if |steps| > 0 {
      MatchingUnique(rules, steps[0]);
      StepsRouteOnePerStep(rules, steps[1..]);
      var m := Matching(rules, steps[0]);
      var rest := StepsRoute(rules, steps[1..]).value;
      assert StepsRoute(rules, steps).value == m + rest;
      OneMore(rules, m, rest, steps);
    }
  }

  lemma OneMore(rules: seq<Rule>, m: seq<Rule>, rest: seq<Rule>, steps: seq<Step>)
    requires |m| == 1 && m[0] in rules && |steps| == |rest| + 1 && Connects(m[0], steps[0])
    requires forall k | 0 <= k < |rest| :: rest[k] in rules && Connects(rest[k], steps[1..][k])
    ensures forall k | 0 <= k < |steps| :: (m + rest)[k] in rules && Connects((m + rest)[k], steps[k])
  {
    forall k | 1 <= k < |steps| ensures (m + rest)[k] in rules && Connects((m + rest)[k], steps[k]) {
      assert (m + rest)[k] == rest[k - 1];
      assert steps[k] == steps[1..][k - 1];
    }
  }

  // --------------------------------------------- accounting for dests

  predicate OccursAt(s: string, t: string, k: nat) {
    k + |t| <= |s| && s[k..k + |t|] == t
  }

  /** preg_match('#t#', s) for a pattern without special characters. */
  predicate Contains(s: string, t: string) {
    exists k | 0 <= k <= |s| :: OccursAt(s, t, k)
  }

  predicate WordAt(s: string, w: string, k: nat) {
    OccursAt(s, w, k) && (k == 0 || s[k - 1] == ' ') && (k + |w| == |s| || s[k + |w|] == ' ')
  }

  /** preg_match('#(^| )w( |$)#', s): `w` is one of the space-separated
      words of `s`. */
  predicate WordIn(s: string, w: string) {
    exists k | 0 <= k <= |s| :: WordAt(s, w, k)
  }

  function NotAccounted(cls: string): Error {
    InputError("Destination \"" + cls + "\" is not accounted for in the given chain")
  }

  function Unregistered(cls: string): Error {
    InputError("The destination \"" + cls + "\" is registered neither as a Class or Relationship")
  }

  /** The check of one destination against the chain. */
  function DestCheck(st: SchemaState, chain: string, d: Dest): Option<Error> {
    var c := ClassOf(d);
    if IsIRelationship(st, c) then
      (if Contains(chain, "(" + c + ")") then None else Some(NotAccounted(c)))
    else if IsClass(st, c) then
      (if WordIn(chain, c) then None else Some(NotAccounted(c)))
    else Some(Unregistered(c))
  }

  /** The first destination that fails its check. */
  function ChainCheck(st: SchemaState, chain: string, dests: seq<Dest>): Option<Error>
    decreases |dests|
  {
    if |dests| == 0 then None
    else
      var e := DestCheck(st, chain, dests[0]);
      if e.Some? then e else ChainCheck(st, chain, dests[1..])
  }

  /** What a destination passing its check is. */
  predicate AccountedFor(st: SchemaState, chain: string, d: Dest) {
    var c := ClassOf(d);
    (IsIRelationship(st, c) && Contains(chain, "(" + c + ")"))
    || (!IsIRelationship(st, c) && IsClass(st, c) && WordIn(chain, c))
  }

  lemma {:induction false} ChainCheckSpec(st: SchemaState, chain: string, dests: seq<Dest>)
    ensures ChainCheck(st, chain, dests).None? <==> forall k | 0 <= k < |dests| :: AccountedFor(st, chain, dests[k])
    decreases |dests|
  {
    if |dests| > 0 {
      ChainCheckSpec(st, chain, dests[1..]);
      assert forall k | 1 <= k < |dests| :: dests[k] == dests[1..][k - 1];
    }
  }

  /** Orm::routeFromChain as a value: the destination checks, then the
      steps of the chain. */
  function ChainRoute(st: SchemaState, chain: string, dests: seq<Dest>): Result<seq<Rule>> {
    var e := ChainCheck(st, chain, dests);
    if e.Some? then Err(e.value) else ChainSteps(st.rules, chain)
  }

  /** Orm::routeFromChain succeeds exactly when every destination is
      accounted for in the chain and every step of the chain matches a rule.
      Its rules then each join the two classes of a step; with unique
      relationship names there is exactly one per step, in step order. */
  lemma ChainRouteSpec(st: SchemaState, chain: string, dests: seq<Dest>)
    ensures var steps := Steps(chain);
      ChainRoute(st, chain, dests).Ok? <==>
        (forall k | 0 <= k < |dests| :: AccountedFor(st, chain, dests[k]))
        && forall k | 0 <= k < |steps| :: |Matching(st.rules, steps[k])| > 0
    ensures var steps := Steps(chain);
      ChainRoute(st, chain, dests).Ok? ==> forall x | x in ChainRoute(st, chain, dests).value ::
        x in st.rules && exists k | 0 <= k < |steps| :: Connects(x, steps[k])
    ensures var steps := Steps(chain); var r := ChainRoute(st, chain, dests);
      r.Ok? && NoDup(RelationshipsOf(st.rules)) ==>
        |r.value| == |steps| && forall k | 0 <= k < |steps| :: Connects(r.value[k], steps[k])
  {
    ChainCheckSpec(st, chain, dests);
    ChainStepsOfSteps(st.rules, chain);
    StepsRouteOk(st.rules, Steps(chain));
    if ChainRoute(st, chain, dests).Ok? {
      StepsRouteRules(st.rules, Steps(chain));
      if NoDup(RelationshipsOf(st.rules)) {
        StepsRouteOnePerStep(st.rules, Steps(chain));
      }
    }
  }

  /** Orm::routeFromChain. */
  method RouteFromChain(st: SchemaState, chain: string, dests: seq<Dest>) returns (r: Result<seq<Rule>>)
    ensures r == ChainRoute(st, chain, dests)
  {
    for i := 0 to |dests|
      invariant ChainCheck(st, chain, dests) == ChainCheck(st, chain, dests[i..])
    {
      assert dests[i..][1..] == dests[i + 1..];
      var c := ClassOf(dests[i]);
      if c in st.irelationships {
        if !Contains(chain, "(" + c + ")") {
          return Err(NotAccounted(c));
        }
      } else if c in st.classes {
        if !WordIn(chain, c) {
          return Err(NotAccounted(c));
        }
      } else {
        return Err(Unregistered(c));
      }
    }
    assert dests[|dests|..] == [];
    var route: seq<Rule> := [];
    var rest := chain;
    assert [] + [] == route;
    PrefixedEmpty(ChainSteps(st.rules, chain));
    while ParseStep(rest).Some?
      invariant ChainSteps(st.rules, chain) == Prefixed(route, ChainSteps(st.rules, rest))
      decreases |rest|
    {
      var p := ParseStep(rest).value;
      var matched := MatchStep(st.rules, p.step);
      if |matched| == 0 {
        return Err(NoRuleError(p.step));
      }
      PrefixedAppend(route, matched, ChainSteps(st.rules, rest[p.consumed..]));
      route := route + matched;
      rest := rest[p.consumed..];
    }
    assert route + [] == route;
    return Ok(route);
  }

  /** The inner loop of Orm::routeFromChain: every rule joining the classes
      of one step with its relationship, in rule order. */
  method MatchStep(rules: seq<Rule>, s: Step) returns (m: seq<Rule>)
    ensures m == Matching(rules, s)
  {
    m := [];
    for j := 0 to |rules|
      invariant m == Matching(rules[..j], s)
    {
      assert rules[..j + 1][..j] == rules[..j];
      var rule := rules[j];
      if rule.relationship == s.relationship
        && ((rule.input == s.from && rule.output == s.to) || (rule.input == s.to && rule.output == s.from))
      {
        m := m + [rule];
      }
    }
    assert rules[..|rules|] == rules;
  }

  lemma PrefixedEmpty(r: Result<seq<Rule>>)
    ensures Prefixed([], r) == r
  {
    if r.Ok? {
      assert [] + r.value == r.value;
    }
  }

  /** A route prefix in front of the outcome of the remaining steps. */
  function Prefixed(prefix: seq<Rule>, r: Result<seq<Rule>>): Result<seq<Rule>> {
    if r.Ok? then Ok(prefix + r.value) else r
  }

  lemma PrefixedAppend(a: seq<Rule>, b: seq<Rule>, r: Result<seq<Rule>>)
    ensures Prefixed(a, if r.Ok? then Ok(b + r.value) else r) == Prefixed(a + b, r)
  {
    if r.Ok? {
      assert a + (b + r.value) == (a + b) + r.value;
    }
  }
}
