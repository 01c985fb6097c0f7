/** The handful of PHP string primitives the ORM core relies on: character
    classes of its regular expressions, implode, explode, array_unique,
    strcmp and integer formatting. */
module Strings {

  predicate IsUpper(c: char) { 'A' <= c <= 'Z' }
  predicate IsLower(c: char) { 'a' <= c <= 'z' }
  predicate IsDigit(c: char) { '0' <= c <= '9' }
  predicate IsAlpha(c: char) { IsUpper(c) || IsLower(c) }
  predicate IsAlnum(c: char) { IsAlpha(c) || IsDigit(c) }

  /** PCRE's \w (no locale): letters, digits and the underscore. */
  predicate IsWordChar(c: char) { IsAlnum(c) || c == '_' }

  /** PCRE's \s, which is also the default delimiter set of PHP's ucwords:
      space, tab, line feed, carriage return, vertical tab and form feed. */
  predicate IsSpace(c: char) {
    c == ' ' || c == '\t' || c == '\n' || c == '\r' || c == 11 as char || c == 12 as char
  }

  /** strtolower / toupper on one ASCII character. */
  function ToLower(c: char): char {
    if IsUpper(c) then (c as int + 32) as char else c
  }

  function ToUpper(c: char): char {
    if IsLower(c) then (c as int - 32) as char else c
  }

  lemma CaseRoundTrip(c: char)
    ensures IsUpper(c) ==> IsLower(ToLower(c)) && ToUpper(ToLower(c)) == c
    ensures IsLower(c) ==> IsUpper(ToUpper(c)) && ToLower(ToUpper(c)) == c
    ensures ToUpper(ToUpper(c)) == ToUpper(c)
    ensures IsSpace(ToUpper(c)) <==> IsSpace(c)
    ensures ToUpper(c) == '_' <==> c == '_'
    ensures ToUpper(c) == ' ' <==> c == ' '
  {
  }

  /** PHP's implode(sep, parts). */
  function Join(parts: seq<string>, sep: string): string {
    if |parts| == 0 then ""
    else if |parts| == 1 then parts[0]
    else parts[0] + sep + Join(parts[1..], sep)
  }

  predicate NoDoubleUnderscore(s: string) {
    forall i | 0 <= i < |s| - 1 :: !(s[i] == '_' && s[i + 1] == '_')
  }

  predicate EndsWithUnderscore(s: string) {
    |s| > 0 && s[|s| - 1] == '_'
  }

  /** PHP's explode('__', s): the pieces between the non-overlapping
      occurrences of "__", found from left to right. */
  function Explode(s: string): (parts: seq<string>)
    ensures |parts| >= 1
  {
    if |s| < 2 then [s]
    else if s[0] == '_' && s[1] == '_' then [""] + Explode(s[2..])
    else
      var rest := Explode(s[1..]);
      [[s[0]] + rest[0]] + rest[1..]
  }

  lemma {:induction false} ExplodeSingle(p: string)
    requires NoDoubleUnderscore(p)
    ensures Explode(p) == [p]
  {
    if |p| >= 2 {
      assert !(p[0] == '_' && p[1] == '_');
      ExplodeSingle(p[1..]);
      assert [p[0]] + p[1..] == p;
    }
  }

  lemma {:induction false} ExplodeCons(p: string, t: string)
    requires NoDoubleUnderscore(p) && !EndsWithUnderscore(p)
    ensures Explode(p + "__" + t) == [p] + Explode(t)
  {
    var s := p + "__" + t;
    if |p| == 0 {
      assert s == "__" + t;
      assert s[2..] == t;
    } else {
      assert s[0] == p[0];
      if |p| == 1 {
        assert s[1] == '_';
        assert p[0] != '_';
      } else {
        assert s[1] == p[1];
        assert !(p[0] == '_' && p[1] == '_');
      }
      var p' := p[1..];
      assert s[1..] == p' + "__" + t;
      assert NoDoubleUnderscore(p') by {
        forall i | 0 <= i < |p'| - 1 ensures !(p'[i] == '_' && p'[i + 1] == '_') {
          assert p'[i] == p[i + 1] && p'[i + 1] == p[i + 2];
        }
      }
      ExplodeCons(p', t);
      assert [p[0]] + p' == p;
    }
  }

  /** The pieces a "__"-joined name can be cut back into: none holds "__",
      and none but the last ends with an underscore. */
  predicate Separable(parts: seq<string>) {
    forall k | 0 <= k < |parts| ::
      NoDoubleUnderscore(parts[k]) && (k < |parts| - 1 ==> !EndsWithUnderscore(parts[k]))
  }

  lemma {:induction false} ExplodeJoin(parts: seq<string>)
    requires |parts| >= 1 && Separable(parts)
    ensures Explode(Join(parts, "__")) == parts
  {
    if |parts| == 1 {
      ExplodeSingle(parts[0]);
    } else {
      assert Separable(parts[1..]) by {
        forall k | 0 <= k < |parts[1..]|
          ensures NoDoubleUnderscore(parts[1..][k])
          ensures k < |parts[1..]| - 1 ==> !EndsWithUnderscore(parts[1..][k])
        {
          assert parts[1..][k] == parts[k + 1];
        }
      }
      ExplodeJoin(parts[1..]);
      assert Join(parts, "__") == parts[0] + "__" + Join(parts[1..], "__");
      ExplodeCons(parts[0], Join(parts[1..], "__"));
      assert [parts[0]] + parts[1..] == parts;
    }
  }

  /** The first piece of explode('__', t) begins where t begins, and is
      empty only when t begins with the separator. */
  lemma ExplodeHead(t: string)
    ensures |Explode(t)[0]| > 0 ==> Explode(t)[0][0] == t[0]
    ensures |Explode(t)[0]| == 0 && |Explode(t)| > 1 ==> |t| >= 2 && t[0] == '_' && t[1] == '_'
  {
  }

  /** The pieces explode('__', s) gives can be joined and cut again. */
  lemma {:induction false} ExplodeSeparable(s: string)
    ensures Separable(Explode(s))
    decreases |s|
  {
    if |s| >= 2 {
      if s[0] == '_' && s[1] == '_' {
        ExplodeSeparable(s[2..]);
        var rest := Explode(s[2..]);
        assert Explode(s) == [""] + rest;
        forall k | 1 <= k < |Explode(s)|
          ensures Explode(s)[k] == rest[k - 1]
        {
        }
      } else {
        ExplodeSeparable(s[1..]);
        ExplodeHead(s[1..]);
        var rest := Explode(s[1..]);
        var first := [s[0]] + rest[0];
        assert Explode(s) == [first] + rest[1..];
        assert NoDoubleUnderscore(first) by {
          forall i | 0 <= i < |first| - 1
            ensures !(first[i] == '_' && first[i + 1] == '_')
          {
            if i > 0 {
              assert first[i] == rest[0][i - 1] && first[i + 1] == rest[0][i];
            }
          }
        }
        if |rest| > 1 {
          assert !EndsWithUnderscore(first) by {
            if |rest[0]| > 0 {
              assert first[|first| - 1] == rest[0][|rest[0]| - 1];
            }
          }
        }
        forall k | 1 <= k < |Explode(s)|
          ensures Explode(s)[k] == rest[k]
        {
        }
      }
    }
  }

  /** PHP's explode(sep, s) for a one-character separator. */
  function Split(s: string, sep: char): (parts: seq<string>)
    ensures |parts| >= 1
  {
    if |s| == 0 then [""]
    else
      var rest := Split(s[1..], sep);
      if s[0] == sep then [""] + rest else [[s[0]] + rest[0]] + rest[1..]
  }

  lemma {:induction false} SplitSingle(p: string, sep: char)
    requires sep !in p
    ensures Split(p, sep) == [p]
  {
    if |p| > 0 {
      assert sep != p[0];
      assert sep !in p[1..];
      SplitSingle(p[1..], sep);
      assert [p[0]] + p[1..] == p;
    }
  }

  lemma {:induction false} SplitCons(p: string, t: string, sep: char)
    requires sep !in p
    ensures Split(p + [sep] + t, sep) == [p] + Split(t, sep)
  {
    var s := p + [sep] + t;
    if |p| == 0 {
      assert s[1..] == t;
    } else {
      assert s[0] == p[0] && p[0] != sep;
      assert s[1..] == p[1..] + [sep] + t;
      assert sep !in p[1..];
      SplitCons(p[1..], t, sep);
      assert [p[0]] + p[1..] == p;
    }
  }

  /** explode(sep, implode(sep, parts)) == parts when no part holds sep. */
  lemma {:induction false} SplitJoin(parts: seq<string>, sep: char)
    requires |parts| >= 1
    requires forall k | 0 <= k < |parts| :: sep !in parts[k]
    ensures Split(Join(parts, [sep]), sep) == parts
  {
    if |parts| == 1 {
      SplitSingle(parts[0], sep);
    } else {
      assert forall k | 0 <= k < |parts[1..]| :: parts[1..][k] == parts[k + 1];
      SplitJoin(parts[1..], sep);
      SplitCons(parts[0], Join(parts[1..], [sep]), sep);
      assert [parts[0]] + parts[1..] == parts;
    }
  }

  lemma {:induction false} JoinExcludes(parts: seq<string>, sep: string, c: char)
    requires c !in sep
    requires forall k | 0 <= k < |parts| :: c !in parts[k]
    ensures c !in Join(parts, sep)
  {
    if |parts| > 1 {
      assert forall k | 0 <= k < |parts[1..]| :: parts[1..][k] == parts[k + 1];
      JoinExcludes(parts[1..], sep, c);
    }
  }

  /** The last character of a join is the last character of its last part. */
  lemma {:induction false} JoinLast(parts: seq<string>, sep: string)
    requires |parts| >= 1 && |parts[|parts| - 1]| > 0
    ensures |Join(parts, sep)| > 0
    ensures Join(parts, sep)[|Join(parts, sep)| - 1] == parts[|parts| - 1][|parts[|parts| - 1]| - 1]
  {
    if |parts| > 1 {
      assert parts[1..][|parts[1..]| - 1] == parts[|parts| - 1];
      JoinLast(parts[1..], sep);
    }
  }

  predicate AllDigits(s: string) {
    forall i | 0 <= i < |s| :: IsDigit(s[i])
  }

  function DigitChar(d: nat): (c: char)
    requires d < 10
    ensures IsDigit(c) && c as int - 48 == d
  {
    (48 + d) as char
  }

  /** sprintf('%d', n) for a non-negative integer. */
  function NatToString(n: nat): (s: string)
    ensures |s| >= 1 && AllDigits(s)
  {
    if n < 10 then [DigitChar(n)] else NatToString(n / 10) + [DigitChar(n % 10)]
  }

  /** The value of a string of decimal digits. */
  function DecValue(s: string): nat
    requires AllDigits(s)
  {
    if |s| == 0 then 0 else DecValue(s[..|s| - 1]) * 10 + (s[|s| - 1] as int - 48)
  }

  lemma {:induction false} DecValueOfNatToString(n: nat)
    ensures DecValue(NatToString(n)) == n
  {
    if n >= 10 {
      var s := NatToString(n);
      assert s[..|s| - 1] == NatToString(n / 10);
      DecValueOfNatToString(n / 10);
    }
  }

  /** The longest prefix of decimal digits. */
  function TakeDigits(s: string): (r: string)
    ensures AllDigits(r) && |r| <= |s|
  {
    if |s| > 0 && IsDigit(s[0]) then [s[0]] + TakeDigits(s[1..]) else ""
  }

  lemma {:induction false} TakeDigitsPrefix(a: string, x: string)
    requires AllDigits(a) && (|x| == 0 || !IsDigit(x[0]))
    ensures TakeDigits(a + x) == a
  {
    if |a| > 0 {
      assert (a + x)[1..] == a[1..] + x;
      TakeDigitsPrefix(a[1..], x);
    } else {
      assert a + x == x;
    }
  }

  lemma NatToStringInjective(m: nat, n: nat)
    requires NatToString(m) == NatToString(n)
    ensures m == n
  {
    DecValueOfNatToString(m);
    DecValueOfNatToString(n);
  }

  predicate NoDup<T(==)>(s: seq<T>) {
    forall i, j | 0 <= i < j < |s| :: s[i] != s[j]
  }

  lemma NoDupSnoc<T>(s: seq<T>, x: T)
    ensures NoDup(s + [x]) <==> NoDup(s) && x !in s
  {
    var t := s + [x];
    if NoDup(t) {
      assert forall i, j | 0 <= i < j < |s| :: s[i] == t[i] && s[j] == t[j];
      forall i | 0 <= i < |s| ensures s[i] != x {
        assert t[i] == s[i] && t[|s|] == x;
      }
    }
  }

  /** PHP's array_unique: the first occurrence of every value, in order. */
  function Dedup<T(==,!new)>(s: seq<T>): (r: seq<T>)
    ensures forall x :: x in r <==> x in s
    ensures NoDup(r)
    ensures |r| <= |s|
  {
    if |s| == 0 then []
    else
      var r := Dedup(s[..|s| - 1]);
      assert forall x :: x in s <==> x in s[..|s| - 1] || x == s[|s| - 1];
      if s[|s| - 1] in r then r else r + [s[|s| - 1]]
  }

  /** The sign of PHP's strcmp: byte-wise lexicographic comparison. */
  function StrCmp(a: string, b: string): (r: int)
    ensures -1 <= r <= 1
    ensures r == 0 <==> a == b
  {
    if |a| == 0 && |b| == 0 then 0
    else if |a| == 0 then -1
    else if |b| == 0 then 1
    else if a[0] < b[0] then -1
    else if a[0] > b[0] then 1
    else
      assert a == [a[0]] + a[1..] && b == [b[0]] + b[1..];
      StrCmp(a[1..], b[1..])
  }

  lemma {:induction false} StrCmpAntisymmetric(a: string, b: string)
    ensures StrCmp(a, b) == -StrCmp(b, a)
  {
    if |a| > 0 && |b| > 0 && a[0] == b[0] {
      StrCmpAntisymmetric(a[1..], b[1..]);
    }
  }

  lemma {:induction false} StrCmpTransitive(a: string, b: string, c: string)
    requires StrCmp(a, b) <= 0 && StrCmp(b, c) <= 0
    ensures StrCmp(a, c) <= 0
  {
    if |a| > 0 && |c| > 0 && a[0] == c[0] {
      assert |b| > 0 && b[0] == a[0];
      StrCmpTransitive(a[1..], b[1..], c[1..]);
    }
  }
}
