/** Character classes and string helpers shared by the assembly analyser model.
    Strings are sequences of characters; the helpers mirror the Python string
    operations and regular-expression character classes the analyser uses. */
module Text {

  type Str = seq<char>

  datatype Option<+T> = None | Some(value: T)

  datatype Result<+T, +E> = Ok(value: T) | Err(error: E)

  /** Python's `str.isspace()`, which is also what `\s` matches in a `str` pattern. */
  predicate IsWs(c: char)
  {
    ('\t' <= c <= '\r') || ('\U{1C}' <= c <= '\U{1F}') || c == ' '
    || c == '\U{85}' || c == '\U{A0}' || c == '\U{1680}'
    || ('\U{2000}' <= c <= '\U{200A}') || c == '\U{2028}' || c == '\U{2029}'
    || c == '\U{202F}' || c == '\U{205F}' || c == '\U{3000}'
  }

  predicate NotWs(c: char) { !IsWs(c) }

  /** `\d`, restricted to ASCII digits. */
  predicate IsDigit(c: char) { '0' <= c <= '9' }

  /** `\w`, restricted to ASCII letters, digits and the underscore. */
  predicate IsWordChar(c: char) { 'a' <= c <= 'z' || 'A' <= c <= 'Z' || IsDigit(c) || c == '_' }

  predicate All(s: Str, p: char -> bool)
  {
    forall i :: 0 <= i < |s| ==> p(s[i])
  }

  predicate AllWs(s: Str) { All(s, IsWs) }

  /** A character outside a class does not occur in a string made of that class. */
  lemma NotIn(s: Str, p: char -> bool, c: char)
    requires All(s, p) && !p(c)
    ensures c !in s
  {
  }

  lemma AllConcat(a: Str, b: Str, p: char -> bool)
    requires All(a, p) && All(b, p)
    ensures All(a + b, p)
  {
    forall i | 0 <= i < |a + b| ensures p((a + b)[i]) {
      if i >= |a| {
        assert (a + b)[i] == b[i - |a|];
      }
    }
  }

  /** Length of the longest prefix of `s` whose characters all satisfy `p`:
      what a greedy `[...]*` consumes. */
  function Span(s: Str, p: char -> bool): (n: nat)
    ensures n <= |s|
    ensures forall i :: 0 <= i < n ==> p(s[i])
    ensures n < |s| ==> !p(s[n])
  {
    if |s| == 0 || !p(s[0]) then 0 else 1 + Span(s[1..], p)
  }

  /** A greedy run is determined by where it must stop. */
  lemma SpanIs(s: Str, p: char -> bool, n: nat)
    requires n <= |s|
    requires forall i :: 0 <= i < n ==> p(s[i])
    requires n < |s| ==> !p(s[n])
    ensures Span(s, p) == n
  {
  }

  /** A string is its greedy run followed by the rest. */
  lemma SpanSplit(s: Str, p: char -> bool)
    ensures All(s[..Span(s, p)], p) && s == s[..Span(s, p)] + s[Span(s, p)..]
  {
    var n := Span(s, p);
    forall i | 0 <= i < n ensures p(s[..n][i]) {
      assert s[..n][i] == s[i];
    }
    assert s == s[..n] + s[n..];
  }

  lemma SpanConcat(a: Str, b: Str, p: char -> bool)
    requires All(a, p)
    requires |b| > 0 ==> !p(b[0])
    ensures Span(a + b, p) == |a|
  {
    SpanIs(a + b, p, |a|);
  }

  /** Length of the longest suffix of `s` whose characters all satisfy `p`. */
  function SpanBack(s: Str, p: char -> bool): (n: nat)
    ensures n <= |s|
    ensures forall i :: |s| - n <= i < |s| ==> p(s[i])
    ensures n < |s| ==> !p(s[|s| - n - 1])
  {
    if |s| == 0 || !p(s[|s| - 1]) then 0 else 1 + SpanBack(s[..|s| - 1], p)
  }

  /** A greedy run from the end is determined by where it must stop. */
  lemma SpanBackIs(s: Str, p: char -> bool, n: nat)
    requires n <= |s|
    requires forall i :: |s| - n <= i < |s| ==> p(s[i])
    requires n < |s| ==> !p(s[|s| - n - 1])
    ensures SpanBack(s, p) == n
  {
  }

  /** Python's `s.strip(chars)`: drop leading and trailing characters satisfying `p`. */
  function Strip(s: Str, p: char -> bool): (r: Str)
    ensures |r| <= |s|
    ensures |r| > 0 ==> !p(r[0]) && !p(r[|r| - 1])
    ensures exists i :: 0 <= i <= |s| - |r| && r == s[i..i + |r|]
              && All(s[..i], p) && All(s[i + |r|..], p)
  {
    var lead := Span(s, p);
    var t := s[lead..];
    var r := t[..|t| - SpanBack(t, p)];
    StripParts(s, p, lead, t, r);
    r
  }

  lemma StripParts(s: Str, p: char -> bool, lead: nat, t: Str, r: Str)
    requires lead == Span(s, p) && t == s[lead..] && r == t[..|t| - SpanBack(t, p)]
    ensures |r| > 0 ==> !p(r[0]) && !p(r[|r| - 1])
    ensures lead + |r| <= |s| && r == s[lead..lead + |r|]
    ensures All(s[..lead], p) && All(s[lead + |r|..], p)
  {
    assert s[lead + |r|..] == t[|r|..];
  }

  /** Stripping a string that has nothing to strip at either end leaves it unchanged. */
  lemma StripNothing(s: Str, p: char -> bool)
    requires |s| > 0 ==> !p(s[0]) && !p(s[|s| - 1])
    ensures Strip(s, p) == s
  {
    var r := Strip(s, p);
    var i :| 0 <= i <= |s| - |r| && r == s[i..i + |r|] && All(s[..i], p) && All(s[i + |r|..], p);
  }

  /** Whatever surrounds a string whose ends cannot be stripped is exactly what `Strip` removes. */
  lemma StripOf(a: Str, x: Str, b: Str, p: char -> bool)
    requires All(a, p) && All(b, p)
    requires |x| > 0 && !p(x[0]) && !p(x[|x| - 1])
    ensures Strip(a + x + b, p) == x
  {
    var s := a + x + b;
    SpanConcat(a, x + b, p);
    assert s == a + (x + b);
    var t := s[|a|..];
    assert t == x + b;
    SpanBackIs(t, p, |b|);
    assert t[..|t| - |b|] == x;
  }

  function Trim(s: Str): Str { Strip(s, IsWs) }

  /** `s.startswith(pre)` */
  predicate StartsWith(s: Str, pre: Str) { pre <= s }

  /** `s.endswith(suf)` */
  predicate EndsWith(s: Str, suf: Str) { |suf| <= |s| && s[|s| - |suf|..] == suf }

  /** `sub in s` for strings */
  predicate Contains(s: Str, sub: Str)
    decreases |s|
  {
    sub <= s || (|s| > 0 && Contains(s[1..], sub))
  }

  /** Index of the first occurrence of `c` in `s`, or `|s|` when there is none. */
  function IndexOf(s: Str, c: char): (k: nat)
    ensures k <= |s|
    ensures k < |s| ==> s[k] == c
    ensures c !in s[..k]
  {
    if |s| == 0 then 0 else if s[0] == c then 0 else 1 + IndexOf(s[1..], c)
  }

  lemma IndexOfConcat(a: Str, c: char, b: Str)
    requires c !in a
    ensures IndexOf(a + [c] + b, c) == |a|
  {
    var s := a + [c] + b;
    assert s[..|a|] == a;
    assert s[|a|] == c;
    assert forall i :: 0 <= i < |a| ==> s[i] == a[i];
  }

  /** Python's `s.split(sep)` with a one-character separator. */
  function Split(s: Str, sep: char): (parts: seq<Str>)
    ensures |parts| >= 1
    ensures forall j :: 0 <= j < |parts| ==> sep !in parts[j]
    ensures sep in s <==> |parts| >= 2
    ensures Join(parts, sep) == s
    decreases |s|
  {
    var k := IndexOf(s, sep);
    if k == |s| then
      assert s[..k] == s;
      [s]
    else
      var rest := Split(s[k + 1..], sep);
      assert s[..k + 1] == s[..k] + [sep];
      assert Join([s[..k]] + rest, sep) == s[..k] + [sep] + Join(rest, sep);
      [s[..k]] + rest
  }

  /** `sep.join(parts)`, the inverse of `Split`. */
  function Join(parts: seq<Str>, sep: char): Str
  {
    if |parts| == 0 then [] else if |parts| == 1 then parts[0]
    else parts[0] + [sep] + Join(parts[1..], sep)
  }

  lemma {:induction false} SplitJoin(parts: seq<Str>, sep: char)
    requires |parts| >= 1
    requires forall j :: 0 <= j < |parts| ==> sep !in parts[j]
    ensures Split(Join(parts, sep), sep) == parts
    decreases |parts|
  {
    if |parts| == 1 {
      assert sep !in parts[0];
    } else {
      var rest := Join(parts[1..], sep);
      IndexOfConcat(parts[0], sep, rest);
      var s := parts[0] + [sep] + rest;
      assert s[|parts[0]| + 1..] == rest;
      assert s[..|parts[0]|] == parts[0];
      SplitJoin(parts[1..], sep);
    }
  }

  /** Python's `s.split()`: the maximal runs of non-whitespace characters. */
  function Fields(s: Str): (r: seq<Str>)
    ensures forall j :: 0 <= j < |r| ==> |r[j]| > 0 && All(r[j], NotWs)
    decreases |s|
  {
    var lead := Span(s, IsWs);
    if lead == |s| then []
    else
      var t := s[lead..];
      var n := Span(t, NotWs);
      [t[..n]] + Fields(t[n..])
  }

  /** A blank string has no fields. */
  lemma FieldsBlank(s: Str)
    requires AllWs(s)
    ensures Fields(s) == []
  {
    SpanIs(s, IsWs, |s|);
  }

  /** Leading blanks are skipped and a maximal non-blank run is the first field: the fields of
      `a + t + b` are `t` followed by the fields of `b`. */
  lemma FieldsCons(a: Str, t: Str, b: Str)
    requires AllWs(a) && |t| > 0 && All(t, NotWs) && (|b| > 0 ==> IsWs(b[0]))
    ensures Fields(a + t + b) == [t] + Fields(b)
  {
    var s := a + t + b;
    assert s == a + (t + b);
    SpanConcat(a, t + b, IsWs);
    assert s[|a|..] == t + b;
    SpanConcat(t, b, NotWs);
    assert (t + b)[..|t|] == t && (t + b)[|t|..] == b;
  }

  /** A string contains each of its suffixes. */
  lemma {:induction false} ContainsSuffix(p: Str, sub: Str)
    ensures Contains(p + sub, sub)
    decreases |p|
  {
    if p == [] {
      assert p + sub == sub;
    } else {
      assert (p + sub)[1..] == p[1..] + sub;
      ContainsSuffix(p[1..], sub);
    }
  }
}
