/** The instruction decoder of the assembly analyser (`parse_assembly_line`).

    The decoder is one regular expression: an opcode with an optional width
    letter, whitespace, a source operand token, an optional comma and an optional
    destination operand token. Here it is written out as the recogniser that
    Python's backtracking matcher amounts to for exactly that pattern:

    - The opcode and the width letter are both made of word characters and must be
      followed by whitespace, so together they are exactly the first word of the line.
      That word is split by the opcode alternatives in the order they are tried.
    - An operand token is an optional `$` followed by a greedy run of `[%\w.\-+()]`.
      Backtracking into the source token never helps: a shorter source would have to
      be followed directly by the destination and then only by whitespace, and in that
      case the longest source already matches.

    The two properties that pin the recogniser down are `ParseSound` (every decoded
    line has the layout `WellFormed` describes) and `ParseComplete` (every line with
    that layout decodes to its parts). */
module Decoder {
  import opened Text

  /** `[%\w.\-+()]`: the characters of an operand token after its optional `$`. */
  predicate IsOperandChar(c: char)
  {
    c == '%' || IsWordChar(c) || c == '.' || c == '-' || c == '+' || c == '(' || c == ')'
  }

  /** `[bwlq]`: the width letter. */
  predicate IsSuffixLetter(c: char) { c == 'b' || c == 'w' || c == 'l' || c == 'q' }

  /** Opcodes whose width letter is always reported as empty. */
  const NoPrefixOpcodes: set<Str> := {"call", "jmp", "ret", "nop"}

  /** The literal opcode alternatives, in the order the pattern tries them before `\w+?`. */
  const LiteralOpcodes: seq<Str> := ["call", "jmp", "ret", "nop", "movzwl", "movzwq", "movzlq", "movzbl"]

  /** A decoded line: `(opcode, prefix, src, dest)`, `dest` absent when the group did not take part. */
  datatype Decoded = Decoded(opcode: Str, prefix: Str, src: Str, dest: Option<Str>)

  predicate IsWord(m: Str) { |m| > 0 && All(m, IsWordChar) }

  /** What the prefix group may hold: nothing or one width letter. */
  predicate IsPrefix(p: Str) { p == [] || (|p| == 1 && IsSuffixLetter(p[0])) }

  /** `\$?[%\w.\-+()]+` as a whole string. */
  predicate IsOperandText(s: Str)
  {
    |s| > 0 && if s[0] == '$' then |s| > 1 && All(s[1..], IsOperandChar) else All(s, IsOperandChar)
  }

  /** How literal alternative `lit` followed by `[bwlq]?` covers the first word `m`, if it does. */
  function LiteralSplit(m: Str, lit: Str): Option<(Str, Str)>
  {
    if m == lit then Some((lit, []))
    else if |m| == |lit| + 1 && lit <= m && IsSuffixLetter(m[|m| - 1]) then Some((lit, [m[|m| - 1]]))
    else None
  }

  /** The lazy alternative `\w+?` followed by `[bwlq]?`: the shortest opcode that lets
      the width letter end the word, that is, the word less its last letter when that
      letter is a width letter and something is left, otherwise the whole word. */
  function LazySplit(m: Str): (Str, Str)
    requires |m| > 0
  {
    if |m| >= 2 && IsSuffixLetter(m[|m| - 1]) then (m[..|m| - 1], [m[|m| - 1]]) else (m, [])
  }

  function SplitFrom(m: Str, k: nat): (Str, Str)
    requires |m| > 0 && k <= |LiteralOpcodes|
    decreases |LiteralOpcodes| - k
  {
    if k == |LiteralOpcodes| then LazySplit(m)
    else match LiteralSplit(m, LiteralOpcodes[k])
      case Some(r) => r
      case None => SplitFrom(m, k + 1)
  }

  /** The split of the first word into the `opcode` and `prefix` groups. */
  function SplitMnemonic(m: Str): (Str, Str)
    requires |m| > 0
  {
    SplitFrom(m, 0)
  }

  /** The split always reassembles the word, leaves a non-empty opcode and a legal prefix. */
  lemma {:induction false} SplitFromParts(m: Str, k: nat)
    requires |m| > 0 && k <= |LiteralOpcodes|
    ensures SplitFrom(m, k).0 + SplitFrom(m, k).1 == m
    ensures |SplitFrom(m, k).0| > 0 && IsPrefix(SplitFrom(m, k).1)
    decreases |LiteralOpcodes| - k
  {
    if k < |LiteralOpcodes| {
      var lit := LiteralOpcodes[k];
      assert |lit| > 0;
      if LiteralSplit(m, lit).None? {
        SplitFromParts(m, k + 1);
      } else if m != lit {
        assert m == lit + [m[|m| - 1]];
      }
    }
  }

  /** `parse_assembly_line`'s result for a line whose first word is `m`. */
  function Normalize(m: Str, src: Str, dest: Option<Str>): Decoded
    requires |m| > 0
  {
    var sp := SplitMnemonic(m);
    Decoded(sp.0, if sp.0 in NoPrefixOpcodes then [] else sp.1, src, dest)
  }

  /** The length of the operand token at the start of `s`, if there is one. */
  function OperandToken(s: Str): (n: Option<nat>)
    ensures n.Some? ==> 0 < n.value <= |s| && IsOperandText(s[..n.value])
    ensures n.Some? && n.value < |s| ==> !IsOperandChar(s[n.value])
  {
    var d := if |s| > 0 && s[0] == '$' then 1 else 0;
    var k := Span(s[d..], IsOperandChar);
    if k == 0 then None
    else
      assert s[..d + k][d..] == s[d..][..k];
      Some(d + k)
  }

  /** What `\s*` leaves of `s`. */
  function SkipWs(s: Str): Str
  {
    s[Span(s, IsWs)..]
  }

  /** `(?P<dest>...)?\s*$` applied to `t`: `None` when it does not match, otherwise the destination group. */
  function DestGroup(t: Str): Option<Option<Str>>
  {
    if |t| == 0 then Some(None)
    else match OperandToken(t)
      case None => None
      case Some(k) => if AllWs(t[k..]) then Some(Some(t[..k])) else None
  }

  /** `,?\s*` followed by the destination group. */
  function CommaPart(t: Str): Option<Option<Str>>
  {
    DestGroup(SkipWs(if |t| > 0 && t[0] == ',' then t[1..] else t))
  }

  /** `\s*,?\s*(?P<dest>...)?\s*$` applied to what follows the source token. */
  function DestPart(s: Str): Option<Option<Str>>
  {
    CommaPart(SkipWs(s))
  }

  /** The source token onwards, for a line whose first word is `m`. */
  function ParseSrc(m: Str, s3: Str): Option<Decoded>
    requires |m| > 0
  {
    match OperandToken(s3)
    case None => None
    case Some(n) =>
      match DestPart(s3[n..])
      case None => None
      case Some(dest) => Some(Normalize(m, s3[..n], dest))
  }

  /** The first word onwards. */
  function ParseWord(s1: Str): Option<Decoded>
  {
    var w := Span(s1, IsWordChar);
    var s2 := s1[w..];
    var g := Span(s2, IsWs);
    if w == 0 || g == 0 then None else ParseSrc(s1[..w], s2[g..])
  }

  /** `parse_assembly_line(line)` */
  function ParseAssemblyLine(line: Str): Option<Decoded>
  {
    ParseWord(SkipWs(line))
  }

  // ----- the layout of an accepted line -----

  /** `\s*,?\s*`: what may stand between the two operands. */
  predicate IsSeparator(sep: Str)
  {
    var a := Span(sep, IsWs);
    a == |sep| || (sep[a] == ',' && AllWs(sep[a + 1..]))
  }

  function DestText(dest: Option<Str>): Str
  {
    if dest.Some? then dest.value else []
  }

  function Layout(lead: Str, m: Str, gap: Str, src: Str, sep: Str, dest: Option<Str>, trail: Str): Str
  {
    lead + m + gap + src + sep + DestText(dest) + trail
  }

  /** The parts of a line the pattern accepts: leading blanks, the first word, at least
      one blank, the source token, a separator, an optional destination token, trailing
      blanks. A destination written right after the source (no separator) must start with
      `$`, since otherwise it would be part of the source token. */
  predicate WellFormed(lead: Str, m: Str, gap: Str, src: Str, sep: Str, dest: Option<Str>, trail: Str)
  {
    && AllWs(lead) && IsWord(m) && |gap| > 0 && AllWs(gap)
    && IsOperandText(src) && IsSeparator(sep) && AllWs(trail)
    && (dest.Some? ==> IsOperandText(dest.value) && (sep == [] ==> dest.value[0] == '$'))
  }

  lemma OperandTokenOf(src: Str, rest: Str)
    requires IsOperandText(src)
    requires |rest| > 0 ==> !IsOperandChar(rest[0])
    ensures OperandToken(src + rest) == Some(|src|)
  {
    var s := src + rest;
    var d := if s[0] == '$' then 1 else 0;
    assert s[d..] == src[d..] + rest;
    SpanConcat(src[d..], rest, IsOperandChar);
  }

  /** An operand token starts with `$` or an operand character, never a blank or a comma. */
  lemma OperandTextHead(d: Str)
    requires IsOperandText(d)
    ensures d[0] == '$' || IsOperandChar(d[0])
    ensures !IsWs(d[0]) && d[0] != ','
  {
    if d[0] != '$' {
      assert IsOperandChar(d[0]);
    }
  }

  lemma SkipWsOf(w: Str, rest: Str)
    requires AllWs(w)
    requires |rest| > 0 ==> !IsWs(rest[0])
    ensures SkipWs(w + rest) == rest
  {
    SpanConcat(w, rest, IsWs);
    assert (w + rest)[|w|..] == rest;
  }

  lemma AllBlank(w: Str)
    requires AllWs(w)
    ensures SkipWs(w) == []
  {
    SkipWsOf(w, []);
    assert w + [] == w;
  }

  lemma DestGroupOf(d: Str, trail: Str)
    requires IsOperandText(d) && AllWs(trail)
    ensures DestGroup(d + trail) == Some(Some(d))
  {
    OperandTokenOf(d, trail);
    assert (d + trail)[..|d|] == d && (d + trail)[|d|..] == trail;
  }

  /** The destination token, when one follows blanks. */
  lemma AfterBlanksOf(w: Str, d: Str, trail: Str)
    requires AllWs(w) && IsOperandText(d) && AllWs(trail)
    ensures DestGroup(SkipWs(w + d + trail)) == Some(Some(d))
  {
    assert w + d + trail == w + (d + trail);
    SkipWsOf(w, d + trail);
    DestGroupOf(d, trail);
  }

  lemma DestPartBlank(s: Str)
    requires AllWs(s)
    ensures DestPart(s) == Some(None)
  {
    AllBlank(s);
    assert SkipWs([]) == [];
  }

  lemma DestPartPlain(w: Str, d: Str, trail: Str)
    requires AllWs(w) && IsOperandText(d) && AllWs(trail)
    ensures DestPart(w + d + trail) == Some(Some(d))
  {
    var t := d + trail;
    assert w + d + trail == w + t;
    assert t[0] == d[0] && !IsWs(d[0]) && d[0] != ',' by {
      OperandTextHead(d);
    }
    assert SkipWs(w + t) == t by {
      SkipWsOf(w, t);
    }
    assert SkipWs(t) == t by {
      SkipWsOf([], t);
      assert [] + t == t;
    }
    assert CommaPart(t) == DestGroup(t);
    assert DestGroup(t) == Some(Some(d)) by {
      DestGroupOf(d, trail);
    }
  }

  lemma DestPartComma(w1: Str, w2: Str, dest: Option<Str>, trail: Str)
    requires AllWs(w1) && AllWs(w2) && AllWs(trail)
    requires dest.Some? ==> IsOperandText(dest.value)
    ensures DestPart(w1 + [','] + w2 + DestText(dest) + trail) == Some(dest)
  {
    var x := w2 + DestText(dest) + trail;
    assert w1 + [','] + w2 + DestText(dest) + trail == w1 + ([','] + x);
    SkipWsOf(w1, [','] + x);
    assert ([','] + x)[1..] == x;
    assert CommaPart([','] + x) == DestGroup(SkipWs(x));
    if dest.None? {
      assert AllWs(x);
      AllBlank(x);
    } else {
      AfterBlanksOf(w2, dest.value, trail);
    }
  }

  lemma DestPartOf(sep: Str, dest: Option<Str>, trail: Str)
    requires IsSeparator(sep) && AllWs(trail)
    requires dest.Some? ==> IsOperandText(dest.value)
    ensures DestPart(sep + DestText(dest) + trail) == Some(dest)
  {
    var a := Span(sep, IsWs);
    if a == |sep| {
      if dest.None? {
        assert AllWs(sep + DestText(dest) + trail);
        DestPartBlank(sep + DestText(dest) + trail);
      } else {
        DestPartPlain(sep, dest.value, trail);
      }
    } else {
      var w1, w2 := sep[..a], sep[a + 1..];
      assert sep == w1 + [','] + w2;
      DestPartComma(w1, w2, dest, trail);
    }
  }

  lemma ParseWordOf(m: Str, gap: Str, s3: Str)
    requires IsWord(m) && |gap| > 0 && AllWs(gap)
    requires |s3| > 0 && !IsWs(s3[0])
    ensures ParseWord(m + (gap + s3)) == ParseSrc(m, s3)
  {
    var s1 := m + (gap + s3);
    SpanConcat(m, gap + s3, IsWordChar);
    assert s1[..|m|] == m && s1[|m|..] == gap + s3;
    SpanConcat(gap, s3, IsWs);
    assert (gap + s3)[|gap|..] == s3;
  }

  lemma ParseSrcOf(m: Str, src: Str, tail: Str)
    requires |m| > 0 && IsOperandText(src)
    requires |tail| > 0 ==> !IsOperandChar(tail[0])
    ensures ParseSrc(m, src + tail) ==
              match DestPart(tail)
              case None => None
              case Some(dest) => Some(Normalize(m, src, dest))
  {
    OperandTokenOf(src, tail);
    assert (src + tail)[..|src|] == src && (src + tail)[|src|..] == tail;
  }

  lemma LayoutNested(lead: Str, m: Str, gap: Str, src: Str, sep: Str, dest: Option<Str>, trail: Str)
    ensures Layout(lead, m, gap, src, sep, dest, trail)
            == lead + (m + (gap + (src + (sep + DestText(dest) + trail))))
  {
  }

  lemma HeadOf(a: Str, b: Str)
    requires |a| > 0
    ensures (a + b)[0] == a[0]
  {
  }

  /** What follows the source token of a well-formed line cannot extend it. */
  lemma TailHead(sep: Str, dest: Option<Str>, trail: Str)
    requires IsSeparator(sep) && AllWs(trail)
    requires dest.Some? ==> IsOperandText(dest.value) && (sep == [] ==> dest.value[0] == '$')
    ensures var tail := sep + DestText(dest) + trail;
            |tail| > 0 ==> !IsOperandChar(tail[0])
  {
    var tail := sep + DestText(dest) + trail;
    if |sep| > 0 {
      HeadOf(sep, DestText(dest));
      HeadOf(sep + DestText(dest), trail);
      assert IsWs(sep[0]) || sep[0] == ',';
    } else if dest.Some? {
      assert sep + DestText(dest) == dest.value;
      HeadOf(dest.value, trail);
    } else if |tail| > 0 {
      assert tail == trail;
    }
  }

  /** Every line with the accepted layout decodes to its parts. */
  lemma ParseComplete(lead: Str, m: Str, gap: Str, src: Str, sep: Str, dest: Option<Str>, trail: Str)
    requires WellFormed(lead, m, gap, src, sep, dest, trail)
    ensures ParseAssemblyLine(Layout(lead, m, gap, src, sep, dest, trail)) == Some(Normalize(m, src, dest))
  {
    var tail := sep + DestText(dest) + trail;
    var s3 := src + tail;
    LayoutNested(lead, m, gap, src, sep, dest, trail);
    HeadOf(m, gap + s3);
    SkipWsOf(lead, m + (gap + s3));
    HeadOf(src, tail);
    OperandTextHead(src);
    ParseWordOf(m, gap, s3);
    TailHead(sep, dest, trail);
    ParseSrcOf(m, src, tail);
    DestPartOf(sep, dest, trail);
  }

  /** The trailing blanks that `DestGroup` accepted. */
  lemma DestGroupSound(t: Str) returns (trail: Str)
    requires DestGroup(t).Some?
    ensures var dest := DestGroup(t).value;
            && AllWs(trail) && t == DestText(dest) + trail
            && (dest.Some? ==> IsOperandText(dest.value) && t[0] == dest.value[0])
  {
    if |t| == 0 {
      trail := [];
    } else {
      var k := OperandToken(t).value;
      trail := t[k..];
      assert t == t[..k] + trail;
    }
  }

  /** `,?` followed by blanks, or nothing. */
  predicate IsCommaRun(x: Str) { x == [] || (x[0] == ',' && AllWs(x[1..])) }

  lemma CommaRunOf(w: Str)
    requires AllWs(w)
    ensures IsCommaRun([','] + w)
  {
    assert ([','] + w)[1..] == w;
  }

  lemma SeparatorOf(w: Str, x: Str)
    requires AllWs(w) && IsCommaRun(x)
    ensures IsSeparator(w + x)
  {
    var sep := w + x;
    SpanIs(sep, IsWs, |w|);
    if x != [] {
      assert sep[|w| + 1..] == x[1..];
    }
  }

  lemma ConsConcat(t: Str, w: Str, d: Str, trail: Str)
    requires |t| > 0 && t[1..] == w + (d + trail)
    ensures t == [t[0]] + w + d + trail
  {
    assert t == [t[0]] + t[1..];
  }

  lemma EmptyConcat(t: Str, d: Str, trail: Str)
    requires t == d + trail
    ensures t == [] + d + trail
  {
  }

  lemma CommaPartUnfold(t: Str)
    requires |t| > 0 ==> !IsWs(t[0])
    ensures |t| > 0 && t[0] == ',' ==> CommaPart(t) == DestGroup(SkipWs(t[1..]))
    ensures !(|t| > 0 && t[0] == ',') ==> CommaPart(t) == DestGroup(t)
  {
    if !(|t| > 0 && t[0] == ',') {
      SkipWsOf([], t);
      assert [] + t == t;
    }
  }

  /** The comma, blanks and trailing blanks that `CommaPart` found after a comma. */
  lemma CommaSound(t: Str) returns (x: Str, trail: Str)
    requires |t| > 0 && t[0] == ','
    requires DestGroup(SkipWs(t[1..])).Some?
    ensures var dest := DestGroup(SkipWs(t[1..])).value;
            && IsCommaRun(x) && |x| > 0 && AllWs(trail) && t == x + DestText(dest) + trail
            && (dest.Some? ==> IsOperandText(dest.value))
  {
    var dest := DestGroup(SkipWs(t[1..])).value;
    var u := t[1..];
    SkipWsSplit(u);
    var w2 := u[..Span(u, IsWs)];
    trail := DestGroupSound(SkipWs(u));
    ConsConcat(t, w2, DestText(dest), trail);
    CommaRunOf(w2);
    x := [','] + w2;
  }

  lemma SkipWsSplit(s: Str)
    ensures AllWs(s[..Span(s, IsWs)]) && s == s[..Span(s, IsWs)] + SkipWs(s)
    ensures |SkipWs(s)| > 0 ==> !IsWs(SkipWs(s)[0])
  {
    SpanSplit(s, IsWs);
  }

  /** The comma, blanks and trailing blanks that `CommaPart` found. */
  lemma CommaPartSound(t: Str) returns (x: Str, trail: Str)
    requires CommaPart(t).Some?
    requires |t| > 0 ==> !IsWs(t[0])
    ensures var dest := CommaPart(t).value;
            && IsCommaRun(x) && AllWs(trail) && t == x + DestText(dest) + trail
            && (dest.Some? ==> IsOperandText(dest.value))
            && (dest.Some? && x == [] ==> t[0] == dest.value[0])
  {
    CommaPartUnfold(t);
    if |t| > 0 && t[0] == ',' {
      x, trail := CommaSound(t);
    } else {
      trail := DestGroupSound(t);
      EmptyConcat(t, DestText(CommaPart(t).value), trail);
      x := [];
    }
  }

  lemma Regroup(r: Str, w: Str, t: Str, x: Str, d: Str, trail: Str)
    requires r == w + t && t == x + d + trail
    ensures r == (w + x) + d + trail
    ensures w + x == [] ==> r == t
  {
  }

  /** The separator and trailing blanks that `DestPart` found. */
  lemma DestPartSound(r: Str) returns (sep: Str, trail: Str)
    requires DestPart(r).Some?
    ensures var dest := DestPart(r).value;
            && IsSeparator(sep) && AllWs(trail) && r == sep + DestText(dest) + trail
            && (dest.Some? ==> IsOperandText(dest.value))
            && (dest.Some? && sep == [] ==> r[0] == dest.value[0])
  {
    SkipWsSplit(r);
    var w := r[..Span(r, IsWs)];
    var t := SkipWs(r);
    var x;
    x, trail := CommaPartSound(t);
    sep := w + x;
    SeparatorOf(w, x);
    Regroup(r, w, t, x, DestText(DestPart(r).value), trail);
  }

  /** The source token, separator, destination and trailing blanks that `ParseSrc` found. */
  lemma ParseSrcSound(m: Str, s3: Str) returns (src: Str, sep: Str, dest: Option<Str>, trail: Str)
    requires |m| > 0 && ParseSrc(m, s3).Some?
    ensures IsOperandText(src) && IsSeparator(sep) && AllWs(trail)
    ensures dest.Some? ==> IsOperandText(dest.value) && (sep == [] ==> dest.value[0] == '$')
    ensures s3 == src + (sep + DestText(dest) + trail)
    ensures ParseSrc(m, s3) == Some(Normalize(m, src, dest))
  {
    var n := OperandToken(s3).value;
    src := s3[..n];
    var r := s3[n..];
    TakeDrop(s3, n);
    dest := DestPart(r).value;
    sep, trail := DestPartSound(r);
    if dest.Some? && sep == [] {
      DollarHead(r, dest.value);
    }
  }

  /** A destination glued to the source token must start with `$`. */
  lemma DollarHead(r: Str, d: Str)
    requires |r| > 0 && !IsOperandChar(r[0]) && IsOperandText(d) && r[0] == d[0]
    ensures d[0] == '$'
  {
    OperandTextHead(d);
  }

  lemma TakeDrop(s: Str, k: nat)
    requires k <= |s|
    ensures s == s[..k] + s[k..]
  {
  }

  /** The first word, the blanks after it and the rest that `ParseWord` found. */
  lemma ParseWordSound(s1: Str) returns (m: Str, gap: Str, s3: Str)
    requires ParseWord(s1).Some?
    ensures IsWord(m) && |gap| > 0 && AllWs(gap) && s1 == m + (gap + s3)
    ensures ParseSrc(m, s3).Some? && ParseWord(s1) == ParseSrc(m, s3)
  {
    var w := Span(s1, IsWordChar);
    SpanSplit(s1, IsWordChar);
    var s2 := s1[w..];
    m := s1[..w];
    var g := Span(s2, IsWs);
    SpanSplit(s2, IsWs);
    gap := s2[..g];
    s3 := s2[g..];
  }

  lemma LayoutOf(line: Str, lead: Str, m: Str, gap: Str, s3: Str, src: Str, sep: Str, dest: Option<Str>, trail: Str)
    requires line == lead + (m + (gap + s3))
    requires s3 == src + (sep + DestText(dest) + trail)
    ensures line == Layout(lead, m, gap, src, sep, dest, trail)
  {
  }

  /** Every decoded line has the accepted layout, and decodes to its parts. */
  lemma ParseSound(line: Str) returns (lead: Str, m: Str, gap: Str, src: Str, sep: Str, dest: Option<Str>, trail: Str)
    requires ParseAssemblyLine(line).Some?
    ensures WellFormed(lead, m, gap, src, sep, dest, trail)
    ensures line == Layout(lead, m, gap, src, sep, dest, trail)
    ensures ParseAssemblyLine(line) == Some(Normalize(m, src, dest))
  {
    SkipWsSplit(line);
    lead := line[..Span(line, IsWs)];
    var s3;
    m, gap, s3 := ParseWordSound(SkipWs(line));
    src, sep, dest, trail := ParseSrcSound(m, s3);
    LayoutOf(line, lead, m, gap, s3, src, sep, dest, trail);
  }

  // ----- what the decoder rejects -----

  /** A character that can appear in a decoded line. */
  predicate InLineAlphabet(c: char) { IsWs(c) || IsOperandChar(c) || c == '$' || c == ',' }

  lemma BlanksInAlphabet(w: Str)
    requires AllWs(w)
    ensures All(w, InLineAlphabet)
  {
    assert forall i :: 0 <= i < |w| ==> IsWs(w[i]);
  }

  lemma WordInAlphabet(m: Str)
    requires IsWord(m)
    ensures All(m, InLineAlphabet)
  {
    assert forall i :: 0 <= i < |m| ==> IsWordChar(m[i]);
  }

  lemma OperandInAlphabet(d: Str)
    requires IsOperandText(d)
    ensures All(d, InLineAlphabet)
  {
    forall i | 0 <= i < |d| ensures InLineAlphabet(d[i]) {
      if d[0] == '$' && i > 0 {
        assert d[i] == d[1..][i - 1];
      }
    }
  }

  lemma SeparatorInAlphabet(sep: Str)
    requires IsSeparator(sep)
    ensures All(sep, InLineAlphabet)
  {
    var a := Span(sep, IsWs);
    forall i | 0 <= i < |sep| ensures InLineAlphabet(sep[i]) {
      if i > a {
        assert sep[i] == sep[a + 1..][i - a - 1];
      }
    }
  }

  lemma AlphabetConcat(a: Str, b: Str)
    requires All(a, InLineAlphabet) && All(b, InLineAlphabet)
    ensures All(a + b, InLineAlphabet)
  {
    forall i | 0 <= i < |a + b| ensures InLineAlphabet((a + b)[i]) {
      if i >= |a| {
        assert (a + b)[i] == b[i - |a|];
      }
    }
  }

  lemma NoStar(line: Str)
    requires All(line, InLineAlphabet)
    ensures '*' !in line
  {
    assert !InLineAlphabet('*');
  }

  /** Every character of a decoded line is a blank, an operand character, `$` or `,`;
      in particular a decoded line has no `*`. */
  lemma DecodedAlphabet(line: Str)
    requires ParseAssemblyLine(line).Some?
    ensures All(line, InLineAlphabet) && '*' !in line
  {
    var lead, m, gap, src, sep, dest, trail := ParseSound(line);
    var d := DestText(dest);
    BlanksInAlphabet(lead);
    WordInAlphabet(m);
    BlanksInAlphabet(gap);
    OperandInAlphabet(src);
    SeparatorInAlphabet(sep);
    if dest.Some? {
      OperandInAlphabet(d);
    }
    BlanksInAlphabet(trail);
    AlphabetConcat(lead, m);
    AlphabetConcat(lead + m, gap);
    AlphabetConcat(lead + m + gap, src);
    AlphabetConcat(lead + m + gap + src, sep);
    AlphabetConcat(lead + m + gap + src + sep, d);
    AlphabetConcat(lead + m + gap + src + sep + d, trail);
    NoStar(line);
  }

  /** No line mentioning `*` decodes: an indirect `call *%rax` or `jmp *(%rax)` is not an instruction to the decoder. */
  lemma StarNeverDecodes(line: Str)
    requires '*' in line
    ensures ParseAssemblyLine(line) == None
  {
    if ParseAssemblyLine(line).Some? {
      DecodedAlphabet(line);
      assert false;
    }
  }

  /** A lone word, such as `ret` or `leave`, does not decode: the source operand is mandatory. */
  lemma BareWordNeverDecodes(lead: Str, m: Str, trail: Str)
    requires AllWs(lead) && IsWord(m) && AllWs(trail)
    ensures ParseAssemblyLine(lead + m + trail) == None
  {
    assert lead + m + trail == lead + (m + trail);
    HeadOf(m, trail);
    SkipWsOf(lead, m + trail);
    ParseWordBare(m, trail);
  }

  lemma ParseWordBare(m: Str, trail: Str)
    requires IsWord(m) && AllWs(trail)
    ensures ParseWord(m + trail) == None
  {
    var s1 := m + trail;
    SpanConcat(m, trail, IsWordChar);
    assert s1[|m|..] == trail;
    SpanIs(trail, IsWs, |trail|);
    assert trail[|trail|..] == [];
  }

  /** A line whose first non-blank character is not a word character, such as a
      directive `.cfi_startproc` or a comment, does not decode. */
  lemma NonWordStartNeverDecodes(line: Str)
    requires Span(line, IsWs) < |line| && !IsWordChar(line[Span(line, IsWs)])
    ensures ParseAssemblyLine(line) == None
  {
    var s1 := SkipWs(line);
    assert s1[0] == line[Span(line, IsWs)];
    ParseWordNonWord(s1);
  }

  lemma ParseWordNonWord(s1: Str)
    requires |s1| > 0 && !IsWordChar(s1[0])
    ensures ParseWord(s1) == None
  {
    SpanIs(s1, IsWordChar, 0);
  }

  /** Whatever decodes has a non-empty opcode and an empty or one-letter prefix; the
      prefix is empty for `call`, `jmp`, `ret` and `nop`; for every other opcode the
      opcode and the prefix together are the line's first word. */
  lemma DecodedPrefix(line: Str)
    requires ParseAssemblyLine(line).Some?
    ensures var d := ParseAssemblyLine(line).value;
            && |d.opcode| > 0 && IsPrefix(d.prefix)
            && (d.opcode in NoPrefixOpcodes ==> d.prefix == [])
            && (d.opcode !in NoPrefixOpcodes ==>
                  d.opcode + d.prefix == line[Span(line, IsWs)..][..Span(line[Span(line, IsWs)..], IsWordChar)])
  {
    var s1 := line[Span(line, IsWs)..];
    SplitFromParts(s1[..Span(s1, IsWordChar)], 0);
  }

  // ----- worked lines -----

  /** `callq foo` decodes as `('call', '', 'foo', None)`: the `q` is taken by the prefix group and then discarded. */
  lemma CallqExample()
    ensures ParseAssemblyLine("callq foo") == Some(Decoded("call", "", "foo", None))
  {
    CallqParts();
    ParseComplete("", "callq", " ", "foo", "", None, "");
    CallqMnemonic();
  }

  lemma CallqParts()
    ensures WellFormed("", "callq", " ", "foo", "", None, "")
    ensures Layout("", "callq", " ", "foo", "", None, "") == "callq foo"
  {
    assert IsWord("callq");
    assert IsOperandText("foo");
    SpanIs([], IsWs, 0);
  }

  lemma CallqMnemonic()
    ensures Normalize("callq", "foo", None) == Decoded("call", "", "foo", None)
  {
    assert "call" <= "callq";
    assert LiteralSplit("callq", "call") == Some(("call", "q"));
  }

  /** `movl %eax, -4(%rbp)` decodes with opcode `mov` and prefix `l`, through the lazy alternative. */
  lemma MovlExample()
    ensures ParseAssemblyLine("\tmovl\t%eax, -4(%rbp)") == Some(Decoded("mov", "l", "%eax", Some("-4(%rbp)")))
  {
    MovlParts();
    ParseComplete("\t", "movl", "\t", "%eax", ", ", Some("-4(%rbp)"), "");
    MovlMnemonic();
  }

  lemma MovlParts()
    ensures WellFormed("\t", "movl", "\t", "%eax", ", ", Some("-4(%rbp)"), "")
    ensures Layout("\t", "movl", "\t", "%eax", ", ", Some("-4(%rbp)"), "") == "\tmovl\t%eax, -4(%rbp)"
  {
    assert IsWord("movl");
    assert IsOperandText("%eax");
    assert IsOperandText("-4(%rbp)");
    SpanIs(", ", IsWs, 0);
    assert ", "[1..] == " ";
  }

  /** No literal alternative covers `movl`, so the lazy one splits it. */
  lemma MovlMnemonic()
    ensures Normalize("movl", "%eax", Some("-4(%rbp)")) == Decoded("mov", "l", "%eax", Some("-4(%rbp)"))
  {
    assert LazySplit("movl") == ("mov", "l") by {
      assert "movl"[..3] == "mov";
    }
    assert !("jmp" <= "movl") && !("ret" <= "movl") && !("nop" <= "movl") by {
      assert "movl"[0] == 'm';
    }
    assert SplitFrom("movl", 8) == ("mov", "l");
    assert SplitFrom("movl", 4) == ("mov", "l");
    assert SplitFrom("movl", 0) == ("mov", "l");
  }

  /** A bare `ret` is not an instruction to the decoder. */
  lemma RetExample()
    ensures ParseAssemblyLine("ret") == None
  {
    assert IsWord("ret");
    BareWordNeverDecodes("", "ret", "");
    assert "" + "ret" + "" == "ret";
  }

  /** An indirect call is not an instruction to the decoder. */
  lemma IndirectCallExample()
    ensures ParseAssemblyLine("call *%rax") == None
  {
    assert "call *%rax"[5] == '*';
    StarNeverDecodes("call *%rax");
  }

  /** A directive is not an instruction to the decoder. */
  lemma DirectiveExample()
    ensures ParseAssemblyLine(".cfi_startproc") == None
  {
    SpanIs(".cfi_startproc", IsWs, 0);
    NonWordStartNeverDecodes(".cfi_startproc");
  }
}
