/** The operand classifier of the assembly analyser (`parse_operand`).

    An operand is first matched against the operand pattern: optional blanks, one of
    twelve operand shapes, optional blanks. None of the shapes contains a blank, so the
    captured operand is the operand with its blanks stripped, and the pattern accepts
    exactly when that stripped text has one of the shapes (`InOperandLanguage`). The
    captured text is then sorted into an addressing mode by its first character and by
    the `(`, `(%rip)` and `,` it contains; the RIP-relative label is extracted by a second
    pattern, written out here as `RipLabel`. Symbols are given by their names. */
module Operands {
  import opened Text

  // ----- the twelve operand shapes -----

  /** `[\w.]` */
  predicate IsLabelChar(c: char) { IsWordChar(c) || c == '.' }

  /** `\d+` */
  predicate IsDigits(s: Str) { |s| > 0 && All(s, IsDigit) }

  /** `\w+` */
  predicate IsName(s: Str) { |s| > 0 && All(s, IsWordChar) }

  /** `[\w.]+` */
  predicate IsLabelWord(s: Str) { |s| > 0 && All(s, IsLabelChar) }

  /** `\%?\w+`: a register or base name inside parentheses. */
  predicate IsRegRef(s: Str) { |s| > 0 && IsName(if s[0] == '%' then s[1..] else s) }

  /** An optional leading character `c`; when `c` cannot start what follows, the
      optional part matches exactly when `c` is there. */
  function DropChar(s: Str, c: char): (r: Str)
    ensures r == s || (|s| > 0 && s[0] == c && r == s[1..])
  {
    if |s| > 0 && s[0] == c then s[1..] else s
  }

  /** The text between an opening `(` at the start and a closing `)` at the end. */
  function Inner(s: Str): Option<Str>
  {
    if |s| >= 2 && s[0] == '(' && s[|s| - 1] == ')' then Some(s[1..|s| - 1]) else None
  }

  /** What follows a displacement `[-]?\d+`, if `s` starts with one. */
  function AfterDisp(s: Str): Option<Str>
  {
    var t := DropChar(s, '-');
    var k := Span(t, IsDigit);
    if k > 0 then Some(t[k..]) else None
  }

  /** `\%?\w+,\%?\w+` */
  predicate IsRegPair(s: Str)
  {
    var p := Split(s, ',');
    |p| == 2 && IsRegRef(p[0]) && IsRegRef(p[1])
  }

  /** `\%?\w+,\%?\w+,\d+` */
  predicate IsRegPairScale(s: Str)
  {
    var p := Split(s, ',');
    |p| == 3 && IsRegRef(p[0]) && IsRegRef(p[1]) && IsDigits(p[2])
  }

  /** `(...)` around a base, or a base and an index, or a base, an index and a scale. */
  predicate IsParenRegs(s: Str, arity: nat)
  {
    match Inner(s)
    case None => false
    case Some(i) => if arity == 1 then IsRegRef(i) else if arity == 2 then IsRegPair(i) else IsRegPairScale(i)
  }

  /** A displacement followed by a parenthesised group. */
  predicate IsDispParenRegs(s: Str, arity: nat)
  {
    match AfterDisp(s)
    case None => false
    case Some(rest) => IsParenRegs(rest, arity)
  }

  const Rip: Str := "(%rip)"

  /** The text before a trailing `(%rip)`. */
  function RipBody(s: Str): Option<Str>
  {
    if EndsWith(s, Rip) then Some(s[..|s| - |Rip|]) else None
  }

  /** `\$?[-]?\d+` */
  predicate IsImmediateShape(s: Str) { IsDigits(DropChar(DropChar(s, '$'), '-')) }

  /** `%\w+` */
  predicate IsRegisterShape(s: Str) { |s| > 0 && s[0] == '%' && IsName(s[1..]) }

  /** `[\w.]+\+\d+` before `(%rip)` */
  predicate IsLabelPlusOffset(b: Str)
  {
    var k := IndexOf(b, '+');
    k < |b| && IsLabelWord(b[..k]) && IsDigits(b[k + 1..])
  }

  /** `\d+\+[.\w]+` before `(%rip)` */
  predicate IsOffsetPlusLabel(b: Str)
  {
    var k := IndexOf(b, '+');
    k < |b| && IsDigits(b[..k]) && IsLabelWord(b[k + 1..])
  }

  /** `[-]?\d*\+?[.\w]+` before `(%rip)`: the digits may be empty, and without a `+` the
      label may start with digits, so any label word qualifies. */
  predicate IsSignedOffsetLabel(b: Str)
  {
    var t := DropChar(b, '-');
    var k := IndexOf(t, '+');
    if k < |t| then All(t[..k], IsDigit) && IsLabelWord(t[k + 1..]) else IsLabelWord(t)
  }

  predicate IsRipShape(s: Str)
  {
    match RipBody(s)
    case None => false
    case Some(b) => IsLabelWord(b) || IsLabelPlusOffset(b) || IsOffsetPlusLabel(b) || IsSignedOffsetLabel(b)
  }

  /** The alternation of the operand pattern, one disjunct per alternative. */
  predicate InOperandLanguage(x: Str)
  {
    || IsImmediateShape(x)
    || IsRegisterShape(x)
    || IsLabelWord(x)
    || IsParenRegs(x, 1)
    || IsDispParenRegs(x, 1)
    || IsParenRegs(x, 2)
    || IsDispParenRegs(x, 2)
    || IsDispParenRegs(x, 3)
    || IsRipShape(x)
  }

  /** The captured operand (group 1), when the operand pattern matches. */
  function MatchOperand(operand: Str): (x: Option<Str>)
    ensures x.Some? ==> InOperandLanguage(x.value)
  {
    var x := Trim(operand);
    if InOperandLanguage(x) then Some(x) else None
  }

  // ----- the classification -----

  datatype OpType =
    | Unknown
    | Immediate
    | Register
    | RipRelative
    | Indexed
    | BaseIndexScaleDisp
    | BaseDisp
    | Direct

  /** `OperandData`: fields the classifier does not set are `None`. */
  datatype OperandData = OperandData(
    labelName: Option<Str>, base: Option<Str>, index: Option<Str>, disp: Option<Str>,
    opType: OpType, value: Option<Str>)

  const UnknownOperand := OperandData(None, None, None, None, Unknown, None)

  /** The exceptions `parse_operand` can raise: reading the label the RIP-relative
      pattern did not bind, and unpacking a split that did not give two parts. */
  datatype OperandError = UnboundLabel | UnpackMismatch

  /** `([-]?\d*\+)?`: the length of the optional offset group at the start of `x`. */
  function RipOffsetGroup(x: Str): Option<nat>
  {
    var m := if |x| > 0 && x[0] == '-' then 1 else 0;
    var d := Span(x[m..], IsDigit);
    if m + d < |x| && x[m + d] == '+' then Some(m + d + 1) else None
  }

  /** `([.\w]+)\(%rip\)` at position `n`: the label, when it is followed by `(%rip)`. */
  function LabelAt(x: Str, n: nat): (l: Option<Str>)
    requires n <= |x|
    ensures l.Some? ==> IsLabelWord(l.value)
  {
    var k := Span(x[n..], IsLabelChar);
    if k > 0 && StartsWith(x[n + k..], Rip) then Some(x[n..n + k]) else None
  }

  /** The label group of `([-]?\d*\+)?([.\w]+)\(%rip\)` matched at the start of `x`:
      first with the offset group, then without it. */
  function RipLabel(x: Str): Option<Str>
  {
    match RipOffsetGroup(x)
    case Some(g) => if g <= |x| && LabelAt(x, g).Some? then LabelAt(x, g) else LabelAt(x, 0)
    case None => LabelAt(x, 0)
  }

  predicate IsCloseParen(c: char) { c == ')' }

  /** The parenthesised forms with a comma: the text before `(` is the displacement,
      the comma-separated parts inside are the base, the index and, for three parts, the
      scale, which is stored as the displacement. Other part counts fall through to Unknown. */
  function ClassifyIndexed(x: Str): (d: OperandData)
    requires '(' in x
    ensures d.opType in {Indexed, BaseIndexScaleDisp, Unknown} && d.labelName.None?
  {
    var parts := Split(x, '(');
    var disp := if parts[0] != [] then Some(Trim(parts[0])) else None;
    var inner := Split(Strip(parts[1], IsCloseParen), ',');
    if |inner| == 2 then OperandData(None, Some(Trim(inner[0])), Some(Trim(inner[1])), disp, Indexed, None)
    else if |inner| == 3 then OperandData(None, Some(Trim(inner[0])), Some(Trim(inner[1])), Some(Trim(inner[2])), BaseIndexScaleDisp, None)
    else UnknownOperand
  }

  /** The parenthesised form without a comma: `displacement(base)`. */
  function ClassifyBaseDisp(x: Str): (r: Result<OperandData, OperandError>)
    ensures r.Ok? ==> r.value.opType == BaseDisp && r.value.labelName.None?
  {
    var parts := Split(x, '(');
    if |parts| != 2 then Err(UnpackMismatch)
    else Ok(OperandData(None, Some(Trim(Strip(parts[1], IsCloseParen))), None, Some(Trim(parts[0])), BaseDisp, None))
  }

  /** Sorting an accepted operand into its addressing mode, with the symbol flag. */
  function Classify(x: Str, symbols: seq<Str>): (r: Result<(OperandData, bool), OperandError>)
    ensures r.Ok? && r.value.1 ==>
              r.value.0.opType in {RipRelative, Direct} && r.value.0.labelName.Some? && r.value.0.labelName.value in symbols
    ensures r.Ok? && r.value.0.opType in {RipRelative, Direct} ==>
              r.value.0.labelName.Some? && (r.value.1 <==> r.value.0.labelName.value in symbols)
  {
    if StartsWith(x, "$") then Ok((OperandData(None, None, None, None, Immediate, Some(x)), false))
    else if StartsWith(x, "%") then Ok((OperandData(None, None, None, None, Register, Some(x)), false))
    else if '(' in x then
      if EndsWith(x, Rip) then
        match RipLabel(x)
        case None => Err(UnboundLabel)
        case Some(l) => Ok((OperandData(Some(l), None, None, None, RipRelative, None), l in symbols))
      else if ',' in x then Ok((ClassifyIndexed(x), false))
      else match ClassifyBaseDisp(x)
        case Err(e) => Err(e)
        case Ok(d) => Ok((d, false))
    else Ok((OperandData(Some(x), None, None, None, Direct, None), x in symbols))
  }

  /** `parse_operand(operand, symbols)`: the operand data and whether the operand names a symbol. */
  function ParseOperand(operand: Option<Str>, symbols: seq<Str>): (r: Result<(OperandData, bool), OperandError>)
    ensures r.Ok? && r.value.1 ==>
              r.value.0.opType in {RipRelative, Direct} && r.value.0.labelName.Some? && r.value.0.labelName.value in symbols
    ensures r.Ok? && r.value.0.opType in {RipRelative, Direct} ==>
              r.value.0.labelName.Some? && (r.value.1 <==> r.value.0.labelName.value in symbols)
  {
    if operand.None? || operand.value == "None" || Trim(operand.value) == [] then Ok((UnknownOperand, false))
    else match MatchOperand(operand.value)
      case None => Ok((UnknownOperand, false))
      case Some(x) => Classify(x, symbols)
  }

  // ----- building blocks of the classification lemmas -----

  /** `[-]?\d+`: a displacement. */
  predicate IsDisp(d: Str) { IsDigits(DropChar(d, '-')) }

  predicate IsDispChar(c: char) { c == '-' || IsDigit(c) }

  /** The characters allowed between the parentheses: names, `%` and `,`. */
  predicate IsInnerChar(c: char) { c == '%' || IsWordChar(c) || c == ',' }

  lemma RegRefChars(r: Str)
    requires IsRegRef(r)
    ensures All(r, IsInnerChar) && ',' !in r && '(' !in r
    ensures !IsWs(r[0]) && !IsWs(r[|r| - 1]) && r[0] != ')' && r[|r| - 1] != ')'
  {
    if r[0] == '%' {
      forall j | 1 <= j < |r| ensures IsWordChar(r[j]) {
        assert r[j] == r[1..][j - 1];
      }
    }
    NotIn(r, IsInnerChar, '(');
    assert forall j :: 0 <= j < |r| ==> r[j] != ',';
  }

  lemma DispChars(d: Str)
    requires IsDisp(d)
    ensures |d| > 0 && All(d, IsDispChar) && '(' !in d && ',' !in d
    ensures !IsWs(d[0]) && !IsWs(d[|d| - 1]) && d[0] != '$' && d[0] != '%'
  {
    if d[0] == '-' {
      forall j | 1 <= j < |d| ensures IsDigit(d[j]) {
        assert d[j] == d[1..][j - 1];
      }
    }
    NotIn(d, IsDispChar, '(');
    NotIn(d, IsDispChar, ',');
  }

  lemma Join2(a: Str, b: Str, c: char)
    ensures Join([a, b], c) == a + [c] + b
  {
    assert [a, b][1..] == [b];
  }

  lemma Join3(a: Str, b: Str, e: Str, c: char)
    ensures Join([a, b, e], c) == a + [c] + b + [c] + e
  {
    assert [a, b, e][1..] == [b, e];
    Join2(b, e, c);
  }

  lemma SplitPair(a: Str, b: Str, c: char)
    requires c !in a && c !in b
    ensures Split(a + [c] + b, c) == [a, b]
  {
    Join2(a, b, c);
    SplitJoin([a, b], c);
  }

  lemma SplitTriple(a: Str, b: Str, e: Str, c: char)
    requires c !in a && c !in b && c !in e
    ensures Split(a + [c] + b + [c] + e, c) == [a, b, e]
  {
    Join3(a, b, e, c);
    SplitJoin([a, b, e], c);
  }

  lemma InnerOf(i: Str)
    ensures Inner("(" + i + ")") == Some(i)
  {
    var x := "(" + i + ")";
    assert x[1..|x| - 1] == i;
  }

  lemma AfterDispOf(d: Str, rest: Str)
    requires IsDisp(d) && |rest| > 0 && !IsDigit(rest[0])
    ensures AfterDisp(d + rest) == Some(rest)
  {
    var t := DropChar(d, '-');
    assert DropChar(d + rest, '-') == t + rest by {
      if d[0] == '-' {
        assert (d + rest)[1..] == d[1..] + rest;
      }
    }
    SpanConcat(t, rest, IsDigit);
    assert (t + rest)[|t|..] == rest;
  }

  /** The one `(` of `d(i)` splits it into the displacement and the rest. */
  lemma ParenSplit(d: Str, i: Str)
    requires '(' !in d && '(' !in i
    ensures Split(d + "(" + i + ")", '(') == [d, i + ")"]
  {
    assert '(' !in i + ")";
    assert d + "(" + i + ")" == d + ['('] + (i + ")");
    SplitPair(d, i + ")", '(');
  }

  lemma CloseParenStrip(i: Str)
    requires |i| > 0 && i[0] != ')' && i[|i| - 1] != ')'
    ensures Strip(i + ")", IsCloseParen) == i
  {
    assert [] + i + ")" == i + ")";
    StripOf([], i, ")", IsCloseParen);
  }

  /** The only `(` of `d(i)` is the one after `d`. */
  lemma OnlyParen(d: Str, i: Str, j: nat)
    requires '(' !in d && '(' !in i
    requires j < |d + "(" + i + ")"| && (d + "(" + i + ")")[j] == '('
    ensures j == |d|
  {
  }

  /** `d(i)` ends with `(%rip)` exactly when `i` is `%rip`. */
  lemma RipEnd(d: Str, i: Str)
    requires '(' !in d && '(' !in i
    ensures EndsWith(d + "(" + i + ")", Rip) <==> i == "%rip"
  {
    var x := d + "(" + i + ")";
    if EndsWith(x, Rip) {
      assert x[|x| - 6] == Rip[0];
      OnlyParen(d, i, |x| - 6);
      assert i == x[|d| + 1..|x| - 1];
      assert x[|x| - 6..][1..5] == "%rip";
    }
    if i == "%rip" {
      assert x[|x| - 6..] == Rip;
    }
  }

  /** An operand the pattern captured as itself reaches the classification unchanged. */
  lemma Accepted(x: Str, symbols: seq<Str>)
    requires InOperandLanguage(x) && x != "None"
    requires |x| > 0 && !IsWs(x[0]) && !IsWs(x[|x| - 1])
    ensures ParseOperand(Some(x), symbols) == Classify(x, symbols)
  {
    StripNothing(x, IsWs);
  }

  lemma TrimDisp(d: Str)
    requires d == [] || IsDisp(d)
    ensures Trim(d) == d
  {
    if d != [] {
      DispChars(d);
      StripNothing(d, IsWs);
    }
  }

  lemma NoDollarNoPercent(d: Str, i: Str)
    requires d == [] || IsDisp(d)
    ensures var x := d + "(" + i + ")";
            !StartsWith(x, "$") && !StartsWith(x, "%") && !IsWs(x[0]) && !IsWs(x[|x| - 1])
            && x != "None" && '(' in x
  {
    var x := d + "(" + i + ")";
    if d != [] {
      DispChars(d);
      assert x[0] == d[0];
    } else {
      assert x[0] == '(';
    }
    assert x[|d|] == '(';
    assert x[|x| - 1] == ')';
  }

  /** `d(b)` without a comma: base and displacement. */
  lemma ClassifyBaseDispOf(d: Str, b: Str, symbols: seq<Str>)
    requires d == [] || IsDisp(d)
    requires IsRegRef(b) && b != "%rip"
    ensures Classify(d + "(" + b + ")", symbols) == Ok((OperandData(None, Some(b), None, Some(d), BaseDisp, None), false))
  {
    var x := d + "(" + b + ")";
    RegRefChars(b);
    if d != [] {
      DispChars(d);
    }
    NoDollarNoPercent(d, b);
    RipEnd(d, b);
    assert ',' !in x;
    ParenSplit(d, b);
    CloseParenStrip(b);
    StripNothing(b, IsWs);
    TrimDisp(d);
  }

  lemma InnerPairChars(b: Str, ix: Str)
    requires IsRegRef(b) && IsRegRef(ix)
    ensures var i := b + "," + ix;
            '(' !in i && ',' in i && i != "%rip" && |i| > 0 && i[0] != ')' && i[|i| - 1] != ')'
            && ',' !in b && ',' !in ix
  {
    RegRefChars(b);
    RegRefChars(ix);
    var i := b + "," + ix;
    assert i[|b|] == ',';
    assert i[0] == b[0] && i[|i| - 1] == ix[|ix| - 1];
    assert "%rip"[0] == '%' && ',' !in "%rip";
  }

  /** `d(i)` split at its one `(`, with the closing parenthesis stripped from the rest. */
  lemma ParenParts(d: Str, i: Str)
    requires '(' !in d && '(' !in i && |i| > 0 && i[0] != ')' && i[|i| - 1] != ')'
    ensures var parts := Split(d + "(" + i + ")", '(');
            |parts| == 2 && parts[0] == d && Strip(parts[1], IsCloseParen) == i
  {
    ParenSplit(d, i);
    CloseParenStrip(i);
  }

  /** A parenthesised operand with a comma that is not `(%rip)` goes to `ClassifyIndexed`. */
  lemma RouteIndexed(d: Str, i: Str, symbols: seq<Str>)
    requires d == [] || IsDisp(d)
    requires '(' !in i && ',' in i && i != "%rip"
    ensures Classify(d + "(" + i + ")", symbols) == Ok((ClassifyIndexed(d + "(" + i + ")"), false))
  {
    if d != [] {
      DispChars(d);
    }
    NoDollarNoPercent(d, i);
    RipEnd(d, i);
    var k :| 0 <= k < |i| && i[k] == ',';
    assert (d + "(" + i + ")")[|d| + 1 + k] == ',';
  }

  lemma Concat5(d: Str, b: Str, ix: Str)
    ensures d + "(" + b + "," + ix + ")" == d + "(" + (b + "," + ix) + ")"
  {
  }

  lemma Concat7(d: Str, b: Str, ix: Str, sc: Str)
    ensures d + "(" + b + "," + ix + "," + sc + ")" == d + "(" + (b + "," + ix + "," + sc) + ")"
  {
  }

  /** `d(b,ix)`: base, index and the text before `(` as displacement. */
  lemma ClassifyIndexedOf(d: Str, b: Str, ix: Str, symbols: seq<Str>)
    requires d == [] || IsDisp(d)
    requires IsRegRef(b) && IsRegRef(ix)
    ensures Classify(d + "(" + b + "," + ix + ")", symbols)
            == Ok((OperandData(None, Some(b), Some(ix), if d == [] then None else Some(d), Indexed, None), false))
  {
    var i := b + "," + ix;
    Concat5(d, b, ix);
    InnerPairChars(b, ix);
    if d != [] {
      DispChars(d);
    }
    RouteIndexed(d, i, symbols);
    ParenParts(d, i);
    SplitPair(b, ix, ',');
    RegRefChars(b);
    RegRefChars(ix);
    StripNothing(b, IsWs);
    StripNothing(ix, IsWs);
    TrimDisp(d);
  }

  lemma InnerTripleChars(b: Str, ix: Str, sc: Str)
    requires IsRegRef(b) && IsRegRef(ix) && IsDigits(sc)
    ensures var i := b + "," + ix + "," + sc;
            '(' !in i && ',' in i && i != "%rip" && |i| > 0 && i[0] != ')' && i[|i| - 1] != ')'
            && ',' !in b && ',' !in ix && ',' !in sc && !IsWs(sc[0]) && !IsWs(sc[|sc| - 1])
  {
    RegRefChars(b);
    RegRefChars(ix);
    NotIn(sc, IsDigit, '(');
    NotIn(sc, IsDigit, ',');
    var i := b + "," + ix + "," + sc;
    assert i[|b|] == ',';
    assert i[0] == b[0] && i[|i| - 1] == sc[|sc| - 1];
    assert "%rip"[0] == '%' && ',' !in "%rip";
  }

  /** `d(b,ix,sc)`: the scale is stored as the displacement and `d` is dropped. */
  lemma ClassifyBisdOf(d: Str, b: Str, ix: Str, sc: Str, symbols: seq<Str>)
    requires IsDisp(d) && IsRegRef(b) && IsRegRef(ix) && IsDigits(sc)
    ensures Classify(d + "(" + b + "," + ix + "," + sc + ")", symbols)
            == Ok((OperandData(None, Some(b), Some(ix), Some(sc), BaseIndexScaleDisp, None), false))
  {
    var i := b + "," + ix + "," + sc;
    Concat7(d, b, ix, sc);
    InnerTripleChars(b, ix, sc);
    DispChars(d);
    RouteIndexed(d, i, symbols);
    ParenParts(d, i);
    SplitTriple(b, ix, sc, ',');
    RegRefChars(b);
    RegRefChars(ix);
    StripNothing(b, IsWs);
    StripNothing(ix, IsWs);
    StripNothing(sc, IsWs);
  }

  lemma ParenAssoc(d: Str, i: Str)
    ensures d + "(" + i + ")" == d + ("(" + i + ")")
  {
  }

  /** `d(i)` has the parenthesised shape of `(i)`, with or without a displacement. */
  lemma ParenMember(d: Str, i: Str, arity: nat)
    requires d == [] || IsDisp(d)
    requires IsParenRegs("(" + i + ")", arity)
    ensures d == [] ==> IsParenRegs(d + "(" + i + ")", arity)
    ensures d != [] ==> IsDispParenRegs(d + "(" + i + ")", arity)
  {
    ParenAssoc(d, i);
    if d != [] {
      AfterDispOf(d, "(" + i + ")");
    }
  }

  // ----- what the classifier does with each operand shape -----

  /** A `$`-prefixed number is an immediate whose value is the operand text. */
  lemma ImmediateOperand(n: Str, symbols: seq<Str>)
    requires IsDisp(n)
    ensures ParseOperand(Some("$" + n), symbols)
            == Ok((OperandData(None, None, None, None, Immediate, Some("$" + n)), false))
  {
    var x := "$" + n;
    DispChars(n);
    assert DropChar(x, '$') == n;
    assert x[|x| - 1] == n[|n| - 1];
    Accepted(x, symbols);
  }

  /** A `%`-prefixed name is a register. */
  lemma RegisterOperand(w: Str, symbols: seq<Str>)
    requires IsName(w)
    ensures ParseOperand(Some("%" + w), symbols)
            == Ok((OperandData(None, None, None, None, Register, Some("%" + w)), false))
  {
    var x := "%" + w;
    assert x[1..] == w;
    assert x[|x| - 1] == w[|w| - 1];
    Accepted(x, symbols);
  }

  /** A bare label is direct addressing, flagged exactly when a symbol has that name. */
  lemma DirectOperand(w: Str, symbols: seq<Str>)
    requires IsLabelWord(w) && w != "None"
    ensures ParseOperand(Some(w), symbols)
            == Ok((OperandData(Some(w), None, None, None, Direct, None), w in symbols))
  {
    NotIn(w, IsLabelChar, '(');
    Accepted(w, symbols);
  }

  /** A bare number without `$` is also taken as direct addressing, with the number as label. */
  lemma NumberIsDirect(n: Str, symbols: seq<Str>)
    requires IsDisp(n)
    ensures ParseOperand(Some(n), symbols)
            == Ok((OperandData(Some(n), None, None, None, Direct, None), n in symbols))
  {
    DispChars(n);
    assert DropChar(n, '$') == n;
    assert n != "None" by { assert "None"[0] == 'N'; }
    Accepted(n, symbols);
  }

  /** `(b)` and `d(b)`: base and displacement, the base not being `%rip`. */
  lemma BaseDispOperand(d: Str, b: Str, symbols: seq<Str>)
    requires d == [] || IsDisp(d)
    requires IsRegRef(b) && b != "%rip"
    ensures ParseOperand(Some(d + "(" + b + ")"), symbols)
            == Ok((OperandData(None, Some(b), None, Some(d), BaseDisp, None), false))
  {
    InnerOf(b);
    ParenMember(d, b, 1);
    NoDollarNoPercent(d, b);
    Accepted(d + "(" + b + ")", symbols);
    ClassifyBaseDispOf(d, b, symbols);
  }

  /** `(b,ix)` and `d(b,ix)`: indexed addressing; the displacement is absent when `d` is empty. */
  lemma IndexedOperand(d: Str, b: Str, ix: Str, symbols: seq<Str>)
    requires d == [] || IsDisp(d)
    requires IsRegRef(b) && IsRegRef(ix)
    ensures ParseOperand(Some(d + "(" + b + "," + ix + ")"), symbols)
            == Ok((OperandData(None, Some(b), Some(ix), if d == [] then None else Some(d), Indexed, None), false))
  {
    var i := b + "," + ix;
    Concat5(d, b, ix);
    assert InOperandLanguage(d + "(" + i + ")") by {
      InnerPairChars(b, ix);
      SplitPair(b, ix, ',');
      InnerOf(i);
      ParenMember(d, i, 2);
    }
    NoDollarNoPercent(d, i);
    Accepted(d + "(" + i + ")", symbols);
    ClassifyIndexedOf(d, b, ix, symbols);
  }

  /** `d(b,ix,sc)`: the scale is reported as the displacement and `d` is lost. */
  lemma ScaledOperand(d: Str, b: Str, ix: Str, sc: Str, symbols: seq<Str>)
    requires IsDisp(d) && IsRegRef(b) && IsRegRef(ix) && IsDigits(sc)
    ensures ParseOperand(Some(d + "(" + b + "," + ix + "," + sc + ")"), symbols)
            == Ok((OperandData(None, Some(b), Some(ix), Some(sc), BaseIndexScaleDisp, None), false))
  {
    var i := b + "," + ix + "," + sc;
    Concat7(d, b, ix, sc);
    assert InOperandLanguage(d + "(" + i + ")") by {
      InnerTripleChars(b, ix, sc);
      SplitTriple(b, ix, sc, ',');
      InnerOf(i);
      ParenMember(d, i, 3);
    }
    NoDollarNoPercent(d, i);
    Accepted(d + "(" + i + ")", symbols);
    ClassifyBisdOf(d, b, ix, sc, symbols);
  }

  lemma RipBodyOf(b: Str)
    ensures EndsWith(b + Rip, Rip) && RipBody(b + Rip) == Some(b) && (b + Rip)[|b + Rip| - 1] == ')'
  {
    assert (b + Rip)[|b|..] == Rip;
  }

  /** The label pattern at position `n` finds the label word that `(%rip)` follows. */
  lemma LabelAtRip(x: Str, n: nat, w: Str)
    requires n <= |x| && x[n..] == w + Rip && IsLabelWord(w)
    ensures LabelAt(x, n) == Some(w)
  {
    SpanConcat(w, Rip, IsLabelChar);
    assert x[n + |w|..] == Rip;
    assert x[n..n + |w|] == w;
  }

  /** Without a `+` the optional offset group cannot match. */
  lemma NoOffsetGroup(x: Str)
    requires '+' !in x
    ensures RipOffsetGroup(x) == None
  {
  }

  /** `w(%rip)`: RIP-relative addressing of label `w`, flagged exactly when a symbol has that name. */
  lemma RipOperand(w: Str, symbols: seq<Str>)
    requires IsLabelWord(w)
    ensures ParseOperand(Some(w + Rip), symbols)
            == Ok((OperandData(Some(w), None, None, None, RipRelative, None), w in symbols))
  {
    var x := w + Rip;
    RipBodyOf(w);
    assert IsRipShape(x);
    assert x[0] == w[0] && IsLabelChar(w[0]);
    assert RipLabel(x) == Some(w) by {
      NotIn(w, IsLabelChar, '+');
      assert x[|w|] == '(';
      assert '+' !in x;
      NoOffsetGroup(x);
      LabelAtRip(x, 0, w);
    }
    Accepted(x, symbols);
    ClassifyRip(x, symbols);
  }

  /** A text ending in `(%rip)` that starts with neither `$` nor `%` is classified by its RIP label. */
  lemma ClassifyRip(x: Str, symbols: seq<Str>)
    requires |x| > 0 && x[0] != '$' && x[0] != '%' && EndsWith(x, Rip)
    ensures Classify(x, symbols) == match RipLabel(x)
              case None => Err(UnboundLabel)
              case Some(l) => Ok((OperandData(Some(l), None, None, None, RipRelative, None), l in symbols))
  {
    assert x[|x| - 6] == Rip[0];
  }

  /** `[-]N+` at the start of `x`: the offset group covers it. */
  lemma OffsetGroupOf(x: Str, m: nat, n: Str, tail: Str)
    requires m <= 1 && m <= |x| && (m == 1 <==> (|x| > 0 && x[0] == '-'))
    requires x[m..] == n + ("+" + tail) && All(n, IsDigit)
    ensures RipOffsetGroup(x) == Some(m + |n| + 1)
  {
    SpanConcat(n, "+" + tail, IsDigit);
    assert x[m + |n|] == x[m..][|n|];
  }

  lemma OffsetRipParts(sign: Str, n: Str, w: Str)
    ensures var x := sign + n + "+" + w + Rip;
            x[|sign|..] == n + ("+" + (w + Rip)) && x[|sign| + |n| + 1..] == w + Rip
            && x == (sign + n + "+" + w) + Rip
  {
  }

  lemma SignedBody(sign: Str, n: Str, w: Str)
    requires sign == "" || sign == "-"
    requires All(n, IsDigit) && IsLabelWord(w)
    ensures IsSignedOffsetLabel(sign + n + "+" + w)
  {
    var b := sign + n + "+" + w;
    var t := n + "+" + w;
    if sign == "-" {
      assert b[1..] == t;
    } else {
      assert b == t;
      assert t[0] != '-' by { if n != [] { assert t[0] == n[0]; } }
    }
    NotIn(n, IsDigit, '+');
    IndexOfConcat(n, '+', w);
    assert t[..|n|] == n && t[|n| + 1..] == w;
  }

  lemma OffsetRipHead(sign: Str, n: Str, w: Str)
    requires sign == "" || sign == "-"
    requires All(n, IsDigit)
    ensures var x := sign + n + "+" + w + Rip;
            (x[0] == '-' || IsDigit(x[0]) || x[0] == '+') && (x[0] == '-' <==> sign == "-")
  {
    var x := sign + n + "+" + w + Rip;
    if sign == "" && n == [] {
      assert x[0] == '+';
    } else if sign == "" {
      assert x[0] == n[0];
    }
  }

  lemma OffsetRipLabel(sign: Str, n: Str, w: Str)
    requires sign == "" || sign == "-"
    requires All(n, IsDigit) && IsLabelWord(w)
    ensures RipLabel(sign + n + "+" + w + Rip) == Some(w)
  {
    var x := sign + n + "+" + w + Rip;
    OffsetRipParts(sign, n, w);
    OffsetRipHead(sign, n, w);
    OffsetGroupOf(x, |sign|, n, w + Rip);
    LabelAtRip(x, |sign| + |n| + 1, w);
  }

  lemma OffsetRipMember(sign: Str, n: Str, w: Str)
    requires sign == "" || sign == "-"
    requires All(n, IsDigit) && IsLabelWord(w)
    ensures var x := sign + n + "+" + w + Rip;
            InOperandLanguage(x) && x != "None" && !IsWs(x[0]) && !IsWs(x[|x| - 1])
            && x[0] != '$' && x[0] != '%' && EndsWith(x, Rip)
  {
    OffsetRipParts(sign, n, w);
    RipBodyOf(sign + n + "+" + w);
    SignedBody(sign, n, w);
    OffsetRipHead(sign, n, w);
  }

  /** `[-]N+w(%rip)`: the offset is skipped and the label is `w`. */
  lemma OffsetRipOperand(sign: Str, n: Str, w: Str, symbols: seq<Str>)
    requires sign == "" || sign == "-"
    requires All(n, IsDigit) && IsLabelWord(w)
    ensures ParseOperand(Some(sign + n + "+" + w + Rip), symbols)
            == Ok((OperandData(Some(w), None, None, None, RipRelative, None), w in symbols))
  {
    var x := sign + n + "+" + w + Rip;
    OffsetRipMember(sign, n, w);
    OffsetRipLabel(sign, n, w);
    ClassifyRip(x, symbols);
    Accepted(x, symbols);
  }

  lemma PlusOffsetBody(w: Str, n: Str)
    requires IsLabelWord(w) && IsDigits(n)
    ensures IsLabelPlusOffset(w + "+" + n)
  {
    var b := w + "+" + n;
    NotIn(w, IsLabelChar, '+');
    IndexOfConcat(w, '+', n);
    assert b[..|w|] == w && b[|w| + 1..] == n;
  }

  /** Neither attempt of the label pattern matches `w+N(%rip)`. */
  lemma PlusOffsetNoLabel(w: Str, n: Str)
    requires IsLabelWord(w) && !IsDigit(w[0])
    ensures RipLabel(w + "+" + n + Rip) == None
  {
    var x := w + "+" + n + Rip;
    assert x[0] == w[0];
    assert RipOffsetGroup(x) == None;
    assert x == w + ("+" + n + Rip);
    SpanConcat(w, "+" + n + Rip, IsLabelChar);
    assert x[|w|..][0] == '+';
  }

  /** `w+N(%rip)` with a label that does not start with a digit is accepted by the operand
      pattern, but neither attempt of the label pattern matches it, so the label is unbound. */
  lemma SymbolPlusOffsetRaises(w: Str, n: Str, symbols: seq<Str>)
    requires IsLabelWord(w) && !IsDigit(w[0]) && IsDigits(n)
    ensures InOperandLanguage(w + "+" + n + Rip)
    ensures ParseOperand(Some(w + "+" + n + Rip), symbols) == Err(UnboundLabel)
  {
    var x := w + "+" + n + Rip;
    RipBodyOf(w + "+" + n);
    PlusOffsetBody(w, n);
    PlusOffsetNoLabel(w, n);
    assert x[0] == w[0];
    ClassifyRip(x, symbols);
    Accepted(x, symbols);
  }

  // ----- every accepted operand is classified -----

  lemma InnerParts(x: Str)
    requires Inner(x).Some?
    ensures x == [] + "(" + Inner(x).value + ")"
  {
  }

  lemma AfterDispParts(x: Str) returns (d: Str)
    requires AfterDisp(x).Some?
    ensures IsDisp(d) && x == d + AfterDisp(x).value
  {
    var t := DropChar(x, '-');
    var k := Span(t, IsDigit);
    SpanSplit(t, IsDigit);
    if |x| > 0 && x[0] == '-' {
      d := "-" + t[..k];
      assert DropChar(d, '-') == t[..k];
    } else {
      d := t[..k];
      assert k > 0 && IsDigit(d[0]);
    }
  }

  lemma DispParenParts(x: Str, arity: nat) returns (d: Str, i: Str)
    requires IsDispParenRegs(x, arity)
    ensures IsDisp(d) && x == d + "(" + i + ")" && IsParenRegs("(" + i + ")", arity)
  {
    d := AfterDispParts(x);
    var rest := AfterDisp(x).value;
    i := Inner(rest).value;
    InnerParts(rest);
    assert rest == "(" + i + ")";
    ParenAssoc(d, i);
  }

  lemma PairParts(i: Str) returns (b: Str, ix: Str)
    requires IsRegPair(i)
    ensures IsRegRef(b) && IsRegRef(ix) && i == b + "," + ix
  {
    var p := Split(i, ',');
    b, ix := p[0], p[1];
    assert p == [b, ix];
    Join2(b, ix, ',');
  }

  lemma TripleParts(i: Str) returns (b: Str, ix: Str, sc: Str)
    requires IsRegPairScale(i)
    ensures IsRegRef(b) && IsRegRef(ix) && IsDigits(sc) && i == b + "," + ix + "," + sc
  {
    var p := Split(i, ',');
    b, ix, sc := p[0], p[1], p[2];
    assert p == [b, ix, sc];
    Join3(b, ix, sc, ',');
  }

  /** What it means for `Classify` to handle `x`: a known addressing mode, or the unbound
      label of an operand ending in `(%rip)`. */
  predicate Handled(x: Str, r: Result<(OperandData, bool), OperandError>)
  {
    match r
    case Ok(v) => v.0.opType != Unknown
    case Err(e) => e == UnboundLabel && EndsWith(x, Rip)
  }

  lemma ParenHandled(d: Str, i: Str, arity: nat, symbols: seq<Str>)
    requires d == [] || IsDisp(d)
    requires 1 <= arity <= 3 && (arity == 3 ==> d != [])
    requires IsParenRegs("(" + i + ")", arity)
    ensures Handled(d + "(" + i + ")", Classify(d + "(" + i + ")", symbols))
  {
    InnerOf(i);
    if arity == 1 {
      if i == "%rip" {
        RegRefChars(i);
        NoDollarNoPercent(d, i);
        if d != [] {
          DispChars(d);
        }
        RipEnd(d, i);
      } else {
        ClassifyBaseDispOf(d, i, symbols);
      }
    } else if arity == 2 {
      var b, ix := PairParts(i);
      Concat5(d, b, ix);
      ClassifyIndexedOf(d, b, ix, symbols);
    } else {
      var b, ix, sc := TripleParts(i);
      Concat7(d, b, ix, sc);
      ClassifyBisdOf(d, b, ix, sc, symbols);
    }
  }

  lemma ImmediateNoParen(x: Str)
    requires IsImmediateShape(x)
    ensures '(' !in x
  {
    var t := DropChar(x, '$');
    if x[0] != '$' {
      DispChars(x);
    } else {
      assert x == "$" + t;
      if t != [] && t[0] == '-' {
        assert t == "-" + DropChar(t, '-');
      }
      NotIn(DropChar(t, '-'), IsDigit, '(');
    }
  }

  /** Every text in the operand language is given a known addressing mode, except that
      the RIP-relative label may be unbound; the unpacking error never occurs. */
  lemma ClassifyHandled(x: Str, symbols: seq<Str>)
    requires InOperandLanguage(x)
    ensures Handled(x, Classify(x, symbols))
  {
    if StartsWith(x, "$") || StartsWith(x, "%") {
    } else if IsImmediateShape(x) {
      ImmediateNoParen(x);
    } else if IsRegisterShape(x) {
    } else if IsLabelWord(x) {
      NotIn(x, IsLabelChar, '(');
    } else if IsRipShape(x) {
      assert x[|x| - 6] == Rip[0];
    } else if IsParenRegs(x, 1) || IsParenRegs(x, 2) {
      var arity := if IsParenRegs(x, 1) then 1 else 2;
      InnerParts(x);
      ParenHandled([], Inner(x).value, arity, symbols);
    } else {
      var arity := if IsDispParenRegs(x, 1) then 1 else if IsDispParenRegs(x, 2) then 2 else 3;
      var d, i := DispParenParts(x, arity);
      ParenHandled(d, i, arity, symbols);
    }
  }

  // ----- parse_operand as a whole -----

  /** The operand is Unknown, with the flag false, exactly when it is missing, the text
      `None`, or rejected by the operand pattern (blank operands included); an error is
      always the unbound label of an operand ending in `(%rip)`. */
  lemma UnknownExactlyWhenRejected(operand: Option<Str>, symbols: seq<Str>)
    ensures var r := ParseOperand(operand, symbols);
            (r.Ok? && r.value.0.opType == Unknown)
            <==> (operand.None? || operand.value == "None" || MatchOperand(operand.value).None?)
    ensures (operand.None? || operand.value == "None" || MatchOperand(operand.value).None?)
            ==> ParseOperand(operand, symbols) == Ok((UnknownOperand, false))
    ensures ParseOperand(operand, symbols).Err? ==>
              ParseOperand(operand, symbols).error == UnboundLabel && EndsWith(Trim(operand.value), Rip)
  {
    if operand.Some? && operand.value != "None" {
      var x := Trim(operand.value);
      if x == [] {
        assert !InOperandLanguage(x);
      } else if InOperandLanguage(x) {
        ClassifyHandled(x, symbols);
      }
    }
  }

  /** An accepted operand starting with `$` is an immediate and one starting with `%` a
      register, in both cases carrying the stripped operand as its value. */
  lemma SigilOperand(operand: Str, symbols: seq<Str>)
    requires operand != "None" && MatchOperand(operand).Some?
    requires MatchOperand(operand).value[0] in {'$', '%'}
    ensures var x := MatchOperand(operand).value;
            ParseOperand(Some(operand), symbols)
            == Ok((OperandData(None, None, None, None, if x[0] == '$' then Immediate else Register, Some(x)), false))
  {
  }

  /** Blanks around an operand do not change its classification, unless the operand is
      exactly the text `None`. */
  lemma BlanksIgnored(a: Str, x: Str, b: Str, symbols: seq<Str>)
    requires AllWs(a) && AllWs(b)
    requires |x| > 0 && !IsWs(x[0]) && !IsWs(x[|x| - 1])
    requires x != "None" && a + x + b != "None"
    ensures ParseOperand(Some(a + x + b), symbols) == ParseOperand(Some(x), symbols)
  {
    StripOf(a, x, b, IsWs);
    StripNothing(x, IsWs);
  }

  /** The `None` test looks at the operand before stripping: a padded `None` is a label. */
  lemma PaddedNoneIsDirect(symbols: seq<Str>)
    ensures ParseOperand(Some(" None"), symbols)
            == Ok((OperandData(Some("None"), None, None, None, Direct, None), "None" in symbols))
  {
    var n: Str := "None";
    assert IsLabelWord(n);
    assert " None" == [' '] + n + [];
    StripOf([' '], n, [], IsWs);
    NotIn(n, IsLabelChar, '(');
  }
}
