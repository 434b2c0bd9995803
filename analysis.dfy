/** The function grouper and the patch annotator of the assembly analyser
    (`parse_assembly_file`, `asm_analysis`, `PatchingInst`).

    A file is given as its sequence of physical lines. Every line is stripped; a
    `.type NAME,@function` line opens the list of function NAME, and every other line that
    decodes as an instruction becomes a `PatchingInst` stamped with its 1-based line number
    and filed under the function opened last, or in the general list. The annotator then
    classifies both operands of every instruction against the first 99 symbol names and
    records which operand, if any, names a symbol. */
module Analysis {
  import opened Text
  import opened Decoder
  import opened Operands

  // ----- the grouping, on values -----

  /** The fields of a `PatchingInst` that never change after it is made. */
  datatype InstRecord = InstRecord(lineNum: nat, opcode: Str, prefix: Str, src: Str, dest: Option<Str>)

  /** A stripped line that opens a function: it starts with `.type` and contains `@function`. */
  predicate IsTypeLine(l: Str) { StartsWith(l, ".type") && Contains(l, "@function") }

  predicate IsQuoteOrComma(c: char) { c == '"' || c == ',' }

  /** The second blank-separated token, stripped of `"` and `,`; `None` where the line has
      only one token and indexing the token list raises. */
  function TypeName(l: Str): (name: Option<Str>)
    ensures name.Some? ==> |Fields(l)| >= 2 && |name.value| <= |Fields(l)[1]|
    ensures name.None? <==> |Fields(l)| < 2
  {
    var fs := Fields(l);
    if |fs| >= 2 then Some(Strip(fs[1], IsQuoteOrComma)) else None
  }

  /** What one physical line is to the grouper, after stripping: a function line with its
      name, a function line whose name cannot be indexed, an instruction, or anything else. */
  datatype LineKind = Opener(name: Str) | Nameless | Instruction(inst: Decoded) | Other

  function KindOf(line: Str): (k: LineKind)
    ensures (k.Opener? || k.Nameless?) <==> IsTypeLine(Trim(line))
    ensures k.Opener? ==> Some(k.name) == TypeName(Trim(line))
    ensures k.Nameless? ==> TypeName(Trim(line)).None?
    ensures k.Instruction? ==> Some(k.inst) == ParseAssemblyLine(Trim(line))
    ensures k.Other? ==> ParseAssemblyLine(Trim(line)).None?
  {
    var l := Trim(line);
    if IsTypeLine(l) then
      match TypeName(l)
      case None => Nameless
      case Some(name) => Opener(name)
    else
      match ParseAssemblyLine(l)
      case None => Other
      case Some(d) => Instruction(d)
  }

  /** The tokens of `.type NAME,…`: `.type`, then `NAME,`, then those of the rest. */
  lemma FieldsOfTypeLine(a: Str, name: Str, rest: Str)
    requires |a| > 0 && AllWs(a)
    requires |name| > 0 && All(name, NotWs)
    requires |rest| > 0 ==> IsWs(rest[0])
    ensures Fields(".type" + a + name + "," + rest) == [".type"] + ([name + ","] + Fields(rest))
  {
    var tail := a + (name + ",") + rest;
    assert All(name + ",", NotWs) by {
      AllConcat(name, ",", NotWs);
    }
    FieldsCons(a, name + ",", rest);
    Regroup5(".type", a, name, ",", rest);
    TypeWord();
    assert tail[0] == a[0];
    FieldsCons([], ".type", tail);
  }

  /** The name of `.type NAME, …`: the second token is `NAME,`, and stripping `"` and `,`
      leaves NAME when NAME itself neither starts nor ends with one of them. */
  lemma TypeNameOf(a: Str, name: Str, rest: Str)
    requires |a| > 0 && AllWs(a)
    requires |name| > 0 && All(name, NotWs)
    requires !IsQuoteOrComma(name[0]) && !IsQuoteOrComma(name[|name| - 1])
    requires |rest| > 0 ==> IsWs(rest[0])
    ensures TypeName(".type" + a + name + "," + rest) == Some(name)
  {
    var l := ".type" + a + name + "," + rest;
    assert |Fields(l)| >= 2 && Fields(l)[1] == name + "," by {
      FieldsOfTypeLine(a, name, rest);
    }
    assert Strip(name + ",", IsQuoteOrComma) == name by {
      assert All(",", IsQuoteOrComma);
      StripOf([], name, ",", IsQuoteOrComma);
      assert [] + name + "," == name + ",";
    }
  }

  /** Visible ASCII characters are not whitespace. */
  lemma PrintableNotWs(s: Str)
    requires forall i :: 0 <= i < |s| ==> '!' <= s[i] <= '~'
    ensures All(s, NotWs)
  {
  }

  lemma TypeWord()
    ensures All(".type", NotWs)
  {
    PrintableNotWs(".type");
  }

  lemma Regroup5<T>(p: seq<T>, a: seq<T>, n: seq<T>, c: seq<T>, r: seq<T>)
    ensures p + a + n + c + r == [] + p + (a + (n + c) + r)
  {
  }

  /** A `.type NAME, @function` line, as the compiler writes it, opens function NAME. */
  lemma TypeLineOpens(a: Str, name: Str, b: Str)
    requires |a| > 0 && AllWs(a) && |b| > 0 && AllWs(b)
    requires |name| > 0 && All(name, NotWs)
    requires !IsQuoteOrComma(name[0]) && !IsQuoteOrComma(name[|name| - 1])
    ensures KindOf(".type" + a + name + ", " + b + "@function") == Opener(name)
  {
    var rest := b + "@function";
    var l := ".type" + a + name + ", " + b + "@function";
    assert l == ".type" + a + name + "," + (" " + rest);
    assert l[0] == '.' && l[|l| - 1] == 'n';
    StripNothing(l, IsWs);
    assert StartsWith(l, ".type");
    assert l == (".type" + a + name + ", " + b) + "@function";
    ContainsSuffix(".type" + a + name + ", " + b, "@function");
    TypeNameOf(a, name, " " + rest);
  }

  function KindsOf(lines: seq<Str>): (ks: seq<LineKind>)
    ensures |ks| == |lines| && forall k :: 0 <= k < |lines| ==> ks[k] == KindOf(lines[k])
  {
    seq(|lines|, k requires 0 <= k < |lines| => KindOf(lines[k]))
  }

  /** The instruction on physical line `lineNum`. */
  function RecordOf(d: Decoded, lineNum: nat): (r: InstRecord)
    ensures r.lineNum == lineNum && r.src == d.src && r.dest == d.dest
  {
    InstRecord(lineNum, d.opcode, d.prefix, d.src, d.dest)
  }

  /** `if current_function:` — an empty name is false, so its instructions go to the general list. */
  function Owner(current: Option<Str>): (o: Option<Str>)
    ensures o.Some? <==> current.Some? && current.value != []
    ensures o.Some? ==> o == current
  {
    if current.Some? && current.value != [] then current else None
  }

  /** The loop state: the current function, the function dictionary with its keys in
      insertion order, and the general list. */
  datatype Grouping = Grouping(current: Option<Str>, funcs: map<Str, seq<InstRecord>>, order: seq<Str>, general: seq<InstRecord>)

  predicate NoDuplicates(s: seq<Str>)
  {
    forall j, k :: 0 <= j < k < |s| ==> s[j] != s[k]
  }

  /** The current function always has a list, and the key order lists each key once. */
  ghost predicate GoodGrouping(g: Grouping)
  {
    && (g.current.Some? ==> g.current.value in g.funcs)
    && NoDuplicates(g.order)
    && (forall f :: f in g.funcs <==> f in g.order)
  }

  const Start := Grouping(None, map[], [], [])

  /** One iteration of the loop, for physical line `lineNum` of kind `kind`. A name already
      in the dictionary keeps its place in the key order but gets a fresh empty list. */
  function Step(g: Grouping, kind: LineKind, lineNum: nat): (r: Result<Grouping, nat>)
    requires GoodGrouping(g)
    ensures r.Ok? ==> GoodGrouping(r.value)
    ensures r.Err? <==> kind.Nameless?
    ensures r.Err? ==> r.error == lineNum
  {
    match kind
    case Nameless => Err(lineNum)
    case Opener(name) =>
      var order := if name in g.funcs then g.order else g.order + [name];
      Ok(Grouping(Some(name), g.funcs[name := []], order, g.general))
    case Other => Ok(g)
    case Instruction(d) =>
      var rec := RecordOf(d, lineNum);
      match Owner(g.current)
      case None => Ok(g.(general := g.general + [rec]))
      case Some(f) => Ok(g.(funcs := g.funcs[f := g.funcs[f] + [rec]]))
  }

  /** The state after the first `n` lines, or the line number at which indexing failed. */
  function GroupPrefix(ks: seq<LineKind>, n: nat): (r: Result<Grouping, nat>)
    requires n <= |ks|
    ensures r.Ok? ==> GoodGrouping(r.value)
    ensures r.Err? ==> 1 <= r.error <= n
  {
    if n == 0 then Ok(Start)
    else
      match GroupPrefix(ks, n - 1)
      case Err(e) => Err(e)
      case Ok(g) => Step(g, ks[n - 1], n)
  }

  /** `parse_assembly_file` on values. */
  function Group(lines: seq<Str>): Result<Grouping, nat>
  {
    GroupPrefix(KindsOf(lines), |lines|)
  }

  // ----- the grouping, line by line -----

  /** The function opened last among the first `n` lines. */
  function CurrentAt(ks: seq<LineKind>, n: nat): Option<Str>
    requires n <= |ks|
  {
    if n == 0 then None
    else if ks[n - 1].Opener? then Some(ks[n - 1].name)
    else CurrentAt(ks, n - 1)
  }

  /** One past the last line among the first `n` that opens `f`, or 0. */
  function LastOpen(ks: seq<LineKind>, f: Str, n: nat): (k: nat)
    requires n <= |ks|
    ensures k <= n
    ensures k > 0 ==> ks[k - 1] == Opener(f)
    ensures forall j :: k <= j < n ==> ks[j] != Opener(f)
  {
    if n == 0 then 0
    else if ks[n - 1] == Opener(f) then n
    else LastOpen(ks, f, n - 1)
  }

  /** Function names in the order in which they are first opened among the first `n` lines. */
  function Names(ks: seq<LineKind>, n: nat): seq<Str>
    requires n <= |ks|
  {
    if n == 0 then []
    else
      var names := Names(ks, n - 1);
      if ks[n - 1].Opener? && ks[n - 1].name !in names then names + [ks[n - 1].name] else names
  }

  /** Whether line `k` (0-based) holds an instruction that is filed under `owner`. */
  predicate FiledUnder(ks: seq<LineKind>, k: nat, owner: Option<Str>)
    requires k < |ks|
  {
    ks[k].Instruction? && Owner(CurrentAt(ks, k)) == owner
  }

  /** The instructions on lines `lo` to `n - 1` (0-based) filed under `owner`, in file order. */
  function Collect(ks: seq<LineKind>, lo: nat, n: nat, owner: Option<Str>): seq<InstRecord>
    requires lo <= n <= |ks|
    decreases n - lo
  {
    if n == lo then []
    else Collect(ks, lo, n - 1, owner) + (if FiledUnder(ks, n - 1, owner) then [RecordOf(ks[n - 1].inst, n)] else [])
  }

  /** The invariant of the loop, stated line by line. */
  ghost predicate ByLine(ks: seq<LineKind>, n: nat, g: Grouping)
    requires n <= |ks|
  {
    && g.current == CurrentAt(ks, n)
    && g.order == Names(ks, n)
    && g.general == Collect(ks, 0, n, None)
    && forall f :: f in g.funcs ==> g.funcs[f] == Collect(ks, LastOpen(ks, f, n), n, Some(f))
  }

  /** The grouping fails exactly at the first function line without a name; otherwise
      the general list holds every instruction filed under no function, each function's
      list holds the instructions filed under it since it was last opened, and the keys
      are the opened names in first-opened order. */
  lemma {:induction false} GroupByLine(ks: seq<LineKind>, n: nat)
    requires n <= |ks|
    ensures GroupPrefix(ks, n).Err? ==>
              var e := GroupPrefix(ks, n).error;
              ks[e - 1].Nameless? && forall k :: 0 <= k < e - 1 ==> !ks[k].Nameless?
    ensures GroupPrefix(ks, n).Ok? <==> forall k :: 0 <= k < n ==> !ks[k].Nameless?
    ensures GroupPrefix(ks, n).Ok? ==> ByLine(ks, n, GroupPrefix(ks, n).value)
  {
    if n > 0 {
      GroupByLine(ks, n - 1);
      var prev := GroupPrefix(ks, n - 1);
      if prev.Ok? {
        GroupStep(ks, n, prev.value);
      }
    }
  }

  lemma GroupStep(ks: seq<LineKind>, n: nat, g: Grouping)
    requires 0 < n <= |ks| && GoodGrouping(g) && ByLine(ks, n - 1, g)
    ensures Step(g, ks[n - 1], n).Ok? ==> ByLine(ks, n, Step(g, ks[n - 1], n).value)
  {
    match ks[n - 1]
    case Nameless =>
    case Opener(name) => OpenerStep(ks, n, g);
    case Other => OtherStep(ks, n, g);
    case Instruction(d) => InstructionStep(ks, n, g);
  }

  /** A line that is not an instruction adds nothing to any list. */
  lemma CollectSkip(ks: seq<LineKind>, lo: nat, n: nat, owner: Option<Str>)
    requires lo < n <= |ks| && !ks[n - 1].Instruction?
    ensures Collect(ks, lo, n, owner) == Collect(ks, lo, n - 1, owner)
  {
  }

  /** An instruction line adds its record to the list of its owner only. */
  lemma CollectAdd(ks: seq<LineKind>, lo: nat, n: nat, owner: Option<Str>)
    requires lo < n <= |ks| && ks[n - 1].Instruction?
    ensures Collect(ks, lo, n, owner)
            == Collect(ks, lo, n - 1, owner) + (if Owner(CurrentAt(ks, n - 1)) == owner then [RecordOf(ks[n - 1].inst, n)] else [])
  {
  }

  lemma OpenerStep(ks: seq<LineKind>, n: nat, g: Grouping)
    requires 0 < n <= |ks| && GoodGrouping(g) && ByLine(ks, n - 1, g) && ks[n - 1].Opener?
    ensures ByLine(ks, n, Step(g, ks[n - 1], n).value)
  {
    var k := n - 1;
    var name := ks[k].name;
    var h := Step(g, ks[k], n).value;
    assert h.funcs == g.funcs[name := []] && h.general == g.general;
    assert h.current == CurrentAt(ks, n);
    assert h.order == Names(ks, n);
    CollectSkip(ks, 0, n, None);
    forall f | f in h.funcs
      ensures h.funcs[f] == Collect(ks, LastOpen(ks, f, n), n, Some(f))
    {
      if f == name {
        assert LastOpen(ks, f, n) == n;
      } else {
        OpenerOther(ks, n, f);
      }
    }
  }

  lemma OpenerOther(ks: seq<LineKind>, n: nat, f: Str)
    requires 0 < n <= |ks| && ks[n - 1].Opener? && ks[n - 1] != Opener(f)
    ensures Collect(ks, LastOpen(ks, f, n), n, Some(f)) == Collect(ks, LastOpen(ks, f, n - 1), n - 1, Some(f))
  {
    assert LastOpen(ks, f, n) == LastOpen(ks, f, n - 1);
    CollectSkip(ks, LastOpen(ks, f, n), n, Some(f));
  }

  lemma OtherStep(ks: seq<LineKind>, n: nat, g: Grouping)
    requires 0 < n <= |ks| && GoodGrouping(g) && ByLine(ks, n - 1, g) && ks[n - 1].Other?
    ensures ByLine(ks, n, Step(g, ks[n - 1], n).value)
  {
    var k := n - 1;
    CollectSkip(ks, 0, n, None);
    forall f | f in g.funcs
      ensures g.funcs[f] == Collect(ks, LastOpen(ks, f, n), n, Some(f))
    {
      assert LastOpen(ks, f, n) == LastOpen(ks, f, k);
      CollectSkip(ks, LastOpen(ks, f, n), n, Some(f));
    }
  }

  lemma InstructionStep(ks: seq<LineKind>, n: nat, g: Grouping)
    requires 0 < n <= |ks| && GoodGrouping(g) && ByLine(ks, n - 1, g) && ks[n - 1].Instruction?
    ensures ByLine(ks, n, Step(g, ks[n - 1], n).value)
  {
    var k := n - 1;
    var h := Step(g, ks[k], n).value;
    assert CurrentAt(ks, n) == CurrentAt(ks, k);
    CollectAdd(ks, 0, n, None);
    forall f | f in h.funcs
      ensures h.funcs[f] == Collect(ks, LastOpen(ks, f, n), n, Some(f))
    {
      assert LastOpen(ks, f, n) == LastOpen(ks, f, k);
      CollectAdd(ks, LastOpen(ks, f, n), n, Some(f));
    }
  }

  /** A list extends the list of the shorter range, by the record of the last line when
      that line is filed under its owner. */
  lemma CollectLast(ks: seq<LineKind>, lo: nat, n: nat, owner: Option<Str>)
    requires lo < n <= |ks|
    ensures var c := Collect(ks, lo, n, owner);
            var p := Collect(ks, lo, n - 1, owner);
            && |c| == |p| + (if FiledUnder(ks, n - 1, owner) then 1 else 0)
            && (forall i :: 0 <= i < |p| ==> c[i] == p[i])
            && (FiledUnder(ks, n - 1, owner) ==> c[|p|] == RecordOf(ks[n - 1].inst, n))
  {
  }

  /** Each record of a list is the instruction of a filed line in its range, stamped
      with that line's 1-based number. */
  lemma {:induction false} CollectSound(ks: seq<LineKind>, lo: nat, n: nat, owner: Option<Str>)
    requires lo <= n <= |ks|
    ensures var c := Collect(ks, lo, n, owner);
            forall i :: 0 <= i < |c| ==>
              lo < c[i].lineNum <= n && FiledUnder(ks, c[i].lineNum - 1, owner)
              && c[i] == RecordOf(ks[c[i].lineNum - 1].inst, c[i].lineNum)
    decreases n - lo
  {
    if n > lo {
      CollectSound(ks, lo, n - 1, owner);
      CollectLast(ks, lo, n, owner);
    }
  }

  /** The records of a list are in increasing line order. */
  lemma {:induction false} CollectSorted(ks: seq<LineKind>, lo: nat, n: nat, owner: Option<Str>)
    requires lo <= n <= |ks|
    ensures var c := Collect(ks, lo, n, owner);
            forall i, j :: 0 <= i < j < |c| ==> c[i].lineNum < c[j].lineNum
    decreases n - lo
  {
    if n > lo {
      CollectSorted(ks, lo, n - 1, owner);
      CollectSound(ks, lo, n - 1, owner);
      CollectLast(ks, lo, n, owner);
    }
  }

  /** Every filed instruction line of the range has its record in the list. */
  lemma {:induction false} CollectComplete(ks: seq<LineKind>, lo: nat, n: nat, owner: Option<Str>)
    requires lo <= n <= |ks|
    ensures var c := Collect(ks, lo, n, owner);
            forall k :: lo <= k < n && FiledUnder(ks, k, owner) ==> exists i :: 0 <= i < |c| && c[i].lineNum == k + 1
    decreases n - lo
  {
    if n > lo {
      CollectComplete(ks, lo, n - 1, owner);
      CollectLast(ks, lo, n, owner);
      var c := Collect(ks, lo, n, owner);
      var p := Collect(ks, lo, n - 1, owner);
      forall k | lo <= k < n && FiledUnder(ks, k, owner)
        ensures exists i :: 0 <= i < |c| && c[i].lineNum == k + 1
      {
        if k < n - 1 {
          var i :| 0 <= i < |p| && p[i].lineNum == k + 1;
          assert c[i] == p[i];
        } else {
          assert c[|c| - 1].lineNum == n;
        }
      }
    }
  }

  /** A function opened a second time starts over: what was filed under it before is dropped. */
  lemma ReopenDropsEarlier(d1: Decoded, d2: Decoded)
    ensures var ks := [Opener("main"), Instruction(d1), Opener("main"), Instruction(d2)];
            GroupPrefix(ks, 4) == Ok(Grouping(Some("main"), map["main" := [RecordOf(d2, 4)]], ["main"], []))
  {
    var ks := [Opener("main"), Instruction(d1), Opener("main"), Instruction(d2)];
    assert GroupPrefix(ks, 0) == Ok(Start);
    var m1: map<Str, seq<InstRecord>> := map["main" := []];
    assert [] + ["main"] == ["main"];
    assert GroupPrefix(ks, 1) == Ok(Grouping(Some("main"), m1, ["main"], []));
    var m2 := map["main" := [RecordOf(d1, 2)]];
    assert m1["main"] + [RecordOf(d1, 2)] == [RecordOf(d1, 2)];
    assert m1["main" := m1["main"] + [RecordOf(d1, 2)]] == m2;
    assert GroupPrefix(ks, 2) == Ok(Grouping(Some("main"), m2, ["main"], []));
    assert m2["main" := []] == m1;
    assert GroupPrefix(ks, 3) == Ok(Grouping(Some("main"), m1, ["main"], []));
    assert m1["main"] + [RecordOf(d2, 4)] == [RecordOf(d2, 4)];
    assert m1["main" := m1["main"] + [RecordOf(d2, 4)]] == map["main" := [RecordOf(d2, 4)]];
  }

  /** An empty function name is false: its instructions go to the general list, although
      the name gets a (never used) list of its own. */
  lemma EmptyNameFilesGenerally(d: Decoded)
    ensures var ks := [Instruction(d), Opener([]), Instruction(d)];
            GroupPrefix(ks, 3) == Ok(Grouping(Some([]), map[[] := []], [[]], [RecordOf(d, 1), RecordOf(d, 3)]))
  {
    var ks := [Instruction(d), Opener([]), Instruction(d)];
    assert GroupPrefix(ks, 0) == Ok(Start);
    assert [] + [RecordOf(d, 1)] == [RecordOf(d, 1)];
    assert GroupPrefix(ks, 1) == Ok(Grouping(None, map[], [], [RecordOf(d, 1)]));
    var m: map<Str, seq<InstRecord>> := map[[] := []];
    var empty: seq<Str> := [];
    assert empty + [[]] == [[]];
    assert GroupPrefix(ks, 2) == Ok(Grouping(Some([]), m, [[]], [RecordOf(d, 1)]));
    assert Owner(Some([])) == None;
    assert [RecordOf(d, 1)] + [RecordOf(d, 3)] == [RecordOf(d, 1), RecordOf(d, 3)];
  }

  // ----- the patch annotation, on values -----

  /** The two values `patching_info` takes besides `None`. */
  datatype PatchKind = PatchSrc | PatchDest

  /** Both operands classified against `symbols`, source first; the first error stops it. */
  function OperandsOf(src: Str, dest: Option<Str>, symbols: seq<Str>): (r: Result<(OperandData, bool, OperandData, bool), OperandError>)
    ensures r.Ok? <==> ParseOperand(Some(src), symbols).Ok? && ParseOperand(dest, symbols).Ok?
    ensures r.Ok? ==> (r.value.0, r.value.1) == ParseOperand(Some(src), symbols).value
                      && (r.value.2, r.value.3) == ParseOperand(dest, symbols).value
    ensures r.Err? ==> r.error == UnboundLabel
  {
    UnknownExactlyWhenRejected(Some(src), symbols);
    UnknownExactlyWhenRejected(dest, symbols);
    match ParseOperand(Some(src), symbols)
    case Err(e) => Err(e)
    case Ok((s, sf)) =>
      match ParseOperand(dest, symbols)
      case Err(e) => Err(e)
      case Ok((d, df)) => Ok((s, sf, d, df))
  }

  /** `patching_info` after the two flag tests: `"dest"` wins over `"src"`, and with neither
      flag the old value stays. */
  function Mark(p: Option<PatchKind>, srcFound: bool, destFound: bool): Option<PatchKind>
  {
    if destFound then Some(PatchDest) else if srcFound then Some(PatchSrc) else p
  }

  /** Marking twice with the same flags is marking once. */
  lemma MarkIdempotent(p: Option<PatchKind>, srcFound: bool, destFound: bool)
    ensures Mark(Mark(p, srcFound, destFound), srcFound, destFound) == Mark(p, srcFound, destFound)
  {
  }

  /** The first 99 symbols, the only ones the annotator matches against. */
  function First99(symbols: seq<Str>): (r: seq<Str>)
    ensures |r| <= 99 && r <= symbols
    ensures |symbols| >= 99 ==> |r| == 99
  {
    if |symbols| <= 99 then symbols else symbols[..99]
  }

  /** An unpatched instruction is patched exactly when one of its operands names one of the
      first 99 symbols, and then as `"dest"` whenever the destination does; a symbol past
      the 99th never causes a patch. */
  lemma PatchedIffNamed(src: Str, dest: Option<Str>, symbols: seq<Str>)
    requires OperandsOf(src, dest, First99(symbols)).Ok?
    ensures var a := OperandsOf(src, dest, First99(symbols)).value;
            var names := First99(symbols);
            && (Mark(None, a.1, a.3).Some? <==>
                  (a.0.labelName.Some? && a.0.labelName.value in names && a.0.opType in {RipRelative, Direct})
                  || (a.2.labelName.Some? && a.2.labelName.value in names && a.2.opType in {RipRelative, Direct}))
            && (Mark(None, a.1, a.3) == Some(PatchDest) <==>
                  a.2.labelName.Some? && a.2.labelName.value in names && a.2.opType in {RipRelative, Direct})
            && (Mark(None, a.1, a.3).Some? ==>
                  (a.0.labelName.Some? && a.0.labelName.value in symbols[..|names|])
                  || (a.2.labelName.Some? && a.2.labelName.value in symbols[..|names|]))
  {
    var names := First99(symbols);
    assert symbols[..|names|] == names;
  }

  // ----- instructions as objects -----

  /** `PatchingInst`: the decoded fields never change after construction; the two operand
      descriptions and the patch kind are filled in by the annotator. */
  class PatchingInst {
    const lineNum: nat
    const opcode: Str
    const prefix: Str
    const src: Str
    const dest: Option<Str>
    var srcOp: Option<OperandData>
    var destOp: Option<OperandData>
    var patchingInfo: Option<PatchKind>

    constructor (lineNum: nat, opcode: Str, prefix: Str, src: Str, dest: Option<Str>)
      ensures this.lineNum == lineNum && this.opcode == opcode && this.prefix == prefix
      ensures this.src == src && this.dest == dest
      ensures srcOp.None? && destOp.None? && patchingInfo.None?
    {
      this.lineNum := lineNum;
      this.opcode := opcode;
      this.prefix := prefix;
      this.src := src;
      this.dest := dest;
      srcOp := None;
      destOp := None;
      patchingInfo := None;
    }

    /** The fixed fields as a value. */
    function Record(): (r: InstRecord)
      ensures r.lineNum == lineNum && r.src == src && r.dest == dest
    {
      InstRecord(lineNum, opcode, prefix, src, dest)
    }

    /** `compare`: the same line number, opcode, prefix and operands as `other`, and
        this instruction patched; anything that is not an instruction compares false. */
    predicate Compare(other: PatchingInst?)
      reads this
    {
      && other != null
      && lineNum == other.lineNum && opcode == other.opcode && prefix == other.prefix
      && src == other.src && dest == other.dest
      && patchingInfo != None
    }

    /** Classify both operands and record the patch kind; an exception from the source
        operand leaves the instruction as it was, one from the destination leaves the
        source description already set. */
    method Annotate(symbols: seq<Str>) returns (r: Result<(), OperandError>)
      modifies this
      ensures r.Ok? <==> OperandsOf(src, dest, symbols).Ok?
      ensures r.Ok? ==> OperandsOf(src, dest, symbols).Ok? && AnnotatedBy(this, old(patchingInfo), OperandsOf(src, dest, symbols).value)
      ensures r.Err? ==> r.error == UnboundLabel && patchingInfo == old(patchingInfo) && destOp == old(destOp)
      ensures ParseOperand(Some(src), symbols).Err? ==> srcOp == old(srcOp)
      ensures ParseOperand(Some(src), symbols).Ok? ==> srcOp == Some(ParseOperand(Some(src), symbols).value.0)
    {
      var s := ParseOperand(Some(src), symbols);
      if s.Err? {
        return Err(s.error);
      }
      srcOp := Some(s.value.0);
      var d := ParseOperand(dest, symbols);
      if d.Err? {
        return Err(d.error);
      }
      destOp := Some(d.value.0);
      if s.value.1 {
        patchingInfo := Some(PatchSrc);
      }
      if d.value.1 {
        patchingInfo := Some(PatchDest);
      }
      r := Ok(());
    }
  }

  /** An instruction carrying the operand descriptions of `a`, its patch kind being the
      mark of `before` by the two flags of `a`. */
  ghost predicate AnnotatedBy(o: PatchingInst, before: Option<PatchKind>, a: (OperandData, bool, OperandData, bool))
    reads o
  {
    o.srcOp == Some(a.0) && o.destOp == Some(a.2) && o.patchingInfo == Mark(before, a.1, a.3)
  }

  /** An instruction whose operands are classified against `symbols` and whose patch kind
      is the mark of `before` by the two flags. */
  ghost predicate Annotated(o: PatchingInst, before: Option<PatchKind>, symbols: seq<Str>)
    reads o
  {
    var a := OperandsOf(o.src, o.dest, symbols);
    a.Ok? && AnnotatedBy(o, before, a.value)
  }

  /** `compare` is decided by the fixed fields and the patch kind of the receiver. */
  lemma CompareByRecord(a: PatchingInst, b: PatchingInst?)
    ensures a.Compare(b) <==> b != null && a.Record() == b.Record() && a.patchingInfo.Some?
  {
  }

  /** An instruction compares equal to itself only once patched. */
  lemma CompareSelf(a: PatchingInst)
    ensures a.Compare(a) <==> a.patchingInfo.Some?
  {
  }

  /** `compare` holds both ways exactly when both instructions are patched and agree on
      their fixed fields. */
  lemma CompareBothWays(a: PatchingInst, b: PatchingInst)
    ensures a.Compare(b) && b.Compare(a) <==>
              a.Record() == b.Record() && a.patchingInfo.Some? && b.patchingInfo.Some?
  {
  }

  /** `compare` is not symmetric: a patched instruction matches an unpatched copy of itself,
      but not the other way round. */
  method CompareNotSymmetric() returns (a: PatchingInst, b: PatchingInst)
    ensures a.Compare(b) && !b.Compare(a)
  {
    a := new PatchingInst(3, "mov", "l", "hidden(%rip)", Some("%eax"));
    b := new PatchingInst(3, "mov", "l", "hidden(%rip)", Some("%eax"));
    a.patchingInfo := Some(PatchSrc);
  }

  /** The fixed fields of a list of instructions. */
  function RecordsOf(s: seq<PatchingInst>): (r: seq<InstRecord>)
    ensures |r| == |s| && forall j :: 0 <= j < |s| ==> r[j] == s[j].Record()
  {
    seq(|s|, j requires 0 <= j < |s| => s[j].Record())
  }

  function MapRecords(m: map<Str, seq<PatchingInst>>): (r: map<Str, seq<InstRecord>>)
    ensures r.Keys == m.Keys && forall f :: f in m ==> r[f] == RecordsOf(m[f])
  {
    map f | f in m :: RecordsOf(m[f])
  }

  lemma RecordsAppend(s: seq<PatchingInst>, o: PatchingInst)
    ensures RecordsOf(s + [o]) == RecordsOf(s) + [o.Record()]
  {
  }

  lemma MapRecordsUpdate(m: map<Str, seq<PatchingInst>>, f: Str, s: seq<PatchingInst>)
    ensures MapRecords(m[f := s]) == MapRecords(m)[f := RecordsOf(s)]
  {
  }

  /** The lists of the keys in `order`, one after the other. */
  function Concat<T>(order: seq<Str>, m: map<Str, seq<T>>): seq<T>
    requires forall f :: f in order ==> f in m
  {
    if order == [] then [] else m[order[0]] + Concat(order[1..], m)
  }

  /** Every instruction of a listed function is in the concatenation. */
  lemma {:induction false} InConcat<T>(order: seq<Str>, m: map<Str, seq<T>>, f: Str, j: nat)
    requires forall g :: g in order ==> g in m
    requires f in order && j < |m[f]|
    ensures m[f][j] in Concat(order, m)
  {
    if order[0] != f {
      InConcat(order[1..], m, f, j);
    }
  }

  lemma {:induction false} ConcatRecords(order: seq<Str>, m: map<Str, seq<PatchingInst>>)
    requires forall g :: g in order ==> g in m
    ensures RecordsOf(Concat(order, m)) == Concat(order, MapRecords(m))
  {
    if order != [] {
      ConcatRecords(order[1..], m);
      assert RecordsOf(m[order[0]] + Concat(order[1..], m)) == RecordsOf(m[order[0]]) + RecordsOf(Concat(order[1..], m));
    }
  }

  /** Every instruction the analysis sees: the function lists in key order, then the general list. */
  function AllRecords(g: Grouping): seq<InstRecord>
    requires GoodGrouping(g)
  {
    Concat(g.order, g.funcs) + g.general
  }

  /** Every listed instruction has operands that classify against `symbols`. */
  predicate Classifiable(recs: seq<InstRecord>, symbols: seq<Str>)
  {
    forall k :: 0 <= k < |recs| ==> OperandsOf(recs[k].src, recs[k].dest, symbols).Ok?
  }

  /** The annotation loop over one list of instructions. */
  method AnnotateAll(insts: seq<PatchingInst>, symbols: seq<Str>) returns (r: Result<(), OperandError>)
    modifies set j | 0 <= j < |insts| :: insts[j]
    ensures r.Ok? <==> Classifiable(RecordsOf(insts), symbols)
    ensures r.Err? ==> r.error == UnboundLabel
    ensures r.Ok? ==> forall j :: 0 <= j < |insts| ==> Annotated(insts[j], old(insts[j].patchingInfo), symbols)
  {
    ghost var outs := seq(|insts|, j requires 0 <= j < |insts| => OperandsOf(insts[j].src, insts[j].dest, symbols));
    var i := 0;
    while i < |insts|
      invariant 0 <= i <= |insts|
      invariant forall j :: 0 <= j < i ==> outs[j].Ok? && AnnotatedBy(insts[j], old(insts[j].patchingInfo), outs[j].value)
      invariant forall j :: i <= j < |insts| && insts[j] !in insts[..i] ==> insts[j].patchingInfo == old(insts[j].patchingInfo)
    {
      var o := insts[i];
      label Call:
      var a := o.Annotate(symbols);
      if a.Err? {
        return Err(a.error);
      }
      ghost var v := outs[i].value;
      ghost var p0 := old(o.patchingInfo);
      if o in insts[..i] {
        var k :| 0 <= k < i && insts[k] == o;
        assert outs[k] == outs[i];
        assert old@Call(o.patchingInfo) == Mark(p0, v.1, v.3);
        MarkIdempotent(p0, v.1, v.3);
      }
      assert o.patchingInfo == Mark(p0, v.1, v.3);
      forall j | 0 <= j <= i
        ensures outs[j].Ok? && AnnotatedBy(insts[j], old(insts[j].patchingInfo), outs[j].value)
      {
        if insts[j] == o {
          assert outs[j] == outs[i];
        }
      }
      assert insts[..i + 1] == insts[..i] + [o];
      i := i + 1;
    }
    r := Ok(());
  }

  /** A `Group` failure persists: once a line raises, the whole file raises at that line. */
  lemma {:induction false} ErrorPersists(ks: seq<LineKind>, n: nat, m: nat)
    requires n <= m <= |ks| && GroupPrefix(ks, n).Err?
    ensures GroupPrefix(ks, m) == GroupPrefix(ks, n)
    decreases m - n
  {
    if m > n {
      ErrorPersists(ks, n, m - 1);
    }
  }

  /** No instruction is annotated yet. */
  ghost predicate Unpatched(o: PatchingInst)
    reads o
  {
    o.srcOp.None? && o.destOp.None? && o.patchingInfo.None?
  }

  /** `parse_assembly_file` over the lines of a file: the function dictionary, its keys in
      insertion order, and the general list, or the number of the line whose function name
      could not be indexed. Each line is stripped and classified, then filed. */
  method ParseAssemblyFile(lines: seq<Str>)
    returns (r: Result<(map<Str, seq<PatchingInst>>, seq<Str>, seq<PatchingInst>), nat>)
    ensures r.Ok? <==> Group(lines).Ok?
    ensures r.Err? ==> r.error == Group(lines).error
    ensures r.Ok? ==>
              var g := Group(lines).value;
              MapRecords(r.value.0) == g.funcs && r.value.1 == g.order && RecordsOf(r.value.2) == g.general
    ensures r.Ok? ==>
              && (forall f, j :: f in r.value.0 && 0 <= j < |r.value.0[f]| ==>
                    fresh(r.value.0[f][j]) && Unpatched(r.value.0[f][j]))
              && (forall j :: 0 <= j < |r.value.2| ==> fresh(r.value.2[j]) && Unpatched(r.value.2[j]))
  {
    r := FileLines(KindsOf(lines));
  }

  /** Every listed instruction is one of `made`. */
  ghost predicate Within(funcs: map<Str, seq<PatchingInst>>, general: seq<PatchingInst>, made: set<PatchingInst>)
  {
    && (forall f, j :: f in funcs && 0 <= j < |funcs[f]| ==> funcs[f][j] in made)
    && (forall j :: 0 <= j < |general| ==> general[j] in made)
  }

  lemma WithinOpen(funcs: map<Str, seq<PatchingInst>>, general: seq<PatchingInst>, made: set<PatchingInst>, name: Str)
    requires Within(funcs, general, made)
    ensures Within(funcs[name := []], general, made)
  {
  }

  lemma WithinFile(funcs: map<Str, seq<PatchingInst>>, general: seq<PatchingInst>, made: set<PatchingInst>, f: Str, o: PatchingInst)
    requires Within(funcs, general, made) && f in funcs
    ensures Within(funcs[f := funcs[f] + [o]], general, made + {o})
  {
  }

  lemma WithinGeneral(funcs: map<Str, seq<PatchingInst>>, general: seq<PatchingInst>, made: set<PatchingInst>, o: PatchingInst)
    requires Within(funcs, general, made)
    ensures Within(funcs, general + [o], made + {o})
  {
  }

  /** Lines 125-128 of the loop on the object lists: a type line opens a fresh empty list. */
  lemma StepOpener(current: Option<Str>, funcs: map<Str, seq<PatchingInst>>, order: seq<Str>,
                   general: seq<PatchingInst>, name: Str, lineNum: nat)
    requires GoodGrouping(Grouping(current, MapRecords(funcs), order, RecordsOf(general)))
    ensures Step(Grouping(current, MapRecords(funcs), order, RecordsOf(general)), Opener(name), lineNum)
         == Ok(Grouping(Some(name), MapRecords(funcs[name := []]),
                        if name in funcs then order else order + [name], RecordsOf(general)))
  {
    MapRecordsUpdate(funcs, name, []);
  }

  /** Lines 129-135 of the loop on the object lists: a new instruction object is filed under
      the current function, or in the general list when there is none. */
  method FileInstruction(current: Option<Str>, funcs: map<Str, seq<PatchingInst>>, order: seq<Str>,
                         general: seq<PatchingInst>, d: Decoded, lineNum: nat, ghost made: set<PatchingInst>)
    returns (funcs': map<Str, seq<PatchingInst>>, general': seq<PatchingInst>, ghost made': set<PatchingInst>)
    requires GoodGrouping(Grouping(current, MapRecords(funcs), order, RecordsOf(general)))
    requires Within(funcs, general, made)
    ensures Step(Grouping(current, MapRecords(funcs), order, RecordsOf(general)), Instruction(d), lineNum)
         == Ok(Grouping(current, MapRecords(funcs'), order, RecordsOf(general')))
    ensures Within(funcs', general', made')
    ensures forall o :: o in made' ==> o in made || (fresh(o) && Unpatched(o))
  {
    var inst := new PatchingInst(lineNum, d.opcode, d.prefix, d.src, d.dest);
    assert inst.Record() == RecordOf(d, lineNum);
    if current.Some? && current.value != [] {
      var f := current.value;
      RecordsAppend(funcs[f], inst);
      MapRecordsUpdate(funcs, f, funcs[f] + [inst]);
      WithinFile(funcs, general, made, f, inst);
      funcs', general' := funcs[f := funcs[f] + [inst]], general;
    } else {
      RecordsAppend(general, inst);
      WithinGeneral(funcs, general, made, inst);
      funcs', general' := funcs, general + [inst];
    }
    made' := made + {inst};
  }

  /** One iteration of the loop of `parse_assembly_file` on a line that is not a nameless
      type line. */
  method FileLine(current: Option<Str>, funcs: map<Str, seq<PatchingInst>>, order: seq<Str>,
                  general: seq<PatchingInst>, kind: LineKind, lineNum: nat, ghost made: set<PatchingInst>)
    returns (current': Option<Str>, funcs': map<Str, seq<PatchingInst>>, order': seq<Str>,
             general': seq<PatchingInst>, ghost made': set<PatchingInst>)
    requires !kind.Nameless?
    requires GoodGrouping(Grouping(current, MapRecords(funcs), order, RecordsOf(general)))
    requires Within(funcs, general, made)
    ensures Step(Grouping(current, MapRecords(funcs), order, RecordsOf(general)), kind, lineNum)
         == Ok(Grouping(current', MapRecords(funcs'), order', RecordsOf(general')))
    ensures Within(funcs', general', made')
    ensures forall o :: o in made' ==> o in made || (fresh(o) && Unpatched(o))
  {
    current', funcs', order', general', made' := current, funcs, order, general, made;
    match kind {
      case Other =>
      case Opener(name) =>
        StepOpener(current, funcs, order, general, name, lineNum);
        WithinOpen(funcs, general, made, name);
        if name !in funcs {
          order' := order + [name];
        }
        funcs' := funcs[name := []];
        current' := Some(name);
      case Instruction(d) =>
        funcs', general', made' := FileInstruction(current, funcs, order, general, d, lineNum, made);
    }
  }

  /** The loop of `parse_assembly_file` over the classified lines. */
  method FileLines(ks: seq<LineKind>)
    returns (r: Result<(map<Str, seq<PatchingInst>>, seq<Str>, seq<PatchingInst>), nat>)
    ensures r.Ok? <==> GroupPrefix(ks, |ks|).Ok?
    ensures r.Err? ==> r.error == GroupPrefix(ks, |ks|).error
    ensures r.Ok? ==>
              var g := GroupPrefix(ks, |ks|).value;
              MapRecords(r.value.0) == g.funcs && r.value.1 == g.order && RecordsOf(r.value.2) == g.general
    ensures r.Ok? ==>
              && (forall f, j :: f in r.value.0 && 0 <= j < |r.value.0[f]| ==>
                    fresh(r.value.0[f][j]) && Unpatched(r.value.0[f][j]))
              && (forall j :: 0 <= j < |r.value.2| ==> fresh(r.value.2[j]) && Unpatched(r.value.2[j]))
  {
    var current: Option<Str> := None;
    var funcs: map<Str, seq<PatchingInst>> := map[];
    var order: seq<Str> := [];
    var general: seq<PatchingInst> := [];
    ghost var made: set<PatchingInst> := {};
    var lineNum := 1;
    while lineNum <= |ks|
      invariant 1 <= lineNum <= |ks| + 1
      invariant GroupPrefix(ks, lineNum - 1) == Ok(Grouping(current, MapRecords(funcs), order, RecordsOf(general)))
      invariant Within(funcs, general, made)
      invariant forall o :: o in made ==> fresh(o) && Unpatched(o)
      decreases |ks| + 1 - lineNum
    {
      ghost var g := Grouping(current, MapRecords(funcs), order, RecordsOf(general));
      if ks[lineNum - 1].Nameless? {
        ErrorPersists(ks, lineNum, |ks|);
        return Err(lineNum);
      }
      current, funcs, order, general, made := FileLine(current, funcs, order, general, ks[lineNum - 1], lineNum, made);
      assert GroupPrefix(ks, lineNum) == Step(g, ks[lineNum - 1], lineNum);
      lineNum := lineNum + 1;
    }
    r := Ok((funcs, order, general));
  }

  // ----- asm_analysis -----

  /** Why the analysis raised: a type line without a function name, or an operand that
      names no label. */
  datatype AnalysisError = MissingName(lineNum: nat) | OperandFailure(error: OperandError)

  lemma RecordsConcat(a: seq<PatchingInst>, b: seq<PatchingInst>)
    ensures RecordsOf(a + b) == RecordsOf(a) + RecordsOf(b)
  {
  }

  /** Everything in the concatenation comes from a listed function. */
  lemma {:induction false} ConcatMember<T>(order: seq<Str>, m: map<Str, seq<T>>, x: T)
    requires forall g :: g in order ==> g in m
    requires x in Concat(order, m)
    ensures exists f, j :: f in order && 0 <= j < |m[f]| && m[f][j] == x
  {
    if x in m[order[0]] {
      var j :| 0 <= j < |m[order[0]]| && m[order[0]][j] == x;
      assert order[0] in order;
    } else {
      ConcatMember(order[1..], m, x);
      var f, j :| f in order[1..] && 0 <= j < |m[f]| && m[f][j] == x;
      assert f in order;
    }
  }

  /** The objects of the function lists. */
  function Objects(funcs: map<Str, seq<PatchingInst>>): set<PatchingInst>
  {
    set f, j | f in funcs && 0 <= j < |funcs[f]| :: funcs[f][j]
  }

  /** The two annotation loops of `asm_analysis` over grouped, unpatched instructions: the
      function lists in key order, then the general list. */
  method AnnotateFile(funcs: map<Str, seq<PatchingInst>>, order: seq<Str>, general: seq<PatchingInst>, names: seq<Str>)
    returns (r: Result<(), OperandError>)
    requires forall f :: f in order <==> f in funcs
    requires forall f, j :: f in funcs && 0 <= j < |funcs[f]| ==> Unpatched(funcs[f][j])
    requires forall j :: 0 <= j < |general| ==> Unpatched(general[j])
    modifies Objects(funcs), set j | 0 <= j < |general| :: general[j]
    ensures r.Ok? <==> Classifiable(Concat(order, MapRecords(funcs)) + RecordsOf(general), names)
    ensures r.Err? ==> r.error == UnboundLabel
    ensures r.Ok? ==> forall f, j :: f in funcs && 0 <= j < |funcs[f]| ==> Annotated(funcs[f][j], None, names)
  {
    var all := Concat(order, funcs) + general;
    ConcatRecords(order, funcs);
    RecordsConcat(Concat(order, funcs), general);
    forall k | 0 <= k < |all|
      ensures all[k] in Objects(funcs) || all[k] in general
      ensures all[k].patchingInfo.None?
    {
      if k < |Concat(order, funcs)| {
        assert all[k] in Concat(order, funcs);
        ConcatMember(order, funcs, all[k]);
      } else {
        assert all[k] == general[k - |Concat(order, funcs)|];
      }
    }
    r := AnnotateAll(all, names);
    if r.Ok? {
      forall f, j | f in funcs && 0 <= j < |funcs[f]|
        ensures Annotated(funcs[f][j], None, names)
      {
        InConcat(order, funcs, f, j);
        var k :| 0 <= k < |Concat(order, funcs)| && Concat(order, funcs)[k] == funcs[f][j];
        assert all[k] == funcs[f][j];
      }
    }
  }

  /** `asm_analysis`: group the lines of the file, then classify the operands of every
      instruction against the first 99 symbols, the function lists first and the general
      list last, and return the function dictionary. */
  method AsmAnalysis(lines: seq<Str>, symbols: seq<Str>) returns (r: Result<map<Str, seq<PatchingInst>>, AnalysisError>)
    ensures Group(lines).Err? ==> r == Err(MissingName(Group(lines).error))
    ensures Group(lines).Ok? ==>
              && (r.Ok? <==> Classifiable(AllRecords(Group(lines).value), First99(symbols)))
              && (r.Err? ==> r.error == OperandFailure(UnboundLabel))
    ensures r.Ok? ==>
              && Group(lines).Ok?
              && MapRecords(r.value) == Group(lines).value.funcs
              && forall f, j :: f in r.value && 0 <= j < |r.value[f]| ==>
                   fresh(r.value[f][j]) && Annotated(r.value[f][j], None, First99(symbols))
  {
    var parsed := ParseAssemblyFile(lines);
    if parsed.Err? {
      return Err(MissingName(parsed.error));
    }
    var (funcs, order, general) := parsed.value;
    var a := AnnotateFile(funcs, order, general, First99(symbols));
    if a.Err? {
      return Err(OperandFailure(a.error));
    }
    r := Ok(funcs);
  }
}
