/**
 * The section loader of the XFI runtime (input/xfi.c): it copies the `.text`, `.data`,
 * `.rodata` and `.bss` sections of the running executable into a 1 MiB sandbox region and
 * records where each one landed in the first four slots of a table of addresses. The
 * `.data` slot is moved past the runtime's own hidden symbols.
 *
 * The ELF file is given as values: a sequence of section headers (`None` for a header that
 * could not be read) and the symbol table with its names already resolved.
 */
module Xfi {
  import opened Text

  const FunCounts := 10
  /** `table_entries`: four reserved section slots, then one per sandboxed function. */
  const TableEntries := 4 + FunCounts
  /** The size of the sandbox region the sections are copied into. */
  const RegionSize := 1024 * 1024
  /** `STV_HIDDEN`, the symbol visibility the loader looks for. */
  const StvHidden: bv8 := 2

  /** `intrinsic_hidden_symbols`, without its NULL terminator. */
  const IntrinsicHiddenSymbols: seq<Str> :=
    ["__dso_handle", "__TMC_END__", "__cxa_atexit", "_ITM_deregisterTMCloneTable",
     "_ITM_registerTMCloneTable", "__stack_chk_guard", "__stack_chk_fail"]

  /** `is_intrinsic_hidden_symbol`: a linear search of the table. */
  method IsIntrinsicHiddenSymbol(name: Str) returns (b: bool)
    ensures b <==> name in IntrinsicHiddenSymbols
  {
    var i := 0;
    while i < |IntrinsicHiddenSymbols|
      invariant 0 <= i <= |IntrinsicHiddenSymbols|
      invariant name !in IntrinsicHiddenSymbols[..i]
    {
      if name == IntrinsicHiddenSymbols[i] {
        return true;
      }
      i := i + 1;
    }
    return false;
  }

  // ----- symbols -----

  /** A symbol table entry: its resolved name, `st_other` and `st_size`. */
  datatype Symbol = Symbol(name: Str, other: bv8, size: nat)

  /** `ELF64_ST_VISIBILITY(st_other) == STV_HIDDEN`: the low two bits of `st_other`. */
  predicate IsHidden(s: Symbol)
  {
    s.other & 3 == StvHidden
  }

  /** The C conversion of an unsigned value to a 32-bit `int`: the low 32 bits, read as
      two's complement. */
  function ToInt32(x: nat): (r: int)
    ensures -0x8000_0000 <= r < 0x8000_0000
    ensures (r - x) % 0x1_0000_0000 == 0
    ensures x < 0x8000_0000 ==> r == x
  {
    var low := x % 0x1_0000_0000;
    if low < 0x8000_0000 then low else low - 0x1_0000_0000
  }

  /** `get_hidden_symbol_size` as written: the 64-bit size returned through an `int`. */
  function GetHiddenSymbolSize(s: Symbol): (r: int)
    ensures !IsHidden(s) ==> r == 0
    ensures IsHidden(s) && s.size == 0 ==> r == 8
    ensures IsHidden(s) && s.size < 0x8000_0000 ==> r > 0
  {
    if IsHidden(s) then (if s.size == 0 then 8 else ToInt32(s.size)) else 0
  }

  /** A hidden symbol of 4 GiB comes back as 0, the value that means "not hidden". */
  lemma TruncatedSizeLooksVisible()
    ensures var s := Symbol("blob", 2, 0x1_0000_0000);
            IsHidden(s) && GetHiddenSymbolSize(s) == 0
  {
    var s := Symbol("blob", 2, 0x1_0000_0000);
    assert s.other & 3 == 2;
    assert ToInt32(s.size) == 0;
  }

  /** The size of a hidden symbol as the loader computes it for `.data` (a zero size
      counts as one 8-byte address), and 0 for any other symbol. */
  function HiddenSymbolSize(s: Symbol): (r: nat)
    ensures r == 0 <==> !IsHidden(s)
    ensures IsHidden(s) ==> r >= s.size && (s.size != 0 ==> r == s.size)
  {
    if IsHidden(s) then (if s.size == 0 then 8 else s.size) else 0
  }

  /** The two functions agree on every hidden symbol whose size fits an `int`. */
  lemma HiddenSizesAgree(s: Symbol)
    requires s.size < 0x8000_0000
    ensures GetHiddenSymbolSize(s) == HiddenSymbolSize(s)
  {
  }

  /** A symbol that moves the `.data` slot: hidden, intrinsic, and not `__TMC_END__`. */
  predicate Shifts(s: Symbol)
  {
    IsHidden(s) && s.name in IntrinsicHiddenSymbols && s.name != "__TMC_END__"
  }

  /** The number of symbols of `syms` that move the `.data` slot. */
  function ShiftCount(syms: seq<Symbol>): (n: nat)
    ensures n <= |syms|
  {
    if syms == [] then 0
    else ShiftCount(syms[..|syms| - 1]) + (if Shifts(syms[|syms| - 1]) then 1 else 0)
  }

  lemma {:induction false} ShiftCountConcat(a: seq<Symbol>, b: seq<Symbol>)
    ensures ShiftCount(a + b) == ShiftCount(a) + ShiftCount(b)
    decreases |b|
  {
    if b != [] {
      var b' := b[..|b| - 1];
      assert (a + b)[..|a + b| - 1] == a + b';
      ShiftCountConcat(a, b');
    } else {
      assert a + b == a;
    }
  }

  /** Only the six intrinsic names other than `__TMC_END__` count, and only when hidden:
      the count is zero exactly when no symbol shifts. */
  lemma {:induction false} ShiftCountZero(syms: seq<Symbol>)
    ensures ShiftCount(syms) == 0 <==> forall k :: 0 <= k < |syms| ==> !Shifts(syms[k])
  {
    if syms != [] {
      var init := syms[..|syms| - 1];
      ShiftCountZero(init);
      forall k | 0 <= k < |init|
        ensures init[k] == syms[k]
      {
      }
      assert (forall k :: 0 <= k < |syms| ==> !Shifts(syms[k])) <==>
             (forall k :: 0 <= k < |init| ==> !Shifts(init[k])) && !Shifts(syms[|syms| - 1]);
    }
  }

  /** The `hidden_offset` loop of `map_section`: 8 bytes per hidden intrinsic symbol other
      than `__TMC_END__`. */
  method HiddenOffset(syms: seq<Symbol>) returns (offset: nat)
    ensures offset == 8 * ShiftCount(syms)
  {
    offset := 0;
    var i := 0;
    while i < |syms|
      invariant 0 <= i <= |syms|
      invariant offset == 8 * ShiftCount(syms[..i])
    {
      assert syms[..i + 1][..i] == syms[..i];
      if IsHidden(syms[i]) {
        var intrinsic := IsIntrinsicHiddenSymbol(syms[i].name);
        if intrinsic && syms[i].name != "__TMC_END__" {
          offset := offset + 8;
        }
      }
      i := i + 1;
    }
    assert syms[..i] == syms;
  }

  // ----- placing one section -----

  /** A section header: its name from the section name table, `sh_addr`, `sh_offset` and
      `sh_size`. */
  datatype SectionHeader = SectionHeader(name: Str, addr: nat, offset: nat, size: nat)

  /** A section copied into the region: its name, where it was copied and how many bytes. */
  datatype Placement = Placement(name: Str, address: nat, size: nat)

  /** The table slot a section name owns; the other names own none. */
  function SlotOf(name: Str): (k: Option<nat>)
    ensures k.Some? <==> name in {".text", ".data", ".rodata", ".bss"}
    ensures k.Some? ==> k.value < 4
  {
    if name == ".text" then Some(0)
    else if name == ".data" then Some(1)
    else if name == ".rodata" then Some(2)
    else if name == ".bss" then Some(3)
    else None
  }

  /** Distinct sections own distinct slots. */
  lemma SlotOfInjective(a: Str, b: Str)
    requires SlotOf(a).Some? && SlotOf(a) == SlotOf(b)
    ensures a == b
  {
  }

  /** The section, copied to `base + sh_addr`, ends inside the region. */
  predicate Fits(sh: SectionHeader, base: nat)
  {
    base + sh.addr + sh.size <= base + RegionSize
  }

  /** How far the `.data` slot moves: nothing without both symbol tables. */
  function DataShift(symbols: Option<seq<Symbol>>): (d: nat)
    ensures symbols.None? ==> d == 0
    ensures symbols.Some? ==> d == 8 * ShiftCount(symbols.value)
  {
    match symbols
    case None => 0
    case Some(syms) => 8 * ShiftCount(syms)
  }

  /** The address recorded for a section copied to `address`. */
  function SlotValue(name: Str, address: nat, symbols: Option<seq<Symbol>>): (v: nat)
    ensures name == ".data" ==> v == address + DataShift(symbols)
    ensures name != ".data" ==> v == address
  {
    if name == ".data" then address + DataShift(symbols) else address
  }

  /** The table after `map_section` of `sh`: the slot of the section's name gets its
      address when the section fits, and no other slot changes. */
  function Place(t: seq<nat>, sh: SectionHeader, base: nat, symbols: Option<seq<Symbol>>): (r: seq<nat>)
    requires |t| >= 4
    ensures |r| == |t|
    ensures forall k :: 0 <= k < |t| && (!Fits(sh, base) || SlotOf(sh.name) != Some(k)) ==> r[k] == t[k]
    ensures Fits(sh, base) && SlotOf(sh.name).Some? ==>
              r[SlotOf(sh.name).value] == SlotValue(sh.name, base + sh.addr, symbols)
  {
    if Fits(sh, base) && SlotOf(sh.name).Some? then
      t[SlotOf(sh.name).value := SlotValue(sh.name, base + sh.addr, symbols)]
    else t
  }

  /** The copy `map_section` makes of `sh`, if it fits. */
  function Copied(sh: SectionHeader, base: nat): (p: seq<Placement>)
    ensures |p| <= 1
    ensures p != [] <==> Fits(sh, base)
    ensures forall q :: q in p ==> base <= q.address && q.address + q.size <= base + RegionSize
  {
    if Fits(sh, base) then [Placement(sh.name, base + sh.addr, sh.size)] else []
  }

  // ----- scanning the section headers -----

  /** The first pass of `map_process` from the state `(symtab, strtab)`: each readable
      `.symtab` or `.strtab` header is remembered, and the scan stops once both are known. */
  function FirstPass(hs: seq<Option<SectionHeader>>, symtab: Option<SectionHeader>, strtab: Option<SectionHeader>)
    : (r: (Option<SectionHeader>, Option<SectionHeader>))
    ensures symtab.Some? ==> r.0.Some?
    ensures strtab.Some? ==> r.1.Some?
  {
    if symtab.Some? && strtab.Some? then (symtab, strtab)
    else if hs == [] then (symtab, strtab)
    else
      match hs[0]
      case None => FirstPass(hs[1..], symtab, strtab)
      case Some(h) =>
        if h.name == ".symtab" then FirstPass(hs[1..], Some(h), strtab)
        else if h.name == ".strtab" then FirstPass(hs[1..], symtab, Some(h))
        else FirstPass(hs[1..], symtab, strtab)
  }

  /** Some readable header of `hs` is called `name`. */
  predicate Named(hs: seq<Option<SectionHeader>>, name: Str)
  {
    exists k :: 0 <= k < |hs| && hs[k].Some? && hs[k].value.name == name
  }

  lemma NamedTail(hs: seq<Option<SectionHeader>>, name: Str)
    requires hs != []
    ensures Named(hs, name) <==> (hs[0].Some? && hs[0].value.name == name) || Named(hs[1..], name)
  {
    if Named(hs, name) && !(hs[0].Some? && hs[0].value.name == name) {
      var k :| 0 <= k < |hs| && hs[k].Some? && hs[k].value.name == name;
      assert hs[1..][k - 1] == hs[k];
    }
    if Named(hs[1..], name) {
      var k :| 0 <= k < |hs[1..]| && hs[1..][k].Some? && hs[1..][k].value.name == name;
      assert hs[k + 1] == hs[1..][k];
    }
  }

  /** The first pass finds a `.symtab` header exactly when the file has one, and likewise
      a `.strtab` header; what it finds carries that name and is one of the headers. */
  lemma {:induction false} FirstPassFinds(hs: seq<Option<SectionHeader>>, symtab: Option<SectionHeader>, strtab: Option<SectionHeader>)
    requires symtab.Some? ==> symtab.value.name == ".symtab"
    requires strtab.Some? ==> strtab.value.name == ".strtab"
    ensures var r := FirstPass(hs, symtab, strtab);
            && (r.0.Some? <==> symtab.Some? || Named(hs, ".symtab"))
            && (r.1.Some? <==> strtab.Some? || Named(hs, ".strtab"))
            && (r.0.Some? ==> r.0.value.name == ".symtab" && (r.0 == symtab || Some(r.0.value) in hs))
            && (r.1.Some? ==> r.1.value.name == ".strtab" && (r.1 == strtab || Some(r.1.value) in hs))
    decreases |hs|
  {
    if symtab.Some? && strtab.Some? {
    } else if hs == [] {
    } else {
      NamedTail(hs, ".symtab");
      NamedTail(hs, ".strtab");
      var rest := hs[1..];
      assert forall x :: x in rest ==> x in hs;
      match hs[0]
      case None =>
        FirstPassFinds(rest, symtab, strtab);
      case Some(h) =>
        if h.name == ".symtab" {
          FirstPassFinds(rest, Some(h), strtab);
        } else if h.name == ".strtab" {
          FirstPassFinds(rest, symtab, Some(h));
        } else {
          FirstPassFinds(rest, symtab, strtab);
        }
    }
  }

  /** The first pass of `map_process`. */
  method FindSymbolTables(hs: seq<Option<SectionHeader>>) returns (symtab: Option<SectionHeader>, strtab: Option<SectionHeader>)
    ensures (symtab, strtab) == FirstPass(hs, None, None)
  {
    symtab, strtab := None, None;
    var i := 0;
    while i < |hs|
      invariant 0 <= i <= |hs|
      invariant !(symtab.Some? && strtab.Some?)
      invariant FirstPass(hs[i..], symtab, strtab) == FirstPass(hs, None, None)
    {
      assert hs[i..][1..] == hs[i + 1..];
      match hs[i] {
        case None =>
        case Some(h) =>
          if h.name == ".symtab" {
            symtab := Some(h);
          } else if h.name == ".strtab" {
            strtab := Some(h);
          }
      }
      if symtab.Some? && strtab.Some? {
        return;
      }
      i := i + 1;
    }
  }

  /** The `sh_offset` of the first readable header called `name`, or 0 when there is none. */
  function FirstOffset(hs: seq<Option<SectionHeader>>, name: Str): (off: nat)
    ensures !Named(hs, name) ==> off == 0
  {
    if hs == [] then 0
    else if hs[0].Some? && hs[0].value.name == name then hs[0].value.offset
    else FirstOffset(hs[1..], name)
  }

  /** The first match decides the offset: later headers with the same name are ignored. */
  lemma {:induction false} FirstOffsetIsFirstMatch(hs: seq<Option<SectionHeader>>, name: Str, k: nat)
    requires k < |hs| && hs[k].Some? && hs[k].value.name == name
    requires forall j :: 0 <= j < k ==> !(hs[j].Some? && hs[j].value.name == name)
    ensures FirstOffset(hs, name) == hs[k].value.offset
  {
    if k > 0 {
      assert hs[1..][k - 1] == hs[k];
      forall j | 0 <= j < k - 1
        ensures !(hs[1..][j].Some? && hs[1..][j].value.name == name)
      {
        assert hs[1..][j] == hs[j + 1];
      }
      FirstOffsetIsFirstMatch(hs[1..], name, k - 1);
    }
  }

  /** `get_section_offset` once the headers are read: the first matching header wins and
      unreadable headers are skipped. */
  method GetSectionOffset(hs: seq<Option<SectionHeader>>, name: Str) returns (offset: nat)
    ensures offset == FirstOffset(hs, name)
  {
    offset := 0;
    var i := 0;
    while i < |hs|
      invariant 0 <= i <= |hs|
      invariant FirstOffset(hs[i..], name) == FirstOffset(hs, name)
    {
      assert hs[i..][1..] == hs[i + 1..];
      if hs[i].Some? && hs[i].value.name == name {
        offset := hs[i].value.offset;
        return;
      }
      i := i + 1;
    }
  }

  // ----- placing every section -----

  /** The table after the second pass of `map_process` over `hs`. */
  function PlaceAll(t: seq<nat>, hs: seq<Option<SectionHeader>>, base: nat, symbols: Option<seq<Symbol>>): (r: seq<nat>)
    requires |t| >= 4
    ensures |r| == |t|
  {
    if hs == [] then t
    else
      var t' := PlaceAll(t, hs[..|hs| - 1], base, symbols);
      match hs[|hs| - 1]
      case None => t'
      case Some(h) => if SlotOf(h.name).Some? then Place(t', h, base, symbols) else t'
  }

  /** The copies the second pass of `map_process` makes, in header order. */
  function CopiedAll(hs: seq<Option<SectionHeader>>, base: nat): (p: seq<Placement>)
    ensures |p| <= |hs|
  {
    if hs == [] then []
    else
      CopiedAll(hs[..|hs| - 1], base) +
      match hs[|hs| - 1]
      case None => []
      case Some(h) => if SlotOf(h.name).Some? then Copied(h, base) else []
  }

  /** What one header does to the table in the second pass. */
  function PlaceOne(t: seq<nat>, h: Option<SectionHeader>, base: nat, symbols: Option<seq<Symbol>>): (r: seq<nat>)
    requires |t| >= 4
    ensures |r| == |t|
    ensures h.None? || SlotOf(h.value.name).None? ==> r == t
  {
    if h.Some? && SlotOf(h.value.name).Some? then Place(t, h.value, base, symbols) else t
  }

  /** The copy one header makes in the second pass. */
  function CopiedOne(h: Option<SectionHeader>, base: nat): (p: seq<Placement>)
    ensures |p| <= 1
    ensures p != [] ==> h.Some? && SlotOf(h.value.name).Some? && Fits(h.value, base)
  {
    if h.Some? && SlotOf(h.value.name).Some? then Copied(h.value, base) else []
  }

  /** One more header in the second pass. */
  lemma PlaceAllStep(t: seq<nat>, hs: seq<Option<SectionHeader>>, i: nat, base: nat, symbols: Option<seq<Symbol>>)
    requires |t| >= 4 && i < |hs|
    ensures PlaceAll(t, hs[..i + 1], base, symbols) == PlaceOne(PlaceAll(t, hs[..i], base, symbols), hs[i], base, symbols)
    ensures CopiedAll(hs[..i + 1], base) == CopiedAll(hs[..i], base) + CopiedOne(hs[i], base)
  {
    assert hs[..i + 1][..i] == hs[..i];
  }

  lemma AppendAssoc<T>(a: seq<T>, b: seq<T>, c: seq<T>)
    ensures a + (b + c) == (a + b) + c
  {
  }

  /** Every section copy lies inside the region, and only the four slotted names are
      copied. */
  lemma {:induction false} CopiedAllInside(hs: seq<Option<SectionHeader>>, base: nat)
    ensures forall q :: q in CopiedAll(hs, base) ==>
              base <= q.address && q.address + q.size <= base + RegionSize && SlotOf(q.name).Some?
  {
    if hs != [] {
      CopiedAllInside(hs[..|hs| - 1], base);
    }
  }

  /** A header that is not a placed section. */
  predicate Untouching(h: Option<SectionHeader>, base: nat, k: nat)
  {
    h.None? || !Fits(h.value, base) || SlotOf(h.value.name) != Some(k)
  }

  /** A slot keeps its value unless some header that fits owns it; the slots past the
      four reserved ones never change. */
  lemma {:induction false} PlaceAllUntouched(t: seq<nat>, hs: seq<Option<SectionHeader>>, base: nat,
                                              symbols: Option<seq<Symbol>>, k: nat)
    requires |t| >= 4 && k < |t|
    requires forall j :: 0 <= j < |hs| ==> Untouching(hs[j], base, k)
    ensures PlaceAll(t, hs, base, symbols)[k] == t[k]
  {
    if hs != [] {
      var init := hs[..|hs| - 1];
      forall j | 0 <= j < |init|
        ensures Untouching(init[j], base, k)
      {
        assert init[j] == hs[j];
      }
      PlaceAllUntouched(t, init, base, symbols, k);
      assert Untouching(hs[|hs| - 1], base, k);
    }
  }

  /** The last header that fits and owns a slot decides it. */
  lemma {:induction false} PlaceAllLastWins(t: seq<nat>, hs: seq<Option<SectionHeader>>, base: nat,
                                             symbols: Option<seq<Symbol>>, i: nat)
    requires |t| >= 4 && i < |hs| && hs[i].Some? && Fits(hs[i].value, base)
    requires SlotOf(hs[i].value.name).Some?
    requires forall j :: i < j < |hs| ==> Untouching(hs[j], base, SlotOf(hs[i].value.name).value)
    ensures PlaceAll(t, hs, base, symbols)[SlotOf(hs[i].value.name).value]
         == SlotValue(hs[i].value.name, base + hs[i].value.addr, symbols)
    decreases |hs|
  {
    var k := SlotOf(hs[i].value.name).value;
    var init := hs[..|hs| - 1];
    if i < |hs| - 1 {
      assert init[i] == hs[i];
      forall j | i < j < |init|
        ensures Untouching(init[j], base, k)
      {
        assert init[j] == hs[j];
      }
      PlaceAllLastWins(t, init, base, symbols, i);
      assert Untouching(hs[|hs| - 1], base, k);
    }
  }

  // ----- the loader -----

  /** The loader's state: the table of addresses (`table`) and the section copies made
      so far, with the `.data` file offset found at start-up. */
  class Loader {
    const table: array<nat>
    var copies: seq<Placement>
    var dataSectionOffset: nat

    ghost predicate Valid()
      reads this
    {
      table.Length == TableEntries
    }

    /** `create_table`: a table of `table_entries` slots, slot `i` holding the page that
        the `i`-th `mmap` returned. */
    constructor (pages: seq<nat>)
      requires |pages| == TableEntries
      ensures Valid()
      ensures table[..] == pages && copies == [] && dataSectionOffset == 0
      ensures fresh(table)
    {
      var a := new nat[TableEntries];
      var i := 0;
      while i < TableEntries
        invariant 0 <= i <= TableEntries
        invariant forall j :: 0 <= j < i ==> a[j] == pages[j]
      {
        a[i] := pages[i];
        i := i + 1;
      }
      table := a;
      copies := [];
      dataSectionOffset := 0;
    }

    /** `map_section`: copy the section to `base + sh_addr` unless it would end past the
        region, then record the address in the slot its name owns; the `.data` address is
        moved past the hidden intrinsic symbols when both symbol tables are known. */
    method MapSection(sh: SectionHeader, base: nat, symbols: Option<seq<Symbol>>)
      requires Valid()
      modifies this, table
      ensures Valid()
      ensures table[..] == Place(old(table[..]), sh, base, symbols)
      ensures copies == old(copies) + Copied(sh, base)
      ensures dataSectionOffset == old(dataSectionOffset)
    {
      var address := base + sh.addr;
      if address + sh.size > base + RegionSize {
        return;
      }
      copies := copies + [Placement(sh.name, address, sh.size)];
      if sh.name == ".text" {
        table[0] := address;
      } else if sh.name == ".data" {
        var hidden := 0;
        if symbols.Some? {
          hidden := HiddenOffset(symbols.value);
        }
        table[1] := address + hidden;
      } else if sh.name == ".rodata" {
        table[2] := address;
      } else if sh.name == ".bss" {
        table[3] := address;
      }
    }

    /** One iteration of the second pass of `map_process`: a readable header whose name
        owns a slot is mapped, any other is skipped. */
    method MapHeader(h: Option<SectionHeader>, base: nat, symbols: Option<seq<Symbol>>)
      requires Valid()
      modifies this, table
      ensures Valid()
      ensures table[..] == PlaceOne(old(table[..]), h, base, symbols)
      ensures copies == old(copies) + CopiedOne(h, base)
      ensures dataSectionOffset == old(dataSectionOffset)
    {
      match h {
        case None =>
        case Some(sh) =>
          if SlotOf(sh.name).Some? {
            MapSection(sh, base, symbols);
          }
      }
    }

    /** `map_process` once the headers are read: find the symbol tables, then map every
        `.text`, `.data`, `.rodata` and `.bss` section in header order, passing `symbols`
        only when both `.symtab` and `.strtab` were found. */
    method MapProcess(hs: seq<Option<SectionHeader>>, base: nat, symbols: seq<Symbol>)
      requires Valid()
      modifies this, table
      ensures Valid()
      ensures var (symtab, strtab) := FirstPass(hs, None, None);
              var tables := if symtab.Some? && strtab.Some? then Some(symbols) else None;
              table[..] == PlaceAll(old(table[..]), hs, base, tables)
      ensures copies == old(copies) + CopiedAll(hs, base)
      ensures dataSectionOffset == old(dataSectionOffset)
    {
      var symtab, strtab := FindSymbolTables(hs);
      var tables := if symtab.Some? && strtab.Some? then Some(symbols) else None;
      ghost var t0, c0 := table[..], copies;
      var i := 0;
      while i < |hs|
        invariant 0 <= i <= |hs|
        invariant Valid()
        invariant table[..] == PlaceAll(t0, hs[..i], base, tables)
        invariant copies == c0 + CopiedAll(hs[..i], base)
        invariant dataSectionOffset == old(dataSectionOffset)
      {
        PlaceAllStep(t0, hs, i, base, tables);
        AppendAssoc(c0, CopiedAll(hs[..i], base), CopiedOne(hs[i], base));
        MapHeader(hs[i], base, tables);
        i := i + 1;
      }
      assert hs[..i] == hs;
    }

    /** The start-up path of `create_table` once the region is mapped at `base`: record the
        file offset of `.data`, then map the process. */
    method Load(hs: seq<Option<SectionHeader>>, base: nat, symbols: seq<Symbol>)
      requires Valid()
      modifies this, table
      ensures Valid()
      ensures dataSectionOffset == FirstOffset(hs, ".data")
      ensures var (symtab, strtab) := FirstPass(hs, None, None);
              var tables := if symtab.Some? && strtab.Some? then Some(symbols) else None;
              table[..] == PlaceAll(old(table[..]), hs, base, tables)
      ensures copies == old(copies) + CopiedAll(hs, base)
    {
      dataSectionOffset := GetSectionOffset(hs, ".data");
      MapProcess(hs, base, symbols);
    }
  }
}
