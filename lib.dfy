/**
 * The sandbox-section library (input/lib.c): every section whose name starts with
 * `.sandbox` gets a mapping of its size plus its distance past a page boundary, requested
 * at a page-aligned file offset, and is remembered in a singly linked list
 * (`head`, `tail`, `sandbox_counts`); `create_table` copies the list's addresses into an
 * array and `cleanup` unmaps and frees the list from the front.
 *
 * The ELF file is given as a sequence of sections, each carrying what `gelf_getshdr`
 * returned for it and what `mmap` returned when the section was mapped.
 */
module SandboxLib {
  import opened Text

  /** The prefix compared by `strncmp(name, ".sandbox", 8)`. */
  const SandboxPrefix: Str := ".sandbox"

  // ----- alignment -----

  lemma MulSmall(m: int, p: int)
    requires p > 0 && 0 <= m * p < p
    ensures m == 0
  {
  }

  lemma MulBelow(d: int, p: int)
    requires p > 0 && d * p < p
    ensures d * p <= 0
  {
  }

  lemma MulMod(q: nat, p: nat)
    requires p > 0
    ensures (q * p) % p == 0
  {
    var n := q * p;
    var m := q - n / p;
    assert n % p == m * p;
    MulSmall(m, p);
  }

  /** `aligned_offset`: the section offset rounded down to a page boundary. */
  function AlignedOffset(offset: nat, pagesize: nat): (r: nat)
    requires pagesize > 0
    ensures r % pagesize == 0
    ensures r <= offset < r + pagesize
  {
    MulMod(offset / pagesize, pagesize);
    (offset / pagesize) * pagesize
  }

  /** The aligned offset is the greatest page boundary at or below the offset. */
  lemma AlignedOffsetGreatest(offset: nat, pagesize: nat, m: nat)
    requires pagesize > 0 && m % pagesize == 0 && m <= offset
    ensures m <= AlignedOffset(offset, pagesize)
  {
    var a := AlignedOffset(offset, pagesize);
    var d := m / pagesize - offset / pagesize;
    assert m == (m / pagesize) * pagesize;
    assert m - a == d * pagesize;
    MulBelow(d, pagesize);
  }

  /** The length of the mapping: the section plus the bytes before it in its first page. */
  function MappedLength(offset: nat, size: nat, pagesize: nat): (len: nat)
    requires pagesize > 0
    ensures size <= len < size + pagesize
  {
    size + (offset - AlignedOffset(offset, pagesize))
  }

  /** `actual_addr`: a mapping at `addr` moved by the section's distance past its page
      boundary. */
  function DataStart(addr: nat, offset: nat, pagesize: nat): (r: nat)
    requires pagesize > 0
    ensures addr <= r < addr + pagesize
  {
    addr + (offset - AlignedOffset(offset, pagesize))
  }

  // ----- sections -----

  /** A section header as `gelf_getshdr` returns it: its name (`None` when `elf_strptr`
      fails), `sh_offset` and `sh_size`. */
  datatype Shdr = Shdr(name: Option<Str>, offset: nat, size: nat)

  /** One section of the file: its header, if readable, and the address `mmap` returns for
      it, `None` standing for `MAP_FAILED`. */
  datatype Scn = Scn(header: Option<Shdr>, mapping: Option<nat>)

  /** `name && strncmp(name, ".sandbox", 8) == 0`. */
  predicate IsSandboxName(name: Option<Str>)
  {
    name.Some? && StartsWith(name.value, SandboxPrefix)
  }

  /** The sandbox test looks at the first eight characters and nothing else. */
  lemma SandboxNameByPrefix(name: Str)
    ensures IsSandboxName(Some(name)) <==> |name| >= 8 && name[..8] == ".sandbox"
  {
  }

  /** A list node's contents: the mapping's address and length. */
  datatype Mapping = Mapping(addr: nat, size: nat)

  /** The node a section adds, if it is a sandbox section that was mapped. */
  function Added(s: Scn, pagesize: nat): (m: Option<Mapping>)
    requires pagesize > 0
    ensures m.Some? <==> s.header.Some? && IsSandboxName(s.header.value.name) && s.mapping.Some?
    ensures m.Some? ==> m.value.addr == s.mapping.value && m.value.size >= s.header.value.size
  {
    if s.header.Some? && IsSandboxName(s.header.value.name) && s.mapping.Some? then
      Some(Mapping(s.mapping.value, MappedLength(s.header.value.offset, s.header.value.size, pagesize)))
    else None
  }

  /** The nodes the sections add, in section order. */
  function Mappings(scns: seq<Scn>, pagesize: nat): (ms: seq<Mapping>)
    requires pagesize > 0
    ensures |ms| <= |scns|
  {
    if scns == [] then []
    else
      var last := Added(scns[|scns| - 1], pagesize);
      Mappings(scns[..|scns| - 1], pagesize) + if last.Some? then [last.value] else []
  }

  /** Mapping two runs of sections one after the other lists the nodes of each in turn. */
  lemma {:induction false} MappingsConcat(a: seq<Scn>, b: seq<Scn>, pagesize: nat)
    requires pagesize > 0
    ensures Mappings(a + b, pagesize) == Mappings(a, pagesize) + Mappings(b, pagesize)
    decreases |b|
  {
    if b == [] {
      assert a + b == a;
    } else {
      var b' := b[..|b| - 1];
      assert (a + b)[..|a + b| - 1] == a + b';
      assert (a + b)[|a + b| - 1] == b[|b| - 1];
      MappingsConcat(a, b', pagesize);
    }
  }

  /** Every node stands for a sandbox section that was mapped, and each is at least as
      long as its section. */
  lemma {:induction false} MappingsFromSandboxSections(scns: seq<Scn>, pagesize: nat)
    requires pagesize > 0
    ensures forall m :: m in Mappings(scns, pagesize) ==>
              exists k :: 0 <= k < |scns| && Added(scns[k], pagesize) == Some(m)
  {
    if scns != [] {
      var init := scns[..|scns| - 1];
      MappingsFromSandboxSections(init, pagesize);
      forall m | m in Mappings(scns, pagesize)
        ensures exists k :: 0 <= k < |scns| && Added(scns[k], pagesize) == Some(m)
      {
        if m in Mappings(init, pagesize) {
          var k :| 0 <= k < |init| && Added(init[k], pagesize) == Some(m);
          assert scns[k] == init[k];
        } else {
          assert Added(scns[|scns| - 1], pagesize) == Some(m);
        }
      }
    }
  }

  // ----- the list -----

  /** `mapped_section`. */
  class MappedSection {
    var addr: nat
    var size: nat
    var next: MappedSection?

    constructor (addr: nat, size: nat)
      ensures this.addr == addr && this.size == size && next == null
    {
      this.addr := addr;
      this.size := size;
      next := null;
    }
  }

  /** The library's globals: the list of mapped sections, its length, the table built from
      it, and the mappings released so far by `munmap`. */
  class Sandbox {
    var head: MappedSection?
    var tail: MappedSection?
    var sandboxCounts: int
    var table: array<nat>
    var unmapped: seq<Mapping>
    ghost var nodes: seq<MappedSection>

    /** `head` to `tail` through `next` visits `nodes`, and `sandbox_counts` is its length. */
    ghost predicate Valid()
      reads this, nodes
    {
      && sandboxCounts == |nodes|
      && (nodes == [] ==> head == null && tail == null)
      && (nodes != [] ==> head == nodes[0] && tail == nodes[|nodes| - 1] && tail.next == null)
      && (forall k :: 0 <= k < |nodes| - 1 ==> nodes[k].next == nodes[k + 1])
    }

    /** The contents of the list, front to back. */
    ghost function Entries(): (es: seq<Mapping>)
      reads this, nodes
      ensures |es| == |nodes|
    {
      seq(|nodes|, k requires 0 <= k < |nodes| reads this, nodes => Mapping(nodes[k].addr, nodes[k].size))
    }

    /** The library before `init` runs: an empty list. */
    constructor ()
      ensures Valid() && Entries() == [] && unmapped == []
    {
      head, tail := null, null;
      sandboxCounts := 0;
      table := new nat[0];
      unmapped := [];
      nodes := [];
    }

    /** Lines 104 and 111-122: count the mapping and link a new node at the tail, setting
        `head` too when the list was empty. */
    method Append(addr: nat, size: nat)
      requires Valid()
      modifies this, tail
      ensures Valid()
      ensures Entries() == old(Entries()) + [Mapping(addr, size)]
      ensures sandboxCounts == old(sandboxCounts) + 1
      ensures |nodes| == |old(nodes)| + 1 && nodes[..|old(nodes)|] == old(nodes) && fresh(nodes[|old(nodes)|])
      ensures unmapped == old(unmapped) && table == old(table)
    {
      sandboxCounts := sandboxCounts + 1;
      var node := new MappedSection(addr, size);
      if head == null {
        head := node;
        tail := node;
      } else {
        tail.next := node;
        tail := node;
      }
      nodes := nodes + [node];
    }

    /** `map_sandbox_sections` once the file is open: every sandbox section that maps adds
        one node, in section order. */
    method MapSandboxSections(scns: seq<Scn>, pagesize: nat)
      requires pagesize > 0
      requires Valid()
      modifies this, nodes
      ensures Valid()
      ensures Entries() == old(Entries()) + Mappings(scns, pagesize)
      ensures sandboxCounts == old(sandboxCounts) + |Mappings(scns, pagesize)|
      ensures unmapped == old(unmapped) && table == old(table)
    {
      var i := 0;
      while i < |scns|
        invariant 0 <= i <= |scns|
        invariant Valid()
        invariant Entries() == old(Entries()) + Mappings(scns[..i], pagesize)
        invariant sandboxCounts == old(sandboxCounts) + |Mappings(scns[..i], pagesize)|
        invariant forall n :: n in nodes ==> n in old(nodes) || fresh(n)
        invariant unmapped == old(unmapped) && table == old(table)
      {
        assert scns[..i + 1][..i] == scns[..i];
        var s := scns[i];
        if s.header.Some? && IsSandboxName(s.header.value.name) {
          var shdr := s.header.value;
          var alignedOffset := AlignedOffset(shdr.offset, pagesize);
          match s.mapping {
            case None =>
            case Some(addr) =>
              assert tail != null ==> tail == nodes[|nodes| - 1] && tail in nodes;
              Append(addr, shdr.size + (shdr.offset - alignedOffset));
          }
        }
        i := i + 1;
      }
      assert scns[..i] == scns;
    }

    /** `create_table` (lib.c): an array of `sandbox_counts` addresses, the `i`-th being the
        address of the `i`-th node. */
    method CreateTable()
      requires Valid()
      modifies this
      ensures Valid() && Entries() == old(Entries())
      ensures fresh(table) && table.Length == sandboxCounts
      ensures forall k :: 0 <= k < table.Length ==> table[k] == Entries()[k].addr
      ensures head == old(head) && tail == old(tail) && sandboxCounts == old(sandboxCounts)
      ensures nodes == old(nodes) && unmapped == old(unmapped)
    {
      var t := new nat[sandboxCounts];
      var current := head;
      var i := 0;
      while i < sandboxCounts
        invariant 0 <= i <= sandboxCounts
        invariant Valid() && t.Length == sandboxCounts
        invariant current == if i < |nodes| then nodes[i] else null
        invariant forall k :: 0 <= k < i ==> t[k] == nodes[k].addr
        invariant head == old(head) && tail == old(tail) && sandboxCounts == old(sandboxCounts)
        invariant nodes == old(nodes) && unmapped == old(unmapped)
      {
        t[i] := current.addr;
        current := current.next;
        i := i + 1;
      }
      table := t;
    }

    /** `cleanup`: unmap and unlink the nodes from the front until `head` is null. `tail`
        and `sandbox_counts` are left as they were. */
    method Cleanup()
      requires Valid()
      modifies this
      ensures head == null && nodes == []
      ensures unmapped == old(unmapped) + old(Entries())
      ensures tail == old(tail) && sandboxCounts == old(sandboxCounts) && table == old(table)
    {
      ghost var all := Entries();
      ghost var k := 0;
      while head != null
        invariant 0 <= k <= |all| && |nodes| == |all| - k
        invariant unmapped == old(unmapped) + all[..k]
        invariant nodes == old(nodes)[k..]
        invariant nodes == [] ==> head == null
        invariant nodes != [] ==> head == nodes[0] && nodes[|nodes| - 1].next == null
        invariant forall j :: 0 <= j < |nodes| - 1 ==> nodes[j].next == nodes[j + 1]
        invariant tail == old(tail) && sandboxCounts == old(sandboxCounts) && table == old(table)
        decreases |nodes|
      {
        assert all[k] == Mapping(head.addr, head.size);
        unmapped := unmapped + [Mapping(head.addr, head.size)];
        assert all[..k + 1] == all[..k] + [all[k]];
        head := head.next;
        nodes := nodes[1..];
        k := k + 1;
      }
      assert k == |all|;
      assert all[..k] == all;
    }
  }
}
