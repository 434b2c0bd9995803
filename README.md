# XFI: assembly analysis and sandbox loading, modelled in Dafny

XFI isolates parts of a C program in a sandbox. It has two halves, and this project models the core of each.

The rewriter's analysis pass (`asm_rewriter/src/asm_analysis.py`) reads a compiler-generated
x86-64 assembly file line by line:
- It decodes every instruction line into opcode, width prefix, source and destination.
- It groups the instructions under the function opened by the last `.type …, @function` line.
- It classifies every operand into an addressing mode and marks each instruction whose operand
  names one of the first 99 symbols to be hidden. The destination operand takes precedence.

The runtime (`input/xfi.c`, `input/lib.c`) prepares the sandbox:
- It copies the `.text`, `.data`, `.rodata` and `.bss` sections into a 1 MiB region.
- It records their addresses in a table. The `.data` entry is moved past the runtime's own
  hidden symbols.
- For every `.sandbox*` section it requests a mapping as long as the section plus its distance
  past a page boundary, and keeps these mappings in a linked list. The list is turned into an address table and released at exit.

Files, one Dafny module each:

- `text.dfy` (`Text`): the Python string operations the analysis relies on, such as `strip`,
  `split`, `split()` and `startswith`, with their whitespace and word-character classes.
- `decoder.dfy` (`Decoder`): `parse_assembly_line`. The instruction regular expression is written as a
  recogniser. It is proved sound and complete against a layout description of the accepted lines.
- `operands.dfy` (`Operands`): `parse_operand`. It covers the operand pattern's twelve alternatives,
  the addressing-mode classification, the RIP-label extraction and its unbound-label failure.
- `analysis.dfy` (`Analysis`): `PatchingInst` as a class whose annotation fields are updated in place.
  `parse_assembly_file` is a loop proved against a fold over the classified lines and against a
  line-by-line characterisation. `asm_analysis` mutates every grouped instruction.
- `xfi.dfy` (`Xfi`): the loader of `input/xfi.c`. Its table is an array, and it is proved against
  value-level descriptions of one section's placement and of both header passes.
- `lib.dfy` (`SandboxLib`): the `.sandbox` section list of `input/lib.c`. It is a linked list with
  head and tail pointers and a ghost sequence of its nodes, plus the alignment arithmetic.

Python `None` is `Option.None`. A Python exception is the `Err` case of a `Result`. A symbol
object is represented by its `name`. Addresses and sizes are unbounded naturals.

## Model

| member | source | states |
|---|---|---|
| `Text.Strip` | asm_rewriter/src/asm_analysis.py:120 | the result is a contiguous piece of the input, its two ends cannot be stripped, and everything removed can be |
| `Text.StripOf` | asm_rewriter/src/asm_analysis.py:124 | stripping text whose ends are not strippable, with strippable characters around it, gives back exactly that text |
| `Text.Split` | asm_rewriter/src/asm_analysis.py:183-185 | `split(sep)` returns at least one part, no part contains the separator, there are two or more parts exactly when the separator occurs, and joining the parts restores the string |
| `Text.SplitJoin` | asm_rewriter/src/asm_analysis.py:183-185 | splitting a join of separator-free parts gives the parts back |
| `Text.Fields` | asm_rewriter/src/asm_analysis.py:124 | `split()` returns non-empty tokens containing no whitespace |
| `Text.FieldsBlank` | asm_rewriter/src/asm_analysis.py:124 | a blank string has no tokens |
| `Text.FieldsCons` | asm_rewriter/src/asm_analysis.py:124 | leading blanks are skipped, and a maximal non-blank run is the first token, followed by the tokens of the rest; with `FieldsBlank` this determines `split()` on every input |
| `Decoder.SplitFromParts` | asm_rewriter/src/asm_analysis.py:91 | the opcode and prefix groups reassemble the first word, the opcode is non-empty and the prefix is empty or one of `bwlq` |
| `Decoder.ParseComplete` | asm_rewriter/src/asm_analysis.py:91-107 | every line with the accepted layout decodes to its own opcode, prefix, source and destination |
| `Decoder.ParseSound` | asm_rewriter/src/asm_analysis.py:91-107 | every decoded line has the accepted layout and decodes to its parts |
| `Decoder.DecodedAlphabet` | asm_rewriter/src/asm_analysis.py:91 | a decoded line holds only blanks, operand characters, `$` and `,` |
| `Decoder.StarNeverDecodes` | asm_rewriter/src/asm_analysis.py:91 | a line containing `*` (an indirect call or jump) never decodes |
| `Decoder.BareWordNeverDecodes` | asm_rewriter/src/asm_analysis.py:91 | a lone word such as `ret` does not decode, because the source operand is mandatory |
| `Decoder.NonWordStartNeverDecodes` | asm_rewriter/src/asm_analysis.py:91 | a line whose first non-blank character is not a word character (a directive, a comment) does not decode |
| `Decoder.DecodedPrefix` | asm_rewriter/src/asm_analysis.py:88-106 | the opcode is non-empty and the prefix has at most one letter; the prefix is empty for `call`, `jmp`, `ret` and `nop`; otherwise opcode and prefix form the first word |
| `Decoder.CallqExample` | asm_rewriter/src/asm_analysis.py:101-102 | `callq foo` decodes as `call` with the `q` dropped |
| `Decoder.MovlExample` | asm_rewriter/src/asm_analysis.py:91 | `movl %eax, -4(%rbp)` decodes as `mov`, `l` with both operands |
| `Decoder.RetExample` | asm_rewriter/src/asm_analysis.py:91 | a bare `ret` line is not an instruction |
| `Decoder.IndirectCallExample` | asm_rewriter/src/asm_analysis.py:91 | `call *%rax` is not an instruction |
| `Decoder.DirectiveExample` | asm_rewriter/src/asm_analysis.py:91 | a `.cfi` directive is not an instruction |
| `Operands.MatchOperand` | asm_rewriter/src/asm_analysis.py:141-158 | the pattern captures an operand exactly when its stripped text is in the twelve-alternative language, and the capture is that stripped text |
| `Operands.ImmediateOperand` | asm_rewriter/src/asm_analysis.py:170-171 | `$N` is Immediate, with the operand text as value and no symbol flag |
| `Operands.RegisterOperand` | asm_rewriter/src/asm_analysis.py:172-173 | `%w` is Register, with the operand text as value |
| `Operands.DirectOperand` | asm_rewriter/src/asm_analysis.py:194-198 | a bare label is Direct addressing, flagged exactly when a symbol has that name |
| `Operands.NumberIsDirect` | asm_rewriter/src/asm_analysis.py:194-198 | a bare number without `$` is also Direct addressing, labelled by the number |
| `Operands.BaseDispOperand` | asm_rewriter/src/asm_analysis.py:190-193 | `(b)` and `d(b)` give base `b` and displacement `d` |
| `Operands.IndexedOperand` | asm_rewriter/src/asm_analysis.py:182-187 | `(b,i)` and `d(b,i)` give base, index and a displacement that is absent when `d` is empty |
| `Operands.ScaledOperand` | asm_rewriter/src/asm_analysis.py:188-189 | `d(b,i,s)` gives base and index and reports the scale `s` as the displacement; `d` is lost |
| `Operands.RipOperand` | asm_rewriter/src/asm_analysis.py:175-181 | `w(%rip)` is RIP-relative with label `w`, flagged exactly when a symbol has that name |
| `Operands.OffsetRipOperand` | asm_rewriter/src/asm_analysis.py:175-181 | `N+w(%rip)` and `-N+w(%rip)` skip the offset and take label `w` |
| `Operands.SymbolPlusOffsetRaises` | asm_rewriter/src/asm_analysis.py:175-181 | `w+N(%rip)` is accepted by the operand pattern, but the label pattern does not match it, so, for a label that does not start with a digit, `label` is unbound and the call raises |
| `Operands.ClassifyHandled` | asm_rewriter/src/asm_analysis.py:167-199 | every accepted operand gets a known addressing mode, or raises only because the RIP label is unbound; the two-value unpacking never fails |
| `Operands.UnknownExactlyWhenRejected` | asm_rewriter/src/asm_analysis.py:164-199 | the result is Unknown, unflagged, exactly when the operand is missing, the text `None`, or rejected by the pattern (blank included); every error is an unbound label on an operand ending in `(%rip)` |
| `Operands.BlanksIgnored` | asm_rewriter/src/asm_analysis.py:164-169 | surrounding blanks do not change the classification |
| `Operands.PaddedNoneIsDirect` | asm_rewriter/src/asm_analysis.py:164 | the `None` test comes before stripping, so ` None` is a Direct label |
| `Analysis.TypeName` | asm_rewriter/src/asm_analysis.py:124 | there is no name (the indexing raises) exactly when the line has fewer than two tokens; a name is never longer than the second token |
| `Analysis.TypeNameOf` | asm_rewriter/src/asm_analysis.py:124 | for `.type`, blanks, `NAME,` and a rest that is empty or starts with a blank, the name is `NAME`, provided `NAME` has no blank and does not start or end with `"` or `,` |
| `Analysis.TypeLineOpens` | asm_rewriter/src/asm_analysis.py:120-126 | the line `.type NAME, @function`, with any blanks after `.type` and after the comma, opens function `NAME` |
| `Analysis.KindOf` | asm_rewriter/src/asm_analysis.py:120-131 | a stripped line opens a function or raises exactly when it is a `.type … @function` line; it opens the function `TypeName` gives, and raises exactly when `TypeName` gives none; any other line is an instruction exactly when it decodes |
| `Analysis.LastOpen` | asm_rewriter/src/asm_analysis.py:125-126 | the last line among the first `n` that opens `f`; no later line opens it |
| `Analysis.GroupByLine` | asm_rewriter/src/asm_analysis.py:112-138 | the grouping raises exactly when some type line has no name, and at the first such line; otherwise the current function, the key order, the general list and every function's list are those given line by line |
| `Analysis.CollectSound` | asm_rewriter/src/asm_analysis.py:129-135 | every listed record is a filed instruction of its range, stamped with its own 1-based line number |
| `Analysis.CollectSorted` | asm_rewriter/src/asm_analysis.py:116-136 | every list is in increasing line order |
| `Analysis.CollectComplete` | asm_rewriter/src/asm_analysis.py:129-135 | every filed instruction line of the range is in the list |
| `Analysis.ReopenDropsEarlier` | asm_rewriter/src/asm_analysis.py:126 | example: in `main`, instruction, `main`, instruction, the second opening of `main` resets its list, so only the last instruction is filed under it |
| `Analysis.EmptyNameFilesGenerally` | asm_rewriter/src/asm_analysis.py:132-135 | example: an instruction before and one after a `.type` line with an empty name both go to the general list, because the empty name is false; the empty name still gets its own (empty) list |
| `Analysis.ErrorPersists` | asm_rewriter/src/asm_analysis.py:124 | once a line raises, the whole file raises at that line |
| `Analysis.OperandsOf` | asm_rewriter/src/asm_analysis.py:220-221 | both operands are classified, source first, and the first error stops it |
| `Analysis.MarkIdempotent` | asm_rewriter/src/asm_analysis.py:222-226 | marking twice with the same flags is marking once |
| `Analysis.First99` | asm_rewriter/src/asm_analysis.py:210-213 | at most 99 symbols are kept, exactly 99 when there are that many, and they are a prefix of the list |
| `Analysis.PatchedIffNamed` | asm_rewriter/src/asm_analysis.py:210-226 | an instruction is patched exactly when one of its Direct or RIP-relative operands names one of the first 99 symbols, and as `dest` exactly when the destination does |
| `Analysis.PatchingInst.constructor` | asm_rewriter/src/asm_analysis.py:32-40 | the decoded fields are set and the three annotation fields start as `None` |
| `Analysis.PatchingInst.Annotate` | asm_rewriter/src/asm_analysis.py:218-226 | on success both operand descriptions are set and the patch kind is `dest` if the destination is flagged, else `src` if the source is, else unchanged; a failing source leaves the object as it was, and a failing destination leaves the source description set |
| `Analysis.CompareByRecord` | asm_rewriter/src/asm_analysis.py:71-79 | `compare` holds exactly when the other object is an instruction with the same fixed fields and this one is patched |
| `Analysis.CompareSelf` | asm_rewriter/src/asm_analysis.py:71-79 | an instruction compares equal to itself only once patched |
| `Analysis.CompareBothWays` | asm_rewriter/src/asm_analysis.py:71-79 | `compare` holds both ways exactly when both are patched and agree on their fixed fields |
| `Analysis.CompareNotSymmetric` | asm_rewriter/src/asm_analysis.py:71-79 | a patched instruction matches an unpatched copy, but not the other way round |
| `Analysis.InConcat` | asm_rewriter/src/asm_analysis.py:215-217 | every instruction of every function list is among those visited |
| `Analysis.ConcatMember` | asm_rewriter/src/asm_analysis.py:215-217 | every visited instruction belongs to a function list |
| `Analysis.AnnotateAll` | asm_rewriter/src/asm_analysis.py:217-239 | the loop succeeds exactly when every instruction's operands classify, and then every instruction is annotated, even when one object appears twice |
| `Analysis.FileLines` | asm_rewriter/src/asm_analysis.py:116-138 | the loop returns what the fold over the classified lines gives, with new, unannotated objects |
| `Analysis.ParseAssemblyFile` | asm_rewriter/src/asm_analysis.py:112-138 | the dictionary, key order and general list are those of the fold over the stripped lines, or the number of the first nameless type line |
| `Analysis.AnnotateFile` | asm_rewriter/src/asm_analysis.py:215-239 | the two loops succeed exactly when every instruction, function lists first, classifies against the names; then every function instruction is annotated from an unpatched start |
| `Analysis.AsmAnalysis` | asm_rewriter/src/asm_analysis.py:205-241 | a nameless type line raises with its line number; otherwise the analysis succeeds exactly when every grouped instruction classifies against the first 99 symbols, and returns the grouped function lists with every instruction annotated |
| `Xfi.IsIntrinsicHiddenSymbol` | input/xfi.c:88-106 | true exactly when the name is one of the seven intrinsic names |
| `Xfi.ToInt32` | input/xfi.c:125 | the conversion to `int` keeps the value modulo 2^32 within the `int` range, and is the identity below 2^31 |
| `Xfi.GetHiddenSymbolSize` | input/xfi.c:118-128 | 0 for a symbol that is not hidden, 8 for a hidden symbol of size 0, positive for a hidden symbol whose size fits an `int` |
| `Xfi.HiddenSizesAgree` | input/xfi.c:118-128 | for a size below 2^31 the function returns exactly the size rule of line 196: 0 when not hidden, 8 for size 0, otherwise the size |
| `Xfi.TruncatedSizeLooksVisible` | input/xfi.c:118-128 | a hidden symbol of size 2^32 is reported as size 0 |
| `Xfi.HiddenSymbolSize` | input/xfi.c:196 | the size is 0 exactly for symbols that are not hidden; a zero size counts as 8 |
| `Xfi.ShiftCountConcat` | input/xfi.c:193-205 | the count of slot-moving symbols adds up over concatenation |
| `Xfi.ShiftCountZero` | input/xfi.c:193-205 | the count is zero exactly when no symbol is hidden, intrinsic and other than `__TMC_END__` |
| `Xfi.HiddenOffset` | input/xfi.c:193-205 | `hidden_offset` is 8 times the number of hidden intrinsic symbols other than `__TMC_END__` |
| `Xfi.SlotOf` | input/xfi.c:154-222 | only `.text`, `.data`, `.rodata` and `.bss` own a slot, and it is one of the four reserved ones |
| `Xfi.DataShift` | input/xfi.c:158-212 | the `.data` slot moves by nothing without both symbol tables, and otherwise by 8 per counted symbol |
| `Xfi.Place` | input/xfi.c:142-222 | a section that would end past the 1 MiB region changes nothing; otherwise only its name's slot changes, and it gets the copy's address, moved past the hidden symbols for `.data` |
| `Xfi.Copied` | input/xfi.c:142-151 | a section is copied exactly when it fits, and every copy lies inside the region |
| `Xfi.FirstPassFinds` | input/xfi.c:272-294 | the first pass finds a `.symtab` header exactly when the file has one, and likewise `.strtab`; what it finds carries that name and is one of the headers |
| `Xfi.FindSymbolTables` | input/xfi.c:266-294 | the first-pass loop, with its early exit, computes the first-pass function |
| `Xfi.FirstOffset` | input/xfi.c:67-85 | the offset is 0 when no readable header has the name |
| `Xfi.FirstOffsetIsFirstMatch` | input/xfi.c:67-85 | the first readable header with the name decides the offset |
| `Xfi.GetSectionOffset` | input/xfi.c:67-85 | the loop returns the first match's `sh_offset`, skipping unreadable headers, or 0 |
| `Xfi.CopiedAllInside` | input/xfi.c:142-151 | every copy the second pass makes lies inside the region and belongs to one of the four sections |
| `Xfi.PlaceAllUntouched` | input/xfi.c:297-314 | a slot changes only when a fitting section owns it, so slots 4 and up never change |
| `Xfi.PlaceAllLastWins` | input/xfi.c:297-314 | the last fitting section owning a slot decides its value |
| `Xfi.Loader.constructor` | input/xfi.c:320-342 | the table has `4 + FUN_COUNTS` = 14 entries, filled with the pages mapped for it |
| `Xfi.Loader.MapSection` | input/xfi.c:129-224 | the table becomes `Place` of the old table, and the section is recorded as copied exactly when it fits |
| `Xfi.Loader.MapHeader` | input/xfi.c:297-313 | an unreadable header or one whose name owns no slot leaves table and copies unchanged; any other header is mapped as `map_section` does |
| `Xfi.Loader.MapProcess` | input/xfi.c:225-318 | the table becomes the fold of `Place` over the four named sections in header order, with symbols only when both tables were found |
| `Xfi.Loader.Load` | input/xfi.c:363-368 | `data_section_offset` is the first `.data` offset, then the process is mapped |
| `SandboxLib.AlignedOffset` | input/lib.c:81-88 | the aligned offset is a multiple of the page size, at most the offset, and less than a page below it |
| `SandboxLib.AlignedOffsetGreatest` | input/lib.c:81-88 | it is the greatest page boundary at or below the offset |
| `SandboxLib.MappedLength` | input/lib.c:91-99 | the mapped length is at least the section size and less than a page longer |
| `SandboxLib.DataStart` | input/lib.c:107 | the section data starts inside the mapping's first page |
| `SandboxLib.SandboxNameByPrefix` | input/lib.c:72 | a section qualifies exactly when its first eight characters are `.sandbox` |
| `SandboxLib.Added` | input/lib.c:68-123 | a section adds a node exactly when its header is readable, its name starts with `.sandbox` and the map succeeded; the node holds the map address and a length at least the section size |
| `SandboxLib.MappingsConcat` | input/lib.c:67-126 | the nodes for two runs of sections are those of each run in turn |
| `SandboxLib.MappingsFromSandboxSections` | input/lib.c:67-126 | every node comes from a mapped sandbox section |
| `SandboxLib.MappedSection.constructor` | input/lib.c:111-114 | a new node holds the address and length and has no successor |
| `SandboxLib.Sandbox.constructor` | input/lib.c:24-27 | the list starts empty with a count of 0 |
| `SandboxLib.Sandbox.Append` | input/lib.c:111-122 | the count grows by one, a new node is linked at the tail (set as head too when the list was empty), and the list contents grow by exactly that entry |
| `SandboxLib.Sandbox.MapSandboxSections` | input/lib.c:29-130 | the list grows by the nodes of the mapped sandbox sections in section order, and the count stays equal to the list length |
| `SandboxLib.Sandbox.CreateTable` | input/lib.c:134-148 | a new array of `sandbox_counts` entries holds, at `i`, the address of the `i`-th node |
| `SandboxLib.Sandbox.Cleanup` | input/lib.c:164-175 | every node is unmapped front to back and `head` ends null; `tail` and `sandbox_counts` are left as they were |

## Left out

- File and process I/O is not modelled:
  - Opening and reading the assembly file. The model takes the file's lines as a sequence.
  - `open`, `pread` and `readlink`.
  - The libelf calls (`elf_version`, `elf_begin`, `elf_getshdrstrndx`, `elf_nextscn`, `elf_strptr`).
  - The failure paths of `malloc`, and `exit`.
  - `mmap`, `munmap`, `memcpy`, `free` and `_writegsbase_u64`.
- The values those calls return become inputs:
  - Section headers and resolved symbol names.
  - A `None` for each header that could not be read.
  - The address each `mmap` of a `.sandbox` section returned, with `None` for `MAP_FAILED`.
  - The pages mapped for the table.
  - The page size.
- Xfi.Loader.constructor: a failed page `mmap`, which frees the table and exits, is not modelled. The constructor requires the 14 pages.
- Xfi.GetSectionOffset: the -1 returns of `get_section_offset` are not modelled. They come from failing to open or read the file, or from a missing ELF magic number. The function starts from the headers.
- Xfi.Loader.Load: the two early exits of `create_table` are not modelled. A failed `readlink` or a failed `mmap` of the 1 MiB region returns before `get_section_offset` and `map_process`. `data_section_offset` then stays 0 and the table holds only its pages. The model takes the region's base address as given.
- SandboxLib.Sandbox.MapSandboxSections: the `mmap` at input/lib.c:99-100 passes `MAP_ANONYMOUS`, so the kernel ignores the file and the requested offset, and the mapping is zero-filled. It holds none of the section's bytes. The model captures only the requested length, the returned address and the `actual_addr` arithmetic.
- Xfi.Loader.MapSection: the bytes `memcpy` copies are not modelled. Each copy is recorded by its destination and length.
- Xfi.Loader.MapSection: the early returns on a failed allocation or read are not modelled.
- Xfi.Loader.MapProcess: only these steps are modelled:
  - Resolving `.symtab` entries through `.strtab` is done beforehand; the symbols arrive with their names.
  - The count `sh_size / sizeof(Elf64_Sym)` becomes the length of that sequence.
- Addresses and sizes are unbounded. The 64-bit wrap-around of `base + sh_addr + sh_size` and of `uintptr_t` sums is not modelled. `sandbox_counts` overflowing an `int` is not modelled either.
- Logging, `print_section_content`, `pprint`, `inst_print` and `OperandData.pretty_print` are output only.
- Unicode letters and digits in the Python `\w` and `\d` classes are left out. The model uses their ASCII members; whitespace is Python's full set.
- Python's general regular-expression backtracking is not modelled. Each pattern the analysis uses is written out as the language it accepts.
- Analysis.PatchingInst.Compare: only `PatchingInst` objects and `null` are modelled as arguments; any other Python object compares false the same way.
- Analysis.AnnotateFile: the two loops over the function lists and the general list become one loop over their concatenation. Function lists come in key-insertion order, then the general list. The annotations and the first failure are the same.
- Analysis.AsmAnalysis: after a failing operand the instructions already annotated keep their annotations. The model says only which error was raised.
- Analysis.FileLines: every line is classified before the loop (`KindsOf`). The source classifies each line inside the loop. The outcome is the same, because the classification depends only on the line.
- SandboxLib.Sandbox.Cleanup: the `free` of each node and of the table are not modelled. `munmap` calls are recorded in `unmapped`.
- SandboxLib.Sandbox.CreateTable: a null table from `malloc` is not modelled, nor is the exit that follows it.
- The sandbox rewriter (`rewriter.py`), the binary analysis (`bin_analysis.py`), `main.py`, `loader.c` and the example program `hello.c` are not part of this model.

## Findings

| source | as written | input that shows it | evidently intended | confidence | as-written member | corrected member |
|---|---|---|---|---|---|---|
| input/xfi.c:118-128 | `get_hidden_symbol_size` returns the 64-bit `st_size` through an `int`, so it is truncated to 32 bits | a hidden symbol with `st_size` = 2^32 gives 0, the value that means "not hidden"; sizes from 2^31 come back negative | the size itself, as `map_section` computes it at line 196, so that 0 means exactly "not hidden"; nothing in `input/xfi.c` or `input/lib.c` calls the function, so the loader as written is not affected | low, not executed | `Xfi.TruncatedSizeLooksVisible` | `Xfi.HiddenSymbolSize` |
