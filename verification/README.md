# Verification of the Relink ELF linker

This project models the hard core of Relink (`elf_loader`), a run-time ELF linker, and of
`gen-elf`, the writer that generates its test libraries, and proves what they do. The
64-bit x86-64 configuration with default features is modelled. Memory is an array of
bytes, a file is a sequence of bytes, words are integers that wrap where the code wraps.

The chains of results:

* **Object files.** `SectionLayout` and `ObjectLayout` lay sections out, `ObjectTables` and
  `ObjectBuild` rebase symbols and relocations in the loaded sections, `PltGot` hands out GOT
  slots and PLT stubs, `StaticLink` and `ObjectLink` relocate, reading entries, symbols and
  names from the memory that is being relocated, and `ObjectImage.LinkObject` runs the whole
  chain: count in the file, lay out, load, build, relocate. It ends with a linked object
  (every field holds its psABI value, every slot and stub in use is right, and nothing else
  but the object's own tables has changed) or with the step that stopped it. References to a
  local symbol then refer to the symbol's own bytes.
* **Program loading.** `Segments` maps, copies and zero fills one segment; `ProgramLoad`
  proves that the image of "Program Loading" in chapter 5 of the System V gABI is in memory.
* **Dynamic linking.** `SymbolSearch` finds definitions; `RelocTables` splits the tables;
  `Relr` decodes compact relocations; `DynamicRun.RelocateImage` runs all passes over one
  memory and keeps the libraries it used; `DynamicMeaning` says what the memory then holds,
  from the tables on (`RelocateTables`);
  `LazyBind` and `LazyEager` follow any run of lazy fixups to the eager result.
* **Symbol indexes.** `GnuIndex` and `SysvIndex` refine a plain scan and agree with each
  other; `ElfHash` proves the unrolled hash equal to the simple one.
* **The writer.** `DylibSymbols`, `DylibRelocs`, `DylibPatch`, `DylibDynamic`,
  `DylibLayout`, `DylibHeaders` and `DylibFile` build a file; `DylibWriter.WriteDylib` puts
  them together; `DylibRoundTrip.LoadThenFind` loads the file with the loader's model, finds
  and parses `.dynamic` in memory, and looks a name up through the tables it points to;
  `DylibCode` patches the code sections, `DylibPlt` says when that panics and where stubs
  jump, `DylibStubs` relates slots to stubs; `DylibOutput.WriteThenFind` goes from symbols and
  relocations to a file, to memory, and back to the symbols and relocations, and
  `DylibRelocated.RelocateWritten` runs the dynamic linker over that memory.

Conventions. Offsets in an image are indexes from its first mapped byte
(`Segments.BiasedAddress` relates them to addresses). Loops keep one invariant predicate and
a step lemma for it. Symbol callbacks, IFUNC resolvers and handlers are opaque functions;
handler answers may depend on the position of the entry in the run. `Mmap` is the small
contract of `Segments.Os`. A panic or failed assertion is an explicit outcome wherever the
code can reach it.

Where code and documents differ, the code is followed:

* a GLOB_DAT field gets S + A, where the psABI says S: it is S exactly for an addend of 0
  modulo 2^64 (`DynamicMeaning.GlobDatIff`, `DynamicMeaning.GlobDatMisses`);
* the loader looks for `.dynamic` at `p_paddr`, and finds it exactly if `p_paddr` equals
  `p_vaddr` (`ProgramLoad.DynamicFoundIff`, `ProgramLoad.DynamicMissed`);
* an eager jump slot whose symbol is nowhere to be found is left alone without an error: a
  slot is bound exactly if its symbol was found (`DynamicMeaning.EagerSlotIff`,
  `DynamicMeaning.UnresolvedRun`);
* in an object, a global symbol that no library defines is found in the object itself exactly
  if it is not at offset 0 of it (`ObjectImage.OwnSymbol`, `ObjectImage.FirstSymbolLost`);
* the pre-pass of an object sees the relocations that are then loaded, except those of a
  section that runs past the end of the file, which it skips (`ObjectFile.SeenIff`);
* the writer fills PLT slots by number and places stubs by name: every slot points into its
  own stub exactly if the functions are distinct and every stub comes to stand in its place
  among the caller's descriptions (`DylibOutput.SlotsIff`, `DylibStubs.SharedFunction`);
* the writer also finds what it patches by name, and takes the last symbol for `PLT0`: a caller
  that describes these names can make it panic, which it does exactly if a patch leaves its
  section (`DylibWriter.WriteDylib`, `DylibPlt.NoPanic`, `DylibPlt.WriteLonePlt0`);
* with RELR, the dynamic table is taken whole, so PLT entries at its end are visited twice
  (`RelocTables.RelrSuffixTwice`) and the link fails (`DynamicRun.RelrSuffixFails`);
* the fix-up of a segment with one non-empty section looks the section up by file offset
  and can move an empty one instead (`SectionLayout.FixupExact` gives the exact condition);
* the writer's PT_PHDR has no base address in it (`DylibHeaders.PhdrsCoveredIff`: it is
  right exactly for base address 0);
* the two System V hash functions differ exactly on names that start with a NUL byte and
  whose rest does not hash to 0 (`ElfHash.HashesDifferIff`, `ElfHash.LeadingZeroDiffers`).

`dafny verify dfyconfig.toml` checks the whole project.

## Model

| member | source | states |
|---|---|---|
| Pages.MaskRounding | src/segment/mod.rs:400-418 | the mask forms of `roundup` and `rounddown` are ceiling and floor to a multiple, for alignment 0 and every power of two |
| Pages.PageRounding | src/segment/mod.rs:400-418 | page rounding is the mask rounding with the page size |
| Segments.ElfSegment.Rebase | src/segment/mod.rs:114-116 | a relative address becomes base plus address, wrapping |
| Segments.ElfSegment.MmapSegment | src/segment/mod.rs:129-184 | a single piece with a file descriptor is mapped over the whole segment; otherwise the bytes are left for copying; nothing outside the segment changes |
| Segments.ElfSegment.CopyData | src/segment/mod.rs:186-197 | every file piece is in place afterwards; fails exactly when a piece runs past the end of the file; frame |
| Segments.ElfSegment.FillZero | src/segment/mod.rs:235-271 | the zero tail is zero and nothing outside the segment's tail is touched, with whole-page and exact anonymous mappings |
| Segments.LoadSegment | src/segment/mod.rs:317-339 | one segment: its pieces and zeros are in memory, on the mapping and on the copying path; succeeds exactly when readable |
| Segments.LoadSegments | src/segment/mod.rs:317-339 | all segments of a valid plan are loaded, none disturbs another, only segment pages change |
| Segments.BiasedAddress | src/segment/mod.rs:596-598 | base plus a virtual address is the mapped byte at that address minus the segment offset |
| ProgramLoad.SegmentOfLoad | src/segment/program.rs:114-142 | the segment of a PT_LOAD is exactly its page range, file bytes then zeros up to `p_memsz` |
| ProgramLoad.CongruenceIsExact | src/segment/program.rs:114-142 | the first file byte lands at `p_vaddr` if and only if address and offset agree modulo the page |
| ProgramLoad.ParseSegments | src/segment/program.rs:45-75 | the reserved range is the smallest page range covering all PT_LOADs; what happens without any |
| ProgramLoad.CreateSegments | src/segment/program.rs:91-98 | one segment per PT_LOAD, in order |
| ProgramLoad.DynamicPtr | src/image/builder.rs:116-136 | the pointer to `.dynamic` is that of the last PT_DYNAMIC, taken from `p_paddr`; it panics exactly on a null address |
| ProgramLoad.DynamicFoundIff | src/image/builder.rs:122-126 | the pointer is the section's address if and only if `p_paddr` equals `p_vaddr` |
| ProgramLoad.DynamicMissed | src/image/builder.rs:122-126 | a header for which it is not |
| ProgramLoad.LoadProgram | src/segment/program.rs:77-109 | the program image of the gABI: file bytes, then zeros, for every PT_LOAD; success condition; no other page changes |
| SectionLayout.PlaceContent | src/segment/section.rs:412-427 | content sections get aligned disjoint places in order, with one file piece for each non-empty one |
| SectionLayout.PlaceZero | src/segment/section.rs:446-451 | NOBITS sections get aligned disjoint places behind the content |
| SectionLayout.FixSingle | src/segment/section.rs:429-442 | after the single-section fix-up the content is laid out right if and only if no earlier empty section shares the file offset |
| SectionLayout.FixupExact | src/segment/section.rs:429-442 | both directions of that condition |
| SectionLayout.CreateSegment | src/segment/section.rs:364-473 | a unit becomes one segment of its protection, page aligned and long enough, or none when empty |
| ObjectLayout.BuildUnits | src/segment/section.rs:95-102 | sections are grouped by protection and kind, in order |
| ObjectLayout.BuildSegments | src/segment/section.rs:104-112 | the segments are disjoint, ascending and below the total |
| ObjectLayout.LayOut | src/segment/section.rs:85-119 | every non-empty section is aligned, inside the segment with exactly its protection, and apart from all others, with the synthetic GOT and PLT included |
| ObjectLayout.LoadObject | src/segment/section.rs:53-81 | after mapping, copying and zero fill each section shows its file bytes or zeros at its address |
| PltGot.PltGotSection.AddGotEntry | src/segment/section.rs:268-285 | a symbol's slot is handed out once and never moves |
| PltGot.PltGotSection.AddPltEntry | src/segment/section.rs:288-325 | a symbol's stub, and the slot behind it, are handed out once and never move |
| PltGot.PltGotSection.Rebase | src/segment/section.rs:262-265 | both bases move, nothing else |
| PltGot.Capacity | src/segment/section.rs:172-213 | slots and stubs given to counted symbols never exceed the counts |
| PltGot.IndexesKept | src/segment/section.rs:268-325 | growing the tables changes no index |
| ObjectBuild.CountNeededEntries | src/segment/section.rs:172-213 | read from the file: the counts are the numbers of distinct symbols that need a slot and a stub, over the sections that are not empty, have an entry size and can be read |
| ObjectTables.RebaseRelocs | src/image/builder.rs:283-293 | in the loaded section, every offset moves with the target section, wrapping; no other byte changes |
| ObjectTables.RebaseSymbols | src/image/builder.rs:268-280 | in the loaded section, defined symbols move with their section and the others stay; it panics exactly on a section index out of range |
| ObjectBuild.BuildObject | src/image/builder.rs:239-319 | all tables are rebased in memory, each once, and nothing else changes; the tables that are used; it fails exactly on a missing entry size (also that of an array of initialisers), a section number out of range or no symbol table |
| StaticLink.RoomForNext | src/arch/x86_64.rs:249-261 | a counted relocation always finds room for its slot and stub |
| StaticLink.StubReaches | src/arch/x86_64.rs:249-261 | stub address plus 10 plus the stub's displacement is a slot that holds the symbol's address |
| StaticLink.StepKeepsLinked | src/arch/x86_64.rs:222-310 | each relocation keeps all earlier fields, slots and stubs right and changes nothing else |
| ObjectLink.CallOffset | src/arch/x86_64.rs:249-261 | the displacement that a stub is patched with |
| ObjectLink.Relocate | src/arch/x86_64.rs:198-311 | one relocation in memory follows its specification: an unknown type is rejected first, then the symbol, then the range, with the panic cases |
| ObjectLink.CoreKept | src/relocation/static.rs:24-50 | relocating changes neither the symbols nor the names that later entries are resolved with |
| ObjectLink.RelocateAll | src/relocation/static.rs:24-50 | the loop over all tables, read from memory as it goes: everything linked, or all entries before some `k` linked and entry `k` rejected (without a change) or panicking |
| ObjectFile.SeenIff | src/segment/section.rs:181-194 | the pre-pass sees the rows of a section that are loaded if and only if it has none or lies in the file |
| ObjectFile.CutShort | src/segment/section.rs:181-194 | an object whose relocation section ends a byte behind the file: nothing is counted, and the mapped entry asks for a stub |
| ObjectFile.EntriesMoved | src/image/builder.rs:283-293 | the entries of the built object are those of the file in order, each moved by the address of its target |
| ObjectFile.FieldsSeparate | src/image/builder.rs:283-293 | fields disjoint in their sections are disjoint in the object, and clear of GOT and PLT |
| ObjectFile.SectionClear | src/relocation/static.rs:24-50 | no field, slot or stub lies in a section that the loop reads |
| ObjectImage.LinkObject | src/relocation/static.rs:24-50 | the whole static link: success means every field has its psABI value with the symbol search of the built object, and slots and stubs are right; every other ending names its cause |
| ObjectImage.LinkedFrame | src/image/builder.rs:239-319 | from the loaded to the linked object only fields, GOT, PLT, and the offsets and values in the object's own tables change |
| ObjectImage.OwnSymbol | src/relocation/utils.rs:530-574 | a local symbol is found at its own address; a symbol that no library defines is, if and only if it is not at offset 0 of the object |
| ObjectImage.FirstSymbolLost | src/relocation/utils.rs:530-574 | a symbol at offset 0 that is not found |
| ObjectImage.LostStops | src/arch/x86_64.rs:198-311 | an object with a relocation against such a symbol is never linked |
| ObjectImage.OwnByte | src/image/builder.rs:268-280 | that address is where the symbol's own file byte was loaded |
| ObjectImage.LocalReference | src/arch/x86_64.rs:198-311 | a linked 64-bit or PC-relative reference to a local symbol holds the symbol's own address plus addend |
| ElfHash.HashLoop | src/elf/hash/sysv.rs:78-93 | the loop computes the fold of the System V hash rounds |
| ElfHash.DlElfHash | src/elf/version.rs:343-368 | the unrolled late-masking hash equals the simple hash for every name not starting with NUL |
| ElfHash.FoldBound | src/elf/hash/sysv.rs:78-93 | the hash is below 2^28 |
| ElfHash.LateAgrees | src/elf/version.rs:343-368 | masking once at the end gives the same low 28 bits as masking each round |
| ElfHash.LeadingZero | src/elf/hash/sysv.rs:78-93 | a leading NUL does not count in the simple hash |
| ElfHash.HashesDifferIff | src/elf/version.rs:343-368 | the two hashes differ if and only if the name starts with NUL and its rest does not hash to 0 |
| ElfHash.LeadingZeroDiffers | src/elf/version.rs:343-368 | names for which they differ, and one for which they agree |
| GnuIndex.HashLoop | src/elf/hash/gnu.rs:98-106 | the loop computes the wrapping djb2 fold |
| GnuIndex.FilterPasses | src/elf/hash/gnu.rs:165-178 | the masks and shifts of the two bloom tests read exactly the filter's bits |
| GnuIndex.Lookup | src/elf/hash/gnu.rs:152-231 | on every well-formed table: the first symbol from `symbias` on with the name, or none when there is none |
| GnuIndex.ScanIs | src/elf/hash/gnu.rs:152-231 | that is what a plain scan finds |
| GnuIndex.CountSyms | src/elf/hash/gnu.rs:115-137 | the number of symbols, from the last chain |
| SysvIndex.Lookup | src/elf/hash/sysv.rs:117-164 | terminates and finds a symbol with the name exactly if there is one; the cached hash stays right |
| SysvIndex.LookupBoth | src/elf/symbol.rs:252-268 | both indexes of one table give the same usable symbol |
| SysvIndex.IndexesAgree | src/elf/symbol.rs:252-268 | why: unique names, and the skipped symbols cannot satisfy a reference |
| SymbolSearch.LookupFilter | src/elf/symbol.rs:252-268 | the usable symbol, whichever index the library has, whatever was precomputed |
| SymbolSearch.FindSymdef | src/relocation/utils.rs:530-574 | own local symbol, else first defining library, else weak or own definition; sharing the precomputed hash changes nothing |
| SymbolSearch.FindSymbolAddr | src/relocation/utils.rs:493-528 | before-search, search, after-search, with the address conversion |
| SymbolSearch.DependencyIsFirst | src/relocation/utils.rs:543-571 | a reported dependency is another library and the lowest one that defines the name |
| RelocPass.StepKeepsDone | src/relocation/dynamic.rs:376-444 | an entry keeps all earlier entries applied, changes only its field, and flags only the library it used |
| RelocPass.CopiesDone | src/relocation/dynamic.rs:412-432 | a copy from the image itself holds what was at its source when its turn came |
| RelocPass.Perform | src/relocation/dynamic.rs:376-444 | one entry in memory; an entry that stops the run changes nothing |
| Relr.DecodeSpaced | src/relocation/dynamic.rs:317-342 | the offsets of an ascending stream are strictly increasing and never overlap |
| Relr.MarkedExactly | src/relocation/dynamic.rs:328-341 | an offset is decoded from a bitmap if and only if its bit is set |
| Relr.RelocateBitmap | src/relocation/dynamic.rs:328-341 | the shifting loop visits exactly the marked words, and terminates |
| Relr.RelocateRelr | src/relocation/dynamic.rs:317-342 | the stream as part of a run: every decoded word is done, in order |
| Relr.ApplyRelr | src/relocation/dynamic.rs:317-342 | base is added exactly once to each decoded word and nowhere else; the result is that of the expanded relative relocations |
| RelocTables.ExactlyOnce | src/relocation/dynamic.rs:464-494 | without RELR the passes visit exactly the entries of both tables in order; each once if and only if the PLT entries are a suffix or lie elsewhere; when it panics |
| RelocTables.WithRelr | src/relocation/dynamic.rs:457-463 | with RELR each entry is visited once if and only if the tables share none |
| RelocTables.RelrSuffixTwice | src/relocation/dynamic.rs:457-463 | a PLT suffix is then visited twice |
| DynamicLink.ChooseDynAct | src/relocation/dynamic.rs:376-444 | what a dynamic entry does, with handlers first and last |
| DynamicLink.ChoosePltAct | src/relocation/dynamic.rs:226-265 | what a PLT entry does, lazily and eagerly |
| DynamicRun.RelocateRelative | src/relocation/dynamic.rs:299-346 | the relative pass, either form |
| DynamicRun.RelocateDynrel | src/relocation/dynamic.rs:349-446 | the dynamic pass: all entries done, or the one that stopped it |
| DynamicRun.PrepareLazyBind | src/arch/mod.rs:63-70 | GOT words 1 and 2 hold the handle and the resolver |
| DynamicRun.RelocatePltrel | src/relocation/dynamic.rs:203-296 | the PLT pass and the lazy-binding words |
| DynamicRun.RunRetains | src/relocation/dynamic.rs:92-130 | every library used by an entry, and every library of the lazy scope, is kept; nothing else is |
| DynamicRun.RelocateImage | src/relocation/dynamic.rs:60-131 | success exactly when no entry stops the run; then all entries are applied, only fields changed, used libraries are retained |
| DynamicRun.RelrSuffixFails | src/relocation/dynamic.rs:457-463 | an image with RELR and jump slots at the end of its dynamic table is rejected unless a handler claims them |
| DynamicMeaning.DynMeaning | src/relocation/dynamic.rs:376-444 | a dynamic entry was claimed by the first handler; or has a default treatment and its type's formula holds in its field (for a copy from the image itself, with the image as it was at its turn); or has none and was claimed by the last handler |
| DynamicMeaning.PltMeaning | src/relocation/dynamic.rs:226-265 | a PLT slot was claimed, is bound, or holds its stub moved by the bias; for an unknown symbol the eager pass does nothing |
| DynamicMeaning.ImageMeaning | src/relocation/dynamic.rs:60-131 | this for every entry of a relocated image, and base plus addend for every relative entry, in either form |
| DynamicMeaning.ReadOnTheWay | src/relocation/dynamic.rs:375-384 | bytes that no entry writes are the same at every moment of the run: tables, symbols and names read on the way are those that were there at first |
| DynamicMeaning.RelocateTables | src/relocation/dynamic.rs:448-494 | from the tables in an image's memory: a panic exactly if the counts do not fit, else success exactly if no entry stops the run, and then every entry has its meaning |
| DynamicMeaning.VisitedEntries | src/relocation/dynamic.rs:464-494 | the passes get exactly the entries that the split visits, in that order |
| DynamicMeaning.GlobDatIff | src/relocation/dynamic.rs:376-394 | an unclaimed GLOB_DAT field holds S if and only if the addend is 0 modulo 2^64 |
| DynamicMeaning.GlobDatMisses | src/relocation/dynamic.rs:376-394 | an entry with addend 4 whose field is not S |
| DynamicMeaning.EagerSlotIff | src/relocation/dynamic.rs:226-265 | after an eager run an unclaimed slot is bound if and only if its symbol was found; otherwise its entry did nothing and the slot holds what was loaded |
| DynamicMeaning.UnresolvedRun | src/relocation/dynamic.rs:226-265 | a whole run of one unresolved jump slot, which succeeds and writes nothing |
| LazyBind.LookupInScope | src/relocation/dynamic.rs:31-47 | the caller's lookup, then the first live library that defines the name |
| LazyBind.DlFixup | src/relocation/dynamic.rs:135-171 | resolves, writes the slot and returns the address, or fails an assertion and writes nothing |
| LazyBind.BoundStep | src/relocation/dynamic.rs:135-171 | a fixup binds its slot, keeps the others and touches nothing else |
| LazyBind.RunCalls | src/relocation/dynamic.rs:135-171 | any sequence of fixups, in any order with repeats |
| LazyEager.SlotsAtAnyMoment | src/relocation/dynamic.rs:226-265 | at every moment a slot holds its stub's address or its resolved address |
| LazyEager.ReservedIntact | src/arch/mod.rs:63-70 | the reserved GOT words survive every run |
| LazyEager.LazyIsEager | src/relocation/dynamic.rs:135-171 | once every slot was called, every byte but the reserved words is what eager binding gives, if the lazy scope answers as the eager search |
| LazyEager.DefaultScopeAgrees | src/relocation/dynamic.rs:97-118 | when the default lazy scope does answer so |
| DylibLayout.AlignUpIs | tools/gen-elf/src/dylib/mod.rs:25-27 | rounding up by division is the nearest multiple |
| DylibLayout.ElfLayout.AddHeader | tools/gen-elf/src/dylib/layout.rs:18-21 | the cursor is behind the headers, on a page |
| DylibLayout.ElfLayout.AddSection | tools/gen-elf/src/dylib/layout.rs:27-33 | the next aligned offset, its address, and the new cursor |
| DylibLayout.SortSorts | tools/gen-elf/src/dylib/shdr.rs:209-224 | the stable sort by segment keeps every section and orders the groups |
| DylibLayout.AssignOffsets | tools/gen-elf/src/dylib/shdr.rs:226-255 | offsets aligned and disjoint, addresses base plus offset, a page boundary between segments; where the layout ends |
| DylibLayout.EndBound | tools/gen-elf/src/dylib/shdr.rs:226-255 | a layout ends after at most the sizes, the alignments and a page for each section |
| DylibHeaders.CountedHeaders | tools/gen-elf/src/dylib/shdr.rs:358-401 | as many program headers are written as were counted before the layout |
| DylibHeaders.LoadHeaderGood | tools/gen-elf/src/dylib/shdr.rs:482-538 | a segment's header is valid for the loader and covers all its sections |
| DylibHeaders.LoadHeadersApart | tools/gen-elf/src/dylib/shdr.rs:482-538 | two load headers share no page |
| DylibHeaders.HeadersLoadable | tools/gen-elf/src/dylib/shdr.rs:449-574 | the written headers meet the loader's preconditions and show every allocatable section |
| DylibHeaders.PhdrsCoveredIff | tools/gen-elf/src/dylib/shdr.rs:468-480 | PT_PHDR points into the image if and only if the base address is 0 |
| DylibFile.PhdrRoundTrip | tools/gen-elf/src/dylib/shdr.rs:577-608 | a program header is read back as written |
| DylibFile.EhdrRoundTrip | tools/gen-elf/src/dylib/mod.rs:360-382 | the ELF header passes the loader's check and leads it to the program headers |
| DylibFile.HeadersReadBack | src/loader.rs:33-50 | the loader reads back exactly the program headers of the file |
| DylibFile.WriteAtKeeps | tools/gen-elf/src/dylib/mod.rs:307-313 | a write keeps all bytes outside its range |
| DylibFile.WriteSections | tools/gen-elf/src/dylib/mod.rs:274-283 | after all writes the headers, every section and the section headers are in the file |
| DylibFile.PlanFile | tools/gen-elf/src/dylib/mod.rs:215-221 | sections laid out behind exactly as many headers as will be written |
| DylibFile.EmitFile | tools/gen-elf/src/dylib/mod.rs:250-283 | the file the loader can read, with every section's bytes at its offset |
| DylibFile.LoadFile | src/segment/mod.rs:317-339 | loading the file succeeds and puts each allocatable section's bytes at base plus its offset |
| DylibSymbols.SymTabWriter.AddSymbol | tools/gen-elf/src/dylib/symtab.rs:67-74 | appends the entry, its kind, its name and its index |
| DylibSymbols.SymTabWriter.AddSingleSymbol | tools/gen-elf/src/dylib/symtab.rs:156-222 | a known name keeps its index; a new one gets its entry and its content offset |
| DylibSymbols.AddGood | tools/gen-elf/src/dylib/symtab.rs:156-222 | adding a symbol keeps names, indexes and content offsets right |
| DylibSymbols.SymTabWriter.AddSymbols | tools/gen-elf/src/dylib/symtab.rs:144-154 | the table holds the first description of each name, in order, and its strings; it fails only if the names need 2^32 bytes |
| DylibSymbols.SymTabWriter.AddPltSymbols | tools/gen-elf/src/dylib/symtab.rs:328-356 | the PLT's first entry, then an entry and a helper for each name, are added the same way; what is marked for the patches: the last symbol as first entry, and each name's entry, slot and helper; it fails only if the names need 2^32 bytes |
| DylibCode.MakeCut | tools/gen-elf/src/arch/x86_64.rs:57-66 | one patch, with wrapping offsets: in range exactly if the slice is, and then its bytes are there |
| DylibCode.PatchHelpers | tools/gen-elf/src/dylib/symtab.rs:410-427 | in any order of the hash map: panics exactly if some helper cannot be patched, else all are |
| DylibCode.PatchPlt | tools/gen-elf/src/dylib/symtab.rs:385-408 | panics exactly if the first entry or a stub cannot be patched, else all are, in order |
| DylibCode.MadeHolds | tools/gen-elf/src/dylib/text.rs:55-75 | a patch that no later one touches holds its value |
| DylibSymbols.GetContent | tools/gen-elf/src/dylib/symtab.rs:224-281 | the contents of one kind in the order of the symbols |
| DylibSymbols.SymTabWriter.UpdateSymbolValues | tools/gen-elf/src/dylib/symtab.rs:358-383 | a defined symbol moves by its section's address and gets its number, the others stay |
| DylibSymbols.MovedNames | tools/gen-elf/src/dylib/symtab.rs:358-383 | that changes no name and no index |
| DylibIndex.CreateHashtable | tools/gen-elf/src/dylib/symtab.rs:283-306 | one bucket and one chain through all symbols, as bytes |
| DylibIndex.HashReadBack | src/elf/hash/sysv.rs:49-63 | the loader parses the table back |
| DylibIndex.HashWellFormed | tools/gen-elf/src/dylib/symtab.rs:283-306 | the table is well formed for every hash function |
| DylibIndex.SymsReadBack | tools/gen-elf/src/dylib/symtab.rs:23-42 | symbols survive the round trip through 24-byte entries |
| DylibIndex.LookupWritten | src/elf/hash/sysv.rs:117-164 | lookup over the emitted bytes returns exactly the recorded index, and nothing for other names |
| DylibIndex.ContentAt | tools/gen-elf/src/dylib/symtab.rs:174-198 | a symbol's offset indexes exactly its own bytes in its section |
| DylibDynamic.UpdateKeeps | tools/gen-elf/src/dylib/dynamic.rs:116-131 | an update keeps tags unique and DT_NULL last, and grows the list only for a new tag |
| DylibDynamic.UpdateGets | tools/gen-elf/src/dylib/dynamic.rs:116-131 | an update sets its tag and leaves every other tag's value |
| DylibDynamic.UpdateAllKeeps | tools/gen-elf/src/dylib/dynamic.rs:116-173 | any run of updates: well formed, each tag has the last value given to it |
| DylibDynamic.DynamicWriter.constructor | tools/gen-elf/src/dylib/dynamic.rs:52-110 | the entries of the sections, then DT_NULL; unique tags |
| DylibDynamic.DynamicWriter.UpdateEntry | tools/gen-elf/src/dylib/dynamic.rs:116-131 | replace, insert before DT_NULL, or append |
| DylibDynamic.DynamicWriter.PatchDynamic | tools/gen-elf/src/dylib/dynamic.rs:133-173 | patched tags have their new values, the others their old, and the number of entries does not change if the tags were there |
| DynamicParse.ParseDynamic | src/elf/dynamic.rs:18-137 | each variable is the last value of its tags before DT_NULL; when it fails |
| DynamicParse.ReadsBack | src/elf/dynamic.rs:54-118 | on the writer's lists the parser reads back each tag's one value |
| DynamicParse.DynReadBack | tools/gen-elf/src/dylib/dynamic.rs:180-192 | entries are 16 bytes each and are read back in place |
| DylibRelocs.ClassCounts | tools/gen-elf/src/dylib/reloc.rs:45-63 | every relocation falls into exactly one class |
| DylibRelocs.NewRelocs | tools/gen-elf/src/dylib/reloc.rs:30-166 | order, slots and copy offsets of all relocations; panics exactly on an unknown symbol |
| DylibPatch.RelaRoundTrip | tools/gen-elf/src/dylib/reloc.rs:479-497 | type, symbol, offset and addend decode back unchanged |
| DylibPatch.RelaReadBack | src/elf/defs.rs:110-130 | entry by entry in the emitted table |
| DylibPatch.PatchGot | tools/gen-elf/src/dylib/reloc.rs:347-398 | `.dynamic` in the first words; slot `j` points six bytes into the 16 bytes at position `j` behind the first entry |
| DylibPatch.PatchReloc | tools/gen-elf/src/dylib/reloc.rs:254-345 | final offsets and addends, both tables emitted anew, PLT slots still right |
| DylibPatch.PlanInPlace | tools/gen-elf/src/dylib/reloc.rs:67-133 | slots are distinct and inside their sections, copies follow the data without overlap |
| DylibPatch.FieldsApart | tools/gen-elf/src/dylib/reloc.rs:254-345 | no two relocation fields overlap |
| DylibSections.SectionsRanked | tools/gen-elf/src/dylib/mod.rs:194-213 | no kind of section occurs twice |
| DylibSections.SizesKept | tools/gen-elf/src/dylib/mod.rs:180-313 | final bytes of the drafted sizes match the layout |
| DylibWriter.LengthsConserved | tools/gen-elf/src/dylib/mod.rs:223-283 | every section's final length is the size it was laid out with, although tables are emitted anew |
| DylibWriter.UnknownIff | tools/gen-elf/src/dylib/reloc.rs:80-133 | the symbol lookups of the relocations fail exactly when a named symbol was never described |
| DylibWriter.WriteDylib | tools/gen-elf/src/dylib/mod.rs:180-292 | the whole writer: a complete file exactly if the names fit 32-bit offsets, every named symbol was described, the file fits the address space and no patch leaves its section; otherwise which of the four fails |
| DylibRoundTrip.ParseInPlace | src/elf/dynamic.rs:18-137 | parsing `.dynamic` in memory gives what the writer put there |
| DylibRoundTrip.FindDynamic | src/image/builder.rs:116-136 | in a written file the pointer that the loader keeps leads to the address that the layout gave to `.dynamic` |
| DylibRoundTrip.DynamicHeader | src/image/builder.rs:116-136 | the last PT_DYNAMIC has the address that the layout gave to `.dynamic`, in both address fields |
| DylibStubs.OwnStubsIff | tools/gen-elf/src/dylib/symtab.rs:328-356 | with 16-byte stubs, every slot points to its own stub if and only if the names are distinct and every stub, new or described by the caller, comes to stand behind the right number of bytes |
| DylibStubs.NoStubsBrought | tools/gen-elf/src/dylib/symtab.rs:328-356 | for a caller that brings no PLT code: if and only if there are no names, or neither a stub nor `PLT0` was described |
| DylibStubs.FirstEntryBrought | tools/gen-elf/src/dylib/symtab.rs:328-356 | a caller that brings 16 bytes for `PLT0` and no stubs |
| DylibStubs.SharedFunction | tools/gen-elf/src/dylib/symtab.rs:328-356 | two slots for one function: 32 bytes of PLT, and a second slot that points behind them |
| DylibOutput.SlotsIff | tools/gen-elf/src/dylib/reloc.rs:347-398 | the same of the slots and symbol values in a written file, whatever its caller described |
| DylibPlt.NoPanic | tools/gen-elf/src/dylib/symtab.rs:385-427 | if nobody described `PLT0`, a stub or a helper, no patch panics |
| DylibPlt.StubPanics | tools/gen-elf/src/dylib/symtab.rs:393-407 | a stub described as undefined makes the writer panic |
| DylibPlt.HelperPanics | tools/gen-elf/src/dylib/symtab.rs:410-427 | so does a helper described as undefined |
| DylibPlt.FirstEntryPanics | tools/gen-elf/src/dylib/symtab.rs:385-392 | so does a described `PLT0`, if the caller's last symbol is undefined |
| DylibPlt.WriteLonePlt0 | tools/gen-elf/src/dylib/symtab.rs:328-334 | the writer on one undefined `PLT0`: it panics whenever the file fits |
| DylibPlt.StubsReadSlots | tools/gen-elf/src/arch/x86_64.rs:57-66 | in a written file with its stubs in place, the jump of stub `j` leads to slot `j` |
| DylibOutput.OutputEncodable | tools/gen-elf/src/dylib/reloc.rs:479-497 | every relocation of a written file fits its fields, if the requested types are 32-bit numbers |
| DylibOutput.RelocsLoaded | src/elf/defs.rs:110-130 | in the loaded image `.rela.dyn` and `.rela.plt` decode to the writer's relocations |
| DylibOutput.PltRowLoaded | src/elf/defs.rs:110-130 | PLT relocation `j` comes back as a jump slot, at slot `j`, for the symbol that was named |
| DylibOutput.WriteThenFind | tools/gen-elf/src/dylib/mod.rs:180-292 | write, reserve, load, parse and look up in one: exactly the described names are found, at their indexes, and the relocation tables decode to the plan's relocations; every other ending of the writer names its cause |
| DylibRelocated.TablesGive | src/relocation/dynamic.rs:464-494 | the tables of the loaded image, read and split by the dynamic linker, are the writer's relative, dynamic and PLT relocations |
| DylibRelocated.RunReady | tools/gen-elf/src/dylib/reloc.rs:254-345 | the entries of the run, and the words of lazy binding, never overlap and stay in the image |
| DylibRelocated.RelocateWritten | src/relocation/dynamic.rs:60-131 | the dynamic linker on a written and loaded library: it succeeds exactly if no entry stops it, and then every relocation that was asked for has its meaning |
| DylibRoundTrip.OutputFieldsApart | tools/gen-elf/src/dylib/reloc.rs:254-345 | the relocations of a written file never write the same byte twice |
| DylibRoundTrip.DataSymbolLoaded | tools/gen-elf/src/dylib/symtab.rs:358-383 | in the loaded image a data symbol's final value is the address of its own bytes |
| DylibRoundTrip.OutputPrintable | tools/gen-elf/src/dylib/symtab.rs:328-356 | NUL-free input names give a NUL-free table |
| DylibRoundTrip.LoadThenFind | src/elf/hash/sysv.rs:117-164 | write, load, parse `.dynamic` and look up: the index the writer recorded, for every name |

## Left out

- Other architectures, 32-bit files and REL tables: only x86-64 with addends is modelled; the writer's other encoders add single expressions.
- Symbol versions: the optional feature, beyond `dl_elf_hash`.
- The custom hash table of object files, which rests on an external crate: a library with one enters the search with its answers (`SymbolSearch.Custom`).
- System calls, file I/O, `mprotect` and RELRO: whether RELRO can be applied is a parameter of the run.
- Initialisers, finalisers, hooks and IFUNC bodies: foreign code. Handlers may claim, fail or report a library, but do not write memory in this model.
- The naked assembly behind `dl_fixup` and concurrent fixups: runs are sequences of completed calls.
- DynamicParse.ParseDynamic: version, RPATH and RUNPATH tags are not read.
- ObjectImage.LinkObject: tables have 24-byte entries or no entry size (the code checks this in debug builds only); names end at the end of their section; relocations lie in their target section, do not overlap, do not rewrite the tables that the loop reads, and name a symbol of the table; with a descriptor to map, relocation sections lie in the file (`ObjectFile.SeenIff` says what the pre-pass misses otherwise); objects above 2 GiB are set aside as `TooLarge`.
- ProgramLoad.LoadProgram: a mapping that the system refuses, such as an empty one for a PT_LOAD with `p_memsz` 0 at a page boundary.
- ObjectLayout.LayOut: addresses are unbounded; nothing wraps as long as the total stays below 2^64.
- DylibSymbols.SymTabWriter.AddSingleSymbol: a string table of 4 GiB or more, where the name offset wraps, is not modelled.
- DylibWriter.WriteDylib: the code lets name offsets wrap at 2^32 and addresses at 2^64, the model stops there with `TooBig`; the bytes of `.shstrtab` and of the section header table, and the instruction bytes of the stubs (of which only the lengths and the patched ranges matter), are not modelled. Offsets wrap as in a release build; a debug build panics on a negative one.
- DylibRelocated.RelocateWritten: for base address 0 only, because the dynamic linker's model takes virtual addresses as indexes into the image.
- DynamicRun.RelocateImage: the image's own symbols are a parameter and not read from the memory that is being relocated; `DynamicMeaning.ReadOnTheWay` says when that makes no difference.
- DylibFile.LoadFile: the page size of the writer must be a multiple of 4096, the loader's page; with a smaller one two segments can share a page.
