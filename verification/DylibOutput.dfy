/** What a written library is once it is loaded: its relocation tables decode to the entries
    that were asked for, its PLT slots point to stubs, and its symbols are found. */
module DylibOutput {
  import opened Words
  import opened Symbols
  import opened Pages
  import opened Segments
  import opened ProgramLoad
  import opened DylibLayout
  import opened DylibHeaders
  import opened DylibFile
  import opened DylibSymbols
  import opened DylibIndex
  import opened DylibRelocs
  import opened DylibPatch
  import opened DylibSections
  import opened DylibStubs
  import opened DylibWriter
  import opened DylibRoundTrip

  // ------------------------------------------------------------ the planned entries

  /** A relocation that comes from an entry of the input, and names a symbol of the table. */
  predicate Sound(r: Reloc, nsyms: nat) {
    r.sym < nsyms && r.rtype < 0x1_0000_0000
  }

  predicate AllSound(rs: seq<Reloc>, nsyms: nat) {
    forall i :: 0 <= i < |rs| ==> Sound(rs[i], nsyms)
  }

  /** Relocation types are 32-bit numbers. */
  predicate Types32(raw: seq<RelocEntry>) {
    forall i :: 0 <= i < |raw| ==> raw[i].rtype < 0x1_0000_0000
  }

  lemma {:induction false} CopiesSound(rs: seq<RelocEntry>, off: nat, s: Syms)
    requires AllKnown(rs, s) && ValidSyms(s) && Types32(rs) && forall i :: 0 <= i < |rs| ==> Class(rs[i]) == 2
    ensures AllSound(Copies(rs, off, s), |s.sizes|)
  {
    if rs != [] {
      var k := |rs| - 1;
      CopiesSound(rs[..k], off, s);
      assert Class(rs[k]) == 2;
    }
  }

  lemma SlotsSound(rs: seq<RelocEntry>, slot: nat, s: Syms)
    requires AllKnown(rs, s) && ValidSyms(s) && Types32(rs) && |s.sizes| > 0
    ensures AllSound(InSlots(rs, slot, s), |s.sizes|)
  {
  }

  lemma PartSound(raw: seq<RelocEntry>, s: Syms, c: nat)
    requires AllKnown(raw, s) && Types32(raw)
    ensures AllKnown(OfClass(raw, c), s) && Types32(OfClass(raw, c))
    ensures forall i :: 0 <= i < |OfClass(raw, c)| ==> Class(OfClass(raw, c)[i]) == c
  {
    ClassMembers(raw, c);
  }

  lemma SoundJoin(a: seq<Reloc>, b: seq<Reloc>, nsyms: nat)
    requires AllSound(a, nsyms) && AllSound(b, nsyms)
    ensures AllSound(a + b, nsyms)
  {
  }

  lemma PlanSound(raw: seq<RelocEntry>, s: Syms, dataLen: nat)
    requires AllKnown(raw, s) && ValidSyms(s) && Types32(raw) && |s.sizes| > 0
    ensures AllSound(PlanOf(raw, s, dataLen).All(), |s.sizes|)
  {
    var plan, n := PlanOf(raw, s, dataLen), |s.sizes|;
    PartSound(raw, s, 0);
    PartSound(raw, s, 1);
    PartSound(raw, s, 2);
    PartSound(raw, s, 3);
    PartSound(raw, s, 4);
    var r, g := OfClass(raw, 0), OfClass(raw, 1);
    SlotsSound(r, 0, s);
    SlotsSound(g, |r|, s);
    CopiesSound(OfClass(raw, 2), dataLen, s);
    SlotsSound(OfClass(raw, 3), |r| + |g|, s);
    SlotsSound(OfClass(raw, 4), 3, s);
    SoundJoin(plan.relative, plan.got, n);
    SoundJoin(plan.relative + plan.got, plan.copies, n);
    SoundJoin(plan.relative + plan.got + plan.copies, plan.irelative, n);
    SoundJoin(plan.Dyn(), plan.plt, n);
  }

  // --------------------------------------------------------------- where sections end

  /** The section of a kind ends below the top of the address space. */
  lemma KindEnds(d: Draft, t: Tables, base: nat, k: SectionKind, align: nat, data: nat)
    requires Drafted(d, t, base) && data < 13
    requires Fresh(k, align, data, DraftSizes(t, d)) in AllSections(DraftSizes(t, d))
    requires Group(k) < 3
    ensures AddrOf(d.laid, k) + DraftSizes(t, d)[data] <= 0xffff_ffff_ffff_e000 && k in ShdrMap(d.laid)
  {
    var s := Fresh(k, align, data, DraftSizes(t, d));
    KindPlaced(d.laid, DraftSizes(t, d), s);
    MapHasKind(d.laid, s.kind);
    var l := FindKind(d.laid, s.kind).value;
    var k :| 0 <= k < |d.laid| && d.laid[k] == l;
    assert Placed(d.laid[k], base, 64 + 56 * PhNum(d.laid), d.fileOff);
  }

  lemma RelocSections(sizes: seq<nat>)
    requires |sizes| == 13
    ensures Fresh(RelaDyn, 8, RELA_DYN, sizes) in AllSections(sizes)
    ensures Fresh(RelaPlt, 8, RELA_PLT, sizes) in AllSections(sizes)
    ensures Fresh(Plt, 16, PLT, sizes) in AllSections(sizes)
  {
    var n, all := |Front(sizes)|, AllSections(sizes);
    assert all[1] == Front(sizes)[1] && all[n + 3] == Back(sizes)[3] && all[n + 4] == Back(sizes)[4];
  }

  lemma GotEnds(d: Draft, t: Tables, base: nat)
    requires Drafted(d, t, base)
    ensures AddrOf(d.laid, Got) + d.plan.GotSize() <= 0xffff_ffff_ffff_e000
  {
    ThreeSections(DraftSizes(t, d));
    KindEnds(d, t, base, Got, 8, GOT);
  }

  lemma GotPltEnds(d: Draft, t: Tables, base: nat)
    requires Drafted(d, t, base)
    ensures AddrOf(d.laid, GotPlt) + d.plan.GotPltSize() <= 0xffff_ffff_ffff_e000
  {
    ThreeSections(DraftSizes(t, d));
    KindEnds(d, t, base, GotPlt, 8, GOT_PLT);
  }

  lemma DataEnds(d: Draft, t: Tables, base: nat)
    requires Drafted(d, t, base)
    ensures AddrOf(d.laid, Data) + |Contents(t.symbols, Data)| + d.copySize <= 0xffff_ffff_ffff_e000
  {
    ThreeSections(DraftSizes(t, d));
    KindEnds(d, t, base, Data, 8, DATA);
  }

  // ------------------------------------------------------------ entries have room

  lemma AddendFits(r: Reloc, p: Places, v: Values)
    ensures -0x8000_0000_0000_0000 <= Addend(r, p, v) < 0x8000_0000_0000_0000
  {
  }

  /** An entry's final offset is inside one of the three sections. */
  lemma OffsetFits(plan: Plan, dataLen: nat, p: Places, v: Values, i: nat)
    requires InPlace(plan, dataLen) && i < |plan.All()|
    requires p.got + plan.GotSize() <= 0xffff_ffff_ffff_e000 && p.gotPlt + plan.GotPltSize() <= 0xffff_ffff_ffff_e000
    requires p.data + dataLen + CopySize(plan.copies) <= 0xffff_ffff_ffff_e000
    ensures FinalAll(plan, p, v)[i].offset < 0x1_0000_0000_0000_0000
  {
    EntryPlace(plan, dataLen, p, v, i);
  }

  /** Every entry of the written tables fits its fields. */
  lemma OutputEncodable(o: Output, base: nat, code: Code, raw: seq<RelocEntry>, i: nat)
    requires Complete(o, base, code) && PlannedFrom(raw, o.tables, o.draft.plan) && Types32(raw)
    requires o.draft.copySize == CopySize(o.draft.plan.copies) && i < |o.relocs|
    ensures DylibPatch.Encodable(o.relocs[i])
  {
    var plan, n := o.draft.plan, |Contents(o.tables.symbols, Data)|;
    PlanInPlace(raw, SymsOf(o.tables), n);
    PlanSound(raw, SymsOf(o.tables), n);
    GotEnds(o.draft, o.tables, base);
    GotPltEnds(o.draft, o.tables, base);
    DataEnds(o.draft, o.tables, base);
    OffsetFits(plan, n, PlacesOf(o.draft.laid), ValuesOf(o.tables), i);
    assert Sound(plan.All()[i], |o.tables.dynsym|);
    AddendFits(plan.All()[i], PlacesOf(o.draft.laid), ValuesOf(o.tables));
  }

  // ------------------------------------------------------------ the tables in memory

  function AsRela(r: Reloc): Rela {
    Rela(r.offset, r.rtype, r.sym, r.addend)
  }

  /** The rows at `addr` of the loaded image decode to these relocations. */
  ghost predicate DecodesTo(m: seq<byte>, space: ElfSegments, addr: nat, rs: seq<Reloc>) {
    forall i :: 0 <= i < |rs| ==> RowIs(m, space, addr, i, rs[i])
  }

  ghost predicate RowIs(m: seq<byte>, space: ElfSegments, addr: nat, i: nat, r: Reloc) {
    && space.offset <= addr
    && var at := addr - space.offset + 24 * i;
       at + 24 <= |m| && DecodeRela(m[at..at + 24]) == AsRela(r)
  }

  lemma TableDecodes(m: seq<byte>, space: ElfSegments, addr: nat, rs: seq<Reloc>)
    requires ReadsAt(m, space, addr, RelaBytes(rs)) && forall i :: 0 <= i < |rs| ==> DylibPatch.Encodable(rs[i])
    ensures DecodesTo(m, space, addr, rs)
  {
    forall i | 0 <= i < |rs| ensures RowIs(m, space, addr, i, rs[i]) {
      RelaReadBack(rs, i);
      var at := addr - space.offset;
      SliceOfPrefix(m[at..], RelaBytes(rs), 24 * i, 24);
      SubSlice(m, at, |m| - at, 24 * i, 24 * i + 24);
      assert m[at..at + (|m| - at)] == m[at..];
    }
  }

  lemma RelocBytesIn(o: Output, base: nat, code: Code, space: ElfSegments, m: seq<byte>)
    requires Complete(o, base, code) && SectionsLoaded(o.draft.laid, base, o.bytes.Alloc(), space, m)
    ensures |o.relocs| == |o.draft.plan.All()|
    ensures ReadsAt(m, space, AddrOf(o.draft.laid, RelaDyn), RelaBytes(o.relocs[..|o.draft.plan.Dyn()|]))
    ensures ReadsAt(m, space, AddrOf(o.draft.laid, RelaPlt), RelaBytes(o.relocs[|o.draft.plan.Dyn()|..]))
  {
    var sizes := DraftSizes(o.tables, o.draft);
    RelocSections(sizes);
    OneTableIn(o.draft.laid, sizes, base, o.bytes.Alloc(), space, m, Fresh(RelaDyn, 8, RELA_DYN, sizes));
    OneTableIn(o.draft.laid, sizes, base, o.bytes.Alloc(), space, m, Fresh(RelaPlt, 8, RELA_PLT, sizes));
  }

  predicate AllFit(rs: seq<Reloc>) {
    forall i :: 0 <= i < |rs| ==> DylibPatch.Encodable(rs[i])
  }

  lemma TwoTablesDecode(m: seq<byte>, space: ElfSegments, dyn: nat, plt: nat, rs: seq<Reloc>, n: nat)
    requires n <= |rs| && AllFit(rs) && ReadsAt(m, space, dyn, RelaBytes(rs[..n]))
    requires ReadsAt(m, space, plt, RelaBytes(rs[n..]))
    ensures DecodesTo(m, space, dyn, rs[..n]) && DecodesTo(m, space, plt, rs[n..])
  {
    TableDecodes(m, space, dyn, rs[..n]);
    TableDecodes(m, space, plt, rs[n..]);
  }

  /** What a written library with relocations `raw` is. */
  ghost predicate WrittenFrom(o: Output, base: nat, code: Code, raw: seq<RelocEntry>) {
    && Complete(o, base, code) && PlannedFrom(raw, o.tables, o.draft.plan)
    && o.draft.copySize == CopySize(o.draft.plan.copies)
  }

  lemma OutputFits(o: Output, base: nat, code: Code, raw: seq<RelocEntry>)
    requires WrittenFrom(o, base, code, raw) && Types32(raw)
    ensures AllFit(o.relocs)
  {
    forall i | 0 <= i < |o.relocs| ensures DylibPatch.Encodable(o.relocs[i]) {
      OutputEncodable(o, base, code, raw, i);
    }
  }

  /** The two relocation tables in memory decode to the relocations of the output. */
  ghost predicate RelocsIn(o: Output, space: ElfSegments, m: seq<byte>) {
    var n := |o.draft.plan.Dyn()|;
    && n <= |o.relocs|
    && DecodesTo(m, space, AddrOf(o.draft.laid, RelaDyn), o.relocs[..n])
    && DecodesTo(m, space, AddrOf(o.draft.laid, RelaPlt), o.relocs[n..])
  }

  /** In the loaded image, `.rela.dyn` and `.rela.plt` decode to the writer's relocations. */
  lemma RelocsLoaded(o: Output, base: nat, code: Code, raw: seq<RelocEntry>, space: ElfSegments, m: seq<byte>)
    requires WrittenFrom(o, base, code, raw) && Types32(raw)
    requires SectionsLoaded(o.draft.laid, base, o.bytes.Alloc(), space, m)
    ensures RelocsIn(o, space, m)
  {
    RelocBytesIn(o, base, code, space, m);
    OutputFits(o, base, code, raw);
    TwoTablesDecode(m, space, AddrOf(o.draft.laid, RelaDyn), AddrOf(o.draft.laid, RelaPlt), o.relocs,
                    |o.draft.plan.Dyn()|);
  }

  /** PLT relocation `j` of the plan, with its final address. */
  lemma PltFinal(raw: seq<RelocEntry>, s: Syms, dataLen: nat, p: Places, v: Values, j: nat)
    requires AllKnown(raw, s) && ValidSyms(s) && j < |OfClass(raw, 4)|
    ensures OfClass(raw, 4)[j].name in s.index
    ensures var plan := PlanOf(raw, s, dataLen);
            var rs, n := FinalAll(plan, p, v), |plan.Dyn()|;
            && |plan.plt| == |OfClass(raw, 4)| && n + j < |rs|
            && rs[n..][j] == Reloc(s.index[OfClass(raw, 4)[j].name], p.gotPlt + 8 * (3 + j), 0, R_JUMP_SLOT, 0)
  {
    PltPlanned(raw, s, dataLen, j);
    var plan := PlanOf(raw, s, dataLen);
    LastPart(plan, j);
    assert FinalAll(plan, p, v)[|plan.Dyn()| + j] == Final(plan.plt[j], p.gotPlt, p, v);
  }

  lemma LastPart(plan: Plan, j: nat)
    requires j < |plan.plt|
    ensures |plan.All()| == |plan.Dyn()| + |plan.plt| && plan.All()[|plan.Dyn()| + j] == plan.plt[j]
  {
  }

  lemma PltPlanned(raw: seq<RelocEntry>, s: Syms, dataLen: nat, j: nat)
    requires AllKnown(raw, s) && ValidSyms(s) && j < |OfClass(raw, 4)|
    ensures OfClass(raw, 4)[j].name in s.index && |PlanOf(raw, s, dataLen).plt| == |OfClass(raw, 4)|
    ensures PlanOf(raw, s, dataLen).plt[j] == Reloc(s.index[OfClass(raw, 4)[j].name], 8 * (3 + j), 0, R_JUMP_SLOT, 0)
  {
    KnownPart(raw, s, 4);
    assert Class(OfClass(raw, 4)[j]) == 4;
    assert PlanOf(raw, s, dataLen).plt == InSlots(OfClass(raw, 4), 3, s);
  }

  /** A jump slot for the symbol of PLT relocation `j`, at slot `j`. */
  function JumpSlot(o: Output, raw: seq<RelocEntry>, j: nat): Reloc
    requires j < |OfClass(raw, 4)| && OfClass(raw, 4)[j].name in o.tables.index
  {
    Reloc(o.tables.index[OfClass(raw, 4)[j].name], AddrOf(o.draft.laid, GotPlt) + 8 * (3 + j), 0, R_JUMP_SLOT, 0)
  }

  lemma PltRowIs(o: Output, raw: seq<RelocEntry>, j: nat)
    requires PlannedFrom(raw, o.tables, o.draft.plan) && j < |OfClass(raw, 4)|
    requires o.relocs == FinalAll(o.draft.plan, PlacesOf(o.draft.laid), ValuesOf(o.tables))
    ensures OfClass(raw, 4)[j].name in o.tables.index && |o.draft.plan.Dyn()| + j < |o.relocs|
    ensures o.relocs[|o.draft.plan.Dyn()|..][j] == JumpSlot(o, raw, j)
  {
    PltFinal(raw, SymsOf(o.tables), |Contents(o.tables.symbols, Data)|, PlacesOf(o.draft.laid), ValuesOf(o.tables), j);
  }

  lemma RowFrom(m: seq<byte>, space: ElfSegments, addr: nat, rs: seq<Reloc>, j: nat, r: Reloc)
    requires DecodesTo(m, space, addr, rs) && j < |rs| && rs[j] == r
    ensures RowIs(m, space, addr, j, r)
  {
  }

  /** The PLT relocations come back from memory as they were asked for: row `j` is a jump slot,
      at slot `j`, for the symbol that was named. */
  lemma PltRowLoaded(o: Output, base: nat, code: Code, raw: seq<RelocEntry>, space: ElfSegments, m: seq<byte>, j: nat)
    requires WrittenFrom(o, base, code, raw) && Types32(raw) && j < |OfClass(raw, 4)|
    requires SectionsLoaded(o.draft.laid, base, o.bytes.Alloc(), space, m)
    ensures OfClass(raw, 4)[j].name in o.tables.index
    ensures RowIs(m, space, AddrOf(o.draft.laid, RelaPlt), j, JumpSlot(o, raw, j))
  {
    RelocsLoaded(o, base, code, raw, space, m);
    PltRowIs(o, raw, j);
    RowFrom(m, space, AddrOf(o.draft.laid, RelaPlt), o.relocs[|o.draft.plan.Dyn()|..], j, JumpSlot(o, raw, j));
  }

  // ------------------------------------------------------------------- slots and stubs

  /** Slot `j` of `.got.plt` holds the address of its stub's second instruction. */
  ghost predicate SlotOk(t: Tables, gotPlt: seq<byte>, names: seq<DylibSymbols.Name>, j: nat)
    requires j < |names|
  {
    var n := StubName(names, j);
    && n in t.index && 1 <= t.index[n] <= |t.symbols| && t.index[n] < |t.dynsym| && IsPlt(t.symbols[t.index[n] - 1])
    && 8 * (3 + j) + 8 <= |gotPlt| && Load(gotPlt, 8 * (3 + j), 8) == Wrap64(t.dynsym[t.index[n]].value + 6)
  }

  ghost predicate AllSlots(t: Tables, gotPlt: seq<byte>, names: seq<DylibSymbols.Name>)
  {
    forall j :: 0 <= j < |names| ==> SlotOk(t, gotPlt, names, j)
  }

  /** What the writer knows of its PLT: final addresses for the symbols, and the slots set. */
  ghost predicate PltWritten(before: Tables, p: SymPlaces, places: Places, gotPlt: seq<byte>, n: nat) {
    && Good(before) && Plt in p.shndx && places.plt == p.plt && SlotsSet(gotPlt, places, n)
    && |Contents(before.symbols, Plt)| < 0x1_0000_0000_0000_0000 && 24 * n < 0x1_0000_0000_0000_0000
  }

  /** The two sides for a stub's name that is symbol `i`. */
  lemma OwnAt(t: Tables, es: seq<Sym>, gotPlt: seq<byte>, names: seq<DylibSymbols.Name>, j: nat, i: nat)
    requires Names(t) && |es| == |t.dynsym| && j < |names| && 8 * (3 + j) + 8 <= |gotPlt|
    requires StubName(names, j) in t.index && t.index[StubName(names, j)] == i + 1
    ensures i < |t.symbols|
    ensures (OwnStub(t, names, j) <==> IsPlt(t.symbols[i]) && |Contents(t.symbols[..i], Plt)| == 16 + 16 * j)
    ensures SlotOk(t.(dynsym := es), gotPlt, names, j) <==>
            IsPlt(t.symbols[i]) && Load(gotPlt, 8 * (3 + j), 8) == Wrap64(es[i + 1].value + 6)
  {
    assert |StubName(names, j)| >= 4;
  }

  lemma SlotIffOwn(before: Tables, p: SymPlaces, places: Places, gotPlt: seq<byte>, names: seq<DylibSymbols.Name>,
                   j: nat)
    requires PltWritten(before, p, places, gotPlt, |names|) && j < |names|
    ensures SlotOk(before.(dynsym := Moved(before, p)), gotPlt, names, j) <==> OwnStub(before, names, j)
  {
    var n := StubName(names, j);
    assert |n| >= 4 && Load(gotPlt, 8 * (3 + j), 8) == StubValue(places, j);
    if n in before.index {
      var i := before.index[n] - 1;
      OwnAt(before, Moved(before, p), gotPlt, names, j, i);
      if IsPlt(before.symbols[i]) {
        SlotInStub(before, p, places, i, j);
      }
    }
  }

  lemma AllSlotsIff(before: Tables, p: SymPlaces, places: Places, gotPlt: seq<byte>, front: seq<SymbolDesc>,
                    added: seq<SymbolDesc>, names: seq<DylibSymbols.Name>, plt0: seq<byte>,
                    code: (nat, nat) -> seq<byte>, helper: seq<byte>)
    requires PltWritten(before, p, places, gotPlt, |names|)
    requires before.symbols == Dedup(front + added) && PltAdded(added, names, plt0, code, helper) && Stubs16(plt0, code)
    ensures AllSlots(before.(dynsym := Moved(before, p)), gotPlt, names) <==> StubsInPlace(front, names)
  {
    var all, n := front + added, |front|;
    assert all[n..] == added && all[..n] == front;
    OwnStubsIff(before, all, n, names, plt0, code, helper);
    forall j | 0 <= j < |names|
      ensures SlotOk(before.(dynsym := Moved(before, p)), gotPlt, names, j) <==> OwnStub(before, names, j)
    {
      SlotIffOwn(before, p, places, gotPlt, names, j);
    }
  }

  lemma PltEnds(d: Draft, t: Tables, base: nat)
    requires Drafted(d, t, base)
    ensures Plt in ShdrMap(d.laid) && |Contents(t.symbols, Plt)| < 0x1_0000_0000_0000_0000
  {
    RelocSections(DraftSizes(t, d));
    KindEnds(d, t, base, Plt, 16, PLT);
  }

  lemma RelaPltEnds(d: Draft, t: Tables, base: nat)
    requires Drafted(d, t, base)
    ensures 24 * |d.plan.plt| < 0x1_0000_0000_0000_0000
  {
    RelocSections(DraftSizes(t, d));
    KindEnds(d, t, base, RelaPlt, 8, RELA_PLT);
  }

  lemma OutputPlt(o: Output, before: Tables, base: nat, code: Code, raw: seq<RelocEntry>)
    requires WrittenFrom(o, base, code, raw) && MovedFrom(o, before)
    ensures PltWritten(before, SymPlacesOf(o.draft.laid), PlacesOf(o.draft.laid), o.bytes.gotPlt, |OfClass(raw, 4)|)
  {
    PltEnds(o.draft, o.tables, base);
    RelaPltEnds(o.draft, o.tables, base);
    KnownPart(raw, SymsOf(o.tables), 4);
    assert |o.draft.plan.plt| == |OfClass(raw, 4)|;
  }

  /** In a written library, every PLT slot holds the address of its own stub if and only if the
      PLT relocations name distinct functions and every stub comes to stand in its place among
      the caller's descriptions. */
  lemma SlotsIff(o: Output, before: Tables, base: nat, code: Code, descs: seq<SymbolDesc>, raw: seq<RelocEntry>,
                 added: seq<SymbolDesc>)
    requires WrittenFrom(o, base, code, raw) && MovedFrom(o, before) && ValidCode(code)
    requires SymbolsFrom(before, o.patched.marks, descs, raw, code, added)
    ensures AllSlots(o.tables, o.bytes.gotPlt, NamesOf(OfClass(raw, 4))) <==>
            StubsInPlace([ResolverDesc(code.resolver)] + descs, NamesOf(OfClass(raw, 4)))
  {
    OutputPlt(o, before, base, code, raw);
    AllSlotsIff(before, SymPlacesOf(o.draft.laid), PlacesOf(o.draft.laid), o.bytes.gotPlt,
                [ResolverDesc(code.resolver)] + descs, added, NamesOf(OfClass(raw, 4)),
                code.plt0, code.entry, code.helper);
  }

  // ------------------------------------------------------------ write, load, look up

  /** The space that the headers of a written file ask for. */
  method SpaceFor(file: seq<byte>, memory: u64, ghost o: Output, ghost base: nat) returns (space: ElfSegments)
    requires Drafted(o.draft, o.tables, base) && FileOf(file, o.draft.laid, o.bytes.Alloc())
    ensures SpaceOf(ProgramHeaders(o.draft.laid), space.offset, space.len) && space.memory == memory
  {
    HeadersLoadable(o.draft.laid, base, 64 + 56 * PhNum(o.draft.laid), o.draft.fileOff);
    var _, size, minVaddr := ParseSegments(ReadPhdrs(file).value, true);
    space := ElfSegments(memory, minVaddr, size);
  }

  /** The space is the one that the output's headers ask for. */
  ghost predicate SpaceAsked(o: Output, space: ElfSegments, total: nat) {
    AllWords64(o.draft.laid) && SpaceOf(ProgramHeaders(o.draft.laid), space.offset, space.len) && space.len == total
  }

  /** Loads a written file to `memory`, if its space fits there, and looks a name up. */
  method LoadWritten(file: seq<byte>, memory: u64, os: Os, name: DylibSymbols.Name, hash: seq<byte> -> nat,
                     ghost o: Output, ghost base: nat, ghost code: Code)
    returns (total: nat, space: ElfSegments, mem: array<byte>, found: Option<nat>)
    requires Complete(o, base, code) && Printable(o.tables) && file == o.file && PageAligned(memory)
    ensures SpaceAsked(o, space, total) && space.memory == memory
    ensures memory + total + PAGE_SIZE <= U64 ==>
              && SectionsLoaded(o.draft.laid, base, o.bytes.Alloc(), space, mem[..])
              && found == if name != [] && name in o.tables.index then Some(o.tables.index[name]) else None
  {
    space := SpaceFor(file, memory, o, base);
    total, found := space.len, None;
    mem := new byte[total](_ => 0);
    if memory + total + PAGE_SIZE <= U64 {
      found := LoadThenFind(file, space, mem, os, name, hash, o, base, code);
    }
  }

  /** The caller's names, and those of the PLT relocations, have no NUL byte. */
  predicate NamesReadable(descs: seq<SymbolDesc>, raw: seq<RelocEntry>) {
    DylibRoundTrip.Readable(descs) && forall i :: 0 <= i < |raw| ==> 0 !in raw[i].name
  }

  lemma WrittenPrintable(t: Tables, code: Code, descs: seq<SymbolDesc>, raw: seq<RelocEntry>, added: seq<SymbolDesc>)
    requires NamesReadable(descs, raw) && t.symbols == Dedup([ResolverDesc(code.resolver)] + descs + added)
    requires PltAdded(added, NamesOf(OfClass(raw, 4)), code.plt0, code.entry, code.helper)
    ensures Printable(t)
  {
    var names := NamesOf(OfClass(raw, 4));
    ClassMembers(raw, 4);
    AddedNames(added, names, code.plt0, code.entry, code.helper);
    OutputPrintable(t, ResolverDesc(code.resolver), descs, added, names);
  }

  /** From symbols and relocations to a file, from the file to memory, and from memory back to
      the symbols and relocations: every name that was described, or that the PLT adds, is
      found at its index, no other name is found, and the relocation tables decode to the
      relocations of the plan. */
  method WriteThenFind(descs: seq<SymbolDesc>, raw: seq<RelocEntry>, base: nat, page: nat, code: Code,
                       shstrtab: seq<byte>,
                       shdrs: seq<Section> -> seq<byte>, memory: u64, os: Os, name: DylibSymbols.Name,
                       hash: seq<byte> -> nat)
    returns (r: WriteResult, total: nat, mem: array<byte>, found: Option<nat>, ghost space: ElfSegments,
             ghost added: seq<SymbolDesc>, ghost before: Tables, ghost m: Marks, ghost d: Draft)
    requires ValidCode(code) && forall i :: 0 <= i < |descs| ==> Supported(descs[i])
    requires page > 0 && page % 0x1000 == 0 && base % 0x1000 == 0 && PageAligned(memory)
    requires NamesReadable(descs, raw) && Types32(raw)
    ensures r.UnknownSymbol? <==> !NamesOutgrown(descs, raw, code) && Unnamed(descs, raw, code)
    ensures NamesOutgrown(descs, raw, code) ==> r.TooBig?
    ensures !NamesOutgrown(descs, raw, code) ==> SymbolsFrom(before, m, descs, raw, code, added)
    ensures !NamesOutgrown(descs, raw, code) && !Unnamed(descs, raw, code) && !r.TooBig? ==>
              EndsWith(r, before, m, d, raw, base, code)
    ensures r.Wrote? ==> SpaceAsked(r.o, space, total)
    ensures r.Wrote? && memory + total + PAGE_SIZE <= U64 ==>
              && (found.Some? <==> name != [] && name in AllNames(descs, raw, code))
              && (found.Some? ==> name in r.o.tables.index && found.value == r.o.tables.index[name])
              && RelocsIn(r.o, space, mem[..])
  {
    r, added, before, m, d := WriteDylib(descs, raw, base, page, code, shstrtab, shdrs);
    total, mem, found, space := 0, new byte[0], None, ElfSegments(0, 0, 0);
    if r.Wrote? {
      WrittenPrintable(r.o.tables, code, descs, raw, added);
      total, mem, found, space := ReadBack(r.o, raw, base, code, memory, os, name, hash);
      if name != [] {
        NamedIff(r.o.tables, descs, raw, code, added, name);
      }
    }
  }

  /** Loads a written library and reads its symbols and relocations back. */
  method ReadBack(o: Output, ghost raw: seq<RelocEntry>, ghost base: nat, ghost code: Code, memory: u64, os: Os,
                  name: DylibSymbols.Name, hash: seq<byte> -> nat)
    returns (total: nat, mem: array<byte>, found: Option<nat>, ghost space: ElfSegments)
    requires WrittenFrom(o, base, code, raw) && Types32(raw) && Printable(o.tables) && PageAligned(memory)
    ensures SpaceAsked(o, space, total)
    ensures memory + total + PAGE_SIZE <= U64 ==>
              && found == (if name != [] && name in o.tables.index then Some(o.tables.index[name]) else None)
              && RelocsIn(o, space, mem[..])
  {
    var at;
    total, at, mem, found := LoadWritten(o.file, memory, os, name, hash, o, base, code);
    space := at;
    if memory + total + PAGE_SIZE <= U64 {
      RelocsLoaded(o, base, code, raw, space, mem[..]);
    }
  }

  lemma NamedIff(t: Tables, descs: seq<SymbolDesc>, raw: seq<RelocEntry>, code: Code, added: seq<SymbolDesc>,
                 name: DylibSymbols.Name)
    requires Names(t) && t.symbols == Dedup([ResolverDesc(code.resolver)] + descs + added)
    requires DescNames(added) == PltNames(NamesOf(OfClass(raw, 4))) && name != []
    ensures name in t.index <==> name in AllNames(descs, raw, code)
  {
    var all := [ResolverDesc(code.resolver)] + descs + added;
    KnownIff(t, name);
    DedupListed(all, name);
    DescNamesJoin([ResolverDesc(code.resolver)] + descs, added);
    InNames(all, name);
  }
}
