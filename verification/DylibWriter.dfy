/** The shared-library writer as a whole (`DylibWriter::write`,
    tools/gen-elf/src/dylib/mod.rs): from symbols and relocations to a file.

    Instruction bytes are opaque: `Code` gives the stubs, of which only the length matters. */
module DylibWriter {
  import opened Words
  import opened Symbols
  import opened Records
  import opened DylibLayout
  import opened DylibHeaders
  import opened DylibFile
  import opened DylibSymbols
  import opened DylibCode
  import opened DylibIndex
  import opened DylibDynamic
  import opened DynamicParse
  import opened DylibRelocs
  import opened DylibPatch
  import opened DylibSections

  /** The code of x86-64, and the address that the resolver is to return, if the caller chose
      one. */
  datatype Code = Code(resolver: seq<byte>, plt0: seq<byte>, entry: (nat, nat) -> seq<byte>, helper: seq<byte>,
                       target: Option<u64>)

  ghost predicate ValidCode(c: Code) {
    |c.resolver| == 16 && |c.plt0| == 16 && |c.helper| == 8 && forall i, off :: |c.entry(i, off)| == 16
  }

  /** The names of the PLT relocations, in order. */
  function NamesOf(rs: seq<RelocEntry>): (ns: seq<DylibSymbols.Name>)
    ensures |ns| == |rs| && forall i :: 0 <= i < |rs| ==> ns[i] == rs[i].name
  {
    seq(|rs|, i requires 0 <= i < |rs| => rs[i].name)
  }

  // ------------------------------------------------------------------------ symbols

  /** `SymTabMetadata::new`: the resolver, the caller's symbols, then the PLT. */
  method BuildSymbols(descs: seq<SymbolDesc>, raw: seq<RelocEntry>, code: Code)
    returns (ok: bool, w: SymTabWriter, ghost added: seq<SymbolDesc>)
    requires ValidCode(code) && forall i :: 0 <= i < |descs| ==> Supported(descs[i])
    ensures fresh(w)
    ensures ok <==> StrSize(AllNames(descs, raw, code)) < 0x1_0000_0000
    ensures ok ==> Good(w.View()) && |w.dynstr| < 0x1_0000_0000
    ensures ok ==> w.symbols == Dedup([ResolverDesc(code.resolver)] + descs + added)
    ensures ok ==> DescNames(added) == PltNames(NamesOf(OfClass(raw, 4)))
    ensures ok ==> PltAdded(added, NamesOf(OfClass(raw, 4)), code.plt0, code.entry, code.helper)
    ensures ok ==> MarkedFor(w.marks, w.View(), descs, raw, code)
  {
    w := new SymTabWriter();
    added := [];
    ghost var all := [ResolverDesc(code.resolver)] + descs;
    ok := w.AddSymbols(descs, ResolverDesc(code.resolver));
    SizeMonotone(DescNames(all), PltNames(NamesOf(OfClass(raw, 4))));
    if ok {
      var parts := Classify(raw);
      ok, added := w.AddPltSymbols(NamesOf(parts[4]), code.plt0, code.entry, code.helper, all);
      DescNamesJoin(all, added);
      ok := ok && |w.dynstr| < 0x1_0000_0000;
    }
  }

  /** What is marked for the patches: for the first entry, the symbol that is last when `PLT0`
      has been added. */
  ghost predicate MarkedFor(m: Marks, t: Tables, descs: seq<SymbolDesc>, raw: seq<RelocEntry>, code: Code) {
    && MarksFor(m, t.index, NamesOf(OfClass(raw, 4)))
    && m.plt0 == Some(|Dedup([ResolverDesc(code.resolver)] + descs + [PltDesc(Plt0Name(), code.plt0)])|)
  }

  /** The names in the symbol table: the resolver's, the caller's, the PLT's. */
  function AllNames(descs: seq<SymbolDesc>, raw: seq<RelocEntry>, code: Code): seq<DylibSymbols.Name> {
    DescNames([ResolverDesc(code.resolver)] + descs) + PltNames(NamesOf(OfClass(raw, 4)))
  }

  function SizesOf(es: seq<Sym>): (s: seq<nat>)
    ensures |s| == |es|
  {
    seq(|es|, i requires 0 <= i < |es| => es[i].size)
  }

  function SymsOf(t: Tables): Syms {
    Syms(t.index, SizesOf(t.dynsym))
  }

  lemma SymsValid(t: Tables)
    requires Names(t)
    ensures ValidSyms(SymsOf(t))
  {
  }

  lemma SymbolsEncodable(t: Tables)
    requires Names(t) && forall i :: 0 <= i < |t.symbols| ==> Supported(t.symbols[i])
    ensures DylibIndex.AllEncodable(t.dynsym)
  {
    forall i | 0 <= i < |t.dynsym| ensures DylibIndex.Encodable(t.dynsym[i]) {
      if i > 0 {
        assert NameOk(t, i - 1) && Supported(t.symbols[i - 1]);
      }
    }
  }

  // -------------------------------------------------------------------- the sizes

  /** The bytes of every section, by number. */
  datatype Bytes = Bytes(dynsym: seq<byte>, dynstr: seq<byte>, hash: seq<byte>, relaDyn: seq<byte>, relaPlt: seq<byte>,
                         got: seq<byte>, gotPlt: seq<byte>, data: seq<byte>, text: seq<byte>, plt: seq<byte>,
                         tls: seq<byte>, dynamic: seq<byte>, shstrtab: seq<byte>)
  {
    function Alloc(): seq<seq<byte>> {
      [dynsym, dynstr, hash, relaDyn, relaPlt, got, gotPlt, data, text, plt, tls, dynamic, shstrtab]
    }
  }

  /** The sizes before the layout: tables by their number of entries. */
  function SizesBefore(t: Tables, plan: Plan, copySize: nat, dynCount: nat, shstrtab: seq<byte>): (s: seq<nat>)
    ensures |s| == 13
  {
    [24 * |t.dynsym|, |t.dynstr|, 4 * (3 + |t.dynsym|), 24 * |plan.Dyn()|, 24 * |plan.plt|, plan.GotSize(),
     plan.GotPltSize(), |Contents(t.symbols, Data)| + copySize, |Contents(t.symbols, Text)|, |Contents(t.symbols, Plt)|,
     |Contents(t.symbols, Tls)|, 16 * dynCount, |shstrtab|]
  }

  /** The resolver's symbol. */
  function ResolverOf(t: Tables): Option<nat> {
    if ResolverName() in t.index then Some(t.index[ResolverName()]) else None
  }

  function TargetOf(code: Code, p: Places): u64 {
    if code.target.Some? then code.target.value else Wrap64(p.plt)
  }

  /** The symbols that the patches look up are in the table. */
  predicate Lookups(t: Tables, m: Marks) {
    Indexed(m, |t.dynsym|) && (ResolverOf(t).Some? ==> ResolverOf(t).value < |t.dynsym|)
  }

  /** How the code was patched: what was marked, and in which order the helpers came. */
  datatype Patched = Patched(marks: Marks, order: seq<nat>)

  /** The two code sections, patched. */
  ghost predicate CodeBytes(text: seq<byte>, plt: seq<byte>, t: Tables, c: Patched, code: Code, p: Places) {
    && Lookups(t, c.marks) && OrderOf(c.marks, c.order)
    && IsMade(Contents(t.symbols, Text), text,
              TextCuts(t.dynsym, c.marks, c.order, ResolverOf(t), p.text, TargetOf(code, p)))
    && IsMade(Contents(t.symbols, Plt), plt, PltCuts(t.dynsym, c.marks, p.plt, p.gotPlt))
  }

  /** No patch panics. */
  ghost predicate Patchable(t: Tables, m: Marks, code: Code, p: Places)
    requires Lookups(t, m)
  {
    PatchesFit(t.dynsym, m, ResolverOf(t), p.text, p.plt, p.gotPlt, TargetOf(code, p), |Contents(t.symbols, Text)|,
               |Contents(t.symbols, Plt)|)
  }

  lemma LookupsKnown(t: Tables, m: Marks, descs: seq<SymbolDesc>, raw: seq<RelocEntry>, code: Code,
                     added: seq<SymbolDesc>)
    requires Names(t) && MarkedFor(m, t, descs, raw, code)
    requires t.symbols == Dedup([ResolverDesc(code.resolver)] + descs + added)
    requires PltAdded(added, NamesOf(OfClass(raw, 4)), code.plt0, code.entry, code.helper)
    ensures Lookups(t, m)
  {
    var names, all := NamesOf(OfClass(raw, 4)), [ResolverDesc(code.resolver)] + descs + added;
    forall j | 0 <= j < |m.entries| ensures m.entries[j].0 < |t.dynsym| {
      assert Marked(m, t.index, names, j);
    }
    forall k | k in m.helpers ensures k < |t.dynsym| && m.helpers[k] < |t.dynsym| {
      assert IsEntry(m, k);
      var j :| 0 <= j < |names| && m.entries[j].0 == k;
      assert Marked(m, t.index, names, j);
    }
    var n := 1 + |descs|;
    assert all[..n + 1] == [ResolverDesc(code.resolver)] + descs + [PltDesc(Plt0Name(), code.plt0)];
    DedupShorter(all, n + 1);
  }

  lemma {:induction false} DedupShorter(all: seq<SymbolDesc>, p: nat)
    requires p <= |all|
    ensures |Dedup(all[..p])| <= |Dedup(all)|
  {
    if p == |all| {
      assert all[..p] == all;
    } else {
      DedupShorter(all[..|all| - 1], p);
      assert all[..|all| - 1][..p] == all[..p];
    }
  }

  /** What the final bytes are. `t` is the symbol table after its values were set. */
  ghost predicate FinalBytes(b: Bytes, t: Tables, plan: Plan, copySize: nat, es: seq<DynEntry>, relocs: seq<Reloc>,
                             code: Code, p: Places, shstrtab: seq<byte>, c: Patched)
  {
    && b.dynsym == Flatten(SymRows(t.dynsym)) && b.dynstr == t.dynstr && b.hash == WordBytes(HashWords(|t.dynsym|))
    && |relocs| == |plan.All()|
    && b.relaDyn == RelaBytes(relocs[..|plan.Dyn()|]) && b.relaPlt == RelaBytes(relocs[|plan.Dyn()|..])
    && |b.got| == plan.GotSize() && |b.gotPlt| == plan.GotPltSize() && SlotsSet(b.gotPlt, p, |plan.plt|)
    && b.data == Contents(t.symbols, Data) + Zeros(copySize)
    && CodeBytes(b.text, b.plt, t, c, code, p)
    && b.tls == Contents(t.symbols, Tls) && b.dynamic == Flatten(DynRows(es)) && b.shstrtab == shstrtab
  }

  lemma WordBytesLength(ws: seq<nat>)
    ensures |WordBytes(ws)| == 4 * |ws|
  {
    FlattenLength(WordRows(ws), 4);
  }

  lemma DynBytesLength(es: seq<DynEntry>)
    ensures |Flatten(DynRows(es))| == 16 * |es|
  {
    if es == [] {
      assert DynRows(es) == [];
    } else {
      DynReadBack(es, 0);
    }
  }

  lemma TablesConserved(b: Bytes, t: Tables, plan: Plan, copySize: nat, es: seq<DynEntry>, relocs: seq<Reloc>,
                        code: Code, p: Places, shstrtab: seq<byte>, c: Patched)
    requires FinalBytes(b, t, plan, copySize, es, relocs, code, p, shstrtab, c) && DylibIndex.AllEncodable(t.dynsym)
    ensures |b.dynsym| == 24 * |t.dynsym| && |b.hash| == 4 * (3 + |t.dynsym|)
    ensures |b.relaDyn| == 24 * |plan.Dyn()| && |b.relaPlt| == 24 * |plan.plt| && |b.dynamic| == 16 * |es|
  {
    SymsReadBack(t.dynsym);
    WordBytesLength(HashWords(|t.dynsym|));
    RelaBytesLength(relocs[..|plan.Dyn()|]);
    RelaBytesLength(relocs[|plan.Dyn()|..]);
    DynBytesLength(es);
  }

  /** Every section's final bytes have the size it was laid out with, although symbols,
      relocations and `.dynamic` are emitted anew after the layout. */
  lemma LengthsConserved(b: Bytes, t: Tables, plan: Plan, copySize: nat, es: seq<DynEntry>, relocs: seq<Reloc>,
                         code: Code, p: Places, shstrtab: seq<byte>, c: Patched)
    requires FinalBytes(b, t, plan, copySize, es, relocs, code, p, shstrtab, c)
    requires DylibIndex.AllEncodable(t.dynsym)
    ensures forall d :: 0 <= d < 13 ==> |b.Alloc()[d]| == SizesBefore(t, plan, copySize, |es|, shstrtab)[d]
  {
    TablesConserved(b, t, plan, copySize, es, relocs, code, p, shstrtab, c);
  }

  // ------------------------------------------------------------------ final contents

  /** Kind to section number; the null section is number 0. */
  function ShdrMap(laid: seq<Section>): map<SectionKind, nat> {
    if laid == [] then map[] else ShdrMap(laid[..|laid| - 1])[laid[|laid| - 1].kind := |laid|]
  }

  function PlacesOf(laid: seq<Section>): Places {
    Places(AddrOf(laid, Got), AddrOf(laid, GotPlt), AddrOf(laid, Data), AddrOf(laid, Text), AddrOf(laid, Plt),
           AddrOf(laid, Dynamic))
  }

  function SymPlacesOf(laid: seq<Section>): SymPlaces {
    SymPlaces(ShdrMap(laid), AddrOf(laid, Text), AddrOf(laid, Data), AddrOf(laid, Plt))
  }

  function PatchOf(laid: seq<Section>, plan: Plan): Patch {
    Patch(Wrap64(AddrOf(laid, DynStr)), Wrap64(AddrOf(laid, DynSym)), Wrap64(AddrOf(laid, Hash)),
          Wrap64(AddrOf(laid, GotPlt)), Wrap64(AddrOf(laid, RelaDyn)), Wrap64(24 * |plan.Dyn()|),
          Wrap64(AddrOf(laid, RelaPlt)), Wrap64(24 * |plan.plt|), Wrap64(|plan.relative|))
  }

  function ValuesOf(t: Tables): Values
  {
    var resolver := ResolverName();
    Values(i => if 0 <= i < |t.dynsym| then t.dynsym[i].value else 0,
           if resolver in t.index && t.index[resolver] < |t.dynsym| then t.dynsym[t.index[resolver]].value else 0)
  }

  lemma MovedTables(t: Tables, p: SymPlaces)
    requires Good(t)
    ensures Names(t.(dynsym := Moved(t, p))) && DylibIndex.AllEncodable(Moved(t, p))
  {
    MovedNames(t, p);
    forall i | 0 <= i < |t.symbols| ensures Supported(t.symbols[i]) {
      assert ValueOk(t, i);
    }
    SymbolsEncodable(t.(dynsym := Moved(t, p)));
  }

  /** The symbol table with its final values. */
  method FinishSymbols(w: SymTabWriter, p: SymPlaces) returns (t: Tables)
    requires Good(w.View())
    modifies w
    ensures t == old(w.View()).(dynsym := Moved(old(w.View()), p))
  {
    w.UpdateSymbolValues(p);
    t := w.View();
  }

  /** The GOT, the PLT's GOT and the two relocation tables. */
  method FinishRelocs(plan: Plan, p: Places, v: Values)
    returns (got: seq<byte>, gotPlt: seq<byte>, relocs: seq<Reloc>, relDyn: seq<byte>, relPlt: seq<byte>)
    ensures |got| == plan.GotSize() && |gotPlt| == plan.GotPltSize() && SlotsSet(gotPlt, p, |plan.plt|)
    ensures relocs == FinalAll(plan, p, v)
    ensures relDyn == RelaBytes(relocs[..|plan.Dyn()|]) && relPlt == RelaBytes(relocs[|plan.Dyn()|..])
  {
    var g := new byte[plan.GotSize()](_ => 0);
    var gp := new byte[plan.GotPltSize()](_ => 0);
    PatchGot(g, gp, p, |plan.plt|);
    relocs, relDyn, relPlt := PatchReloc(plan, p, v, gp);
    got, gotPlt := g[..], gp[..];
  }

  /** `.dynamic` with its final values: as many entries as before. */
  method FinishDynamic(dw: DynamicWriter, ghost sizes: seq<nat>, laid: seq<Section>, plan: Plan)
    returns (es: seq<DynEntry>)
    requires |sizes| == 13 && dw.entries == AllEntries(Described(sizes)) + [DynEntry(DT_NULL, 0)]
    modifies dw
    ensures WellFormed(es) && |es| == |old(dw.entries)| && Linked(es, PatchOf(laid, plan)) && KnownTags(es)
  {
    SectionsRanked(sizes);
    AllTags(Described(sizes));
    InitialTags(Described(sizes));
    TagsThere(sizes, PatchOf(laid, plan));
    PltrelIs(sizes);
    UnpatchedPltrel(PatchOf(laid, plan));
    dw.PatchDynamic(PatchOf(laid, plan));
    es := dw.entries;
    PatchLinks(es, PatchOf(laid, plan));
  }

  /** The entries say what the patch said. */
  ghost predicate Linked(es: seq<DynEntry>, p: Patch) {
    && Get(es, DT_STRTAB) == Some(p.strtab) && Get(es, DT_SYMTAB) == Some(p.symtab) && Get(es, DT_HASH) == Some(p.hash)
    && Get(es, DT_PLTGOT) == Some(p.gotPlt) && Get(es, DT_RELA) == Some(p.rela)
    && Get(es, DT_RELASZ) == Some(p.relaSize)
    && Get(es, DT_JMPREL) == Some(p.jmprel) && Get(es, DT_PLTRELSZ) == Some(p.pltrelSize)
    && Get(es, DT_RELACOUNT) == Some(p.relaCount) && Get(es, DT_PLTREL) == Some(7)
  }

  lemma PltrelIs(sizes: seq<nat>)
    requires |sizes| == 13
    ensures Get(AllEntries(Described(sizes)) + [DynEntry(DT_NULL, 0)], DT_PLTREL) == Some(7)
  {
    var secs := Described(sizes);
    var es := AllEntries(secs) + [DynEntry(DT_NULL, 0)];
    SectionsRanked(sizes);
    AllTags(secs);
    var n := |Front(sizes)| + 4;
    assert secs[n] == Back(sizes)[4];
    var e := SectionEntries(secs[n])[2];
    EntriesFrom(secs, n, e);
    var j :| 0 <= j < |AllEntries(secs)| && AllEntries(secs)[j] == e;
    assert es[j] == e;
    GetIs(es, j);
  }

  lemma UnpatchedPltrel(p: Patch)
    ensures Get(Patches(p), DT_PLTREL) == None
  {
    LastNone(Patches(p), |Patches(p)|, DT_PLTREL);
  }

  lemma PatchValue(p: Patch, i: nat)
    requires i < |Patches(p)|
    ensures Get(Patches(p), Patches(p)[i].tag) == Some(Patches(p)[i].value)
  {
    LastIs(Patches(p), |Patches(p)|, Patches(p)[i].tag, i);
  }

  lemma PatchLinks(es: seq<DynEntry>, p: Patch)
    requires Get(es, DT_PLTREL) == Some(7)
    requires forall tag :: Get(Patches(p), tag).Some? ==> Get(es, tag) == Get(Patches(p), tag)
    ensures Linked(es, p)
  {
    PatchValue(p, 0);
    PatchValue(p, 1);
    PatchValue(p, 2);
    PatchValue(p, 3);
    PatchValue(p, 4);
    PatchValue(p, 5);
    PatchValue(p, 6);
    PatchValue(p, 7);
    PatchValue(p, 8);
  }

  // ------------------------------------------------------------------------ the file

  datatype Output = Output(file: seq<byte>, draft: Draft, bytes: Bytes, tables: Tables, relocs: seq<Reloc>,
                           entries: seq<DynEntry>, patched: Patched)

  /** The final bytes of the sections, with the final addresses in the relocations. */
  ghost predicate Filled(b: Bytes, t: Tables, d: Draft, es: seq<DynEntry>, relocs: seq<Reloc>, code: Code, c: Patched) {
    && DylibIndex.AllEncodable(t.dynsym) && |es| == d.dynCount
    && FinalBytes(b, t, d.plan, d.copySize, es, relocs, code, PlacesOf(d.laid), d.shstrtab, c)
    && relocs == FinalAll(d.plan, PlacesOf(d.laid), ValuesOf(t))
  }

  /** The sections were laid out with the sizes that their final bytes have, and the file
      holds it all. */
  ghost predicate Assembled(o: Output, base: nat, code: Code) {
    && Drafted(o.draft, o.tables, base)
    && Filled(o.bytes, o.tables, o.draft, o.entries, o.relocs, code, o.patched)
    && FileOf(o.file, o.draft.laid, o.bytes.Alloc())
  }

  /** The symbol table and `.dynamic` of the output are right, too. */
  ghost predicate Complete(o: Output, base: nat, code: Code) {
    && Names(o.tables) && |o.tables.dynstr| < 0x1_0000_0000
    && WellFormed(o.entries) && KnownTags(o.entries) && Linked(o.entries, PatchOf(o.draft.laid, o.draft.plan))
    && Assembled(o, base, code)
  }

  /** What is known once the layout is: everything but the final bytes. */
  datatype Draft = Draft(laid: seq<Section>, fileOff: nat, plan: Plan, copySize: nat, dynCount: nat,
                         shstrtab: seq<byte>)

  function DraftSizes(t: Tables, d: Draft): (s: seq<nat>)
    ensures |s| == 13
  {
    SizesBefore(t, d.plan, d.copySize, d.dynCount, d.shstrtab)
  }

  ghost predicate Drafted(d: Draft, t: Tables, base: nat) {
    && LaidFrom(d.laid, AllSections(DraftSizes(t, d)))
    && 64 + 56 * PhNum(d.laid) <= d.fileOff
    && DylibHeaders.Fits(d.laid, base, 64 + 56 * PhNum(d.laid), d.fileOff)
  }

  /** The plan puts every relocation of the input in its slot. */
  ghost predicate PlannedFrom(raw: seq<RelocEntry>, t: Tables, plan: Plan) {
    AllKnown(raw, SymsOf(t)) && ValidSyms(SymsOf(t)) && plan == PlanOf(raw, SymsOf(t), |Contents(t.symbols, Data)|)
  }

  lemma SameDescribed(t: Tables, plan: Plan, copySize: nat, m: nat, n: nat, shstrtab: seq<byte>)
    ensures Described(SizesBefore(t, plan, copySize, m, shstrtab)) ==
            Described(SizesBefore(t, plan, copySize, n, shstrtab))
  {
  }

  /** Where a file with sections of these sizes ends. */
  ghost function EndWith(sizes: seq<nat>, page: nat): nat
    requires |sizes| == 13 && page > 0
  {
    Aligns(sizes);
    FileEnd(AllSections(sizes), page)
  }

  lemma Aligns(sizes: seq<nat>)
    requires |sizes| == 13
    ensures forall i :: 0 <= i < |AllSections(sizes)| ==> AllSections(sizes)[i].addralign > 0
  {
    SectionsNumbered(sizes);
    forall i | 0 <= i < |AllSections(sizes)| ensures AllSections(sizes)[i].addralign > 0 {
      assert AllSections(sizes)[i] in AllSections(sizes);
    }
  }

  ghost function DynCount(t: Tables, plan: Plan, copySize: nat, shstrtab: seq<byte>): nat {
    |AllEntries(Described(SizesBefore(t, plan, copySize, 0, shstrtab)))| + 1
  }

  ghost function PlanSize(t: Tables, plan: Plan, copySize: nat, page: nat, shstrtab: seq<byte>): nat
    requires page > 0
  {
    EndWith(SizesBefore(t, plan, copySize, DynCount(t, plan, copySize, shstrtab), shstrtab), page)
  }

  /** The size of the file of these symbols and relocations. */
  ghost function FileSize(t: Tables, raw: seq<RelocEntry>, page: nat, shstrtab: seq<byte>): nat
    requires AllKnown(raw, SymsOf(t)) && ValidSyms(SymsOf(t)) && page > 0
  {
    var plan := PlanOf(raw, SymsOf(t), |Contents(t.symbols, Data)|);
    PlanSize(t, plan, CopySize(plan.copies), page, shstrtab)
  }

  method PlaceSections(sizes: seq<nat>, base: nat, page: nat) returns (laid: seq<Section>, fileOff: nat)
    requires |sizes| == 13 && page > 0 && page % 0x1000 == 0 && base % 0x1000 == 0
    ensures LaidFrom(laid, AllSections(sizes)) && 64 + 56 * PhNum(laid) <= fileOff
    ensures fileOff == EndWith(sizes, page)
    ensures base + fileOff <= LIMIT ==> DylibHeaders.Fits(laid, base, 64 + 56 * PhNum(laid), fileOff)
  {
    Aligns(sizes);
    laid, fileOff := PlanFile(AllSections(sizes), base, page);
  }

  /** Steps 1 to 5: sizes and places, from the number of entries of each table. */
  method DraftFile(t: Tables, raw: seq<RelocEntry>, base: nat, page: nat, shstrtab: seq<byte>)
    returns (d: Option<Draft>, unknown: bool, dw: DynamicWriter)
    requires Names(t) && page > 0 && page % 0x1000 == 0 && base % 0x1000 == 0
    ensures fresh(dw)
    ensures unknown <==> !AllKnown(raw, SymsOf(t))
    ensures ValidSyms(SymsOf(t)) && (d.Some? <==> !unknown && base + FileSize(t, raw, page, shstrtab) <= LIMIT)
    ensures d.Some? ==> Drafted(d.value, t, base) && PlannedFrom(raw, t, d.value.plan)
    ensures d.Some? ==> d.value.copySize == CopySize(d.value.plan.copies)
    ensures d.Some? ==> dw.entries == AllEntries(Described(DraftSizes(t, d.value))) + [DynEntry(DT_NULL, 0)]
    ensures d.Some? ==> |dw.entries| == d.value.dynCount
  {
    SymsValid(t);
    var plan, copySize := NewRelocs(raw, SymsOf(t), |Contents(t.symbols, Data)|);
    if plan.None? {
      dw := new DynamicWriter([]);
      return None, true, dw;
    }
    d, dw := DraftPlan(t, plan.value, copySize, base, page, shstrtab);
    unknown := false;
  }

  /** The places of all sections, once the relocations have theirs. */
  method DraftPlan(t: Tables, plan: Plan, copySize: nat, base: nat, page: nat, shstrtab: seq<byte>)
    returns (d: Option<Draft>, dw: DynamicWriter)
    requires page > 0 && page % 0x1000 == 0 && base % 0x1000 == 0
    ensures fresh(dw)
    ensures d.Some? <==> base + PlanSize(t, plan, copySize, page, shstrtab) <= LIMIT
    ensures d.Some? ==> Drafted(d.value, t, base) && d.value.plan == plan && d.value.copySize == copySize
    ensures d.Some? ==> dw.entries == AllEntries(Described(DraftSizes(t, d.value))) + [DynEntry(DT_NULL, 0)]
    ensures d.Some? ==> |dw.entries| == d.value.dynCount
  {
    var n;
    dw, n := NewDynamic(t, plan, copySize, shstrtab);
    var laid, fileOff := PlaceSections(SizesBefore(t, plan, copySize, n, shstrtab), base, page);
    d := None;
    if base + fileOff <= LIMIT {
      d := Some(Draft(laid, fileOff, plan, copySize, n, shstrtab));
    }
  }

  /** `.dynamic` before its values are known: only its length counts. */
  method NewDynamic(t: Tables, plan: Plan, copySize: nat, shstrtab: seq<byte>) returns (dw: DynamicWriter, n: nat)
    ensures fresh(dw) && n == |dw.entries| == DynCount(t, plan, copySize, shstrtab)
    ensures dw.entries == AllEntries(Described(SizesBefore(t, plan, copySize, n, shstrtab))) + [DynEntry(DT_NULL, 0)]
  {
    dw := new DynamicWriter(Described(SizesBefore(t, plan, copySize, 0, shstrtab)));
    n := |dw.entries|;
    SameDescribed(t, plan, copySize, 0, n, shstrtab);
  }

  /** The code sections with their final addresses, unless a patch panics. */
  method PatchSections(t: Tables, m: Marks, code: Code, p: Places)
    returns (ok: bool, text: seq<byte>, plt: seq<byte>, c: Patched)
    requires Lookups(t, m)
    ensures ok <==> Patchable(t, m, code, p)
    ensures ok ==> CodeBytes(text, plt, t, c, code, p) && c.marks == m
  {
    var text0 := GetContent(t.symbols, Text);
    var plt0 := GetContent(t.symbols, Plt);
    var x := new byte[|text0|](i requires 0 <= i < |text0| => text0[i]);
    var y := new byte[|plt0|](i requires 0 <= i < |plt0| => plt0[i]);
    assert x[..] == text0 && y[..] == plt0;
    var order;
    ok, order := PatchCode(x, t.dynsym, m, ResolverOf(t), p.text, TargetOf(code, p));
    text, plt, c := [], [], Patched(m, order);
    if ok {
      ok := PatchPlt(y, t.dynsym, m, p.plt, p.gotPlt);
      text, plt := x[..], y[..];
    }
  }

  /** The final bytes of all sections but the code. */
  method AssembleBytes(t: Tables, d: Draft, es: seq<DynEntry>, text: seq<byte>, plt: seq<byte>, ghost code: Code,
                       ghost c: Patched) returns (b: Bytes, relocs: seq<Reloc>)
    requires |t.dynsym| >= 1 && CodeBytes(text, plt, t, c, code, PlacesOf(d.laid))
    ensures relocs == FinalAll(d.plan, PlacesOf(d.laid), ValuesOf(t))
    ensures FinalBytes(b, t, d.plan, d.copySize, es, relocs, code, PlacesOf(d.laid), d.shstrtab, c)
  {
    var p := PlacesOf(d.laid);
    var got, gotPlt, relDyn, relPlt;
    got, gotPlt, relocs, relDyn, relPlt := FinishRelocs(d.plan, p, ValuesOf(t));
    var hash := CreateHashtable(|t.dynsym|);
    var data := GetContent(t.symbols, Data);
    var tls := GetContent(t.symbols, Tls);
    b := Bytes(Flatten(SymRows(t.dynsym)), t.dynstr, hash, relDyn, relPlt, got, gotPlt, data + Zeros(d.copySize),
               text, plt, tls, Flatten(DynRows(es)), d.shstrtab);
  }

  /** The final bytes match the sizes of the draft. */
  lemma DraftKept(b: Bytes, t: Tables, d: Draft, es: seq<DynEntry>, relocs: seq<Reloc>, code: Code, base: nat,
                  c: Patched)
    requires Drafted(d, t, base) && DylibIndex.AllEncodable(t.dynsym) && |es| == d.dynCount
    requires FinalBytes(b, t, d.plan, d.copySize, es, relocs, code, PlacesOf(d.laid), d.shstrtab, c)
    ensures SizesMatch(d.laid, b.Alloc())
  {
    LengthsConserved(b, t, d.plan, d.copySize, es, relocs, code, PlacesOf(d.laid), d.shstrtab, c);
    SizesKept(d.laid, DraftSizes(t, d), b.Alloc());
  }

  method CheckedBytes(t: Tables, d: Draft, es: seq<DynEntry>, m: Marks, code: Code, ghost base: nat)
    returns (ok: bool, b: Bytes, relocs: seq<Reloc>, c: Patched)
    requires |t.dynsym| >= 1 && Drafted(d, t, base) && DylibIndex.AllEncodable(t.dynsym)
    requires |es| == d.dynCount && Lookups(t, m)
    ensures ok <==> Patchable(t, m, code, PlacesOf(d.laid))
    ensures ok ==> c.marks == m && Filled(b, t, d, es, relocs, code, c) && SizesMatch(d.laid, b.Alloc())
  {
    var text, plt;
    ok, text, plt, c := PatchSections(t, m, code, PlacesOf(d.laid));
    b, relocs := Bytes([], [], [], [], [], [], [], [], [], [], [], [], []), [];
    if ok {
      b, relocs := AssembleBytes(t, d, es, text, plt, code, c);
      DraftKept(b, t, d, es, relocs, code, base, c);
    }
  }

  method EmitDraft(d: Draft, b: Bytes, ghost t: Tables, ghost base: nat, page: nat, shdrs: seq<Section> -> seq<byte>)
    returns (file: seq<byte>)
    requires Drafted(d, t, base) && SizesMatch(d.laid, b.Alloc())
    ensures FileOf(file, d.laid, b.Alloc())
  {
    var numbers := ShdrMap(d.laid);
    file := EmitFile(d.laid, b.Alloc(), shdrs(d.laid), if ShStrTab in numbers then numbers[ShStrTab] else 0,
                     base, page, d.fileOff);
  }

  /** Steps 6 and 7: final values everywhere, then the file. */
  method FinishFile(t: Tables, d: Draft, es: seq<DynEntry>, m: Marks, ghost base: nat, page: nat, code: Code,
                    shdrs: seq<Section> -> seq<byte>) returns (o: Option<Output>)
    requires |t.dynsym| >= 1 && DylibIndex.AllEncodable(t.dynsym) && Lookups(t, m)
    requires Drafted(d, t, base) && |es| == d.dynCount
    ensures o.Some? <==> Patchable(t, m, code, PlacesOf(d.laid))
    ensures o.Some? ==> Assembled(o.value, base, code) && o.value.tables == t && o.value.draft == d
    ensures o.Some? ==> o.value.entries == es && o.value.patched.marks == m
  {
    var ok, b, relocs, c := CheckedBytes(t, d, es, m, code, base);
    o := None;
    if ok {
      var file := EmitDraft(d, b, t, base, page, shdrs);
      o := Some(Output(file, d, b, t, relocs, es, c));
    }
  }

  lemma DraftMoved(t: Tables, d: Draft, base: nat, p: SymPlaces)
    requires Good(t) && Drafted(d, t, base)
    ensures Drafted(d, t.(dynsym := Moved(t, p)), base)
  {
    assert DraftSizes(t.(dynsym := Moved(t, p)), d) == DraftSizes(t, d);
  }

  /** The symbol table with the final addresses of a layout. */
  function Finished(t: Tables, laid: seq<Section>): Tables
    requires |t.dynsym| == |t.symbols| + 1 && |t.kinds| == |t.dynsym|
  {
    t.(dynsym := Moved(t, SymPlacesOf(laid)))
  }

  /** The symbols and `.dynamic` of a draft, with their final values. */
  ghost predicate PartsDone(t: Tables, es: seq<DynEntry>, d: Draft, base: nat) {
    && Names(t) && |t.dynstr| < 0x1_0000_0000 && DylibIndex.AllEncodable(t.dynsym) && Drafted(d, t, base)
    && |es| == d.dynCount && WellFormed(es) && KnownTags(es) && Linked(es, PatchOf(d.laid, d.plan))
  }

  /** Final values for the symbols and `.dynamic` of a draft. */
  method FinishParts(w: SymTabWriter, dw: DynamicWriter, d: Draft, ghost before: Tables, ghost base: nat)
    returns (t: Tables, es: seq<DynEntry>)
    requires w.View() == before && Good(before) && |before.dynstr| < 0x1_0000_0000 && Drafted(d, before, base)
    requires dw.entries == AllEntries(Described(DraftSizes(before, d))) + [DynEntry(DT_NULL, 0)]
    requires |dw.entries| == d.dynCount
    modifies w, dw
    ensures t == Finished(before, d.laid) && PartsDone(t, es, d, base)
  {
    DraftMoved(before, d, base, SymPlacesOf(d.laid));
    MovedTables(before, SymPlacesOf(d.laid));
    t := FinishSymbols(w, SymPlacesOf(d.laid));
    es := FinishDynamic(dw, DraftSizes(before, d), d.laid, d.plan);
  }

  lemma LookupsMoved(t: Tables, laid: seq<Section>, m: Marks)
    requires Names(t) && Lookups(t, m)
    ensures Lookups(Finished(t, laid), m)
  {
  }

  method FinishDraft(w: SymTabWriter, dw: DynamicWriter, d: Draft, m: Marks, ghost before: Tables, ghost base: nat,
                     page: nat, code: Code, shdrs: seq<Section> -> seq<byte>) returns (o: Option<Output>)
    requires w.View() == before && Good(before) && |before.dynstr| < 0x1_0000_0000 && Drafted(d, before, base)
    requires Lookups(before, m) && Lookups(Finished(before, d.laid), m)
    requires dw.entries == AllEntries(Described(DraftSizes(before, d))) + [DynEntry(DT_NULL, 0)]
    requires |dw.entries| == d.dynCount
    modifies w, dw
    ensures o.Some? <==> Patchable(Finished(before, d.laid), m, code, PlacesOf(d.laid))
    ensures o.Some? ==> Complete(o.value, base, code) && o.value.draft == d && o.value.patched.marks == m
    ensures o.Some? ==> o.value.tables == Finished(before, d.laid)
  {
    var t, es := FinishParts(w, dw, d, before, base);
    o := FinishFile(t, d, es, m, base, page, code, shdrs);
  }

  /** The final symbol table is a good one, moved to its final addresses. */
  ghost predicate MovedFrom(o: Output, before: Tables) {
    Good(before) && o.tables == Finished(before, o.draft.laid)
  }

  datatype WriteResult = Wrote(o: Output) | UnknownSymbol | TooBig | Panicked

  /** What the result of the writer is, once the symbols are known and the layout `d` is
      made: a complete file, or a panic if a patch leaves its section. */
  ghost predicate EndsWith(r: WriteResult, before: Tables, m: Marks, d: Draft, raw: seq<RelocEntry>, base: nat,
                           code: Code) {
    && Good(before) && Drafted(d, before, base) && Lookups(Finished(before, d.laid), m)
    && (if Patchable(Finished(before, d.laid), m, code, PlacesOf(d.laid))
        then r.Wrote? && r.o.draft == d && r.o.patched.marks == m && MovedFrom(r.o, before) && Complete(r.o, base, code)
             && PlannedFrom(raw, r.o.tables, r.o.draft.plan) && r.o.draft.copySize == CopySize(r.o.draft.plan.copies)
        else r.Panicked?)
  }

  /** Everything after the symbols are known. */
  method WriteTables(w: SymTabWriter, raw: seq<RelocEntry>, base: nat, page: nat, code: Code, shstrtab: seq<byte>,
                     shdrs: seq<Section> -> seq<byte>) returns (r: WriteResult, ghost d: Draft)
    requires Good(w.View()) && |w.dynstr| < 0x1_0000_0000 && Lookups(w.View(), w.marks)
    requires page > 0 && page % 0x1000 == 0 && base % 0x1000 == 0
    modifies w
    ensures ValidSyms(SymsOf(old(w.View())))
    ensures r.UnknownSymbol? <==> !AllKnown(raw, SymsOf(old(w.View())))
    ensures r.TooBig? <==> !r.UnknownSymbol? && base + FileSize(old(w.View()), raw, page, shstrtab) > LIMIT
    ensures !r.UnknownSymbol? && !r.TooBig? ==> EndsWith(r, old(w.View()), old(w.marks), d, raw, base, code)
  {
    var draft, unknown, dw := DraftFile(w.View(), raw, base, page, shstrtab);
    d := NoDraft();
    if draft.None? {
      return if unknown then UnknownSymbol else TooBig, d;
    }
    d := draft.value;
    MovedSyms(w.View(), SymPlacesOf(d.laid));
    LookupsMoved(w.View(), d.laid, w.marks);
    var o := FinishDraft(w, dw, draft.value, w.marks, w.View(), base, page, code, shdrs);
    r := if o.Some? then Wrote(o.value) else Panicked;
  }

  ghost function NoDraft(): Draft {
    Draft([], 0, Plan([], [], [], [], []), 0, 0, [])
  }

  /** A relocation names a symbol that nobody described. */
  ghost predicate NamesUnknown(raw: seq<RelocEntry>, all: seq<SymbolDesc>) {
    exists i :: 0 <= i < |raw| && Class(raw[i]) in {1, 2, 4} && raw[i].name != [] && !Listed(all, raw[i].name)
  }

  lemma UnknownIff(t: Tables, raw: seq<RelocEntry>, all: seq<SymbolDesc>)
    requires Names(t) && t.symbols == Dedup(all)
    ensures !AllKnown(raw, SymsOf(t)) <==> NamesUnknown(raw, all)
  {
    forall i | 0 <= i < |raw| ensures raw[i].name in t.index <==> raw[i].name == [] || Listed(all, raw[i].name) {
      KnownIff(t, raw[i].name);
      if raw[i].name != [] {
        DedupListed(all, raw[i].name);
      }
    }
  }

  lemma DedupListed(all: seq<SymbolDesc>, n: DylibSymbols.Name)
    requires n != []
    ensures Listed(Dedup(all), n) <==> Listed(all, n)
  {
    DedupNames(all);
  }

  /** The names have no room in a string table with 32-bit offsets. */
  predicate NamesOutgrown(descs: seq<SymbolDesc>, raw: seq<RelocEntry>, code: Code) {
    StrSize(AllNames(descs, raw, code)) >= 0x1_0000_0000
  }

  /** A relocation names a symbol that is neither described nor added. */
  predicate Unnamed(descs: seq<SymbolDesc>, raw: seq<RelocEntry>, code: Code) {
    exists i :: 0 <= i < |raw| && Class(raw[i]) in {1, 2, 4} && raw[i].name != [] &&
                raw[i].name !in AllNames(descs, raw, code)
  }

  lemma UnnamedIff(descs: seq<SymbolDesc>, raw: seq<RelocEntry>, code: Code, added: seq<SymbolDesc>)
    requires DescNames(added) == PltNames(NamesOf(OfClass(raw, 4)))
    ensures Unnamed(descs, raw, code) <==> NamesUnknown(raw, [ResolverDesc(code.resolver)] + descs + added)
  {
    var all := [ResolverDesc(code.resolver)] + descs + added;
    DescNamesJoin([ResolverDesc(code.resolver)] + descs, added);
    forall n: DylibSymbols.Name ensures n in AllNames(descs, raw, code) <==> Listed(all, n) {
      InNames(all, n);
    }
  }

  lemma InNames(descs: seq<SymbolDesc>, n: DylibSymbols.Name)
    ensures n in DescNames(descs) <==> Listed(descs, n)
  {
  }

  /** `DylibWriter::write`. It fails exactly when the names outgrow the string table, when a
      relocation names a symbol that nobody described, when the file outgrows the address
      space, or when a patch leaves its section; otherwise the file is complete. */
  method WriteDylib(descs: seq<SymbolDesc>, raw: seq<RelocEntry>, base: nat, page: nat, code: Code, shstrtab: seq<byte>,
                    shdrs: seq<Section> -> seq<byte>)
    returns (r: WriteResult, ghost added: seq<SymbolDesc>, ghost before: Tables, ghost m: Marks, ghost d: Draft)
    requires ValidCode(code) && forall i :: 0 <= i < |descs| ==> Supported(descs[i])
    requires page > 0 && page % 0x1000 == 0 && base % 0x1000 == 0
    ensures r.UnknownSymbol? <==> !NamesOutgrown(descs, raw, code) && Unnamed(descs, raw, code)
    ensures NamesOutgrown(descs, raw, code) ==> r.TooBig?
    ensures !NamesOutgrown(descs, raw, code) ==> SymbolsFrom(before, m, descs, raw, code, added)
    ensures !NamesOutgrown(descs, raw, code) && !Unnamed(descs, raw, code) ==>
              && AllKnown(raw, SymsOf(before)) && ValidSyms(SymsOf(before))
              && (r.TooBig? <==> base + FileSize(before, raw, page, shstrtab) > LIMIT)
              && (!r.TooBig? ==> EndsWith(r, before, m, d, raw, base, code))
  {
    var ok, w;
    ok, w, added := BuildSymbols(descs, raw, code);
    before, m, d := w.View(), w.marks, NoDraft();
    if !ok {
      return TooBig, added, before, m, d;
    }
    UnknownIff(before, raw, [ResolverDesc(code.resolver)] + descs + added);
    UnnamedIff(descs, raw, code, added);
    LookupsKnown(before, m, descs, raw, code, added);
    r, d := WriteTables(w, raw, base, page, code, shstrtab, shdrs);
  }

  /** The symbol table of these descriptions and relocations, and what is marked in it. */
  ghost predicate SymbolsFrom(t: Tables, m: Marks, descs: seq<SymbolDesc>, raw: seq<RelocEntry>, code: Code,
                              added: seq<SymbolDesc>)
  {
    && Good(t) && t.symbols == Dedup([ResolverDesc(code.resolver)] + descs + added)
    && PltAdded(added, NamesOf(OfClass(raw, 4)), code.plt0, code.entry, code.helper)
    && DescNames(added) == PltNames(NamesOf(OfClass(raw, 4)))
    && MarkedFor(m, t, descs, raw, code)
  }

  /** Moving the symbols changes no index and no size. */
  lemma MovedSyms(t: Tables, p: SymPlaces)
    requires Good(t)
    ensures SymsOf(t.(dynsym := Moved(t, p))) == SymsOf(t)
  {
    assert SizesOf(Moved(t, p)) == SizesOf(t.dynsym);
  }
}
