/** The code of a written library: when its patches stay in their sections, when they panic,
    and where its stubs jump (tools/gen-elf/src/dylib/symtab.rs, tools/gen-elf/src/arch/x86_64.rs).

    The writer finds what it patches by name, so a caller that describes `PLT0`, a stub or a
    helper decides what is patched. */
module DylibPlt {
  import opened Words
  import opened DylibLayout
  import opened DylibHeaders
  import opened DylibSymbols
  import opened DylibIndex
  import opened DylibCode
  import opened DylibRelocs
  import opened DylibSections
  import opened DylibStubs
  import opened DylibWriter
  import opened DylibRoundTrip
  import opened DylibOutput

  // ---------------------------------------------------------------- one symbol's patch

  predicate IsText(d: SymbolDesc) {
    Has(d, Text)
  }

  /** A code section: its kind has a number, and it ends below the top of the address space. */
  predicate CodePlaced(p: SymPlaces, symbols: seq<SymbolDesc>, k: SectionKind) {
    && k in p.shndx && 0x40 <= p.BaseOf(k)
    && p.BaseOf(k) + |Contents(symbols, k)| <= 0xffff_ffff_ffff_e000
  }

  /** A symbol's code, before and after the layout is known. */
  lemma CodeMoved(t: Tables, p: SymPlaces, k: SectionKind, i: nat)
    requires Good(t) && i < |t.symbols| && k in p.shndx && Has(t.symbols[i], k)
    ensures t.dynsym[i + 1].value == Wrap64(|Contents(t.symbols[..i], k)|)
    ensures Moved(t, p)[i + 1].value == Wrap64(t.dynsym[i + 1].value + p.BaseOf(k))
  {
    assert ValueOk(t, i) && t.kinds[i + 1] == KindOf(t.symbols[i]);
  }

  predicate Has(d: SymbolDesc, k: SectionKind) {
    d.content.Some? && d.content.value.kind == k
  }

  /** A symbol with code in the section is found at its own bytes. */
  lemma OffsetOf(t: Tables, p: SymPlaces, k: SectionKind, i: nat)
    requires Good(t) && i < |t.symbols| && k in {Text, Plt} && CodePlaced(p, t.symbols, k) && Has(t.symbols[i], k)
    ensures var off, v := |Contents(t.symbols[..i], k)|, Moved(t, p)[i + 1].value;
            && v == p.BaseOf(k) + off && Wrap64(v - p.BaseOf(k)) == off
            && off + |t.symbols[i].content.value.data| <= |Contents(t.symbols, k)|
  {
    CodeMoved(t, p, k, i);
    ContentPiece(t.symbols, i);
    SmallSum(|Contents(t.symbols[..i], k)|, p.BaseOf(k));
  }

  lemma SmallSum(off: nat, a: nat)
    requires off + a < 0x1_0000_0000_0000_0000
    ensures Wrap64(off) == off && Wrap64(off + a) == off + a && Wrap64(off + a - a) == off
  {
    WrapSmall(off);
    WrapSmall(off + a);
  }

  /** A patch within a symbol's own code stays in the section. */
  lemma OwnCut(t: Tables, p: SymPlaces, k: SectionKind, i: nat, lo: nat, n: nat, value: int)
    requires Good(t) && i < |t.symbols| && k in {Text, Plt} && CodePlaced(p, t.symbols, k)
    requires Has(t.symbols[i], k)
    requires lo + n <= |t.symbols[i].content.value.data| && n < 0x1_0000
    ensures CutOk(Cut(Wrap64(Moved(t, p)[i + 1].value - p.BaseOf(k)), lo, n, value), |Contents(t.symbols, k)|)
  {
    OffsetOf(t, p, k, i);
    CutAtOffset(Cut(|Contents(t.symbols[..i], k)|, lo, n, value), |Contents(t.symbols, k)|);
  }

  /** A patch of an undefined symbol leaves the section: its offset is the negative of the
      section's address. */
  lemma UndefinedCut(t: Tables, p: SymPlaces, k: SectionKind, i: nat, lo: nat, n: nat, value: int)
    requires Good(t) && i < |t.symbols| && k in {Text, Plt} && CodePlaced(p, t.symbols, k)
    requires t.symbols[i].content.None? && lo + n <= 16
    ensures !CutOk(Cut(Wrap64(Moved(t, p)[i + 1].value - p.BaseOf(k)), lo, n, value), |Contents(t.symbols, k)|)
  {
    assert ValueOk(t, i);
    var a := p.BaseOf(k);
    assert Moved(t, p)[i + 1].value == 0;
    NegativeWraps(a);
    WrapSmall(0x1_0000_0000_0000_0000 - a + lo);
  }

  lemma NegativeWraps(a: nat)
    requires 0 < a < 0x1_0000_0000_0000_0000
    ensures Wrap64(0 - a) == 0x1_0000_0000_0000_0000 - a
  {
    WrapCancels(0x1_0000_0000_0000_0000 - a, -0x1_0000_0000_0000_0000);
    WrapSmall(0x1_0000_0000_0000_0000 - a);
  }

  // -------------------------------------------------------------- the layout's addresses

  lemma TextIn(sizes: seq<nat>)
    requires |sizes| == 13
    ensures Fresh(Text, 16, TEXT, sizes) in AllSections(sizes)
  {
    assert AllSections(sizes)[0] == Fresh(Text, 16, TEXT, sizes);
  }

  /** An allocated section lies behind the headers. */
  lemma KindStarts(d: Draft, t: Tables, base: nat, k: SectionKind, align: nat, data: nat)
    requires Drafted(d, t, base) && data < 13 && Group(k) < 3
    requires Fresh(k, align, data, DraftSizes(t, d)) in AllSections(DraftSizes(t, d))
    ensures 0x40 <= AddrOf(d.laid, k)
  {
    KindPlaced(d.laid, DraftSizes(t, d), Fresh(k, align, data, DraftSizes(t, d)));
    var l := FindKind(d.laid, k).value;
    var i :| 0 <= i < |d.laid| && d.laid[i] == l;
    assert Placed(d.laid[i], base, 64 + 56 * PhNum(d.laid), d.fileOff);
  }

  lemma TextPlaced(d: Draft, t: Tables, base: nat)
    requires Drafted(d, t, base)
    ensures CodePlaced(SymPlacesOf(d.laid), t.symbols, Text)
  {
    TextIn(DraftSizes(t, d));
    KindEnds(d, t, base, Text, 16, TEXT);
    KindStarts(d, t, base, Text, 16, TEXT);
  }

  lemma PltPlaced(d: Draft, t: Tables, base: nat)
    requires Drafted(d, t, base)
    ensures CodePlaced(SymPlacesOf(d.laid), t.symbols, Plt)
  {
    RelocSections(DraftSizes(t, d));
    KindEnds(d, t, base, Plt, 16, PLT);
    KindStarts(d, t, base, Plt, 16, PLT);
  }

  // --------------------------------------------------------------- what is patched

  /** The caller's part of the symbol list. */
  function Front(descs: seq<SymbolDesc>, code: Code): seq<SymbolDesc> {
    [ResolverDesc(code.resolver)] + descs
  }

  /** Symbol `i` of the table, with a name that the list has. */
  lemma SymbolNamed(t: Tables, all: seq<SymbolDesc>, n: Name)
    requires Names(t) && t.symbols == Dedup(all) && n in t.index && n != []
    ensures var i := t.index[n] - 1; 0 <= i < |t.symbols| && t.symbols[i].name == n && t.symbols[i] in all
  {
    DedupNames(all);
  }

  /** What the list has under the name of a stub or a helper that the caller did not describe. */
  lemma AddedNamed(front: seq<SymbolDesc>, added: seq<SymbolDesc>, names: seq<Name>, code: Code, j: nat, d: SymbolDesc)
    requires PltAdded(added, names, code.plt0, code.entry, code.helper) && ValidCode(code) && j < |names|
    requires d in front + added
    ensures d.name == StubName(names, j) && !Listed(front, d.name) ==> IsPlt(d) && |d.content.value.data| == 16
    ensures d.name == names[j] + HelperSuffix() && !Listed(front, d.name) ==> IsText(d) && |d.content.value.data| == 8
  {
    var all := front + added;
    var k :| 0 <= k < |all| && all[k] == d;
    if k < |front| {
      assert front[k] == d;
    } else {
      AddedIs(added, names, code, j, k - |front|);
    }
  }

  lemma AddedIs(added: seq<SymbolDesc>, names: seq<Name>, code: Code, j: nat, k: nat)
    requires PltAdded(added, names, code.plt0, code.entry, code.helper) && ValidCode(code) && j < |names| && k < |added|
    ensures added[k].name == StubName(names, j) ==> IsPlt(added[k]) && |added[k].content.value.data| == 16
    ensures added[k].name == names[j] + HelperSuffix() ==> IsText(added[k]) && |added[k].content.value.data| == 8
  {
    SuffixesApart(names[j], names[j]);
    if k > 0 {
      var i := (k - 1) / 2;
      assert IsStub(added[1 + 2 * i], names[i], i, code.entry);
      SuffixesApart(names[j], names[i]);
      SuffixesApart(names[i], names[j]);
    }
  }

  /** The first entry that is remembered: `PLT0` if it is new, else the caller's last symbol. */
  lemma FirstMarked(t: Tables, front: seq<SymbolDesc>, added: seq<SymbolDesc>, d: SymbolDesc)
    requires t.symbols == Dedup(front + added) && added != [] && added[0] == d && d.name != []
    ensures var k := |Dedup(front + [d])|;
            && k <= |t.symbols| && t.symbols[..k] == Dedup(front + [d])
            && Dedup(front + [d]) == if Listed(front, d.name) then Dedup(front) else Dedup(front) + [d]
  {
    var all, n := front + added, |front|;
    assert all[..n + 1] == front + [d];
    DedupPrefix(all, n + 1);
    assert (front + [d])[..n] == front;
    DedupNames(front);
    if Listed(Dedup(front), d.name) {
      var i :| 0 <= i < |Dedup(front)| && Dedup(front)[i].name == d.name;
      assert Dedup(front)[i] in front;
    }
  }

  lemma FirstNew(t: Tables, front: seq<SymbolDesc>, added: seq<SymbolDesc>, d: SymbolDesc)
    requires t.symbols == Dedup(front + added) && added != [] && added[0] == d && d.name != [] && !Listed(front, d.name)
    ensures var k := |Dedup(front + [d])|; 1 <= k <= |t.symbols| && t.symbols[k - 1] == d
  {
    FirstMarked(t, front, added, d);
    var known := Dedup(front + [d]);
    assert t.symbols[..|known|][|known| - 1] == known[|known| - 1];
  }

  // --------------------------------------------------------------- no panic

  /** Nobody described what the PLT adds. */
  predicate NoneDescribed(front: seq<SymbolDesc>, names: seq<Name>) {
    && !Listed(front, Plt0Name())
    && forall j :: 0 <= j < |names| ==> !Listed(front, StubName(names, j)) && !Listed(front, names[j] + HelperSuffix())
  }

  /** The marked symbols are what they should be: stubs of 16 bytes, helpers of 8, the first
      entry and the resolver. */
  ghost predicate MarksGood(t: Tables, m: Marks) {
    && (m.plt0.Some? ==> 1 <= m.plt0.value <= |t.symbols| && HasBytes(t.symbols[m.plt0.value - 1], Plt, 16))
    && (forall j :: 0 <= j < |m.entries| ==>
          1 <= m.entries[j].0 <= |t.symbols| && HasBytes(t.symbols[m.entries[j].0 - 1], Plt, 16))
    && (forall k :: k in m.helpers ==>
          1 <= m.helpers[k] <= |t.symbols| && HasBytes(t.symbols[m.helpers[k] - 1], Text, 8))
    && (ResolverOf(t).Some? ==>
          1 <= ResolverOf(t).value <= |t.symbols| && HasBytes(t.symbols[ResolverOf(t).value - 1], Text, 16))
  }

  predicate HasBytes(d: SymbolDesc, k: SectionKind, n: nat) {
    Has(d, k) && |d.content.value.data| == n
  }

  /** The symbol with this name is code of the kind, of `n` bytes. */
  predicate NamedCode(t: Tables, name: Name, k: SectionKind, n: nat) {
    && name in t.index && 1 <= t.index[name] <= |t.symbols| && HasBytes(t.symbols[t.index[name] - 1], k, n)
  }

  lemma AddedCode(t: Tables, front: seq<SymbolDesc>, added: seq<SymbolDesc>, names: seq<Name>, code: Code, j: nat,
                  name: Name)
    requires Names(t) && t.symbols == Dedup(front + added) && ValidCode(code) && name in t.index
    requires PltAdded(added, names, code.plt0, code.entry, code.helper) && j < |names| && !Listed(front, name)
    ensures name == StubName(names, j) ==> NamedCode(t, name, Plt, 16)
    ensures name == names[j] + HelperSuffix() ==> NamedCode(t, name, Text, 8)
  {
    if name != [] {
      SymbolNamed(t, front + added, name);
      AddedNamed(front, added, names, code, j, t.symbols[t.index[name] - 1]);
    } else {
      assert |StubName(names, j)| >= 4 && |names[j] + HelperSuffix()| >= 7;
    }
  }

  /** A marked symbol is code. */
  lemma StubsMarked(t: Tables, m: Marks, names: seq<Name>)
    requires MarksFor(m, t.index, names) && forall j :: 0 <= j < |names| ==> NamedCode(t, StubName(names, j), Plt, 16)
    ensures forall j :: 0 <= j < |m.entries| ==>
              1 <= m.entries[j].0 <= |t.symbols| && HasBytes(t.symbols[m.entries[j].0 - 1], Plt, 16)
  {
    forall j | 0 <= j < |m.entries|
      ensures 1 <= m.entries[j].0 <= |t.symbols| && HasBytes(t.symbols[m.entries[j].0 - 1], Plt, 16)
    {
      assert Marked(m, t.index, names, j) && NamedCode(t, StubName(names, j), Plt, 16);
    }
  }

  function HelperName(names: seq<Name>, j: nat): Name
    requires j < |names|
  {
    names[j] + HelperSuffix()
  }

  lemma HelpersMarked(t: Tables, m: Marks, names: seq<Name>)
    requires MarksFor(m, t.index, names) && forall j :: 0 <= j < |names| ==> NamedCode(t, HelperName(names, j), Text, 8)
    ensures forall k :: k in m.helpers ==>
              1 <= m.helpers[k] <= |t.symbols| && HasBytes(t.symbols[m.helpers[k] - 1], Text, 8)
  {
    forall k | k in m.helpers
      ensures 1 <= m.helpers[k] <= |t.symbols| && HasBytes(t.symbols[m.helpers[k] - 1], Text, 8)
    {
      assert IsEntry(m, k);
      var j :| 0 <= j < |names| && m.entries[j].0 == k;
      assert Marked(m, t.index, names, j) && NamedCode(t, HelperName(names, j), Text, 8);
    }
  }

  lemma NamesAreCode(t: Tables, m: Marks, front: seq<SymbolDesc>, added: seq<SymbolDesc>, names: seq<Name>, code: Code)
    requires Names(t) && t.symbols == Dedup(front + added) && MarksFor(m, t.index, names) && ValidCode(code)
    requires PltAdded(added, names, code.plt0, code.entry, code.helper) && NoneDescribed(front, names)
    ensures forall j :: 0 <= j < |names| ==> NamedCode(t, StubName(names, j), Plt, 16)
    ensures forall j :: 0 <= j < |names| ==> NamedCode(t, HelperName(names, j), Text, 8)
  {
    forall j | 0 <= j < |names|
      ensures NamedCode(t, StubName(names, j), Plt, 16) && NamedCode(t, HelperName(names, j), Text, 8)
    {
      assert Marked(m, t.index, names, j);
      AddedCode(t, front, added, names, code, j, StubName(names, j));
      AddedCode(t, front, added, names, code, j, HelperName(names, j));
    }
  }

  lemma ResolverMarked(t: Tables, code: Code, descs: seq<SymbolDesc>, added: seq<SymbolDesc>)
    requires Names(t) && t.symbols == Dedup(Front(descs, code) + added) && ValidCode(code)
    ensures ResolverOf(t) == Some(1) && |t.symbols| >= 1 && HasBytes(t.symbols[0], Text, 16)
  {
    var all := Front(descs, code) + added;
    assert all[0].name == ResolverName() && all[..0] == [];
    FirstIsSymbol(t, all, 0);
  }

  lemma NewMarksGood(t: Tables, m: Marks, descs: seq<SymbolDesc>, raw: seq<RelocEntry>, code: Code,
                     added: seq<SymbolDesc>)
    requires SymbolsFrom(t, m, descs, raw, code, added) && ValidCode(code)
    requires NoneDescribed(Front(descs, code), NamesOf(OfClass(raw, 4)))
    ensures MarksGood(t, m)
  {
    var names, front := NamesOf(OfClass(raw, 4)), Front(descs, code);
    ResolverMarked(t, code, descs, added);
    FirstNew(t, front, added, PltDesc(Plt0Name(), code.plt0));
    NamesAreCode(t, m, front, added, names, code);
    StubsMarked(t, m, names);
    HelpersMarked(t, m, names);
  }

  lemma AllOkJoin(a: seq<Cut>, b: seq<Cut>, len: nat)
    ensures AllOk(a + b, len) <==> AllOk(a, len) && AllOk(b, len)
  {
    if AllOk(a + b, len) {
      forall i | 0 <= i < |a| ensures CutOk(a[i], len) {
        assert (a + b)[i] == a[i];
      }
      forall i | 0 <= i < |b| ensures CutOk(b[i], len) {
        assert (a + b)[|a| + i] == b[i];
      }
    }
  }

  lemma FirstCutsOk(t: Tables, p: SymPlaces, i: nat, gotPlt: nat)
    requires Good(t) && CodePlaced(p, t.symbols, Plt) && i < |t.symbols| && HasBytes(t.symbols[i], Plt, 16)
    ensures AllOk(Plt0Cuts(Moved(t, p)[i + 1].value, p.plt, gotPlt), |Contents(t.symbols, Plt)|)
  {
    var v: int := Moved(t, p)[i + 1].value;
    OwnCut(t, p, Plt, i, 2, 4, gotPlt + 8 - (v + 6));
    OwnCut(t, p, Plt, i, 8, 4, gotPlt + 16 - (v + 12));
  }

  lemma PltCutsOk(t: Tables, p: SymPlaces, m: Marks, gotPlt: nat)
    requires Good(t) && CodePlaced(p, t.symbols, Plt) && MarksGood(t, m) && Indexed(m, |t.dynsym|)
    ensures AllOk(PltCuts(Moved(t, p), m, p.plt, gotPlt), |Contents(t.symbols, Plt)|)
  {
    var es, len := Moved(t, p), |Contents(t.symbols, Plt)|;
    var first := FirstList(es, m, p.plt, gotPlt);
    var rest := EntryList(es, m, p.plt, gotPlt);
    if m.plt0.Some? {
      FirstCutsOk(t, p, m.plt0.value - 1, gotPlt);
    }
    forall j | 0 <= j < |rest| ensures CutOk(rest[j], len) {
      OwnCut(t, p, Plt, m.entries[j].0 - 1, 2, 4, rest[j].value);
    }
    AllOkJoin(first, rest, len);
  }

  lemma HelperCutsOk(t: Tables, p: SymPlaces, i: nat, stub: u64)
    requires Good(t) && CodePlaced(p, t.symbols, Text) && i < |t.symbols| && HasBytes(t.symbols[i], Text, 8)
    ensures AllOk(HelperCuts(Moved(t, p)[i + 1].value, p.text, stub), |Contents(t.symbols, Text)|)
  {
    OwnCut(t, p, Text, i, 0, 1, 0xe9);
    OwnCut(t, p, Text, i, 1, 4, stub - (Moved(t, p)[i + 1].value + 5));
  }

  lemma ResolverCutOk(t: Tables, p: SymPlaces, i: nat, target: u64)
    requires Good(t) && CodePlaced(p, t.symbols, Text) && i < |t.symbols| && HasBytes(t.symbols[i], Text, 16)
    ensures AllOk(ResolverCuts(Moved(t, p)[i + 1].value, p.text, target), |Contents(t.symbols, Text)|)
  {
    OwnCut(t, p, Text, i, 3, 4, target - (Moved(t, p)[i + 1].value + 7));
  }

  lemma ResolverOk(t: Tables, p: SymPlaces, m: Marks, target: u64)
    requires Good(t) && CodePlaced(p, t.symbols, Text) && MarksGood(t, m)
    ensures ResolverOf(t).Some? ==> ResolverOf(t).value < |t.dynsym|
    ensures AllOk(ResolverList(Moved(t, p), ResolverOf(t), p.text, target), |Contents(t.symbols, Text)|)
  {
    if ResolverOf(t).Some? {
      ResolverCutOk(t, p, ResolverOf(t).value - 1, target);
    }
  }

  lemma HelpersOk(t: Tables, p: SymPlaces, m: Marks)
    requires Good(t) && CodePlaced(p, t.symbols, Text) && MarksGood(t, m) && Indexed(m, |t.dynsym|)
    ensures forall k :: k in m.helpers ==> HelperOk(Moved(t, p), m, k, p.text, |Contents(t.symbols, Text)|)
  {
    var es, len := Moved(t, p), |Contents(t.symbols, Text)|;
    forall k | k in m.helpers ensures HelperOk(es, m, k, p.text, len) {
      HelperCutsOk(t, p, m.helpers[k] - 1, es[k].value);
    }
  }

  /** If nobody described what the PLT adds, no patch panics. */
  lemma NoPanic(before: Tables, m: Marks, d: Draft, base: nat, descs: seq<SymbolDesc>, raw: seq<RelocEntry>, code: Code,
                added: seq<SymbolDesc>)
    requires SymbolsFrom(before, m, descs, raw, code, added) && ValidCode(code) && Drafted(d, before, base)
    requires Lookups(before, m) && Lookups(Finished(before, d.laid), m)
    requires NoneDescribed(Front(descs, code), NamesOf(OfClass(raw, 4)))
    ensures Patchable(Finished(before, d.laid), m, code, PlacesOf(d.laid))
  {
    NewMarksGood(before, m, descs, raw, code, added);
    TextPlaced(d, before, base);
    PltPlaced(d, before, base);
    PltCutsOk(before, SymPlacesOf(d.laid), m, AddrOf(d.laid, GotPlt));
    ResolverOk(before, SymPlacesOf(d.laid), m, TargetOf(code, PlacesOf(d.laid)));
    HelpersOk(before, SymPlacesOf(d.laid), m);
  }

  // ---------------------------------------------------------------------- panics

  /** The first description of a name is the symbol with that name. */
  lemma FirstDescribed(t: Tables, front: seq<SymbolDesc>, added: seq<SymbolDesc>, n: Name)
    requires Names(t) && t.symbols == Dedup(front + added) && Listed(front, n) && n != []
    ensures n in t.index && 1 <= t.index[n] <= |t.symbols| && t.symbols[t.index[n] - 1] == front[FirstPos(front, n)]
  {
    var all, p := front + added, FirstPos(front, n);
    assert all[p] == front[p] && all[..p] == front[..p];
    FirstIsSymbol(t, all, p);
  }

  /** The caller described the name, as undefined. */
  predicate DescribedUndefined(front: seq<SymbolDesc>, n: Name) {
    n != [] && Listed(front, n) && front[FirstPos(front, n)].content.None?
  }

  /** What the panics below are about: a library whose symbols and layout are known. */
  ghost predicate Known(before: Tables, m: Marks, d: Draft, base: nat, descs: seq<SymbolDesc>, raw: seq<RelocEntry>,
                        code: Code, added: seq<SymbolDesc>)
  {
    && SymbolsFrom(before, m, descs, raw, code, added) && ValidCode(code) && Drafted(d, before, base)
    && Lookups(before, m) && Lookups(Finished(before, d.laid), m)
  }

  lemma EntryCutFails(t: Tables, p: SymPlaces, m: Marks, gotPlt: nat, j: nat)
    requires Good(t) && CodePlaced(p, t.symbols, Plt) && Indexed(m, |t.dynsym|) && j < |m.entries|
    requires 1 <= m.entries[j].0 <= |t.symbols| && t.symbols[m.entries[j].0 - 1].content.None?
    ensures !AllOk(PltCuts(Moved(t, p), m, p.plt, gotPlt), |Contents(t.symbols, Plt)|)
  {
    var es, len := Moved(t, p), |Contents(t.symbols, Plt)|;
    var first := FirstList(es, m, p.plt, gotPlt);
    var rest := EntryList(es, m, p.plt, gotPlt);
    UndefinedCut(t, p, Plt, m.entries[j].0 - 1, 2, 4, rest[j].value);
    assert !CutOk(rest[j], len);
    AllOkJoin(first, rest, len);
  }

  /** The symbol with this name is undefined. */
  predicate NamedUndefined(t: Tables, n: Name) {
    n in t.index && 1 <= t.index[n] <= |t.symbols| && t.symbols[t.index[n] - 1].content.None?
  }

  lemma UndefinedStub(t: Tables, m: Marks, names: seq<Name>, j: nat)
    requires MarksFor(m, t.index, names) && j < |names| && NamedUndefined(t, StubName(names, j))
    ensures 1 <= m.entries[j].0 <= |t.symbols| && t.symbols[m.entries[j].0 - 1].content.None?
  {
    assert Marked(m, t.index, names, j);
  }

  lemma UndefinedHelper(t: Tables, m: Marks, names: seq<Name>, j: nat) returns (k: nat)
    requires MarksFor(m, t.index, names) && j < |names| && NamedUndefined(t, HelperName(names, j))
    ensures k in m.helpers && 1 <= m.helpers[k] <= |t.symbols| && t.symbols[m.helpers[k] - 1].content.None?
  {
    assert Marked(m, t.index, names, j);
    k := m.entries[j].0;
  }

  lemma StubFails(before: Tables, m: Marks, d: Draft, base: nat, code: Code, j: nat)
    requires Good(before) && Drafted(d, before, base) && Lookups(before, m) && Lookups(Finished(before, d.laid), m)
    requires j < |m.entries| && 1 <= m.entries[j].0 <= |before.symbols|
    requires before.symbols[m.entries[j].0 - 1].content.None?
    ensures !Patchable(Finished(before, d.laid), m, code, PlacesOf(d.laid))
  {
    PltPlaced(d, before, base);
    EntryCutFails(before, SymPlacesOf(d.laid), m, AddrOf(d.laid, GotPlt), j);
  }

  lemma HelperFails(before: Tables, m: Marks, d: Draft, base: nat, code: Code, k: nat)
    requires Good(before) && Drafted(d, before, base) && Lookups(before, m) && Lookups(Finished(before, d.laid), m)
    requires k in m.helpers && 1 <= m.helpers[k] <= |before.symbols|
    requires before.symbols[m.helpers[k] - 1].content.None?
    ensures !Patchable(Finished(before, d.laid), m, code, PlacesOf(d.laid))
  {
    TextPlaced(d, before, base);
    HelperCutFails(before, SymPlacesOf(d.laid), m, k);
  }

  lemma DescribedNamed(t: Tables, m: Marks, descs: seq<SymbolDesc>, raw: seq<RelocEntry>, code: Code,
                       added: seq<SymbolDesc>, n: Name)
    requires SymbolsFrom(t, m, descs, raw, code, added) && DescribedUndefined(Front(descs, code), n)
    ensures NamedUndefined(t, n)
  {
    FirstDescribed(t, Front(descs, code), added, n);
  }

  lemma NamedStubFails(before: Tables, m: Marks, d: Draft, base: nat, code: Code, names: seq<Name>, j: nat)
    requires Good(before) && Drafted(d, before, base) && Lookups(before, m) && Lookups(Finished(before, d.laid), m)
    requires MarksFor(m, before.index, names) && j < |names| && NamedUndefined(before, StubName(names, j))
    ensures !Patchable(Finished(before, d.laid), m, code, PlacesOf(d.laid))
  {
    UndefinedStub(before, m, names, j);
    StubFails(before, m, d, base, code, j);
  }

  lemma NamedHelperFails(before: Tables, m: Marks, d: Draft, base: nat, code: Code, names: seq<Name>, j: nat)
    requires Good(before) && Drafted(d, before, base) && Lookups(before, m) && Lookups(Finished(before, d.laid), m)
    requires MarksFor(m, before.index, names) && j < |names| && NamedUndefined(before, HelperName(names, j))
    ensures !Patchable(Finished(before, d.laid), m, code, PlacesOf(d.laid))
  {
    var k := UndefinedHelper(before, m, names, j);
    HelperFails(before, m, d, base, code, k);
  }

  /** A stub that the caller described as undefined: patching it panics. */
  lemma StubPanics(before: Tables, m: Marks, d: Draft, base: nat, descs: seq<SymbolDesc>, raw: seq<RelocEntry>,
                   code: Code, added: seq<SymbolDesc>, j: nat)
    requires Known(before, m, d, base, descs, raw, code, added) && j < |OfClass(raw, 4)|
    requires DescribedUndefined(Front(descs, code), StubName(NamesOf(OfClass(raw, 4)), j))
    ensures !Patchable(Finished(before, d.laid), m, code, PlacesOf(d.laid))
  {
    DescribedNamed(before, m, descs, raw, code, added, StubName(NamesOf(OfClass(raw, 4)), j));
    NamedStubFails(before, m, d, base, code, NamesOf(OfClass(raw, 4)), j);
  }

  lemma HelperCutFails(t: Tables, p: SymPlaces, m: Marks, k: nat)
    requires Good(t) && CodePlaced(p, t.symbols, Text) && Indexed(m, |t.dynsym|) && k in m.helpers
    requires 1 <= m.helpers[k] <= |t.symbols| && t.symbols[m.helpers[k] - 1].content.None?
    ensures !HelperOk(Moved(t, p), m, k, p.text, |Contents(t.symbols, Text)|)
  {
    var es := Moved(t, p);
    var cuts := HelperCuts(es[m.helpers[k]].value, p.text, es[k].value);
    UndefinedCut(t, p, Text, m.helpers[k] - 1, 1, 4, cuts[1].value);
    assert !CutOk(cuts[1], |Contents(t.symbols, Text)|);
  }

  /** A helper that the caller described as undefined: patching it panics. */
  lemma HelperPanics(before: Tables, m: Marks, d: Draft, base: nat, descs: seq<SymbolDesc>, raw: seq<RelocEntry>,
                     code: Code, added: seq<SymbolDesc>, j: nat)
    requires Known(before, m, d, base, descs, raw, code, added) && j < |OfClass(raw, 4)|
    requires DescribedUndefined(Front(descs, code), HelperName(NamesOf(OfClass(raw, 4)), j))
    ensures !Patchable(Finished(before, d.laid), m, code, PlacesOf(d.laid))
  {
    DescribedNamed(before, m, descs, raw, code, added, HelperName(NamesOf(OfClass(raw, 4)), j));
    NamedHelperFails(before, m, d, base, code, NamesOf(OfClass(raw, 4)), j);
  }

  lemma FirstCutFails(t: Tables, p: SymPlaces, m: Marks, gotPlt: nat)
    requires Good(t) && CodePlaced(p, t.symbols, Plt) && Indexed(m, |t.dynsym|) && m.plt0.Some?
    requires 1 <= m.plt0.value <= |t.symbols| && t.symbols[m.plt0.value - 1].content.None?
    ensures !AllOk(PltCuts(Moved(t, p), m, p.plt, gotPlt), |Contents(t.symbols, Plt)|)
  {
    var es, len := Moved(t, p), |Contents(t.symbols, Plt)|;
    var first := FirstList(es, m, p.plt, gotPlt);
    UndefinedCut(t, p, Plt, m.plt0.value - 1, 2, 4, first[0].value);
    assert !CutOk(first[0], len);
    AllOkJoin(first, EntryList(es, m, p.plt, gotPlt), len);
  }

  /** The caller described `PLT0`, and the last symbol it described is undefined: that symbol is
      patched as if it were the first entry, which panics. */
  lemma FirstEntryPanics(before: Tables, m: Marks, d: Draft, base: nat, descs: seq<SymbolDesc>, raw: seq<RelocEntry>,
                         code: Code, added: seq<SymbolDesc>)
    requires Known(before, m, d, base, descs, raw, code, added) && Listed(Front(descs, code), Plt0Name())
    requires LastUndefined(Front(descs, code))
    ensures !Patchable(Finished(before, d.laid), m, code, PlacesOf(d.laid))
  {
    LastIsMarked(before, m, descs, raw, code, added);
    FirstFails(before, m, d, base, code);
  }

  lemma LastIsMarked(t: Tables, m: Marks, descs: seq<SymbolDesc>, raw: seq<RelocEntry>, code: Code,
                     added: seq<SymbolDesc>)
    requires SymbolsFrom(t, m, descs, raw, code, added) && Listed(Front(descs, code), Plt0Name())
    requires LastUndefined(Front(descs, code))
    ensures m.plt0.Some? && 1 <= m.plt0.value <= |t.symbols| && t.symbols[m.plt0.value - 1].content.None?
  {
    LastMarked(t, Front(descs, code), added, PltDesc(Plt0Name(), code.plt0));
  }

  /** The last symbol that the caller described is undefined. */
  predicate LastUndefined(front: seq<SymbolDesc>) {
    var known := Dedup(front);
    known != [] && known[|known| - 1].content.None?
  }

  lemma LastMarked(t: Tables, front: seq<SymbolDesc>, added: seq<SymbolDesc>, d: SymbolDesc)
    requires t.symbols == Dedup(front + added) && added != [] && added[0] == d && d.name != [] && Listed(front, d.name)
    requires Dedup(front) != []
    ensures var known := Dedup(front);
            |Dedup(front + [d])| == |known| <= |t.symbols| && t.symbols[|known| - 1] == known[|known| - 1]
  {
    FirstMarked(t, front, added, d);
    var known := Dedup(front);
    assert t.symbols[..|known|][|known| - 1] == known[|known| - 1];
  }

  lemma FirstFails(before: Tables, m: Marks, d: Draft, base: nat, code: Code)
    requires Good(before) && Drafted(d, before, base) && Lookups(before, m) && Lookups(Finished(before, d.laid), m)
    requires m.plt0.Some? && 1 <= m.plt0.value <= |before.symbols|
    requires before.symbols[m.plt0.value - 1].content.None?
    ensures !Patchable(Finished(before, d.laid), m, code, PlacesOf(d.laid))
  {
    PltPlaced(d, before, base);
    FirstCutFails(before, SymPlacesOf(d.laid), m, AddrOf(d.laid, GotPlt));
  }

  /** A library whose one symbol is an undefined `PLT0`. */
  function LonePlt0(): seq<SymbolDesc> {
    [SymbolDesc(Plt0Name(), Func, Global, None, None)]
  }

  lemma LoneNames(code: Code)
    ensures !NamesOutgrown(LonePlt0(), [], code) && !Unnamed(LonePlt0(), [], code)
    ensures Listed(Front(LonePlt0(), code), Plt0Name())
    ensures LastUndefined(Front(LonePlt0(), code))
  {
    var front := Front(LonePlt0(), code);
    assert front[1].name == Plt0Name() && front[0].name == ResolverName();
    assert |ResolverName()| == 16 && |Plt0Name()| == 4;
    assert front[..1] == [front[0]] && front[..1][..0] == [];
    assert Dedup(front[..1]) == [front[0]];
    assert !Listed([front[0]], Plt0Name());
    assert Dedup(front) == [front[0]] + [front[1]];
    var names := AllNames(LonePlt0(), [], code);
    assert NamesOf(OfClass([], 4)) == [];
    assert names == [ResolverName(), Plt0Name(), Plt0Name()];
    assert names[..2] == [ResolverName(), Plt0Name()] && names[..2][..1] == [ResolverName()];
    assert StrSize([ResolverName()]) == 2 + 17;
    assert StrSize(names[..2]) == 2 + 17 + 5;
  }

  /** The writer on that library: it panics, whenever the file fits the address space. */
  method WriteLonePlt0(base: nat, page: nat, code: Code, shstrtab: seq<byte>, shdrs: seq<Section> -> seq<byte>)
    returns (r: WriteResult, ghost before: Tables)
    requires ValidCode(code) && page > 0 && page % 0x1000 == 0 && base % 0x1000 == 0
    ensures AllKnown([], SymsOf(before)) && ValidSyms(SymsOf(before))
    ensures r == if base + FileSize(before, [], page, shstrtab) <= LIMIT then Panicked else TooBig
  {
    LoneNames(code);
    ghost var added, m, d;
    r, added, before, m, d := WriteDylib(LonePlt0(), [], base, page, code, shstrtab, shdrs);
    if !r.TooBig? {
      LookupsKnown(before, m, LonePlt0(), [], code, added);
      FirstEntryPanics(before, m, d, base, LonePlt0(), [], code, added);
    }
  }

  // ------------------------------------------------------------------ where stubs jump

  /** A stub in its place has the address that its slot points into. */
  lemma StubAt(t: Tables, p: SymPlaces, names: seq<Name>, j: nat)
    requires Good(t) && CodePlaced(p, t.symbols, Plt) && j < |names| && OwnStub(t, names, j)
    ensures var v := Moved(t, p)[t.index[StubName(names, j)]].value;
            v == p.plt + 16 + 16 * j && Wrap64(v - p.plt) == 16 + 16 * j
  {
    OffsetOf(t, p, Plt, t.index[StubName(names, j)] - 1);
  }

  /** The patch of stub `j` in its place: its displacement, from the next instruction on, leads
      to slot `j`. */
  predicate StubCut(c: Cut, plt: nat, gotPlt: nat, j: nat) {
    c.n == 4 && c.At() == 16 + 16 * j + 2 && c.value == gotPlt + (3 + j) * 8 - (plt + 16 + 16 * j + 6)
  }

  lemma StubCutAt(t: Tables, p: SymPlaces, m: Marks, names: seq<Name>, gotPlt: nat, j: nat)
    requires Good(t) && CodePlaced(p, t.symbols, Plt) && MarksFor(m, t.index, names) && Indexed(m, |t.dynsym|)
    requires j < |names| && OwnStub(t, names, j) && 16 + 16 * j < 0x1_0000_0000_0000_0000 - 6
    ensures StubCut(EntryList(Moved(t, p), m, p.plt, gotPlt)[j], p.plt, gotPlt, j)
  {
    assert Marked(m, t.index, names, j);
    StubAt(t, p, names, j);
    WrapSmall(16 + 16 * j + 2);
  }

  predicate CutsApart(c: Cut, c': Cut) {
    Disjoint(c.At(), c.n, c'.At(), c'.n)
  }

  /** A patched displacement that no later patch touches. */
  lemma CutLoads(data: seq<byte>, cuts: seq<Cut>, k: nat, at: nat, v: int)
    requires AllOk(cuts, |data|) && k < |cuts| && cuts[k].n == 4 && cuts[k].At() == at && cuts[k].value == v
    requires forall i :: k < i < |cuts| ==> CutsApart(cuts[i], cuts[k])
    ensures at + 4 <= |data| && Load(Made(data, cuts), at, 4) == v % 0x1_0000_0000
  {
    forall i | k < i < |cuts| ensures Disjoint(cuts[i].At(), cuts[i].n, cuts[k].At(), cuts[k].n) {
      assert CutsApart(cuts[i], cuts[k]);
    }
    MadeHolds(data, cuts, k);
    LittleEndianDecodes(v, 4);
    Pow256Values();
  }

  lemma StubCutsApart(c: Cut, c': Cut, plt: nat, gotPlt: nat, j: nat, i: nat)
    requires StubCut(c, plt, gotPlt, j) && StubCut(c', plt, gotPlt, i) && j < i
    ensures CutsApart(c', c)
  {
  }

  lemma StubLoads(data: seq<byte>, first: seq<Cut>, rest: seq<Cut>, plt: nat, gotPlt: nat, j: nat)
    requires AllOk(first + rest, |data|) && j < |rest|
    requires forall i :: 0 <= i < |rest| ==> StubCut(rest[i], plt, gotPlt, i)
    ensures rest[j].At() + 4 <= |data|
    ensures Load(Made(data, first + rest), rest[j].At(), 4) == rest[j].value % 0x1_0000_0000
  {
    var cuts, k := first + rest, |first| + j;
    assert cuts[k] == rest[j];
    forall i | k < i < |cuts| ensures CutsApart(cuts[i], cuts[k]) {
      assert cuts[i] == rest[i - |first|];
      StubCutsApart(rest[j], rest[i - |first|], plt, gotPlt, j, i - |first|);
    }
    CutLoads(data, cuts, k, rest[j].At(), rest[j].value);
  }

  /** Stub `j` of the PLT at `addr` jumps through slot `j`: its displacement, from the next
      instruction on, leads to the slot modulo 2^32. */
  predicate ReadsSlot(plt: seq<byte>, addr: nat, gotPlt: nat, j: nat) {
    && 16 + 16 * j + 6 <= |plt|
    && Load(plt, 16 + 16 * j + 2, 4) == (gotPlt + (3 + j) * 8 - (addr + 16 + 16 * j + 6)) % 0x1_0000_0000
  }

  /** In a PLT whose stubs are all in place, stub `j` jumps through slot `j`. */
  lemma StubReadsSlot(t: Tables, p: SymPlaces, m: Marks, names: seq<Name>, gotPlt: nat, plt: seq<byte>, j: nat)
    requires Good(t) && CodePlaced(p, t.symbols, Plt) && MarksFor(m, t.index, names) && Indexed(m, |t.dynsym|)
    requires IsMade(Contents(t.symbols, Plt), plt, PltCuts(Moved(t, p), m, p.plt, gotPlt))
    requires (forall i :: 0 <= i < |names| ==> OwnStub(t, names, i)) && j < |names|
    requires 16 + 16 * |names| < 0x1_0000_0000_0000_0000 - 6
    ensures ReadsSlot(plt, p.plt, gotPlt, j)
  {
    AllStubCuts(t, p, m, names, gotPlt);
    var rest := EntryList(Moved(t, p), m, p.plt, gotPlt);
    StubLoads(Contents(t.symbols, Plt), FirstList(Moved(t, p), m, p.plt, gotPlt), rest, p.plt, gotPlt, j);
    SlotFrom(plt, rest[j], p.plt, gotPlt, j);
  }

  lemma SlotFrom(plt: seq<byte>, c: Cut, addr: nat, gotPlt: nat, j: nat)
    requires StubCut(c, addr, gotPlt, j) && c.At() + 4 <= |plt| && Load(plt, c.At(), 4) == c.value % 0x1_0000_0000
    ensures ReadsSlot(plt, addr, gotPlt, j)
  {
  }

  lemma AllStubCuts(t: Tables, p: SymPlaces, m: Marks, names: seq<Name>, gotPlt: nat)
    requires Good(t) && CodePlaced(p, t.symbols, Plt) && MarksFor(m, t.index, names) && Indexed(m, |t.dynsym|)
    requires forall i :: 0 <= i < |names| ==> OwnStub(t, names, i)
    requires 16 + 16 * |names| < 0x1_0000_0000_0000_0000 - 6
    ensures var rest := EntryList(Moved(t, p), m, p.plt, gotPlt);
            forall i :: 0 <= i < |rest| ==> StubCut(rest[i], p.plt, gotPlt, i)
  {
    var rest := EntryList(Moved(t, p), m, p.plt, gotPlt);
    forall i | 0 <= i < |rest| ensures StubCut(rest[i], p.plt, gotPlt, i) {
      StubCutAt(t, p, m, names, gotPlt, i);
    }
  }

  /** In a written library whose stubs are all in place, every stub jumps through its own slot. */
  lemma StubsReadSlots(o: Output, before: Tables, base: nat, descs: seq<SymbolDesc>, raw: seq<RelocEntry>, code: Code,
                       added: seq<SymbolDesc>, j: nat)
    requires WrittenFrom(o, base, code, raw) && MovedFrom(o, before) && ValidCode(code) && j < |OfClass(raw, 4)|
    requires SymbolsFrom(before, o.patched.marks, descs, raw, code, added)
    requires StubsInPlace(Front(descs, code), NamesOf(OfClass(raw, 4)))
    ensures ReadsSlot(o.bytes.plt, AddrOf(o.draft.laid, Plt), AddrOf(o.draft.laid, GotPlt), j)
  {
    var names, all := NamesOf(OfClass(raw, 4)), Front(descs, code) + added;
    PltPlaced(o.draft, o.tables, base);
    OutputPlt(o, before, base, code, raw);
    InPlaceOwn(before, Front(descs, code), added, names, code);
    PltMade(o, base, code);
    StubReadsSlot(before, SymPlacesOf(o.draft.laid), o.patched.marks, names, AddrOf(o.draft.laid, GotPlt),
                  o.bytes.plt, j);
  }

  lemma InPlaceOwn(t: Tables, front: seq<SymbolDesc>, added: seq<SymbolDesc>, names: seq<Name>, code: Code)
    requires Names(t) && t.symbols == Dedup(front + added) && ValidCode(code) && StubsInPlace(front, names)
    requires PltAdded(added, names, code.plt0, code.entry, code.helper)
    ensures forall i :: 0 <= i < |names| ==> OwnStub(t, names, i)
  {
    var all, n := front + added, |front|;
    assert all[n..] == added && all[..n] == front;
    OwnStubsIff(t, all, n, names, code.plt0, code.entry, code.helper);
  }

  lemma PltMade(o: Output, base: nat, code: Code)
    requires Complete(o, base, code)
    ensures Lookups(o.tables, o.patched.marks)
    ensures IsMade(Contents(o.tables.symbols, Plt), o.bytes.plt,
                   PltCuts(o.tables.dynsym, o.patched.marks, AddrOf(o.draft.laid, Plt), AddrOf(o.draft.laid, GotPlt)))
  {
  }
}
