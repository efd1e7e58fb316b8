/** Writer, then loader, then lookup: a file written from symbols and relocations is
    mapped, its `.dynamic` section is found and parsed in memory, and a symbol is looked
    up through the tables that it points to. The lookup finds the index that the writer
    gave to the name. */
module DylibRoundTrip {
  import opened Words
  import opened Pages
  import opened Segments
  import opened ProgramLoad
  import opened GnuIndex
  import opened Records
  import opened DylibLayout
  import opened DylibHeaders
  import opened DylibFile
  import opened DylibSymbols
  import opened DylibIndex
  import opened DylibDynamic
  import opened DynamicParse
  import opened DylibRelocs
  import opened DylibPatch
  import opened DylibSections
  import opened DylibWriter

  // --------------------------------------------------------- tables read in place

  predicate StartsWith(b: seq<byte>, x: seq<byte>) {
    |x| <= |b| && b[..|x|] == x
  }

  lemma SliceOfPrefix(b: seq<byte>, x: seq<byte>, k: nat, n: nat)
    requires StartsWith(b, x) && k + n <= |x|
    ensures b[k..k + n] == x[k..k + n]
  {
    var u, v := b[k..k + n], x[k..k + n];
    forall i | 0 <= i < n ensures u[i] == v[i] {
      assert b[..|x|][k + i] == b[k + i];
    }
  }

  /** The loader reads the hash table through a pointer; what follows it is irrelevant. */
  lemma HashInPlace(b: seq<byte>, x: seq<byte>)
    requires StartsWith(b, x) && ReadHash(x).Some?
    ensures ReadHash(b) == ReadHash(x)
  {
    forall i: nat | 4 * i + 4 <= |x| ensures WordOf(b, i) == WordOf(x, i) {
      SliceOfPrefix(b, x, 4 * i, 4);
    }
    var s, t := ReadHash(b).value, ReadHash(x).value;
    assert s.buckets == t.buckets && s.chains == t.chains;
  }

  lemma SymsInPlace(b: seq<byte>, x: seq<byte>, n: nat)
    requires StartsWith(b, x) && 24 * n <= |x|
    ensures ReadSyms(b, n) == ReadSyms(x, n)
  {
    forall i | 0 <= i < n ensures ReadSyms(b, n)[i] == ReadSyms(x, n)[i] {
      SliceOfPrefix(b, x, 24 * i, 24);
    }
  }

  lemma NameInPlace(b: seq<byte>, x: seq<byte>, off: nat, name: DylibSymbols.Name)
    requires StartsWith(b, x) && NameAt(x, off, name)
    ensures NameAt(b, off, name)
  {
    SliceOfPrefix(b, x, off, |name|);
    assert b[off + |name|] == b[..|x|][off + |name|];
  }

  /** Strings, too: each ends at its NUL. */
  lemma NamesInPlace(t: Tables, b: seq<byte>)
    requires Names(t) && StartsWith(b, t.dynstr)
    ensures Names(t.(dynstr := b))
  {
    var t' := t.(dynstr := b);
    forall i | 0 <= i < |t'.symbols| ensures NameOk(t', i) {
      assert NameOk(t, i);
      NameInPlace(b, t.dynstr, t.dynsym[i + 1].name, t.symbols[i].name);
    }
  }

  /** `.dynamic` as a list of entries, as far as the memory goes. */
  function DynView(b: seq<byte>): (es: seq<DynEntry>)
    ensures |es| == |b| / 16 && forall i :: 0 <= i < |es| ==> es[i] == DecodeDyn(b[16 * i..16 * i + 16])
  {
    seq(|b| / 16, i requires 0 <= i < |b| / 16 => DecodeDyn(b[16 * i..16 * i + 16]))
  }

  lemma DynInPlace(b: seq<byte>, es: seq<DynEntry>)
    requires StartsWith(b, Flatten(DynRows(es))) && es != []
    ensures |es| <= |DynView(b)| && DynView(b)[..|es|] == es
  {
    DynReadBack(es, 0);
    forall i | 0 <= i < |es| ensures i < |DynView(b)| && DynView(b)[i] == es[i] {
      DynReadBack(es, i);
      SliceOfPrefix(b, Flatten(DynRows(es)), 16 * i, 16);
    }
  }

  lemma ReadInPlace(f: Info, view: seq<DynEntry>, es: seq<DynEntry>, k: nat)
    requires |es| <= |view| && view[..|es|] == es && k <= |es| && Read(f, view, k)
    ensures Read(f, es, k)
  {
    assert view[..k] == view[..|es|][..k] == es[..k];
    forall tag: nat, alt: nat ensures Last(view, k, tag, alt) == Last(es, k, tag, alt) {
      LastSame(view, es, k, tag, alt);
    }
    SameRest(view, es, k);
  }

  lemma {:induction false} SameRest(a: seq<DynEntry>, b: seq<DynEntry>, k: nat)
    requires k <= |a| && k <= |b| && a[..k] == b[..k]
    ensures Needed(a, k) == Needed(b, k) && IsRela(a, k) == IsRela(b, k)
  {
    if k > 0 {
      assert a[..k][k - 1] == b[..k][k - 1];
      assert a[..k - 1] == a[..k][..k - 1] == b[..k - 1];
      SameRest(a, b, k - 1);
    }
  }

  lemma EndInPlace(view: seq<DynEntry>, es: seq<DynEntry>)
    requires |es| <= |view| && view[..|es|] == es && DylibDynamic.WellFormed(es)
    ensures HasTag(view, DT_NULL) && Find(view, DT_NULL) == |es| - 1
  {
    var n := |es| - 1;
    forall i | 0 <= i <= n ensures view[i] == es[i] {
      assert view[..|es|][i] == view[i];
    }
  }

  /** Parsing `.dynamic` in memory gives what the writer put there. */
  method ParseInPlace(b: seq<byte>, ghost es: seq<DynEntry>) returns (r: DynamicParse.Outcome)
    requires StartsWith(b, Flatten(DynRows(es))) && DylibDynamic.WellFormed(es) && KnownTags(es)
    requires Get(es, DT_PLTREL) == Some(7) && Get(es, DT_HASH).Some?
    ensures r.Parsed? && !r.hashIsGnu && r.info.hash == Get(es, DT_HASH)
    ensures r.info.symtab == OrZero(Get(es, DT_SYMTAB)) && r.info.strtab == OrZero(Get(es, DT_STRTAB))
    ensures r.info.rel == NonZero(Get(es, DT_RELA)) && r.info.pltrel == NonZero(Get(es, DT_JMPREL))
  {
    DynInPlace(b, es);
    var view := DynView(b);
    EndInPlace(view, es);
    HashSaid(view, es);
    r := ParseDynamic(view);
    ReadInPlace(r.info, view, es, |es| - 1);
    ReadsBack(es, r.info);
  }

  /** In memory, too, the list names a hash table and relocations with addends. */
  lemma HashSaid(view: seq<DynEntry>, es: seq<DynEntry>)
    requires |es| <= |view| && view[..|es|] == es && DylibDynamic.WellFormed(es) && KnownTags(es)
    requires Get(es, DT_PLTREL) == Some(7) && Get(es, DT_HASH).Some?
    ensures IsRela(view, |es| - 1) != Some(false) && Last(view, |es| - 1, DT_HASH, DT_HASH).Some?
  {
    var k := |es| - 1;
    assert view[..k] == view[..|es|][..k] == es[..k];
    SameRest(view, es, k);
    RelaSaid(es, k);
    LastSame(view, es, k, DT_HASH, DT_HASH);
    LastBeforeEnd(es, k, DT_HASH);
  }

  // ------------------------------------------------------------ finding `.dynamic`

  lemma {:induction false} LastSkips(a: seq<Phdr>, b: seq<Phdr>, t: nat)
    ensures LastHeader(a + b, t) == if LastHeader(b, t).Some? then LastHeader(b, t) else LastHeader(a, t)
  {
    if b == [] {
      assert a + b == a;
    } else {
      var k := |b| - 1;
      assert (a + b)[..|a + b| - 1] == a + b[..k] && (a + b)[|a + b| - 1] == b[k];
      LastSkips(a, b[..k], t);
    }
  }

  lemma LastInMiddle(a: seq<Phdr>, d: Phdr, t: seq<Phdr>)
    requires d.p_type == 2 && |t| <= 1 && forall i :: 0 <= i < |t| ==> t[i].p_type != 2
    ensures LastHeader(a + ([d] + t), PT_DYNAMIC) == Some(d)
  {
    LastSkips(a, [d] + t, 2);
    LastSkips([d], t, 2);
    assert LastHeader([d], PT_DYNAMIC) == Some(d);
    assert |t| == 1 ==> LastHeader(t[..0], PT_DYNAMIC) == None;
  }

  lemma TableEnds(laid: seq<Section>, s: Section) returns (a: seq<Phdr>, d: Phdr, t: seq<Phdr>)
    requires AllWords64(laid) && FindKind(laid, Dynamic) == Some(s) && s.addr < 0x1_0000_0000_0000_0000
    ensures ProgramHeaders(laid) == a + ([d] + t) && d.p_type == 2 && d.p_vaddr == d.p_paddr == s.addr
    ensures |t| <= 1 && forall i :: 0 <= i < |t| ==> t[i].p_type != 2
    ensures forall i :: 0 <= i < |a| ==> a[i].p_type != 2
  {
    a, t := [PhdrHeader(laid)] + Loads(laid), Special(laid, Tls, PT_TLS, 4);
    d := Special(laid, Dynamic, PT_DYNAMIC, 6)[0];
    WrapSmall(s.addr);
    assert Specials(laid) == [d] + t;
  }

  lemma DynamicHeader(laid: seq<Section>, s: Section)
    requires AllWords64(laid) && FindKind(laid, Dynamic) == Some(s) && s.addr < 0x1_0000_0000_0000_0000
    ensures match LastHeader(ProgramHeaders(laid), PT_DYNAMIC)
            case Some(d) => d.p_vaddr == d.p_paddr == s.addr
            case None => false
  {
    var a, d, t := TableEnds(laid, s);
    LastInMiddle(a, d, t);
  }

  // ----------------------------------------------------------------- the sections

  /** The section of a kind is where the layout put it, with its own bytes. */
  lemma KindPlaced(laid: seq<Section>, sizes: seq<nat>, s: Section)
    requires |sizes| == 13 && LaidFrom(laid, AllSections(sizes)) && s in AllSections(sizes)
    ensures match FindKind(laid, s.kind) case Some(l) => l in laid && SameSection(s, l) case None => false
  {
    LaidHas(laid, AllSections(sizes));
    var l :| l in laid && SameSection(s, l);
    FindKindFinds(laid, s.kind);
    assert HasKind(laid, s.kind);
    OnlyOne(laid, sizes, l, FindKind(laid, s.kind).value);
  }

  lemma FourSections(sizes: seq<nat>)
    requires |sizes| == 13
    ensures Fresh(DynStr, 1, DYNSTR, sizes) in AllSections(sizes)
    ensures Fresh(DynSym, 8, DYNSYM, sizes) in AllSections(sizes)
    ensures Fresh(Hash, 4, HASH, sizes) in AllSections(sizes) && Fresh(Dynamic, 8, DYNAMIC, sizes) in AllSections(sizes)
  {
    var n, all := |Front(sizes)|, AllSections(sizes);
    assert all[n] == Back(sizes)[0] && all[n + 1] == Back(sizes)[1] && all[n + 2] == Back(sizes)[2];
    assert all[n + 7] == Fresh(Dynamic, 8, DYNAMIC, sizes);
  }

  /** Memory from an address on. */
  function From(m: seq<byte>, space: ElfSegments, addr: nat): seq<byte>
    requires space.offset <= addr <= space.offset + |m|
  {
    m[addr - space.offset..]
  }

  /** Memory from the section's address on starts with the section's bytes. */
  ghost predicate ReadsAt(m: seq<byte>, space: ElfSegments, addr: nat, bytes: seq<byte>) {
    space.offset <= addr <= space.offset + |m| && StartsWith(From(m, space, addr), bytes)
  }

  lemma SectionReads(s: Section, alloc: seq<seq<byte>>, space: ElfSegments, m: seq<byte>)
    requires InMemory(s, alloc, space, m)
    ensures ReadsAt(m, space, s.addr, alloc[s.data])
  {
    var at := s.addr - space.offset;
    assert m[at..][..s.size] == m[at..at + s.size];
  }

  /** The four sections that a lookup goes through are in memory at their addresses. */
  ghost predicate TablesIn(laid: seq<Section>, b: Bytes, space: ElfSegments, m: seq<byte>) {
    && ReadsAt(m, space, AddrOf(laid, Dynamic), b.dynamic) && ReadsAt(m, space, AddrOf(laid, Hash), b.hash)
    && ReadsAt(m, space, AddrOf(laid, DynSym), b.dynsym) && ReadsAt(m, space, AddrOf(laid, DynStr), b.dynstr)
  }

  lemma OneTableIn(laid: seq<Section>, sizes: seq<nat>, base: nat, alloc: seq<seq<byte>>, space: ElfSegments,
                   m: seq<byte>, s: Section)
    requires |sizes| == 13 && LaidFrom(laid, AllSections(sizes)) && s in AllSections(sizes) && s.IsAlloc()
    requires s.data < |alloc|
    requires SectionsLoaded(laid, base, alloc, space, m)
    ensures ReadsAt(m, space, AddrOf(laid, s.kind), alloc[s.data])
  {
    KindPlaced(laid, sizes, s);
    SectionReads(FindKind(laid, s.kind).value, alloc, space, m);
  }

  lemma DynamicIn(laid: seq<Section>, sizes: seq<nat>, base: nat, b: Bytes, space: ElfSegments, m: seq<byte>)
    requires |sizes| == 13 && LaidFrom(laid, AllSections(sizes)) && SectionsLoaded(laid, base, b.Alloc(), space, m)
    ensures ReadsAt(m, space, AddrOf(laid, Dynamic), b.dynamic)
  {
    FourSections(sizes);
    OneTableIn(laid, sizes, base, b.Alloc(), space, m, Fresh(Dynamic, 8, DYNAMIC, sizes));
  }

  lemma HashIn(laid: seq<Section>, sizes: seq<nat>, base: nat, b: Bytes, space: ElfSegments, m: seq<byte>)
    requires |sizes| == 13 && LaidFrom(laid, AllSections(sizes)) && SectionsLoaded(laid, base, b.Alloc(), space, m)
    ensures ReadsAt(m, space, AddrOf(laid, Hash), b.hash)
  {
    FourSections(sizes);
    OneTableIn(laid, sizes, base, b.Alloc(), space, m, Fresh(Hash, 4, HASH, sizes));
  }

  lemma SymbolsIn(laid: seq<Section>, sizes: seq<nat>, base: nat, b: Bytes, space: ElfSegments, m: seq<byte>)
    requires |sizes| == 13 && LaidFrom(laid, AllSections(sizes)) && SectionsLoaded(laid, base, b.Alloc(), space, m)
    ensures ReadsAt(m, space, AddrOf(laid, DynSym), b.dynsym)
  {
    FourSections(sizes);
    OneTableIn(laid, sizes, base, b.Alloc(), space, m, Fresh(DynSym, 8, DYNSYM, sizes));
  }

  lemma StringsIn(laid: seq<Section>, sizes: seq<nat>, base: nat, b: Bytes, space: ElfSegments, m: seq<byte>)
    requires |sizes| == 13 && LaidFrom(laid, AllSections(sizes)) && SectionsLoaded(laid, base, b.Alloc(), space, m)
    ensures ReadsAt(m, space, AddrOf(laid, DynStr), b.dynstr)
  {
    FourSections(sizes);
    OneTableIn(laid, sizes, base, b.Alloc(), space, m, Fresh(DynStr, 1, DYNSTR, sizes));
  }

  lemma TablesLoaded(laid: seq<Section>, sizes: seq<nat>, base: nat, b: Bytes, space: ElfSegments, m: seq<byte>)
    requires |sizes| == 13 && LaidFrom(laid, AllSections(sizes)) && SectionsLoaded(laid, base, b.Alloc(), space, m)
    ensures TablesIn(laid, b, space, m)
  {
    DynamicIn(laid, sizes, base, b, space, m);
    HashIn(laid, sizes, base, b, space, m);
    SymbolsIn(laid, sizes, base, b, space, m);
    StringsIn(laid, sizes, base, b, space, m);
  }

  // ------------------------------------------------------------------ the lookup

  lemma AddrSmall(laid: seq<Section>, base: nat, lo: nat, hi: nat, k: SectionKind)
    requires DylibHeaders.Fits(laid, base, lo, hi)
    ensures AddrOf(laid, k) < 0x1_0000_0000_0000_0000
  {
    FindKindFinds(laid, k);
    if FindKind(laid, k).Some? {
      var i :| 0 <= i < |laid| && laid[i] == FindKind(laid, k).value;
      assert Placed(laid[i], base, lo, hi);
    }
  }

  /** `.dynamic` says where the three tables are. */
  lemma PointersAre(o: Output, base: nat, code: Code)
    requires Complete(o, base, code)
    ensures Get(o.entries, DT_HASH) == Some(AddrOf(o.draft.laid, Hash))
    ensures Get(o.entries, DT_SYMTAB) == Some(AddrOf(o.draft.laid, DynSym))
    ensures Get(o.entries, DT_STRTAB) == Some(AddrOf(o.draft.laid, DynStr))
    ensures Get(o.entries, DT_PLTREL) == Some(7)
  {
    var laid, lo := o.draft.laid, 64 + 56 * PhNum(o.draft.laid);
    AddrSmall(laid, base, lo, o.draft.fileOff, Hash);
    AddrSmall(laid, base, lo, o.draft.fileOff, DynSym);
    AddrSmall(laid, base, lo, o.draft.fileOff, DynStr);
    WrapSmall(AddrOf(laid, Hash));
    WrapSmall(AddrOf(laid, DynSym));
    WrapSmall(AddrOf(laid, DynStr));
  }

  /** A lookup through tables at known places in memory. */
  method FindAt(hashB: seq<byte>, symB: seq<byte>, strB: seq<byte>, name: DylibSymbols.Name, hash: seq<byte> -> nat,
                ghost t: Tables, ghost b: Bytes) returns (r: Option<nat>)
    requires Names(t) && Printable(t) && Emitted(t, b.hash, b.dynsym, b.dynstr)
    requires StartsWith(hashB, b.hash) && StartsWith(symB, b.dynsym) && StartsWith(strB, b.dynstr)
    ensures r == if name != [] && name in t.index then Some(t.index[name]) else None
  {
    HashReadBack(|t.dynsym|);
    SymsReadBack(t.dynsym);
    HashInPlace(hashB, b.hash);
    var s := ReadHash(hashB).value;
    SymsInPlace(symB, b.dynsym, s.nchain);
    var syms := SymTab(ReadSyms(symB, s.nchain), strB);
    NamesInPlace(t, strB);
    r := LookupChained(s, syms, name, hash, t.(dynstr := strB));
  }

  /** What a lookup relies on. */
  ghost predicate Findable(es: seq<DynEntry>, t: Tables, b: Bytes, hashAddr: u64, symAddr: u64, strAddr: u64) {
    && Names(t) && Emitted(t, b.hash, b.dynsym, b.dynstr)
    && DylibDynamic.WellFormed(es) && KnownTags(es) && b.dynamic == Flatten(DynRows(es))
    && Get(es, DT_HASH) == Some(hashAddr) && Get(es, DT_SYMTAB) == Some(symAddr) && Get(es, DT_STRTAB) == Some(strAddr)
    && Get(es, DT_PLTREL) == Some(7)
  }

  lemma OutputFindable(o: Output, base: nat, code: Code)
    requires Complete(o, base, code)
    ensures AddrOf(o.draft.laid, Hash) < 0x1_0000_0000_0000_0000
    ensures AddrOf(o.draft.laid, DynSym) < 0x1_0000_0000_0000_0000
    ensures AddrOf(o.draft.laid, DynStr) < 0x1_0000_0000_0000_0000
    ensures Findable(o.entries, o.tables, o.bytes, AddrOf(o.draft.laid, Hash), AddrOf(o.draft.laid, DynSym),
                     AddrOf(o.draft.laid, DynStr))
  {
    PointersAre(o, base, code);
  }

  /** A lookup in a loaded image, starting from `.dynamic`. */
  method FindLoaded(dynAddr: nat, m: seq<byte>, space: ElfSegments, name: DylibSymbols.Name, hash: seq<byte> -> nat,
                    ghost es: seq<DynEntry>, ghost t: Tables, ghost b: Bytes, ghost hashAddr: u64, ghost symAddr: u64,
                    ghost strAddr: u64) returns (r: Option<nat>)
    requires Findable(es, t, b, hashAddr, symAddr, strAddr) && Printable(t)
    requires ReadsAt(m, space, dynAddr, b.dynamic) && ReadsAt(m, space, hashAddr, b.hash)
    requires ReadsAt(m, space, symAddr, b.dynsym) && ReadsAt(m, space, strAddr, b.dynstr)
    ensures r == if name != [] && name in t.index then Some(t.index[name]) else None
  {
    var parsed := ParseInPlace(From(m, space, dynAddr), es);
    var info := parsed.info;
    r := FindAt(From(m, space, info.hash.value), From(m, space, info.symtab), From(m, space, info.strtab),
                name, hash, t, b);
  }

  lemma DynamicPlaced(laid: seq<Section>, sizes: seq<nat>, base: nat, lo: nat, hi: nat)
    requires |sizes| == 13 && LaidFrom(laid, AllSections(sizes)) && DylibHeaders.Fits(laid, base, lo, hi)
    ensures match FindKind(laid, Dynamic) case Some(s) => s.addr < 0x1_0000_0000_0000_0000 case None => false
  {
    FourSections(sizes);
    KindPlaced(laid, sizes, Fresh(Dynamic, 8, DYNAMIC, sizes));
    AddrSmall(laid, base, lo, hi, Dynamic);
  }

  /** The loader finds `.dynamic` where the layout put it. */
  method FindDynamic(file: seq<byte>, space: ElfSegments, ghost laid: seq<Section>, ghost s: Section)
    returns (dynAddr: nat)
    requires AllWords64(laid) && FindKind(laid, Dynamic) == Some(s) && s.addr < 0x1_0000_0000_0000_0000
    requires exists page :: HeadersOf(file, laid, page)
    requires space.Valid() && space.offset < s.addr < space.offset + space.len
    ensures dynAddr == s.addr
  {
    ghost var page :| HeadersOf(file, laid, page);
    DynamicHeader(laid, s);
    OnlyDynamic(laid, s);
    dynAddr := PtrAddress(ReadPhdrs(file).value, space, s.addr);
  }

  /** From the pointer that `parse_phdr` keeps to the virtual address it stands for. */
  method PtrAddress(ps: seq<Phdr>, space: ElfSegments, ghost addr: u64) returns (a: nat)
    requires space.Valid() && space.offset < addr < space.offset + space.len
    requires forall i :: 0 <= i < |ps| && ps[i].p_type == PT_DYNAMIC ==> ps[i].p_paddr == addr
    requires LastHeader(ps, PT_DYNAMIC).Some?
    ensures a == addr
  {
    BiasedAddress(space, addr);
    var ok, ptr := DynamicPtr(ps, space.Base());
    a := ptr.value - space.memory + space.offset;
  }

  /** There is no other PT_DYNAMIC. */
  lemma OnlyDynamic(laid: seq<Section>, s: Section)
    requires AllWords64(laid) && FindKind(laid, Dynamic) == Some(s) && s.addr < 0x1_0000_0000_0000_0000
    ensures var ps := ProgramHeaders(laid);
            forall i :: 0 <= i < |ps| && ps[i].p_type == PT_DYNAMIC ==> ps[i].p_paddr == s.addr
  {
    var a, d, t := TableEnds(laid, s);
    var ps := ProgramHeaders(laid);
    forall i | 0 <= i < |ps| ensures ps[i].p_type == PT_DYNAMIC ==> ps[i] == d {
      assert ps[i] == if i < |a| then a[i] else if i == |a| then d else t[i - |a| - 1];
    }
  }

  /** The reserved space starts at or below the base address of the file. */
  lemma SpaceBelow(laid: seq<Section>, base: nat, lo: nat, hi: nat, space: ElfSegments)
    requires DylibHeaders.Fits(laid, base, lo, hi) && AllWords64(laid) && HasGroup(laid, 0)
    requires SpaceOf(ProgramHeaders(laid), space.offset, space.len)
    ensures space.offset <= base
  {
    OfSome(laid, 0);
    GroupFacts(laid, base, lo, hi, 0);
    var ps := ProgramHeaders(laid);
    assert ps[1] == Loads(laid)[0] == LoadHeader(laid, 0) && ps[1].p_vaddr == base;
    assert IsLoad(ps, 1);
    PageBounds(base);
  }

  lemma SpaceOfDraft(d: Draft, t: Tables, base: nat, space: ElfSegments)
    requires Drafted(d, t, base) && AllWords64(d.laid) && SpaceOf(ProgramHeaders(d.laid), space.offset, space.len)
    ensures space.offset <= base
  {
    HasReadOnly(d.laid, DraftSizes(t, d));
    SpaceBelow(d.laid, base, 64 + 56 * PhNum(d.laid), d.fileOff, space);
  }

  lemma HasReadOnly(laid: seq<Section>, sizes: seq<nat>)
    requires |sizes| == 13 && LaidFrom(laid, AllSections(sizes))
    ensures HasGroup(laid, 0)
  {
    FourSections(sizes);
    KindPlaced(laid, sizes, Fresh(DynStr, 1, DYNSTR, sizes));
    assert FindKind(laid, DynStr).value in laid;
  }

  /** `.dynamic` lies inside the reserved space, and not at its start. */
  lemma DynamicInside(d: Draft, t: Tables, base: nat, space: ElfSegments, m: seq<byte>, b: Bytes)
    requires Drafted(d, t, base) && AllWords64(d.laid) && |b.dynamic| > 0 && |m| == space.len
    requires SpaceOf(ProgramHeaders(d.laid), space.offset, space.len)
    requires ReadsAt(m, space, AddrOf(d.laid, Dynamic), b.dynamic)
    ensures space.offset < AddrOf(d.laid, Dynamic) < space.offset + space.len
  {
    var sizes, lo := DraftSizes(t, d), 64 + 56 * PhNum(d.laid);
    FourSections(sizes);
    SpaceOfDraft(d, t, base, space);
    KindPlaced(d.laid, sizes, Fresh(Dynamic, 8, DYNAMIC, sizes));
    var s := FindKind(d.laid, Dynamic).value;
    var k :| 0 <= k < |d.laid| && d.laid[k] == s;
    assert Placed(d.laid[k], base, lo, d.fileOff);
  }

  method LoadAll(file: seq<byte>, space: ElfSegments, mem: array<byte>, os: Os, ghost laid: seq<Section>,
                 ghost alloc: seq<seq<byte>>, ghost base: nat, ghost lo: nat, ghost hi: nat) returns (m: seq<byte>)
    requires DylibHeaders.Fits(laid, base, lo, hi) && FileOf(file, laid, alloc)
    requires space.Valid() && SpaceOf(ProgramHeaders(laid), space.offset, space.len) && mem.Length == space.len
    modifies mem
    ensures m == mem[..] && |m| == space.len && SectionsLoaded(laid, base, alloc, space, m)
  {
    var _ := LoadFile(file, laid, alloc, base, lo, hi, space, mem, os);
    m := mem[..];
  }

  lemma DraftTables(d: Draft, t: Tables, base: nat, b: Bytes, space: ElfSegments, m: seq<byte>)
    requires Drafted(d, t, base) && SectionsLoaded(d.laid, base, b.Alloc(), space, m)
    ensures TablesIn(d.laid, b, space, m)
  {
    TablesLoaded(d.laid, DraftSizes(t, d), base, b, space, m);
  }

  /** The address of `.dynamic` in a loaded file. */
  method DynamicOf(file: seq<byte>, space: ElfSegments, ghost d: Draft, ghost t: Tables, ghost base: nat,
                   ghost b: Bytes,
                   ghost m: seq<byte>) returns (dynAddr: nat)
    requires Drafted(d, t, base) && AllWords64(d.laid) && (exists page :: HeadersOf(file, d.laid, page))
    requires |b.dynamic| > 0 && space.Valid() && SpaceOf(ProgramHeaders(d.laid), space.offset, space.len)
    requires |m| == space.len && ReadsAt(m, space, AddrOf(d.laid, Dynamic), b.dynamic)
    ensures dynAddr == AddrOf(d.laid, Dynamic)
  {
    DynamicPlaced(d.laid, DraftSizes(t, d), base, 64 + 56 * PhNum(d.laid), d.fileOff);
    DynamicInside(d, t, base, space, m, b);
    dynAddr := FindDynamic(file, space, d.laid, FindKind(d.laid, Dynamic).value);
  }

  /** Loading the written file and looking a name up in the memory it was loaded to gives
      the index the writer recorded, for every name. */
  method LoadThenFind(file: seq<byte>, space: ElfSegments, mem: array<byte>, os: Os, name: DylibSymbols.Name,
                      hash: seq<byte> -> nat, ghost o: Output, ghost base: nat, ghost code: Code)
    returns (r: Option<nat>)
    requires Complete(o, base, code) && Printable(o.tables) && file == o.file
    requires space.Valid() && AllWords64(o.draft.laid) && SpaceOf(ProgramHeaders(o.draft.laid), space.offset, space.len)
    requires mem.Length == space.len
    modifies mem
    ensures r == if name != [] && name in o.tables.index then Some(o.tables.index[name]) else None
    ensures SectionsLoaded(o.draft.laid, base, o.bytes.Alloc(), space, mem[..])
  {
    ghost var laid, alloc, lo := o.draft.laid, o.bytes.Alloc(), 64 + 56 * PhNum(o.draft.laid);
    OutputLoads(o, base, code);
    var m := LoadAll(file, space, mem, os, laid, alloc, base, lo, o.draft.fileOff);
    r := FindInMemory(file, space, m, name, hash, o, base, code);
  }

  lemma OutputLoads(o: Output, base: nat, code: Code)
    requires Complete(o, base, code)
    ensures DylibHeaders.Fits(o.draft.laid, base, 64 + 56 * PhNum(o.draft.laid), o.draft.fileOff)
    ensures FileOf(o.file, o.draft.laid, o.bytes.Alloc())
  {
  }

  /** The lookup in a written file that has been loaded. */
  method FindInMemory(file: seq<byte>, space: ElfSegments, m: seq<byte>, name: DylibSymbols.Name,
                      hash: seq<byte> -> nat,
                      ghost o: Output, ghost base: nat, ghost code: Code) returns (r: Option<nat>)
    requires Complete(o, base, code) && Printable(o.tables) && file == o.file && |m| == space.len
    requires space.Valid() && AllWords64(o.draft.laid) && SpaceOf(ProgramHeaders(o.draft.laid), space.offset, space.len)
    requires SectionsLoaded(o.draft.laid, base, o.bytes.Alloc(), space, m)
    ensures r == if name != [] && name in o.tables.index then Some(o.tables.index[name]) else None
  {
    ghost var laid := o.draft.laid;
    DraftTables(o.draft, o.tables, base, o.bytes, space, m);
    DynBytesLength(o.entries);
    var dynAddr := DynamicOf(file, space, o.draft, o.tables, base, o.bytes, m);
    OutputFindable(o, base, code);
    r := FindLoaded(dynAddr, m, space, name, hash, o.entries, o.tables, o.bytes,
                    AddrOf(laid, Hash), AddrOf(laid, DynSym), AddrOf(laid, DynStr));
  }

  // ------------------------------------------------------------ a symbol's own bytes

  lemma {:induction false} MapHasKind(laid: seq<Section>, k: SectionKind)
    requires HasKind(laid, k)
    ensures k in ShdrMap(laid)
  {
    var n := |laid| - 1;
    if laid[n].kind != k {
      var s :| s in laid && s.kind == k;
      assert laid == laid[..n] + [laid[n]];
      assert s in laid[..n];
      MapHasKind(laid[..n], k);
    }
  }

  predicate IsData(s: SymbolDesc) {
    s.content.Some? && s.content.value.kind == Data
  }

  lemma MovedValue(before: Tables, p: SymPlaces, i: nat)
    requires Good(before) && i < |before.symbols| && IsData(before.symbols[i]) && Data in p.shndx
    ensures Moved(before, p)[i + 1].value == Wrap64(before.dynsym[i + 1].value + p.data)
  {
  }

  /** The data section has a number and ends below the top of the address space. */
  lemma DataPlaced(d: Draft, t: Tables, base: nat)
    requires Drafted(d, t, base)
    ensures Data in ShdrMap(d.laid)
    ensures AddrOf(d.laid, Data) + |Contents(t.symbols, Data)| < 0x1_0000_0000_0000_0000
  {
    var laid, sizes := d.laid, DraftSizes(t, d);
    ThreeSections(sizes);
    KindPlaced(laid, sizes, Fresh(Data, 8, DATA, sizes));
    MapHasKind(laid, Data);
    var s := FindKind(laid, Data).value;
    var k :| 0 <= k < |laid| && laid[k] == s;
    assert Placed(laid[k], base, 64 + 56 * PhNum(laid), d.fileOff);
  }

  /** A data symbol's final value is its section's address plus its offset, and the bytes
      at that offset of the section are its own. */
  lemma DataSymbolAt(before: Tables, p: SymPlaces, i: nat)
    requires Good(before) && i < |before.symbols| && IsData(before.symbols[i])
    requires Data in p.shndx && p.data + |Contents(before.symbols, Data)| < 0x1_0000_0000_0000_0000
    ensures var v, c := before.dynsym[i + 1].value, before.symbols[i].content.value.data;
            && Moved(before, p)[i + 1].value == p.data + v
            && v + |c| <= |Contents(before.symbols, Data)| && Contents(before.symbols, Data)[v..v + |c|] == c
  {
    ContentAt(before, i);
    MovedValue(before, p, i);
    WrapSmall(before.dynsym[i + 1].value + p.data);
  }

  lemma SymbolReads(before: Tables, p: SymPlaces, bytes: seq<byte>, space: ElfSegments, m: seq<byte>, i: nat)
    requires Good(before) && i < |before.symbols| && IsData(before.symbols[i])
    requires Data in p.shndx && p.data + |Contents(before.symbols, Data)| < 0x1_0000_0000_0000_0000
    requires StartsWith(bytes, Contents(before.symbols, Data)) && ReadsAt(m, space, p.data, bytes)
    ensures ReadsAt(m, space, Moved(before, p)[i + 1].value, before.symbols[i].content.value.data)
  {
    DataSymbolAt(before, p, i);
    PieceReads(m, space, p.data, bytes, Contents(before.symbols, Data), before.dynsym[i + 1].value,
               |before.symbols[i].content.value.data|);
  }

  lemma DataReads(d: Draft, t: Tables, b: Bytes, base: nat, space: ElfSegments, m: seq<byte>)
    requires Drafted(d, t, base) && SectionsLoaded(d.laid, base, b.Alloc(), space, m)
    ensures ReadsAt(m, space, AddrOf(d.laid, Data), b.data)
  {
    var sizes := DraftSizes(t, d);
    ThreeSections(sizes);
    OneTableIn(d.laid, sizes, base, b.Alloc(), space, m, Fresh(Data, 8, DATA, sizes));
  }

  /** In the loaded image the final value of a data symbol is the address of its bytes. */
  lemma DataSymbolLoaded(before: Tables, d: Draft, b: Bytes, base: nat, space: ElfSegments, m: seq<byte>, i: nat)
    requires Good(before) && Drafted(d, before, base) && SectionsLoaded(d.laid, base, b.Alloc(), space, m)
    requires StartsWith(b.data, Contents(before.symbols, Data)) && i < |before.symbols| && IsData(before.symbols[i])
    ensures ReadsAt(m, space, Moved(before, SymPlacesOf(d.laid))[i + 1].value, before.symbols[i].content.value.data)
  {
    DataReads(d, before, b, base, space, m);
    DataPlaced(d, before, base);
    SymbolReads(before, SymPlacesOf(d.laid), b.data, space, m, i);
  }

  lemma PieceReads(m: seq<byte>, space: ElfSegments, addr: nat, bytes: seq<byte>, all: seq<byte>, v: nat, n: nat)
    requires ReadsAt(m, space, addr, bytes) && |all| <= |bytes| && bytes[..|all|] == all && v + n <= |all|
    ensures ReadsAt(m, space, addr + v, all[v..v + n])
  {
    var at := addr - space.offset;
    var want := all[v..v + n];
    assert m[at..][..|bytes|] == bytes;
    forall k | 0 <= k < n ensures m[at + v..][k] == want[k] {
      assert bytes[v + k] == m[at..][..|bytes|][v + k];
      assert all[v + k] == bytes[..|all|][v + k];
    }
    assert m[at + v..][..n] == want;
  }

  // ----------------------------------------------------------- relocation fields

  lemma PlacedApart(laid: seq<Section>, base: nat, lo: nat, hi: nat, a: Section, b: Section)
    requires LaidOut(laid, base, lo, hi) && a in laid && b in laid && a.kind != b.kind && a.IsAlloc() && b.IsAlloc()
    ensures Disjoint(a.addr, a.size, b.addr, b.size)
  {
    var i :| 0 <= i < |laid| && laid[i] == a;
    var j :| 0 <= j < |laid| && laid[j] == b;
    assert Placed(laid[i], base, lo, hi) && Placed(laid[j], base, lo, hi);
    if i < j {
      assert Apart(laid[i], laid[j]);
    } else {
      assert Apart(laid[j], laid[i]);
    }
  }

  lemma TwoApart(laid: seq<Section>, sizes: seq<nat>, base: nat, lo: nat, hi: nat, s: Section, t: Section)
    requires |sizes| == 13 && LaidFrom(laid, AllSections(sizes)) && LaidOut(laid, base, lo, hi)
    requires s in AllSections(sizes) && t in AllSections(sizes) && s.kind != t.kind && s.IsAlloc() && t.IsAlloc()
    ensures Disjoint(AddrOf(laid, s.kind), s.size, AddrOf(laid, t.kind), t.size)
  {
    KindPlaced(laid, sizes, s);
    KindPlaced(laid, sizes, t);
    PlacedApart(laid, base, lo, hi, FindKind(laid, s.kind).value, FindKind(laid, t.kind).value);
  }

  lemma ThreeSections(sizes: seq<nat>)
    requires |sizes| == 13
    ensures Fresh(Data, 8, DATA, sizes) in AllSections(sizes)
    ensures Fresh(Got, 8, GOT, sizes) in AllSections(sizes) && Fresh(GotPlt, 8, GOT_PLT, sizes) in AllSections(sizes)
  {
    var n, all := |Front(sizes)|, AllSections(sizes);
    assert all[2] == Front(sizes)[2] && all[n + 5] == Back(sizes)[5] && all[n + 6] == Back(sizes)[6];
  }

  lemma DraftApart(d: Draft, t: Tables, base: nat)
    requires Drafted(d, t, base) && d.copySize == CopySize(d.plan.copies)
    ensures SectionsApart(d.plan, |Contents(t.symbols, Data)|, PlacesOf(d.laid))
  {
    var sizes, lo := DraftSizes(t, d), 64 + 56 * PhNum(d.laid);
    ThreeSections(sizes);
    var data, got, gotPlt := Fresh(Data, 8, DATA, sizes), Fresh(Got, 8, GOT, sizes), Fresh(GotPlt, 8, GOT_PLT, sizes);
    TwoApart(d.laid, sizes, base, lo, d.fileOff, got, gotPlt);
    TwoApart(d.laid, sizes, base, lo, d.fileOff, got, data);
    TwoApart(d.laid, sizes, base, lo, d.fileOff, gotPlt, data);
  }

  /** The relocations of a written file never write the same byte twice: what the dynamic
      linker requires of the tables it is given. */
  lemma OutputFieldsApart(o: Output, raw: seq<RelocEntry>, base: nat, code: Code, i: nat, j: nat)
    requires Assembled(o, base, code) && PlannedFrom(raw, o.tables, o.draft.plan)
    requires o.draft.copySize == CopySize(o.draft.plan.copies) && i < j < |o.relocs|
    ensures Disjoint(o.relocs[i].offset, Width(o.relocs[i]), o.relocs[j].offset, Width(o.relocs[j]))
  {
    var n := |Contents(o.tables.symbols, Data)|;
    DraftApart(o.draft, o.tables, base);
    PlanInPlace(raw, SymsOf(o.tables), n);
    FieldsApart(o.draft.plan, n, PlacesOf(o.draft.laid), ValuesOf(o.tables), i, j);
  }

  // ---------------------------------------------------------------- readable names

  lemma SuffixesReadable()
    ensures 0 !in Plt0Name() && 0 !in PltSuffix() && 0 !in HelperSuffix() && 0 !in ResolverName()
  {
  }

  lemma PltNameReadable(n: DylibSymbols.Name, names: seq<DylibSymbols.Name>)
    requires PltName(n, names) && forall i :: 0 <= i < |names| ==> 0 !in names[i]
    ensures 0 !in n
  {
    SuffixesReadable();
  }

  predicate Readable(descs: seq<SymbolDesc>) {
    forall i :: 0 <= i < |descs| ==> 0 !in descs[i].name
  }

  lemma ReadableJoin(a: seq<SymbolDesc>, b: seq<SymbolDesc>)
    requires Readable(a) && Readable(b)
    ensures Readable(a + b)
  {
  }

  lemma PltReadable(added: seq<SymbolDesc>, names: seq<DylibSymbols.Name>)
    requires forall i :: 0 <= i < |names| ==> 0 !in names[i]
    requires forall i :: 0 <= i < |added| ==> PltName(added[i].name, names)
    ensures Readable(added)
  {
    forall i | 0 <= i < |added| ensures 0 !in added[i].name {
      PltNameReadable(added[i].name, names);
    }
  }

  lemma DedupReadable(t: Tables, all: seq<SymbolDesc>)
    requires t.symbols == Dedup(all) && Readable(all)
    ensures Printable(t)
  {
    DedupNames(all);
  }

  /** Inputs without NUL bytes in their names give a table without them. */
  lemma OutputPrintable(t: Tables, resolver: SymbolDesc, descs: seq<SymbolDesc>, added: seq<SymbolDesc>,
                        names: seq<DylibSymbols.Name>)
    requires t.symbols == Dedup([resolver] + descs + added) && resolver.name == ResolverName()
    requires Readable(descs) && forall i :: 0 <= i < |names| ==> 0 !in names[i]
    requires forall i :: 0 <= i < |added| ==> PltName(added[i].name, names)
    ensures Printable(t)
  {
    SuffixesReadable();
    PltReadable(added, names);
    ReadableJoin([resolver], descs);
    ReadableJoin([resolver] + descs, added);
    DedupReadable(t, [resolver] + descs + added);
  }
}
