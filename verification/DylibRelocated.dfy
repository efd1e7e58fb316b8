/** Writer, loader and dynamic linker together: the relocation tables of a written library, as
    they are in its loaded image, lead the dynamic linker to the relocations that the writer was
    asked for, and these never get in each other's way.

    The library is written for base address 0, so that virtual addresses are indexes into its
    image. */
module DylibRelocated {
  import opened Words
  import opened Symbols
  import opened Segments
  import opened SymbolSearch
  import RelocPass
  import RelocTables
  import DynamicLink
  import DynamicRun
  import DynamicMeaning
  import opened DylibLayout
  import opened DylibHeaders
  import opened DylibFile
  import opened DylibSymbols
  import opened DylibRelocs
  import opened DylibPatch
  import opened DylibSections
  import opened DylibWriter
  import opened DylibRoundTrip
  import opened DylibOutput

  // ---------------------------------------------------------------- what is read back

  function AsRelas(rs: seq<Reloc>): (out: seq<Rela>)
    ensures |out| == |rs| && forall i :: 0 <= i < |rs| ==> out[i] == AsRela(rs[i])
  {
    seq(|rs|, i requires 0 <= i < |rs| => AsRela(rs[i]))
  }

  /** The relocations of the file, as the dynamic linker splits them. */
  function RelocationsOf(o: Output): DynamicRun.Relocations
    requires |o.draft.plan.Dyn()| <= |o.relocs|
  {
    var n, k := |o.draft.plan.relative|, |o.draft.plan.Dyn()|;
    DynamicRun.Relocations(DynamicRun.Rel(AsRelas(o.relocs[..n])), AsRelas(o.relocs[n..k]), AsRelas(o.relocs[k..]))
  }

  /** A table as `.dynamic` gives it: none if it is empty. */
  function TableAt(addr: nat, len: nat): Option<RelocTables.Slice> {
    if len == 0 then None else Some(RelocTables.Slice(addr, len))
  }

  /** Rows in memory, through the dynamic linker's eyes. */
  lemma RowsSeen(m: seq<byte>, space: ElfSegments, addr: nat, rs: seq<Reloc>, t: RelocTables.Slice, from: nat)
    requires space.offset == 0 && DecodesTo(m, space, addr, rs) && from + t.len <= |rs| && t.addr == addr + 24 * from
    ensures DynamicRun.Entries(DynamicMeaning.ViewOf(m), t) == AsRelas(rs[from..from + t.len])
  {
    var es, want := DynamicRun.Entries(DynamicMeaning.ViewOf(m), t), AsRelas(rs[from..from + t.len]);
    forall i | 0 <= i < t.len ensures es[i] == want[i] {
      assert RowIs(m, space, addr, from + i, rs[from + i]);
      assert t.Addr(i) == addr + 24 * (from + i);
    }
  }

  /** The two tables of a written file. */
  lemma TablesApart(d: Draft, t: Tables, base: nat)
    requires Drafted(d, t, base)
    ensures Disjoint(AddrOf(d.laid, RelaDyn), 24 * |d.plan.Dyn()|, AddrOf(d.laid, RelaPlt), 24 * |d.plan.plt|)
  {
    var sizes := DraftSizes(t, d);
    RelocSections(sizes);
    TwoApart(d.laid, sizes, base, 64 + 56 * PhNum(d.laid), d.fileOff, Fresh(RelaDyn, 8, RELA_DYN, sizes),
             Fresh(RelaPlt, 8, RELA_PLT, sizes));
  }

  /** The tables of the loaded image are the writer's relocations, split as it meant them. */
  lemma TablesGive(o: Output, space: ElfSegments, m: seq<byte>, nowhere: nat)
    requires space.offset == 0 && RelocsIn(o, space, m) && |o.relocs| == |o.draft.plan.All()|
    requires Disjoint(AddrOf(o.draft.laid, RelaDyn), 24 * |o.draft.plan.Dyn()|, AddrOf(o.draft.laid, RelaPlt),
                      24 * |o.draft.plan.plt|)
    requires nowhere != AddrOf(o.draft.laid, RelaPlt) + 24 * |o.draft.plan.plt|
    ensures var plan := o.draft.plan;
            var dyn, plt := TableAt(AddrOf(o.draft.laid, RelaDyn), |plan.Dyn()|),
                            TableAt(AddrOf(o.draft.laid, RelaPlt), |plan.plt|);
            match RelocTables.Split(plt, dyn, None, |plan.relative|, nowhere)
            case Some(p) => DynamicRun.ReadTables(DynamicMeaning.ViewOf(m), p) == RelocationsOf(o)
            case None => false
  {
    var plan, n := o.draft.plan, |o.draft.plan.relative|;
    var k, a, b := |plan.Dyn()|, AddrOf(o.draft.laid, RelaDyn), AddrOf(o.draft.laid, RelaPlt);
    var dyn, plt := TableAt(a, k), TableAt(b, |plan.plt|);
    var p, d := RelocTables.OrEmpty(plt, nowhere), RelocTables.OrEmpty(dyn, nowhere);
    RelocTables.SplitApart(plt, dyn, n, nowhere, p, d);
    DynSeen(m, space, a, o.relocs, k, n, d);
    PltSeen(m, space, b, o.relocs, k, p);
  }

  lemma DynSeen(m: seq<byte>, space: ElfSegments, a: nat, rs: seq<Reloc>, k: nat, n: nat, d: RelocTables.Slice)
    requires space.offset == 0 && n <= k <= |rs| && DecodesTo(m, space, a, rs[..k]) && d.len == k
    requires (k > 0 ==> d.addr == a)
    ensures DynamicRun.Entries(DynamicMeaning.ViewOf(m), d.Take(n)) == AsRelas(rs[..n])
    ensures DynamicRun.Entries(DynamicMeaning.ViewOf(m), d.Drop(n)) == AsRelas(rs[n..k])
  {
    if k > 0 {
      RowsSeen(m, space, a, rs[..k], d.Take(n), 0);
      RowsSeen(m, space, a, rs[..k], d.Drop(n), n);
      assert rs[..k][0..0 + n] == rs[..n] && rs[..k][n..n + (k - n)] == rs[n..k];
    }
  }

  lemma PltSeen(m: seq<byte>, space: ElfSegments, b: nat, rs: seq<Reloc>, k: nat, p: RelocTables.Slice)
    requires space.offset == 0 && k <= |rs| && DecodesTo(m, space, b, rs[k..]) && p.len == |rs| - k
    requires (p.len > 0 ==> p.addr == b)
    ensures DynamicRun.Entries(DynamicMeaning.ViewOf(m), p) == AsRelas(rs[k..])
  {
    if p.len > 0 {
      RowsSeen(m, space, b, rs[k..], p, 0);
      assert rs[k..][0..0 + p.len] == rs[k..];
    }
  }

  // ------------------------------------------------------------- where entries write

  /** Copy relocations have the size of their symbol. */
  ghost predicate SizesRight(rs: seq<Reloc>, es: seq<Sym>) {
    forall i :: 0 <= i < |rs| ==> rs[i].sym < |es| && (rs[i].rtype == R_COPY ==> rs[i].symSize == es[rs[i].sym].size)
  }

  lemma {:induction false} CopySizes(rs: seq<RelocEntry>, off: nat, s: Syms)
    requires AllKnown(rs, s) && ValidSyms(s) && forall i :: 0 <= i < |rs| ==> Class(rs[i]) == 2
    ensures forall i :: 0 <= i < |rs| ==>
              var r := Copies(rs, off, s)[i]; r.sym < |s.sizes| && r.symSize == s.sizes[r.sym]
  {
    if rs != [] {
      var k := |rs| - 1;
      CopySizes(rs[..k], off, s);
      assert Class(rs[k]) == 2;
    }
  }

  /** What a planned relocation says about its symbol's size. */
  predicate SizeRight(r: Reloc, s: Syms) {
    r.sym < |s.sizes| && (r.rtype == R_COPY ==> r.symSize == s.sizes[r.sym])
  }

  predicate AllRight(rs: seq<Reloc>, s: Syms) {
    forall i :: 0 <= i < |rs| ==> SizeRight(rs[i], s)
  }

  lemma SlotsRight(raw: seq<RelocEntry>, s: Syms, c: nat, slot: nat)
    requires AllKnown(raw, s) && ValidSyms(s) && |s.sizes| > 0 && c != 2
    ensures AllKnown(OfClass(raw, c), s) && AllRight(InSlots(OfClass(raw, c), slot, s), s)
  {
    KnownPart(raw, s, c);
    var rs := OfClass(raw, c);
    forall i | 0 <= i < |rs| ensures SizeRight(InSlots(rs, slot, s)[i], s) {
      assert Class(rs[i]) == c;
    }
  }

  lemma RightJoin(a: seq<Reloc>, b: seq<Reloc>, s: Syms)
    requires AllRight(a, s) && AllRight(b, s)
    ensures AllRight(a + b, s)
  {
  }

  lemma PlanRight(raw: seq<RelocEntry>, s: Syms, dataLen: nat)
    requires AllKnown(raw, s) && ValidSyms(s) && |s.sizes| > 0
    ensures AllRight(PlanOf(raw, s, dataLen).All(), s)
  {
    var plan, r, g := PlanOf(raw, s, dataLen), |OfClass(raw, 0)|, |OfClass(raw, 1)|;
    SlotsRight(raw, s, 0, 0);
    SlotsRight(raw, s, 1, r);
    KnownPart(raw, s, 2);
    CopySizes(OfClass(raw, 2), dataLen, s);
    SlotsRight(raw, s, 3, r + g);
    SlotsRight(raw, s, 4, 3);
    RightJoin(plan.relative, plan.got, s);
    RightJoin(plan.relative + plan.got, plan.copies, s);
    RightJoin(plan.relative + plan.got + plan.copies, plan.irelative, s);
    RightJoin(plan.Dyn(), plan.plt, s);
  }

  lemma OutputSizes(o: Output, raw: seq<RelocEntry>)
    requires PlannedFrom(raw, o.tables, o.draft.plan) && |o.tables.dynsym| > 0
    requires o.relocs == FinalAll(o.draft.plan, PlacesOf(o.draft.laid), ValuesOf(o.tables))
    ensures SizesRight(o.relocs, o.tables.dynsym)
  {
    PlanRight(raw, SymsOf(o.tables), |Contents(o.tables.symbols, Data)|);
    forall i | 0 <= i < |o.relocs|
      ensures o.relocs[i].sym < |o.tables.dynsym| &&
              (o.relocs[i].rtype == R_COPY ==> o.relocs[i].symSize == o.tables.dynsym[o.relocs[i].sym].size)
    {
      assert SizeRight(o.draft.plan.All()[i], SymsOf(o.tables));
    }
  }

  /** An entry writes no more than the writer reserved for it. */
  lemma DynWidth(ctx: DynamicLink.Ctx, i: nat, r: Reloc)
    requires DynamicLink.ValidCtx(ctx) && DynamicLink.ValidEntry(ctx, AsRela(r))
    requires r.rtype == R_COPY ==> r.symSize == ctx.core.symtab.symbols[r.sym].size
    ensures DynamicLink.DynAct(ctx, i, AsRela(r)).Width() <= Width(r)
  {
  }

  lemma PltWidth(ctx: DynamicLink.Ctx, isLazy: bool, i: nat, r: Reloc)
    requires DynamicLink.ValidCtx(ctx) && DynamicLink.ValidEntry(ctx, AsRela(r)) && r.rtype != R_COPY
    ensures DynamicLink.PltAct(ctx, isLazy, i, AsRela(r)).Width() <= Width(r)
  {
  }

  lemma RelativeWidth(base: u64, r: Reloc)
    requires r.rtype != R_COPY
    ensures DynamicLink.RelativeAct(base, AsRela(r)).Width() <= Width(r)
  {
  }

  // ---------------------------------------------------------------- the work of the run

  /** The image that is relocated is the written library: its symbols are those of the file, and
      its GOT for lazy binding is `.got.plt`. */
  ghost predicate RunsOn(ctx: DynamicLink.Ctx, opt: DynamicRun.Options, o: Output) {
    && |o.draft.plan.Dyn()| <= |o.relocs| && ctx.core.symtab.symbols == o.tables.dynsym
    && DynamicRun.ValidRun(ctx, RelocationsOf(o)) && opt.got == Some(AddrOf(o.draft.laid, GotPlt))
  }

  /** Work that stays in the field of a relocation. */
  predicate InFieldOf(w: RelocPass.Work, r: Reloc) {
    w.off == r.offset && w.act.Width() <= Width(r)
  }

  /** The relocations of a class have the class's type. */
  ghost predicate TypesRight(o: Output) {
    && |o.relocs| == |o.draft.plan.All()| && SizesRight(o.relocs, o.tables.dynsym)
    && (forall i :: 0 <= i < |o.draft.plan.relative| ==> o.relocs[i].rtype == R_RELATIVE)
    && (forall i :: |o.draft.plan.Dyn()| <= i < |o.relocs| ==> o.relocs[i].rtype == R_JUMP_SLOT)
  }

  lemma ClassTypes(raw: seq<RelocEntry>, s: Syms, dataLen: nat)
    requires AllKnown(raw, s) && ValidSyms(s)
    ensures var plan := PlanOf(raw, s, dataLen);
            && (forall i :: 0 <= i < |plan.relative| ==> plan.relative[i].rtype == R_RELATIVE)
            && (forall i :: 0 <= i < |plan.plt| ==> plan.plt[i].rtype == R_JUMP_SLOT)
  {
    KnownPart(raw, s, 0);
    KnownPart(raw, s, 4);
    var plan := PlanOf(raw, s, dataLen);
    forall i | 0 <= i < |plan.relative| ensures plan.relative[i].rtype == R_RELATIVE {
      assert Class(OfClass(raw, 0)[i]) == 0;
    }
    forall i | 0 <= i < |plan.plt| ensures plan.plt[i].rtype == R_JUMP_SLOT {
      assert Class(OfClass(raw, 4)[i]) == 4;
    }
  }

  lemma OutputTypes(o: Output, raw: seq<RelocEntry>)
    requires PlannedFrom(raw, o.tables, o.draft.plan) && |o.tables.dynsym| > 0
    requires o.relocs == FinalAll(o.draft.plan, PlacesOf(o.draft.laid), ValuesOf(o.tables))
    ensures TypesRight(o)
  {
    OutputSizes(o, raw);
    ClassTypes(raw, SymsOf(o.tables), |Contents(o.tables.symbols, Data)|);
    var plan := o.draft.plan;
    forall i | 0 <= i < |plan.relative| ensures o.relocs[i].rtype == R_RELATIVE {
      assert plan.All()[i] == plan.relative[i];
    }
    forall i | |plan.Dyn()| <= i < |o.relocs| ensures o.relocs[i].rtype == R_JUMP_SLOT {
      assert plan.All()[i] == plan.plt[i - |plan.Dyn()|];
    }
  }

  lemma RelativeField(base: u64, rs: seq<Reloc>, i: nat)
    requires i < |rs| && rs[i].rtype == R_RELATIVE
    ensures i < |DynamicRun.RelativeWork(base, DynamicRun.Rel(AsRelas(rs)))|
    ensures InFieldOf(DynamicRun.RelativeWork(base, DynamicRun.Rel(AsRelas(rs)))[i], rs[i])
  {
    RelativeWidth(base, rs[i]);
  }

  lemma DynField(ctx: DynamicLink.Ctx, rs: seq<Reloc>, i: nat)
    requires DynamicLink.ValidCtx(ctx) && DynamicRun.ValidEntries(ctx, AsRelas(rs)) && i < |rs|
    requires rs[i].rtype == R_COPY ==> rs[i].symSize == ctx.core.symtab.symbols[rs[i].sym].size
    ensures InFieldOf(DynamicRun.DynWork(ctx, AsRelas(rs))[i], rs[i])
  {
    DynWidth(ctx, i, rs[i]);
  }

  lemma PltField(ctx: DynamicLink.Ctx, isLazy: bool, pos: nat, rs: seq<Reloc>, i: nat)
    requires DynamicLink.ValidCtx(ctx) && DynamicRun.ValidEntries(ctx, AsRelas(rs)) && i < |rs|
    requires rs[i].rtype != R_COPY
    ensures InFieldOf(DynamicRun.PltWork(ctx, isLazy, pos, AsRelas(rs))[i], rs[i])
  {
    PltWidth(ctx, isLazy, pos + i, rs[i]);
  }

  lemma Joined(a: seq<RelocPass.Work>, b: seq<RelocPass.Work>, c: seq<RelocPass.Work>, d: seq<RelocPass.Work>, i: nat)
    requires i < |a| + |b| + |c| + |d|
    ensures (a + b + c + d)[i] ==
            if i < |a| then a[i] else if i < |a| + |b| then b[i - |a|]
            else if i < |a| + |b| + |c| then c[i - |a| - |b|] else d[i - |a| - |b| - |c|]
  {
  }

  /** The four parts of the run, one behind the other. */
  lemma RunIs(ctx: DynamicLink.Ctx, opt: DynamicRun.Options, rl: DynamicRun.Relocations, i: nat)
    requires DynamicRun.ValidRun(ctx, rl) && rl.relative.Rel? && i < |DynamicRun.AllWork(ctx, opt, rl)|
    ensures var w, a, b, c := DynamicRun.AllWork(ctx, opt, rl)[i], |rl.relative.entries|, |rl.dynrel|, |rl.pltrel|;
            if i < a then w == DynamicRun.RelativeWork(ctx.core.base, rl.relative)[i]
            else if i < a + b then w == DynamicRun.DynWork(ctx, rl.dynrel)[i - a]
            else if i < a + b + c then w == DynamicRun.PltWork(ctx, opt.isLazy, b, rl.pltrel)[i - a - b]
            else i - a - b - c < |DynamicRun.LazyWork(opt, rl.pltrel)| &&
                 w == DynamicRun.LazyWork(opt, rl.pltrel)[i - a - b - c]
  {
    Joined(DynamicRun.RelativeWork(ctx.core.base, rl.relative), DynamicRun.DynWork(ctx, rl.dynrel),
           DynamicRun.PltWork(ctx, opt.isLazy, |rl.dynrel|, rl.pltrel), DynamicRun.LazyWork(opt, rl.pltrel), i);
  }

  lemma RelativeAt(ctx: DynamicLink.Ctx, opt: DynamicRun.Options, o: Output, i: nat)
    requires RunsOn(ctx, opt, o) && TypesRight(o) && i < |o.draft.plan.relative|
    requires i < |DynamicRun.AllWork(ctx, opt, RelocationsOf(o))|
    ensures InFieldOf(DynamicRun.AllWork(ctx, opt, RelocationsOf(o))[i], o.relocs[i])
  {
    RunIs(ctx, opt, RelocationsOf(o), i);
    RelativeField(ctx.core.base, o.relocs[..|o.draft.plan.relative|], i);
  }

  lemma DynAt(ctx: DynamicLink.Ctx, opt: DynamicRun.Options, o: Output, i: nat)
    requires RunsOn(ctx, opt, o) && TypesRight(o) && |o.draft.plan.relative| <= i < |o.draft.plan.Dyn()|
    requires i < |DynamicRun.AllWork(ctx, opt, RelocationsOf(o))|
    ensures InFieldOf(DynamicRun.AllWork(ctx, opt, RelocationsOf(o))[i], o.relocs[i])
  {
    var n, k := |o.draft.plan.relative|, |o.draft.plan.Dyn()|;
    var rs := o.relocs[n..k];
    assert rs[i - n] == o.relocs[i];
    RunIs(ctx, opt, RelocationsOf(o), i);
    DynField(ctx, rs, i - n);
  }

  lemma PltAt(ctx: DynamicLink.Ctx, opt: DynamicRun.Options, o: Output, i: nat)
    requires RunsOn(ctx, opt, o) && TypesRight(o) && |o.draft.plan.Dyn()| <= i < |o.relocs|
    requires i < |DynamicRun.AllWork(ctx, opt, RelocationsOf(o))|
    ensures InFieldOf(DynamicRun.AllWork(ctx, opt, RelocationsOf(o))[i], o.relocs[i])
  {
    var k, rl := |o.draft.plan.Dyn()|, RelocationsOf(o);
    RunIs(ctx, opt, rl, i);
    PltField(ctx, opt.isLazy, |rl.dynrel|, o.relocs[k..], i - k);
  }

  /** Entry `i` of the run stays in the field of relocation `i` of the file. */
  lemma WorkAt(ctx: DynamicLink.Ctx, opt: DynamicRun.Options, o: Output, i: nat)
    requires RunsOn(ctx, opt, o) && TypesRight(o) && i < |DynamicRun.AllWork(ctx, opt, RelocationsOf(o))|
    requires i < |o.relocs|
    ensures InFieldOf(DynamicRun.AllWork(ctx, opt, RelocationsOf(o))[i], o.relocs[i])
  {
    if i < |o.draft.plan.relative| {
      RelativeAt(ctx, opt, o, i);
    } else if i < |o.draft.plan.Dyn()| {
      DynAt(ctx, opt, o, i);
    } else {
      PltAt(ctx, opt, o, i);
    }
  }

  /** Behind them come the two words of lazy binding. */
  lemma LazyAt(ctx: DynamicLink.Ctx, opt: DynamicRun.Options, o: Output, i: nat)
    requires RunsOn(ctx, opt, o) && TypesRight(o) && i < |DynamicRun.AllWork(ctx, opt, RelocationsOf(o))|
    requires |o.relocs| <= i
    ensures var w := DynamicRun.AllWork(ctx, opt, RelocationsOf(o))[i];
            && w.act.Write? && |w.act.bytes| == 8 && i - |o.relocs| < 2
            && w.off == AddrOf(o.draft.laid, GotPlt) + 8 + 8 * (i - |o.relocs|)
  {
    RunIs(ctx, opt, RelocationsOf(o), i);
  }

  // ------------------------------------------------------------- entries do not clash

  /** The fields of the file: apart from each other, and from the words of lazy binding, and
      inside the image. */
  ghost predicate FieldsGood(rs: seq<Reloc>, gotPlt: nat, size: nat) {
    && (forall i, j :: 0 <= i < j < |rs| ==> FieldsDisjoint(rs[i], rs[j]))
    && (forall i :: 0 <= i < |rs| ==> Disjoint(rs[i].offset, Width(rs[i]), gotPlt + 8, 16))
    && (forall i :: 0 <= i < |rs| ==> rs[i].offset + Width(rs[i]) <= size) && gotPlt + 24 <= size
  }

  predicate FieldsDisjoint(r: Reloc, r': Reloc) {
    Disjoint(r.offset, Width(r), r'.offset, Width(r'))
  }

  lemma WorkApart(ctx: DynamicLink.Ctx, opt: DynamicRun.Options, o: Output, size: nat, i: nat, j: nat)
    requires RunsOn(ctx, opt, o) && TypesRight(o) && FieldsGood(o.relocs, AddrOf(o.draft.laid, GotPlt), size)
    requires i < j < |DynamicRun.AllWork(ctx, opt, RelocationsOf(o))|
    ensures var all := DynamicRun.AllWork(ctx, opt, RelocationsOf(o));
            Disjoint(all[i].off, all[i].act.Width(), all[j].off, all[j].act.Width())
  {
    var rs := o.relocs;
    if j < |rs| {
      WorkAt(ctx, opt, o, i);
      WorkAt(ctx, opt, o, j);
      assert FieldsDisjoint(rs[i], rs[j]);
    } else if i < |rs| {
      WorkAt(ctx, opt, o, i);
      LazyAt(ctx, opt, o, j);
    } else {
      LazyAt(ctx, opt, o, i);
      LazyAt(ctx, opt, o, j);
    }
  }

  /** Copies from the image itself stay inside it. */
  ghost predicate CopiesInside(work: seq<RelocPass.Work>, size: nat) {
    forall i :: 0 <= i < |work| && work[i].act.CopyOwn? ==> work[i].act.from + work[i].act.len <= size
  }

  lemma WorkRoom(ctx: DynamicLink.Ctx, opt: DynamicRun.Options, o: Output, img: RelocPass.Image, i: nat)
    requires RunsOn(ctx, opt, o) && TypesRight(o) && FieldsGood(o.relocs, AddrOf(o.draft.laid, GotPlt), |img.m|)
    requires CopiesInside(DynamicRun.AllWork(ctx, opt, RelocationsOf(o)), |img.m|)
    requires i < |DynamicRun.AllWork(ctx, opt, RelocationsOf(o))|
    ensures RelocPass.Room(img, DynamicRun.AllWork(ctx, opt, RelocationsOf(o))[i])
  {
    if i < |o.relocs| {
      WorkAt(ctx, opt, o, i);
    } else {
      LazyAt(ctx, opt, o, i);
    }
  }

  /** The run over a written library is ready to start. */
  lemma RunReady(ctx: DynamicLink.Ctx, opt: DynamicRun.Options, o: Output, img: RelocPass.Image)
    requires RunsOn(ctx, opt, o) && TypesRight(o) && FieldsGood(o.relocs, AddrOf(o.draft.laid, GotPlt), |img.m|)
    requires CopiesInside(DynamicRun.AllWork(ctx, opt, RelocationsOf(o)), |img.m|)
    ensures DynamicRun.Ready(img, DynamicRun.AllWork(ctx, opt, RelocationsOf(o)))
  {
    var all := DynamicRun.AllWork(ctx, opt, RelocationsOf(o));
    forall i, j | 0 <= i < j < |all|
      ensures Disjoint(all[i].off, all[i].act.Width(), all[j].off, all[j].act.Width())
    {
      WorkApart(ctx, opt, o, |img.m|, i, j);
    }
    forall i | 0 <= i < |all| ensures RelocPass.Room(img, all[i]) {
      WorkRoom(ctx, opt, o, img, i);
    }
  }

  // ------------------------------------------------------------- the fields of the file

  lemma EntryInside(plan: Plan, dataLen: nat, p: Places, v: Values, size: nat, i: nat)
    requires InPlace(plan, dataLen) && SectionsApart(plan, dataLen, p) && i < |plan.All()|
    requires p.got + plan.GotSize() <= size && p.gotPlt + plan.GotPltSize() <= size
    requires p.data + dataLen + CopySize(plan.copies) <= size
    ensures var r := FinalAll(plan, p, v)[i];
            r.offset + Width(r) <= size && Disjoint(r.offset, Width(r), p.gotPlt + 8, 16)
  {
    EntryPlace(plan, dataLen, p, v, i);
  }

  /** The three sections that relocations write are in the image. */
  lemma SectionsInside(o: Output, base: nat, code: Code, space: ElfSegments, m: seq<byte>)
    requires Complete(o, base, code) && SectionsLoaded(o.draft.laid, base, o.bytes.Alloc(), space, m)
    requires space.offset == 0
    ensures var p := PlacesOf(o.draft.laid);
            && p.got + o.draft.plan.GotSize() <= |m| && p.gotPlt + o.draft.plan.GotPltSize() <= |m|
            && p.data + |Contents(o.tables.symbols, Data)| + o.draft.copySize <= |m|
  {
    GotIn(o.draft, o.tables, base, o.bytes, space, m);
    GotPltIn(o.draft, o.tables, base, o.bytes, space, m);
    DataReads(o.draft, o.tables, o.bytes, base, space, m);
  }

  lemma GotIn(d: Draft, t: Tables, base: nat, b: Bytes, space: ElfSegments, m: seq<byte>)
    requires Drafted(d, t, base) && SectionsLoaded(d.laid, base, b.Alloc(), space, m)
    ensures ReadsAt(m, space, AddrOf(d.laid, Got), b.got)
  {
    ThreeSections(DraftSizes(t, d));
    OneTableIn(d.laid, DraftSizes(t, d), base, b.Alloc(), space, m, Fresh(Got, 8, GOT, DraftSizes(t, d)));
  }

  lemma GotPltIn(d: Draft, t: Tables, base: nat, b: Bytes, space: ElfSegments, m: seq<byte>)
    requires Drafted(d, t, base) && SectionsLoaded(d.laid, base, b.Alloc(), space, m)
    ensures ReadsAt(m, space, AddrOf(d.laid, GotPlt), b.gotPlt)
  {
    ThreeSections(DraftSizes(t, d));
    OneTableIn(d.laid, DraftSizes(t, d), base, b.Alloc(), space, m, Fresh(GotPlt, 8, GOT_PLT, DraftSizes(t, d)));
  }

  /** The fields of a written and loaded library are good. */
  lemma OutputFields(o: Output, base: nat, code: Code, raw: seq<RelocEntry>, space: ElfSegments, m: seq<byte>)
    requires WrittenFrom(o, base, code, raw) && space.offset == 0
    requires SectionsLoaded(o.draft.laid, base, o.bytes.Alloc(), space, m)
    ensures FieldsGood(o.relocs, AddrOf(o.draft.laid, GotPlt), |m|)
  {
    var n := |Contents(o.tables.symbols, Data)|;
    SectionsInside(o, base, code, space, m);
    DraftApart(o.draft, o.tables, base);
    PlanInPlace(raw, SymsOf(o.tables), n);
    forall i | 0 <= i < |o.relocs|
      ensures && o.relocs[i].offset + Width(o.relocs[i]) <= |m|
              && Disjoint(o.relocs[i].offset, Width(o.relocs[i]), AddrOf(o.draft.laid, GotPlt) + 8, 16)
    {
      EntryInside(o.draft.plan, n, PlacesOf(o.draft.laid), ValuesOf(o.tables), |m|, i);
    }
    forall i, j | 0 <= i < j < |o.relocs| ensures FieldsDisjoint(o.relocs[i], o.relocs[j]) {
      OutputFieldsApart(o, raw, base, code, i, j);
    }
  }

  // ------------------------------------------------------------------------- the run

  /** A library for base address 0 is mapped from its first byte on. */
  lemma OffsetZero(o: Output, code: Code, space: ElfSegments, total: nat)
    requires Complete(o, 0, code) && SpaceAsked(o, space, total)
    ensures space.offset == 0
  {
    SpaceOfDraft(o.draft, o.tables, 0, space);
  }

  /** What a run needs: the tables give the writer's relocations, and the work is ready. */
  lemma WrittenReady(o: Output, code: Code, raw: seq<RelocEntry>, space: ElfSegments, m: seq<byte>,
                     ctx: DynamicLink.Ctx, opt: DynamicRun.Options, flags: seq<bool>)
    requires WrittenFrom(o, 0, code, raw) && Types32(raw) && space.offset == 0 && RunsOn(ctx, opt, o)
    requires SectionsLoaded(o.draft.laid, 0, o.bytes.Alloc(), space, m)
    requires CopiesInside(DynamicRun.AllWork(ctx, opt, RelocationsOf(o)), |m|)
    ensures DynamicRun.Ready(RelocPass.Image(m, flags), DynamicRun.AllWork(ctx, opt, RelocationsOf(o)))
    ensures DynamicRun.Started(RelocationsOf(o))
  {
    OutputTypes(o, raw);
    OutputFields(o, 0, code, raw, space, m);
    RunReady(ctx, opt, o, RelocPass.Image(m, flags));
  }

  lemma WrittenTables(o: Output, code: Code, raw: seq<RelocEntry>, space: ElfSegments, m: seq<byte>, nowhere: nat)
    requires WrittenFrom(o, 0, code, raw) && Types32(raw) && space.offset == 0
    requires SectionsLoaded(o.draft.laid, 0, o.bytes.Alloc(), space, m)
    requires nowhere != AddrOf(o.draft.laid, RelaPlt) + 24 * |o.draft.plan.plt|
    ensures |o.draft.plan.Dyn()| <= |o.relocs|
    ensures var plan, laid := o.draft.plan, o.draft.laid;
            match RelocTables.Split(TableAt(AddrOf(laid, RelaPlt), |plan.plt|),
                                    TableAt(AddrOf(laid, RelaDyn), |plan.Dyn()|),
                                    None, |plan.relative|, nowhere)
            case Some(p) => DynamicRun.ReadTables(DynamicMeaning.ViewOf(m), p) == RelocationsOf(o)
            case None => false
  {
    RelocsLoaded(o, 0, code, raw, space, m);
    TablesApart(o.draft, o.tables, 0);
    RelocBytesIn(o, 0, code, space, m);
    TablesGive(o, space, m, nowhere);
  }

  /** The dynamic linker over the loaded image of a written library, with the tables that
      `.dynamic` points to. It succeeds exactly when no entry stops it and it can finish; then
      every relocation that the writer was asked for has its meaning. */
  method RelocateWritten(ctx: DynamicLink.Ctx, opt: DynamicRun.Options, needed: seq<SymbolSearch.Name>,
                         plt: Option<RelocTables.Slice>, dyn: Option<RelocTables.Slice>, relCount: nat, nowhere: nat,
                         mem: array<byte>, ghost o: Output, ghost code: Code, ghost raw: seq<RelocEntry>,
                         ghost space: ElfSegments, ghost total: nat)
    returns (s: RelocPass.Status, deps: seq<Lib>, lazy: Option<DynamicRun.LazyScope>)
    requires WrittenFrom(o, 0, code, raw) && Types32(raw) && SpaceAsked(o, space, total) && RunsOn(ctx, opt, o)
    requires SectionsLoaded(o.draft.laid, 0, o.bytes.Alloc(), space, mem[..])
    requires CopiesInside(DynamicRun.AllWork(ctx, opt, RelocationsOf(o)), mem.Length)
    requires plt == TableAt(AddrOf(o.draft.laid, RelaPlt), |o.draft.plan.plt|)
    requires dyn == TableAt(AddrOf(o.draft.laid, RelaDyn), |o.draft.plan.Dyn()|) && relCount == |o.draft.plan.relative|
    requires nowhere != AddrOf(o.draft.laid, RelaPlt) + 24 * |o.draft.plan.plt|
    modifies mem
    ensures var rl := RelocationsOf(o);
            && (rl.IsEmpty() ==> s.Success? && mem[..] == old(mem[..]))
            && (!rl.IsEmpty() ==>
                  (s.Success? <==> DynamicRun.Clean(DynamicRun.AllWork(ctx, opt, rl), |ctx.scope|) &&
                                   DynamicRun.CanFinish(opt, rl)))
            && (!rl.IsEmpty() && s.Success? ==> DynamicMeaning.Meant(ctx, opt, rl, old(mem[..]), mem[..]))
  {
    OffsetZero(o, code, space, total);
    WrittenTables(o, code, raw, space, mem[..], nowhere);
    WrittenReady(o, code, raw, space, mem[..], ctx, opt, seq(|ctx.scope|, _ => false));
    s, deps, lazy := DynamicMeaning.RelocateTables(ctx, opt, needed, plt, dyn, None, relCount, nowhere, mem);
  }
}
