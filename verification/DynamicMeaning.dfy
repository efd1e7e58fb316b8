/** What a relocated dynamic image holds, entry by entry, in the terms of the
    relocation formulas: A is the addend, B the load bias, S the symbol's address. */
module DynamicMeaning {
  import opened Words
  import opened Symbols
  import opened SymbolSearch
  import opened RelocPass
  import opened DynamicLink
  import opened DynamicRun
  import opened GnuIndex

  ghost predicate WordIs(m: seq<byte>, off: nat, v: int) {
    off + 8 <= |m| && Load(m, off, 8) == Wrap64(v)
  }

  lemma WordWritten(m: seq<byte>, off: nat, v: int)
    requires off + 8 <= |m| && m[off..off + 8] == Word(v)
    ensures WordIs(m, off, v)
  {
    LittleEndianDecodes(Wrap64(v), 8);
    Pow256Values();
  }

  /** The definition of the entry's symbol, if it has one with a value. */
  ghost function Definition(ctx: Ctx, r: Rela): Option<(Sym, Lib)>
    requires ValidCtx(ctx) && r.sym < |ctx.core.symtab.symbols|
  {
    match Symdef(ctx.hs, ctx.core, ctx.scope, r.sym)
    case Hit(f) => if f.def.sym.Some? then Some((f.def.sym.value, f.def.lib)) else None
    case _ => None
  }

  ghost predicate Copied(m: seq<byte>, off: nat, src: seq<byte>, from: nat, len: nat) {
    off + len <= |m| && from + len <= |src| && m[off..off + len] == src[from..from + len]
  }

  /** The formula of a dynamic entry's type holds in its field. A copy from the image itself
      holds what was there when its turn came: `at` is the image at that moment. */
  ghost predicate Formula(ctx: Ctx, r: Rela, at: seq<byte>, m: seq<byte>)
    requires ValidCtx(ctx) && r.sym < |ctx.core.symtab.symbols|
  {
    if r.rtype == REL_NONE then true
    else if r.rtype == REL_GOT || r.rtype == REL_SYMBOLIC then
      var s := SymbolAddr(ctx.hs, ctx.cb, ctx.core, ctx.scope, r.sym);
      s.At? && WordIs(m, r.off, s.addr + r.addend)
    else if r.rtype == REL_DTPOFF then
      var d := Definition(ctx, r);
      d.Some? && WordIs(m, r.off, d.value.0.value + r.addend)
    else if r.rtype == REL_COPY then
      var d, len := Definition(ctx, r), ctx.core.symtab.symbols[r.sym].size;
      && d.Some?
      && Copied(m, r.off, if d.value.1.id == ctx.core.id then at else d.value.1.mem, d.value.0.value, len)
    else r.rtype == REL_IRELATIVE && WordIs(m, r.off, ctx.cb.ifunc(Wrap64(ctx.core.base + r.addend)))
  }

  /** A dynamic entry was claimed by the first handler; or it has a default treatment and
      its formula holds; or it has none, and the last handler, which was then asked,
      claimed it. */
  ghost predicate DynHolds(ctx: Ctx, i: nat, r: Rela, at: seq<byte>, m: seq<byte>)
    requires ValidCtx(ctx) && ValidEntry(ctx, r)
  {
    match ctx.preHandler(i)
    case Claimed(_) => true
    case Failed => false
    case Pass => if DynDefault(ctx, r).Some? then Formula(ctx, r, at, m) else ctx.postHandler(i).Claimed?
  }

  lemma DynMeaning(ctx: Ctx, i: nat, r: Rela, m0: seq<byte>, at: seq<byte>, img: Image)
    requires ValidCtx(ctx) && ValidEntry(ctx, r)
    requires Applied(ctx.core.base, m0, img, Work(r.off, DynAct(ctx, i, r)))
    requires DynAct(ctx, i, r).CopyOwn? ==> CopiedFrom(at, img.m, Work(r.off, DynAct(ctx, i, r)))
    ensures DynHolds(ctx, i, r, at, img.m)
  {
    var a := DynAct(ctx, i, r);
    if ctx.preHandler(i).Pass? && DynDefault(ctx, r).Some? && a.Write? && |a.bytes| == 8 && r.rtype != REL_COPY {
      if r.rtype == REL_GOT || r.rtype == REL_SYMBOLIC {
        WordWritten(img.m, r.off, SymbolAddr(ctx.hs, ctx.cb, ctx.core, ctx.scope, r.sym).addr + r.addend);
      } else if r.rtype == REL_DTPOFF {
        WordWritten(img.m, r.off, Symdef(ctx.hs, ctx.core, ctx.scope, r.sym).found.def.sym.value.value + r.addend);
      } else {
        WordWritten(img.m, r.off, ctx.cb.ifunc(Wrap64(ctx.core.base + r.addend)));
      }
    }
  }

  /** A PLT entry was claimed, or its slot is right: bound to the symbol, or (lazily) its
      old contents moved by the bias. For an eager slot whose symbol is nowhere to be found
      the pass does nothing. */
  ghost predicate PltHolds(ctx: Ctx, isLazy: bool, i: nat, r: Rela, m0: seq<byte>, m: seq<byte>)
    requires ValidCtx(ctx) && ValidEntry(ctx, r)
  {
    match ctx.preHandler(i)
    case Claimed(_) => true
    case Failed => false
    case Pass =>
      if r.rtype == REL_JUMP_SLOT then
        if isLazy then r.off + 8 <= |m0| && WordIs(m, r.off, Load(m0, r.off, 8) + ctx.core.base)
        else
          match SymbolAddr(ctx.hs, ctx.cb, ctx.core, ctx.scope, r.sym)
          case At(s, _) => WordIs(m, r.off, s)
          case Unresolved => PltAct(ctx, isLazy, i, r) == Nothing(None)
          case Broken => false
      else if r.rtype == REL_IRELATIVE then WordIs(m, r.off, ctx.cb.ifunc(Wrap64(ctx.core.base + r.addend)))
      else ctx.postHandler(i).Claimed?
  }

  lemma PltMeaning(ctx: Ctx, isLazy: bool, i: nat, r: Rela, m0: seq<byte>, img: Image)
    requires ValidCtx(ctx) && ValidEntry(ctx, r)
    requires Applied(ctx.core.base, m0, img, Work(r.off, PltAct(ctx, isLazy, i, r)))
    ensures PltHolds(ctx, isLazy, i, r, m0, img.m)
  {
    var a := PltAct(ctx, isLazy, i, r);
    if a.Write? {
      if r.rtype == REL_JUMP_SLOT {
        WordWritten(img.m, r.off, SymbolAddr(ctx.hs, ctx.cb, ctx.core, ctx.scope, r.sym).addr);
      } else {
        WordWritten(img.m, r.off, ctx.cb.ifunc(Wrap64(ctx.core.base + r.addend)));
      }
    }
  }

  ghost predicate AllRelative(base: u64, entries: seq<Rela>, m: seq<byte>) {
    forall i :: 0 <= i < |entries| ==> WordIs(m, entries[i].off, base + entries[i].addend)
  }

  /** Every word that the RELR stream marks has the bias added. */
  ghost predicate AllBiased(base: u64, offs: seq<nat>, m0: seq<byte>, m: seq<byte>) {
    forall i :: 0 <= i < |offs| ==> offs[i] + 8 <= |m0| && WordIs(m, offs[i], Load(m0, offs[i], 8) + base)
  }

  /** Each relative entry holds B + A; with RELR, where A is what the word held. */
  ghost predicate RelativeHolds(base: u64, rel: RelativeRel, m0: seq<byte>, m: seq<byte>) {
    match rel
    case Rel(entries) => AllRelative(base, entries, m)
    case Relr(words) => AllBiased(base, Relr.Decode(words, 0), m0, m)
  }

  /** The image when the turn of dynamic entry `i` comes. */
  ghost predicate AtTurn(ctx: Ctx, opt: Options, rl: Relocations, m0: seq<byte>, at: seq<byte>, i: nat)
    requires ValidRun(ctx, rl)
  {
    Reaches(ctx.core.base, m0, at, AllWork(ctx, opt, rl), |RelativeWork(ctx.core.base, rl.relative)| + i)
  }

  ghost predicate DynMeant(ctx: Ctx, opt: Options, rl: Relocations, m0: seq<byte>, m: seq<byte>, i: nat)
    requires ValidRun(ctx, rl) && i < |rl.dynrel|
  {
    exists at :: AtTurn(ctx, opt, rl, m0, at, i) && DynHolds(ctx, i, rl.dynrel[i], at, m)
  }

  ghost predicate AllDyn(ctx: Ctx, opt: Options, rl: Relocations, m0: seq<byte>, m: seq<byte>)
    requires ValidRun(ctx, rl)
  {
    forall i :: 0 <= i < |rl.dynrel| ==> DynMeant(ctx, opt, rl, m0, m, i)
  }

  ghost predicate AllPlt(ctx: Ctx, isLazy: bool, pos: nat, rels: seq<Rela>, m0: seq<byte>, m: seq<byte>)
    requires ValidCtx(ctx) && ValidEntries(ctx, rels)
  {
    forall i :: 0 <= i < |rels| ==> PltHolds(ctx, isLazy, pos + i, rels[i], m0, m)
  }

  lemma PartOf(base: u64, m0: seq<byte>, img: Image, all: seq<Work>, at: nat, part: seq<Work>)
    requires PartApplied(base, m0, img, all) && Holds(all, at, part)
    ensures PartApplied(base, m0, img, part)
  {
    forall i | 0 <= i < |part| ensures Applied(base, m0, img, part[i]) {
      assert all[at + i] == part[i];
    }
  }

  lemma RelativeMeanings(base: u64, entries: seq<Rela>, m0: seq<byte>, img: Image)
    requires PartApplied(base, m0, img, RelativeWork(base, Rel(entries)))
    ensures AllRelative(base, entries, img.m)
  {
    forall i | 0 <= i < |entries| ensures WordIs(img.m, entries[i].off, base + entries[i].addend) {
      assert RelativeWork(base, Rel(entries))[i] == Work(entries[i].off, RelativeAct(base, entries[i]));
      WordWritten(img.m, entries[i].off, base + entries[i].addend);
    }
  }

  lemma RelrMeanings(base: u64, words: seq<u64>, m0: seq<byte>, img: Image)
    requires PartApplied(base, m0, img, RelativeWork(base, Relr(words)))
    ensures AllBiased(base, Relr.Decode(words, 0), m0, img.m)
  {
    AddsMeaning(base, Relr.Decode(words, 0), m0, img);
  }

  lemma AddsMeaning(base: u64, offs: seq<nat>, m0: seq<byte>, img: Image)
    requires PartApplied(base, m0, img, Relr.Adds(offs))
    ensures AllBiased(base, offs, m0, img.m)
  {
    forall i | 0 <= i < |offs| ensures offs[i] + 8 <= |m0| && WordIs(img.m, offs[i], Load(m0, offs[i], 8) + base) {
      assert Applied(base, m0, img, Relr.Adds(offs)[i]);
    }
  }

  lemma PltMeanings(ctx: Ctx, isLazy: bool, pos: nat, rels: seq<Rela>, m0: seq<byte>, img: Image)
    requires ValidCtx(ctx) && ValidEntries(ctx, rels)
    requires PartApplied(ctx.core.base, m0, img, PltWork(ctx, isLazy, pos, rels))
    ensures AllPlt(ctx, isLazy, pos, rels, m0, img.m)
  {
    forall i | 0 <= i < |rels| ensures PltHolds(ctx, isLazy, pos + i, rels[i], m0, img.m) {
      assert Applied(ctx.core.base, m0, img, PltWork(ctx, isLazy, pos, rels)[i]);
      PltMeaning(ctx, isLazy, pos + i, rels[i], m0, img);
    }
  }

  lemma RelativePart(ctx: Ctx, opt: Options, rl: Relocations, m0: seq<byte>, img: Image)
    requires ValidRun(ctx, rl) && PartApplied(ctx.core.base, m0, img, AllWork(ctx, opt, rl))
    ensures RelativeHolds(ctx.core.base, rl.relative, m0, img.m)
  {
    PartsHold(ctx, opt, rl);
    PartOf(ctx.core.base, m0, img, AllWork(ctx, opt, rl), 0, RelativeWork(ctx.core.base, rl.relative));
    match rl.relative
    case Rel(entries) => RelativeMeanings(ctx.core.base, entries, m0, img);
    case Relr(words) => RelrMeanings(ctx.core.base, words, m0, img);
  }

  /** The memories that the whole run leads through, and its copies. */
  ghost predicate Led(ctx: Ctx, opt: Options, rl: Relocations, m0: seq<byte>, m: seq<byte>)
    requires ValidRun(ctx, rl)
  {
    var all := AllWork(ctx, opt, rl);
    Reaches(ctx.core.base, m0, m, all, |all|) && OwnCopies(ctx.core.base, m0, m, all)
  }

  /** The image at the turn of entry `k` of a run; if the entry is a copy, the one it was made
      from. */
  lemma TurnOf(base: u64, m0: seq<byte>, m: seq<byte>, work: seq<Work>, k: nat) returns (at: seq<byte>)
    requires k < |work| && Reaches(base, m0, m, work, |work|) && OwnCopies(base, m0, m, work)
    ensures Reaches(base, m0, at, work, k) && (work[k].act.CopyOwn? ==> CopiedFrom(at, m, work[k]))
  {
    if work[k].act.CopyOwn? {
      assert CopyHolds(base, m0, m, work, k);
      at :| Reaches(base, m0, at, work, k) && CopiedFrom(at, m, work[k]);
    } else {
      var ms :| IsTrace(base, ms, work, |work|) && ms[0] == m0 && ms[|work|] == m;
      TracePrefix(base, ms, work, k);
      at := ms[k];
    }
  }

  lemma DynEntry(ctx: Ctx, opt: Options, rl: Relocations, m0: seq<byte>, img: Image, i: nat)
    requires ValidRun(ctx, rl) && PartApplied(ctx.core.base, m0, img, AllWork(ctx, opt, rl)) && i < |rl.dynrel|
    requires Led(ctx, opt, rl, m0, img.m)
    ensures DynMeant(ctx, opt, rl, m0, img.m, i)
  {
    var all, k := AllWork(ctx, opt, rl), |RelativeWork(ctx.core.base, rl.relative)| + i;
    DynWorkAt(ctx, opt, rl, i);
    var at := TurnOf(ctx.core.base, m0, img.m, all, k);
    assert Applied(ctx.core.base, m0, img, all[k]);
    DynMeaning(ctx, i, rl.dynrel[i], m0, at, img);
    assert AtTurn(ctx, opt, rl, m0, at, i);
  }

  lemma DynWorkAt(ctx: Ctx, opt: Options, rl: Relocations, i: nat)
    requires ValidRun(ctx, rl) && i < |rl.dynrel|
    ensures var k := |RelativeWork(ctx.core.base, rl.relative)| + i;
            k < |AllWork(ctx, opt, rl)| &&
            AllWork(ctx, opt, rl)[k] == Work(rl.dynrel[i].off, DynAct(ctx, i, rl.dynrel[i]))
  {
    JoinSecond(RelativeWork(ctx.core.base, rl.relative), DynWork(ctx, rl.dynrel),
               PltWork(ctx, opt.isLazy, |rl.dynrel|, rl.pltrel), LazyWork(opt, rl.pltrel), i);
  }

  lemma JoinSecond(a: seq<Work>, b: seq<Work>, c: seq<Work>, d: seq<Work>, j: nat)
    requires j < |b|
    ensures |a| + j < |a + b + c + d| && (a + b + c + d)[|a| + j] == b[j]
  {
  }

  lemma DynPart(ctx: Ctx, opt: Options, rl: Relocations, m0: seq<byte>, img: Image)
    requires ValidRun(ctx, rl) && PartApplied(ctx.core.base, m0, img, AllWork(ctx, opt, rl))
    requires Led(ctx, opt, rl, m0, img.m)
    ensures AllDyn(ctx, opt, rl, m0, img.m)
  {
    forall i | 0 <= i < |rl.dynrel| ensures DynMeant(ctx, opt, rl, m0, img.m, i) {
      DynEntry(ctx, opt, rl, m0, img, i);
    }
  }

  lemma PltPart(ctx: Ctx, opt: Options, rl: Relocations, m0: seq<byte>, img: Image)
    requires ValidRun(ctx, rl) && PartApplied(ctx.core.base, m0, img, AllWork(ctx, opt, rl))
    ensures AllPlt(ctx, opt.isLazy, |rl.dynrel|, rl.pltrel, m0, img.m)
  {
    PartsHold(ctx, opt, rl);
    var rw, n := RelativeWork(ctx.core.base, rl.relative), |rl.dynrel|;
    PartOf(ctx.core.base, m0, img, AllWork(ctx, opt, rl), |rw| + n, PltWork(ctx, opt.isLazy, n, rl.pltrel));
    PltMeanings(ctx, opt.isLazy, n, rl.pltrel, m0, img);
  }

  /** Every entry of a relocated image. */
  lemma ImageMeaning(ctx: Ctx, opt: Options, needed: seq<Name>, rl: Relocations, m0: seq<byte>, m: seq<byte>,
                     deps: seq<Lib>, lazy: Option<LazyScope>)
    requires ValidRun(ctx, rl) && Relocated(ctx, opt, needed, rl, m0, m, deps, lazy)
    ensures RelativeHolds(ctx.core.base, rl.relative, m0, m)
    ensures AllDyn(ctx, opt, rl, m0, m)
    ensures AllPlt(ctx, opt.isLazy, |rl.dynrel|, rl.pltrel, m0, m)
  {
    var flags :| |flags| == |ctx.scope| && PartApplied(ctx.core.base, m0, Image(m, flags), AllWork(ctx, opt, rl));
    RelativePart(ctx, opt, rl, m0, Image(m, flags));
    DynPart(ctx, opt, rl, m0, Image(m, flags));
    PltPart(ctx, opt, rl, m0, Image(m, flags));
  }

  // --------------------------------------------------------------- from the tables on

  /** The passes get the entries that the split visits, in that order. */
  lemma VisitedEntries(view: nat -> Rela, p: RelocTables.Parts)
    requires p.relative.Rel?
    ensures var rl, at := ReadTables(view, p), RelocTables.Visited(p);
            rl.relative.entries + rl.dynrel + rl.pltrel == seq(|at|, i requires 0 <= i < |at| => view(at[i]))
  {
  }

  /** What every entry of the run holds afterwards. */
  ghost predicate Meant(ctx: Ctx, opt: Options, rl: Relocations, m0: seq<byte>, m: seq<byte>)
    requires ValidRun(ctx, rl)
  {
    && RelativeHolds(ctx.core.base, rl.relative, m0, m) && AllDyn(ctx, opt, rl, m0, m)
    && AllPlt(ctx, opt.isLazy, |rl.dynrel|, rl.pltrel, m0, m)
  }

  /** The entry at an address of the image. */
  function ViewOf(m: seq<byte>): nat -> Rela {
    a => if 0 <= a && a + 24 <= |m| then DecodeRela(m[a..a + 24]) else Rela(0, 0, 0, 0)
  }

  /** No entry writes to these bytes. */
  ghost predicate Clear(work: seq<Work>, off: nat, n: nat) {
    forall i :: 0 <= i < |work| ==> Disjoint(work[i].off, work[i].act.Width(), off, n)
  }

  lemma {:induction false} TraceClear(base: u64, ms: seq<seq<byte>>, work: seq<Work>, k: nat, i: nat, off: nat, n: nat)
    requires IsTrace(base, ms, work, k) && Clear(work, off, n) && off + n <= |ms[0]| && i <= k
    ensures |ms[i]| == |ms[0]| && ms[i][off..off + n] == ms[0][off..off + n]
  {
    if i > 0 {
      TraceClear(base, ms, work, k, i - 1, off, n);
      assert LeadsAt(base, ms, work, i - 1);
      LeadsElsewhere(base, ms[i - 1], work[i - 1], ms[i], off, n);
    }
  }

  /** Bytes that no entry writes are the same at every moment of the run: so the tables, the
      symbols and the names that are read on the way are those that were there at first. */
  lemma ReadOnTheWay(base: u64, m0: seq<byte>, at: seq<byte>, work: seq<Work>, k: nat, off: nat, n: nat)
    requires k <= |work| && Reaches(base, m0, at, work, k) && Clear(work, off, n) && off + n <= |m0|
    ensures |at| == |m0| && at[off..off + n] == m0[off..off + n]
    ensures n == 24 ==> ViewOf(at)(off) == ViewOf(m0)(off)
  {
    var ms :| IsTrace(base, ms, work, k) && ms[0] == m0 && ms[k] == at;
    TraceClear(base, ms, work, k, k, off, n);
  }

  /** The tables of an image, read from its memory, split into passes (a panic if the counts
      do not fit) and applied: on success every entry has its meaning. */
  method RelocateTables(ctx: Ctx, opt: Options, needed: seq<Name>, pltrel: Option<RelocTables.Slice>,
                        dynrel: Option<RelocTables.Slice>, relr: Option<seq<u64>>, relCount: nat, nowhere: nat,
                        mem: array<byte>)
    returns (s: Status, deps: seq<Lib>, lazy: Option<LazyScope>)
    requires var parts, view := RelocTables.Split(pltrel, dynrel, relr, relCount, nowhere), ViewOf(mem[..]);
             parts.Some? ==>
               && ValidRun(ctx, ReadTables(view, parts.value))
               && Ready(Image(mem[..], seq(|ctx.scope|, _ => false)), AllWork(ctx, opt, ReadTables(view, parts.value)))
    modifies mem
    ensures var parts := RelocTables.Split(pltrel, dynrel, relr, relCount, nowhere);
            match parts
            case None => s.Panicked? && mem[..] == old(mem[..])
            case Some(p) =>
              var rl := ReadTables(ViewOf(old(mem[..])), p);
              && (rl.IsEmpty() ==> s.Success? && mem[..] == old(mem[..]))
              && (!rl.IsEmpty() ==>
                    (s.Success? <==> Started(rl) && Clean(AllWork(ctx, opt, rl), |ctx.scope|) && CanFinish(opt, rl)))
              && (!rl.IsEmpty() && s.Success? ==> Meant(ctx, opt, rl, old(mem[..]), mem[..]))
  {
    var parts := RelocTables.Split(pltrel, dynrel, relr, relCount, nowhere);
    if parts.None? {
      return Panicked, [], None;
    }
    ghost var m0 := mem[..];
    var rl := ReadTables(ViewOf(mem[..]), parts.value);
    s, deps, lazy := RelocateImage(ctx, opt, needed, rl, mem);
    if !rl.IsEmpty() && s.Success? {
      ImageMeaning(ctx, opt, needed, rl, m0, mem[..], deps, lazy);
    }
  }

  // ----------------------------------------------------------- where formulas and code part

  /** The psABI gives S for a GLOB_DAT entry. The field of an entry that no handler claims
      holds S if and only if the addend is 0 modulo 2^64. */
  lemma GlobDatIff(ctx: Ctx, i: nat, r: Rela, m0: seq<byte>, img: Image)
    requires ValidCtx(ctx) && ValidEntry(ctx, r) && r.rtype == REL_GOT && ctx.preHandler(i).Pass?
    requires SymbolAddr(ctx.hs, ctx.cb, ctx.core, ctx.scope, r.sym).At?
    requires Applied(ctx.core.base, m0, img, Work(r.off, DynAct(ctx, i, r)))
    ensures WordIs(img.m, r.off, SymbolAddr(ctx.hs, ctx.cb, ctx.core, ctx.scope, r.sym).addr) <==> Wrap64(r.addend) == 0
  {
    DynMeaning(ctx, i, r, m0, m0, img);
    WrapCancels(SymbolAddr(ctx.hs, ctx.cb, ctx.core, ctx.scope, r.sym).addr, r.addend);
  }

  /** An image with one symbol and no scope, whose references a callback answers. */
  function Tiny(hs: Hashes, answer: Option<u64>): Ctx {
    Ctx(hs, Callbacks(_ => answer, _ => None, a => a),
        Lib(0, [], 0x10000, SymTab([Sym(0, STB_GLOBAL, 0, 0, 0, 0)], [0]), Custom(_ => None), []), [],
        _ => Pass, _ => Pass)
  }

  /** Whatever the address of its symbol, a GLOB_DAT entry with addend 4 does not get it. */
  lemma GlobDatMisses(hs: Hashes, s: u64, m0: seq<byte>)
    requires |m0| == 8
    ensures var ctx, r := Tiny(hs, Some(s)), Rela(0, REL_GOT, 0, 4);
            && ValidEntry(ctx, r) && Step(ctx.core.base, Image(m0, []), Work(0, DynAct(ctx, 0, r))).Ok?
            && SymbolAddr(ctx.hs, ctx.cb, ctx.core, ctx.scope, 0) == At(s, None)
            && !WordIs(Step(ctx.core.base, Image(m0, []), Work(0, DynAct(ctx, 0, r))).img.m, 0, s)
  {
    var ctx, r := Tiny(hs, Some(s)), Rela(0, REL_GOT, 0, 4);
    var w, img := Work(0, DynAct(ctx, 0, r)), Image(m0, []);
    EmptyDone(ctx.core.base, img, [w]);
    StepKeepsDone(ctx.core.base, img, img, [w], 0);
    assert Applied(ctx.core.base, m0, Step(ctx.core.base, img, w).img, [w][0]);
    GlobDatIff(ctx, 0, r, m0, Step(ctx.core.base, img, w).img);
  }

  /** No other entry has a field that meets the word at `off`. */
  ghost predicate Alone(work: seq<Work>, at: nat, off: nat) {
    forall j :: 0 <= j < |work| && j != at ==> Disjoint(work[j].off, work[j].act.Width(), off, 8)
  }

  /** The position of PLT entry `i` in the run. */
  ghost function PltAt(ctx: Ctx, rl: Relocations, i: nat): nat {
    |RelativeWork(ctx.core.base, rl.relative)| + |rl.dynrel| + i
  }

  /** After a run that binds eagerly, a jump slot that no handler claimed is bound if and only
      if its symbol was found; otherwise its entry did nothing, and the slot holds what was
      loaded, unless some other entry writes there. */
  lemma EagerSlotIff(ctx: Ctx, opt: Options, needed: seq<Name>, rl: Relocations, m0: seq<byte>, m: seq<byte>,
                  deps: seq<Lib>, lazy: Option<LazyScope>, i: nat)
    requires ValidRun(ctx, rl) && Relocated(ctx, opt, needed, rl, m0, m, deps, lazy) && !opt.isLazy
    requires i < |rl.pltrel| && rl.pltrel[i].rtype == REL_JUMP_SLOT && ctx.preHandler(|rl.dynrel| + i).Pass?
    ensures var r := rl.pltrel[i];
            var a, s := PltAct(ctx, false, |rl.dynrel| + i, r), SymbolAddr(ctx.hs, ctx.cb, ctx.core, ctx.scope, r.sym);
            && !s.Broken? && (s.At? <==> a.Write?) && (s.At? ==> WordIs(m, r.off, s.addr))
            && (!s.At? ==> a == Nothing(None))
            && (!s.At? && r.off + 8 <= |m0| && Alone(AllWork(ctx, opt, rl), PltAt(ctx, rl, i), r.off) ==>
                  |m| == |m0| && m[r.off..r.off + 8] == m0[r.off..r.off + 8])
  {
    ImageMeaning(ctx, opt, needed, rl, m0, m, deps, lazy);
    var r, all, at := rl.pltrel[i], AllWork(ctx, opt, rl), PltAt(ctx, rl, i);
    assert PltHolds(ctx, false, |rl.dynrel| + i, r, m0, m);
    PartsHold(ctx, opt, rl);
    assert all[at] == PltWork(ctx, false, |rl.dynrel|, rl.pltrel)[i];
    if PltAct(ctx, false, |rl.dynrel| + i, r) == Nothing(None) && r.off + 8 <= |m0| && Alone(all, at, r.off) {
      UntouchedSlice(m0, m, all, |all|, r.off, 8);
    }
  }

  /** A whole run of one unresolved jump slot: it succeeds and writes nothing. */
  lemma UnresolvedRun(hs: Hashes, opt: Options)
    requires !opt.isLazy && opt.relroOk
    ensures var ctx, rl := Tiny(hs, None), Relocations(Rel([]), [], [Rela(0, REL_JUMP_SLOT, 0, 0)]);
            && ValidRun(ctx, rl) && !rl.IsEmpty() && Started(rl) && CanFinish(opt, rl)
            && AllWork(ctx, opt, rl) == [Work(0, Nothing(None))] && Clean(AllWork(ctx, opt, rl), 0)
  {
    var ctx, rl := Tiny(hs, None), Relocations(Rel([]), [], [Rela(0, REL_JUMP_SLOT, 0, 0)]);
    assert SymbolAddr(ctx.hs, ctx.cb, ctx.core, ctx.scope, 0) == Unresolved;
    assert PltWork(ctx, false, 0, rl.pltrel) == [Work(0, Nothing(None))];
    assert AllWork(ctx, opt, rl) == [Work(0, Nothing(None))];
  }
}
