/** Lazy binding against eager binding: once every slot has been called, the memory is
    what eager relocation would have made of it, whenever the lazy scope resolves names
    as the eager search does. */
module LazyEager {
  import opened Words
  import opened Symbols
  import opened SymbolSearch
  import opened RelocPass
  import opened DynamicLink
  import opened DynamicRun
  import opened DynamicMeaning
  import opened LazyBind

  /** A PLT slot that no handler took over. */
  ghost predicate OpenSlot(ctx: Ctx, rl: Relocations, c: int) {
    0 <= c < |rl.pltrel| && rl.pltrel[c].rtype == DynamicLink.REL_JUMP_SLOT && ctx.preHandler(|rl.dynrel| + c).Pass?
  }

  /** The binder of the image that `ctx` relocates. */
  ghost predicate BinderOf(b: Binder, ctx: Ctx, rl: Relocations) {
    && b.hs == ctx.hs && b.ifunc == ctx.cb.ifunc && b.symtab == ctx.core.symtab && b.pltrel == rl.pltrel
  }

  /** Where the PLT entries start in the run. */
  ghost function PltStart(ctx: Ctx, rl: Relocations): nat {
    |RelativeWork(ctx.core.base, rl.relative)| + |rl.dynrel|
  }

  /** PLT entry `c` in the run. */
  lemma PltEntry(ctx: Ctx, opt: Options, rl: Relocations, c: nat)
    requires ValidRun(ctx, rl) && c < |rl.pltrel|
    ensures PltStart(ctx, rl) + c < |AllWork(ctx, opt, rl)|
    ensures AllWork(ctx, opt, rl)[PltStart(ctx, rl) + c] ==
            Work(rl.pltrel[c].off, PltAct(ctx, opt.isLazy, |rl.dynrel| + c, rl.pltrel[c]))
  {
    JoinThird(RelativeWork(ctx.core.base, rl.relative), DynWork(ctx, rl.dynrel),
              PltWork(ctx, opt.isLazy, |rl.dynrel|, rl.pltrel), LazyWork(opt, rl.pltrel), c);
  }

  lemma JoinThird(a: seq<Work>, b: seq<Work>, c: seq<Work>, d: seq<Work>, j: nat)
    requires j < |c|
    ensures |a| + |b| + j < |a + b + c + d| && (a + b + c + d)[|a| + |b| + j] == c[j]
  {
  }

  lemma FrontSame(front: seq<Work>, c: seq<Work>, d: seq<Work>, c': seq<Work>, d': seq<Work>, i: nat)
    requires i < |front|
    ensures (front + c + d)[i] == (front + c' + d')[i]
  {
  }

  /** The entries before the PLT do not depend on how it is bound. */
  lemma FrontEntry(ctx: Ctx, opt: Options, opt': Options, rl: Relocations, i: nat)
    requires ValidRun(ctx, rl) && i < PltStart(ctx, rl)
    ensures i < |AllWork(ctx, opt, rl)| && i < |AllWork(ctx, opt', rl)|
    ensures AllWork(ctx, opt, rl)[i] == AllWork(ctx, opt', rl)[i]
  {
    FrontSame(RelativeWork(ctx.core.base, rl.relative) + DynWork(ctx, rl.dynrel),
              PltWork(ctx, opt.isLazy, |rl.dynrel|, rl.pltrel), LazyWork(opt, rl.pltrel),
              PltWork(ctx, opt'.isLazy, |rl.dynrel|, rl.pltrel), LazyWork(opt', rl.pltrel), i);
  }

  /** The last entries are the lazy-binding words. */
  lemma LastEntries(ctx: Ctx, opt: Options, rl: Relocations, i: nat)
    requires ValidRun(ctx, rl) && PltStart(ctx, rl) + |rl.pltrel| <= i < |AllWork(ctx, opt, rl)|
    ensures opt.isLazy && opt.got.Some?
    ensures AllWork(ctx, opt, rl)[i].off in {opt.got.value + 8, opt.got.value + 16}
    ensures AllWork(ctx, opt, rl)[i].act.Write? && |AllWork(ctx, opt, rl)[i].act.bytes| == 8
  {
    PartsHold(ctx, opt, rl);
    var n := PltStart(ctx, rl) + |rl.pltrel|;
    assert AllWork(ctx, opt, rl)[n + (i - n)] == LazyWork(opt, rl.pltrel)[i - n];
  }

  /** The lazy and the eager run differ only in the open slots. */
  lemma EntriesAgree(ctx: Ctx, lazyOpt: Options, eagerOpt: Options, rl: Relocations, i: nat)
    requires ValidRun(ctx, rl) && i < PltStart(ctx, rl) + |rl.pltrel| && lazyOpt.isLazy && !eagerOpt.isLazy
    ensures i < |AllWork(ctx, lazyOpt, rl)| && i < |AllWork(ctx, eagerOpt, rl)|
    ensures var c := i - PltStart(ctx, rl);
            if OpenSlot(ctx, rl, c) then AllWork(ctx, lazyOpt, rl)[i] == Work(rl.pltrel[c].off, AddBase)
            else AllWork(ctx, lazyOpt, rl)[i] == AllWork(ctx, eagerOpt, rl)[i]
  {
    if i < PltStart(ctx, rl) {
      FrontEntry(ctx, lazyOpt, eagerOpt, rl, i);
    } else {
      var c := i - PltStart(ctx, rl);
      PltEntry(ctx, lazyOpt, rl, c);
      PltEntry(ctx, eagerOpt, rl, c);
      ActsAgree(ctx, |rl.dynrel| + c, rl.pltrel[c]);
    }
  }

  /** Only an unclaimed jump slot is treated differently. */
  lemma ActsAgree(ctx: Ctx, pos: nat, r: Rela)
    requires ValidCtx(ctx) && ValidEntry(ctx, r)
    ensures if r.rtype == DynamicLink.REL_JUMP_SLOT && ctx.preHandler(pos).Pass?
            then PltAct(ctx, true, pos, r) == AddBase
            else PltAct(ctx, true, pos, r) == PltAct(ctx, false, pos, r)
  {
  }

  /** The eager search and the lazy scope agree on the symbol of every open slot. */
  ghost predicate SameAnswers(ctx: Ctx, rl: Relocations, b: Binder)
    requires ValidRun(ctx, rl) && BinderOf(b, ctx, rl) && LazyBind.Valid(b)
  {
    forall c :: OpenSlot(ctx, rl, c) && Target(b, c).Some? ==>
      var s := SymbolAddr(ctx.hs, ctx.cb, ctx.core, ctx.scope, rl.pltrel[c].sym);
      s.At? && s.addr == Target(b, c).value
  }

  lemma EagerSlot(ctx: Ctx, opt: Options, rl: Relocations, b: Binder, c: nat)
    requires ValidRun(ctx, rl) && BinderOf(b, ctx, rl) && LazyBind.Valid(b) && SameAnswers(ctx, rl, b)
    requires OpenSlot(ctx, rl, c) && Target(b, c).Some? && !opt.isLazy
    ensures PltStart(ctx, rl) + c < |AllWork(ctx, opt, rl)|
    ensures var w := AllWork(ctx, opt, rl)[PltStart(ctx, rl) + c];
            w.off == rl.pltrel[c].off && w.act.Write? && w.act.bytes == Word(Target(b, c).value)
  {
    PltEntry(ctx, opt, rl, c);
  }

  // ------------------------------------------------------------------- the two images

  /** Everything the comparison is about: `m0` relocated eagerly to `me`, and lazily to
      `m1` and then, by calls, to `m2`. */
  datatype Runs = Runs(ctx: Ctx, lazyOpt: Options, eagerOpt: Options, rl: Relocations, b: Binder, calls: seq<nat>,
                       m0: seq<byte>, m1: seq<byte>, m2: seq<byte>, me: seq<byte>)

  ghost predicate ImageIs(ctx: Ctx, opt: Options, rl: Relocations, m0: seq<byte>, m: seq<byte>)
    requires ValidRun(ctx, rl)
  {
    && Separate(AllWork(ctx, opt, rl))
    && (exists flags :: PartApplied(ctx.core.base, m0, Image(m, flags), AllWork(ctx, opt, rl)))
    && OnlyFields(m0, m, AllWork(ctx, opt, rl), |AllWork(ctx, opt, rl)|)
    && OwnCopies(ctx.core.base, m0, m, AllWork(ctx, opt, rl))
  }

  ghost predicate ValidRuns(r: Runs) {
    && ValidRun(r.ctx, r.rl) && BinderOf(r.b, r.ctx, r.rl) && LazyBind.Valid(r.b)
    && r.lazyOpt.isLazy && !r.eagerOpt.isLazy
    && ImageIs(r.ctx, r.lazyOpt, r.rl, r.m0, r.m1) && ImageIs(r.ctx, r.eagerOpt, r.rl, r.m0, r.me)
    && Bound(r.b, r.m1, r.m2, r.calls)
    && (forall c :: c in r.calls ==> OpenSlot(r.ctx, r.rl, c))
  }

  /** A byte of a field with the same entry in both runs. */
  lemma SameEntryByte(base: u64, m0: seq<byte>, img: Image, img': Image, w: Work, k: nat)
    requires Applied(base, m0, img, w) && Applied(base, m0, img', w) && InField(w, k) && !w.act.CopyOwn?
    ensures img.m[k] == img'.m[k]
  {
    var n := w.act.Width();
    if w.act.AddBase? {
      LittleEndianInverts(img.m[w.off..w.off + 8]);
      LittleEndianInverts(img'.m[w.off..w.off + 8]);
    }
    assert img.m[w.off..w.off + n][k - w.off] == img'.m[w.off..w.off + n][k - w.off];
  }

  /** A byte of a bound slot. */
  lemma BoundByte(m2: seq<byte>, me: seq<byte>, off: nat, v: u64, k: nat)
    requires off <= k < off + 8 <= |m2| && |m2| == |me|
    requires Load(m2, off, 8) == v && me[off..off + 8] == Word(v)
    ensures m2[k] == me[k]
  {
    LittleEndianInverts(m2[off..off + 8]);
    assert m2[off..off + 8][k - off] == me[off..off + 8][k - off];
  }

  lemma CalledByte(r: Runs, c: nat, k: nat)
    requires ValidRuns(r) && SameAnswers(r.ctx, r.rl, r.b) && c in r.calls && InSlot(r.b, c, k) && k < |r.m2|
    ensures r.m2[k] == r.me[k]
  {
    EagerSlot(r.ctx, r.eagerOpt, r.rl, r.b, c);
    var E := AllWork(r.ctx, r.eagerOpt, r.rl);
    var flags :| PartApplied(r.ctx.core.base, r.m0, Image(r.me, flags), E);
    assert Applied(r.ctx.core.base, r.m0, Image(r.me, flags), E[PltStart(r.ctx, r.rl) + c]);
    BoundByte(r.m2, r.me, r.rl.pltrel[c].off, Target(r.b, c).value, k);
  }

  /** GOT words 1 and 2. */
  predicate Reserved(opt: Options, k: int) {
    opt.got.Some? && opt.got.value + 8 <= k < opt.got.value + 24
  }

  ghost predicate AllCalled(r: Runs) {
    forall c :: OpenSlot(r.ctx, r.rl, c) ==> c in r.calls
  }

  /** A byte in no slot: whatever entry has it is the same in both runs. */
  lemma SharedField(r: Runs, k: nat, i: nat)
    requires ValidRuns(r) && SameAnswers(r.ctx, r.rl, r.b) && AllCalled(r) && !Reserved(r.lazyOpt, k)
    requires forall c :: c in r.calls ==> !InSlot(r.b, c, k)
    ensures var L, E := AllWork(r.ctx, r.lazyOpt, r.rl), AllWork(r.ctx, r.eagerOpt, r.rl);
            (i < |L| && InField(L[i], k)) || (i < |E| && InField(E[i], k)) ==> i < |L| && i < |E| && L[i] == E[i]
  {
    var n := PltStart(r.ctx, r.rl);
    EagerLength(r.ctx, r.eagerOpt, r.rl);
    if i < n + |r.rl.pltrel| {
      EntriesAgree(r.ctx, r.lazyOpt, r.eagerOpt, r.rl, i);
      if OpenSlot(r.ctx, r.rl, i - n) {
        NotInSlot(r, k, i - n);
      }
    } else if i < |AllWork(r.ctx, r.lazyOpt, r.rl)| {
      LastEntries(r.ctx, r.lazyOpt, r.rl, i);
    }
  }

  lemma EagerLength(ctx: Ctx, opt: Options, rl: Relocations)
    requires ValidRun(ctx, rl) && !opt.isLazy
    ensures |AllWork(ctx, opt, rl)| == PltStart(ctx, rl) + |rl.pltrel|
  {
    PartsHold(ctx, opt, rl);
  }

  /** An open slot that does not have the byte: neither run's entry has it. */
  lemma NotInSlot(r: Runs, k: nat, c: nat)
    requires ValidRuns(r) && SameAnswers(r.ctx, r.rl, r.b) && OpenSlot(r.ctx, r.rl, c) && c in r.calls
    requires !InSlot(r.b, c, k)
    ensures var i := PltStart(r.ctx, r.rl) + c;
            var L, E := AllWork(r.ctx, r.lazyOpt, r.rl), AllWork(r.ctx, r.eagerOpt, r.rl);
            i < |L| && i < |E| && !InField(L[i], k) && !InField(E[i], k)
  {
    PltEntry(r.ctx, r.lazyOpt, r.rl, c);
    ActsAgree(r.ctx, |r.rl.dynrel| + c, r.rl.pltrel[c]);
    EagerSlot(r.ctx, r.eagerOpt, r.rl, r.b, c);
  }

  lemma UncalledByte(r: Runs, k: nat)
    requires ValidRuns(r) && SameAnswers(r.ctx, r.rl, r.b) && AllCalled(r) && !Reserved(r.lazyOpt, k) && k < |r.m1|
    requires forall c :: c in r.calls ==> !InSlot(r.b, c, k)
    ensures k < |r.me| && r.m1[k] == r.me[k]
  {
    var L, E, base := AllWork(r.ctx, r.lazyOpt, r.rl), AllWork(r.ctx, r.eagerOpt, r.rl), r.ctx.core.base;
    var lf :| PartApplied(base, r.m0, Image(r.m1, lf), L);
    var ef :| PartApplied(base, r.m0, Image(r.me, ef), E);
    forall i: nat
      ensures (i < |L| && InField(L[i], k)) || (i < |E| && InField(E[i], k)) ==>
              i < |L| && i < |E| && L[i] == E[i] {
      SharedField(r, k, i);
    }
    if i :| 0 <= i < |E| && InField(E[i], k) {
      assert Applied(base, r.m0, Image(r.m1, lf), L[i]) && Applied(base, r.m0, Image(r.me, ef), E[i]);
      if E[i].act.CopyOwn? {
        SameCopyByte(r, i, k);
      } else {
        SameEntryByte(base, r.m0, Image(r.m1, lf), Image(r.me, ef), E[i], k);
      }
    }
  }

  /** A byte that both runs copied from the image itself: they copied the same, since nothing
      that came before depends on how the PLT is bound. */
  lemma SameCopyByte(r: Runs, i: nat, k: nat)
    requires ValidRuns(r) && i < |AllWork(r.ctx, r.lazyOpt, r.rl)| && i < |AllWork(r.ctx, r.eagerOpt, r.rl)|
    requires AllWork(r.ctx, r.lazyOpt, r.rl)[i] == AllWork(r.ctx, r.eagerOpt, r.rl)[i]
    requires AllWork(r.ctx, r.eagerOpt, r.rl)[i].act.CopyOwn? && InField(AllWork(r.ctx, r.eagerOpt, r.rl)[i], k)
    ensures k < |r.m1| && k < |r.me| && r.m1[k] == r.me[k]
  {
    CopyInFront(r.ctx, r.eagerOpt, r.rl, i);
    var L, E := AllWork(r.ctx, r.lazyOpt, r.rl), AllWork(r.ctx, r.eagerOpt, r.rl);
    forall j | 0 <= j < i ensures L[j] == E[j] {
      FrontEntry(r.ctx, r.lazyOpt, r.eagerOpt, r.rl, j);
    }
    CopiesAgree(r.ctx.core.base, r.m0, r.m1, r.me, L, E, i, k);
  }

  lemma CopiesAgree(base: u64, m0: seq<byte>, m: seq<byte>, m': seq<byte>, work: seq<Work>, work': seq<Work>, i: nat,
                    k: nat)
    requires i < |work| && i < |work'| && work[i] == work'[i] && work[i].act.CopyOwn? && InField(work[i], k)
    requires (forall j :: 0 <= j < i ==> work[j] == work'[j])
    requires OwnCopies(base, m0, m, work) && OwnCopies(base, m0, m', work')
    ensures k < |m| && k < |m'| && m[k] == m'[k]
  {
    assert CopyHolds(base, m0, m, work, i) && CopyHolds(base, m0, m', work', i);
    var a :| Reaches(base, m0, a, work, i) && CopiedFrom(a, m, work[i]);
    var b :| Reaches(base, m0, b, work', i) && CopiedFrom(b, m', work'[i]);
    ReachesOne(base, m0, a, b, work, work', i);
    var w := work[i];
    assert m[w.off..w.off + w.act.len][k - w.off] == m'[w.off..w.off + w.act.len][k - w.off];
  }

  /** Only entries before the PLT copy from the image itself. */
  lemma CopyInFront(ctx: Ctx, opt: Options, rl: Relocations, i: nat)
    requires ValidRun(ctx, rl) && i < |AllWork(ctx, opt, rl)|
    ensures AllWork(ctx, opt, rl)[i].act.CopyOwn? ==> i < PltStart(ctx, rl)
  {
    if PltStart(ctx, rl) + |rl.pltrel| <= i {
      LastEntries(ctx, opt, rl, i);
    } else if PltStart(ctx, rl) <= i {
      PltEntry(ctx, opt, rl, i - PltStart(ctx, rl));
    }
  }

  /** Once every open slot has been called, every byte outside the two reserved GOT words
      is what eager relocation puts there. */
  lemma LazyIsEager(r: Runs)
    requires ValidRuns(r) && SameAnswers(r.ctx, r.rl, r.b) && AllCalled(r)
    ensures |r.m2| == |r.me|
    ensures forall k :: 0 <= k < |r.me| && !Reserved(r.lazyOpt, k) ==> r.m2[k] == r.me[k]
  {
    forall k | 0 <= k < |r.me| && !Reserved(r.lazyOpt, k) ensures r.m2[k] == r.me[k] {
      if c :| c in r.calls && InSlot(r.b, c, k) {
        CalledByte(r, c, k);
      } else {
        UncalledByte(r, k);
      }
    }
  }

  // ------------------------------------------------------------------- at every moment

  /** The reserved words are outside every slot. */
  ghost predicate GotApart(b: Binder, got: nat) {
    forall i :: IsSlot(b, i) ==> Disjoint(b.pltrel[i].off, 8, got + 8, 16)
  }

  lemma UnboundRange(b: Binder, m1: seq<byte>, m: seq<byte>, calls: seq<nat>, off: nat, n: nat)
    requires LazyBind.Valid(b) && Bound(b, m1, m, calls) && off + n <= |m|
    requires forall i :: IsSlot(b, i) ==> Disjoint(b.pltrel[i].off, 8, off, n)
    ensures m[off..off + n] == m1[off..off + n]
  {
    forall k | off <= k < off + n ensures m[k] == m1[k] {
      assert forall i :: !InSlot(b, i, k);
    }
  }

  /** A slot holds either its stub's address (its original contents moved by the bias)
      or, once called, the address its symbol resolves to. */
  ghost predicate SlotHolds(ctx: Ctx, b: Binder, calls: seq<nat>, m0: seq<byte>, m2: seq<byte>, c: nat)
    requires LazyBind.Valid(b) && c < |b.pltrel|
  {
    && b.pltrel[c].off + 8 <= |m0| && |m0| == |m2|
    && (if c in calls then Target(b, c) == Some(Load(m2, b.pltrel[c].off, 8))
        else WordIs(m2, b.pltrel[c].off, Load(m0, b.pltrel[c].off, 8) + ctx.core.base))
  }

  lemma SlotAfter(ctx: Ctx, rl: Relocations, b: Binder, calls: seq<nat>, m0: seq<byte>, m1: seq<byte>, m2: seq<byte>,
                  c: nat)
    requires ValidRun(ctx, rl) && BinderOf(b, ctx, rl) && LazyBind.Valid(b) && OpenSlot(ctx, rl, c)
    requires PltHolds(ctx, true, |rl.dynrel| + c, rl.pltrel[c], m0, m1) && |m0| == |m1| && Bound(b, m1, m2, calls)
    ensures SlotHolds(ctx, b, calls, m0, m2, c)
  {
    assert IsSlot(b, c);
  }

  /** At every moment of every run of calls, in any order and with repeats. */
  lemma SlotsAtAnyMoment(ctx: Ctx, opt: Options, needed: seq<Name>, rl: Relocations, b: Binder, calls: seq<nat>,
                         m0: seq<byte>, m1: seq<byte>, m2: seq<byte>, deps: seq<Lib>)
    requires ValidRun(ctx, rl) && BinderOf(b, ctx, rl) && LazyBind.Valid(b) && opt.isLazy
    requires Relocated(ctx, opt, needed, rl, m0, m1, deps, b.scope)
    requires Bound(b, m1, m2, calls)
    ensures forall c :: OpenSlot(ctx, rl, c) ==> SlotHolds(ctx, b, calls, m0, m2, c)
  {
    forall c | OpenSlot(ctx, rl, c) ensures SlotHolds(ctx, b, calls, m0, m2, c) {
      SlotRelocated(ctx, opt, needed, rl, m0, m1, deps, b.scope, c);
      SlotAfter(ctx, rl, b, calls, m0, m1, m2, c);
    }
  }

  lemma SlotRelocated(ctx: Ctx, opt: Options, needed: seq<Name>, rl: Relocations, m0: seq<byte>, m1: seq<byte>,
                      deps: seq<Lib>, lazy: Option<LazyScope>, c: nat)
    requires ValidRun(ctx, rl) && opt.isLazy && c < |rl.pltrel| && Relocated(ctx, opt, needed, rl, m0, m1, deps, lazy)
    ensures PltHolds(ctx, true, |rl.dynrel| + c, rl.pltrel[c], m0, m1) && |m0| == |m1|
  {
    ImageMeaning(ctx, opt, needed, rl, m0, m1, deps, lazy);
  }

  lemma WordsPrepared(ctx: Ctx, opt: Options, rl: Relocations, m0: seq<byte>, img: Image)
    requires ValidRun(ctx, rl) && opt.isLazy && rl.pltrel != [] && opt.got.Some?
    requires PartApplied(ctx.core.base, m0, img, AllWork(ctx, opt, rl))
    ensures var got := opt.got.value;
            got + 24 <= |img.m|
            && img.m[got + 8..got + 16] == Word(opt.handle) && img.m[got + 16..got + 24] == Word(opt.resolver)
  {
    PartsHold(ctx, opt, rl);
    var lw := LazyWork(opt, rl.pltrel);
    PartOf(ctx.core.base, m0, img, AllWork(ctx, opt, rl), PltStart(ctx, rl) + |rl.pltrel|, lw);
    assert Applied(ctx.core.base, m0, img, lw[0]) && Applied(ctx.core.base, m0, img, lw[1]);
  }

  /** The words that the resolver needs survive every run of calls. */
  lemma ReservedIntact(ctx: Ctx, opt: Options, rl: Relocations, b: Binder, calls: seq<nat>,
                       m0: seq<byte>, img1: Image, m2: seq<byte>)
    requires ValidRun(ctx, rl) && LazyBind.Valid(b) && opt.isLazy && rl.pltrel != [] && opt.got.Some?
    requires PartApplied(ctx.core.base, m0, img1, AllWork(ctx, opt, rl))
    requires Bound(b, img1.m, m2, calls) && GotApart(b, opt.got.value)
    ensures WordIs(m2, opt.got.value + 8, opt.handle) && WordIs(m2, opt.got.value + 16, opt.resolver)
  {
    var got := opt.got.value;
    WordsPrepared(ctx, opt, rl, m0, img1);
    UnboundRange(b, img1.m, m2, calls, got + 8, 8);
    UnboundRange(b, img1.m, m2, calls, got + 16, 8);
    WordWritten(m2, got + 8, opt.handle);
    WordWritten(m2, got + 16, opt.resolver);
  }

  // ----------------------------------------------------------------- when they agree

  lemma {:induction false} NeededFinds(b: Binder, scope: seq<Lib>, needed: seq<Name>, name: Name, i: nat, k: nat)
    requires ValidScope(b.hs, scope) && ValidScope(b.hs, Needed(scope, needed, i))
    requires FirstDefining(b.hs, scope, name, i) == Some(k) && scope[k].name in needed
    requires forall l :: l in Needed(scope, needed, i) ==> b.alive(l)
    ensures var sym := scope[k].symtab.symbols[Defines(b.hs, scope[k], name).value];
            LazyLookup(b, Needed(scope, needed, i), name, 0) == Some(Convert(SymDef(Some(sym), scope[k]), b.ifunc))
    decreases |scope| - i
  {
    var libs := Needed(scope, needed, i);
    if scope[i].name in needed {
      assert libs == [scope[i]] + Needed(scope, needed, i + 1);
      if i < k {
        LookupTail(b, libs, name, 0);
        assert libs[1..] == Needed(scope, needed, i + 1);
        NeededFinds(b, scope, needed, name, i + 1, k);
      }
    } else {
      assert libs == Needed(scope, needed, i + 1);
      NeededFinds(b, scope, needed, name, i + 1, k);
    }
  }

  lemma {:induction false} LookupTail(b: Binder, libs: seq<Lib>, name: Name, i: nat)
    requires ValidScope(b.hs, libs) && i < |libs|
    ensures ValidScope(b.hs, libs[1..])
    ensures LazyLookup(b, libs, name, i + 1) == LazyLookup(b, libs[1..], name, i)
    decreases |libs| - i
  {
    if i + 1 < |libs| {
      LookupTail(b, libs, name, i + 1);
    }
  }

  /** The default lazy scope resolves a slot as the eager search does when the caller has
      no override for the name, the symbol is not local, and the first library of the
      scope that defines it is one the image names. The libraries are alive because the
      relocated image retains them. */
  lemma DefaultScopeAgrees(ctx: Ctx, opt: Options, needed: seq<Name>, rl: Relocations, b: Binder, c: nat)
    requires ValidRun(ctx, rl) && BinderOf(b, ctx, rl) && LazyBind.Valid(b) && opt.isLazy && opt.custom.None?
    requires b.scope == MakeLazyScope(opt, ctx.scope, needed)
    requires forall l :: l in b.scope.value.libs ==> b.alive(l)
    requires OpenSlot(ctx, rl, c) && rl.pltrel[c].sym != 0
    requires var sym, name := ctx.core.symtab.symbols[rl.pltrel[c].sym], ctx.core.symtab.Name(rl.pltrel[c].sym);
             && !sym.IsLocal() && ctx.cb.preFind(name).None?
             && var k := FirstDefining(ctx.hs, ctx.scope, name, 0); k.Some? && ctx.scope[k.value].name in needed
    ensures var s := SymbolAddr(ctx.hs, ctx.cb, ctx.core, ctx.scope, rl.pltrel[c].sym);
            s.At? && Target(b, c) == Some(s.addr)
  {
    var name := ctx.core.symtab.Name(rl.pltrel[c].sym);
    NeededFinds(b, ctx.scope, needed, name, 0, FirstDefining(ctx.hs, ctx.scope, name, 0).value);
  }
}
