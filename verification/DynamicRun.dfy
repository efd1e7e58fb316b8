/** Relocating a dynamic image from start to end (`relocate_impl`,
    src/relocation/dynamic.rs): the relative, dynamic and PLT passes over one memory,
    the words that lazy binding needs, and the libraries the result keeps alive. */
module DynamicRun {
  import opened Words
  import opened Symbols
  import opened SymbolSearch
  import opened RelocPass
  import opened DynamicLink
  import Relr
  import RelocTables

  datatype RelativeRel = Rel(entries: seq<Rela>) | Relr(words: seq<u64>)

  datatype Relocations = Relocations(relative: RelativeRel, dynrel: seq<Rela>, pltrel: seq<Rela>) {
    predicate IsEmpty() {
      (if relative.Rel? then relative.entries == [] else relative.words == []) && dynrel == [] && pltrel == []
    }
  }

  /** The entries of a table, read through the image. */
  function Entries(view: nat -> Rela, t: RelocTables.Slice): (s: seq<Rela>)
    ensures |s| == t.len && forall i :: 0 <= i < t.len ==> s[i] == view(t.Addr(i))
  {
    seq(t.len, i requires 0 <= i => view(t.Addr(i)))
  }

  function ReadTables(view: nat -> Rela, p: RelocTables.Parts): Relocations {
    Relocations(if p.relative.Rel? then Rel(Entries(view, p.relative.table)) else Relr(p.relative.words),
                Entries(view, p.dynrel), Entries(view, p.pltrel))
  }

  /** What the caller decides: whether to bind lazily, and with which scope. The GOT, the
      image's own handle and the resolver are what lazy binding stores. */
  datatype Options = Options(isLazy: bool, custom: Option<Name -> Option<u64>>, got: Option<nat>,
                             handle: u64, resolver: u64, relroOk: bool)

  // ------------------------------------------------------------------- the work list

  function RelativeWork(base: u64, rel: RelativeRel): seq<Work> {
    match rel
    case Rel(entries) =>
      seq(|entries|, i requires 0 <= i < |entries| => Work(entries[i].off, RelativeAct(base, entries[i])))
    case Relr(words) => Relr.Adds(Relr.Decode(words, 0))
  }

  ghost predicate ValidEntries(ctx: Ctx, rels: seq<Rela>)
    requires ValidCtx(ctx)
  {
    forall i :: 0 <= i < |rels| ==> ValidEntry(ctx, rels[i])
  }

  ghost function DynWork(ctx: Ctx, rels: seq<Rela>): (work: seq<Work>)
    requires ValidCtx(ctx) && ValidEntries(ctx, rels)
    ensures |work| == |rels| && forall i :: 0 <= i < |rels| ==> work[i] == Work(rels[i].off, DynAct(ctx, i, rels[i]))
  {
    seq(|rels|, i requires 0 <= i < |rels| => Work(rels[i].off, DynAct(ctx, i, rels[i])))
  }

  /** Handlers see the PLT entries after the `pos` dynamic ones. */
  ghost function PltWork(ctx: Ctx, isLazy: bool, pos: nat, rels: seq<Rela>): (work: seq<Work>)
    requires ValidCtx(ctx) && ValidEntries(ctx, rels)
    ensures |work| == |rels|
    ensures forall i :: 0 <= i < |rels| ==> work[i] == Work(rels[i].off, PltAct(ctx, isLazy, pos + i, rels[i]))
  {
    seq(|rels|, i requires 0 <= i < |rels| => Work(rels[i].off, PltAct(ctx, isLazy, pos + i, rels[i])))
  }

  /** GOT words 1 and 2: the image's handle and the resolver. */
  function LazyWork(opt: Options, pltrel: seq<Rela>): seq<Work> {
    if opt.isLazy && pltrel != [] && opt.got.Some? then
      [Work(opt.got.value + 8, Write(Word(opt.handle), None)),
       Work(opt.got.value + 16, Write(Word(opt.resolver), None))]
    else []
  }

  ghost function AllWork(ctx: Ctx, opt: Options, rl: Relocations): seq<Work>
    requires ValidCtx(ctx) && ValidEntries(ctx, rl.dynrel) && ValidEntries(ctx, rl.pltrel)
  {
    RelativeWork(ctx.core.base, rl.relative) + DynWork(ctx, rl.dynrel)
    + PltWork(ctx, opt.isLazy, |rl.dynrel|, rl.pltrel) + LazyWork(opt, rl.pltrel)
  }

  // ---------------------------------------------------------------------- the passes

  /** `work` holds `part` from `at` on. */
  ghost predicate Holds(work: seq<Work>, at: nat, part: seq<Work>) {
    at + |part| <= |work| && forall i :: 0 <= i < |part| ==> work[at + i] == part[i]
  }

  ghost predicate Ready(img0: Image, work: seq<Work>) {
    Separate(work) && AllRoom(img0, work)
  }

  /** The RELA branch of `relocate_relative`. */
  method RelativeLoop(base: u64, rels: seq<Rela>, ghost img0: Image, ghost work: seq<Work>,
                          mem: array<byte>, flags: array<bool>)
    requires Ready(img0, work) && Holds(work, 0, RelativeWork(base, Rel(rels)))
    requires Done(base, img0, Now(mem, flags), work, 0)
    modifies mem, flags
    ensures Done(base, img0, Now(mem, flags), work, |rels|)
  {
    for i := 0 to |rels|
      invariant Done(base, img0, Now(mem, flags), work, i)
    {
      var w := Work(rels[i].off, RelativeAct(base, rels[i]));
      assert w == RelativeWork(base, Rel(rels))[i] == work[0 + i];
      var _ := PerformNext(base, img0, work, i, w, mem, flags);
    }
  }

  /** `relocate_relative`. */
  method RelocateRelative(base: u64, rel: RelativeRel, ghost img0: Image, ghost work: seq<Work>,
                          mem: array<byte>, flags: array<bool>)
    requires rel.Relr? && rel.words != [] ==> rel.words[0] % 2 == 0
    requires Ready(img0, work) && Holds(work, 0, RelativeWork(base, rel))
    requires Done(base, img0, Now(mem, flags), work, 0)
    modifies mem, flags
    ensures Done(base, img0, Now(mem, flags), work, |RelativeWork(base, rel)|)
  {
    match rel {
      case Rel(entries) => RelativeLoop(base, entries, img0, work, mem, flags);
      case Relr(words) =>
        ghost var offs := Relr.Decode(words, 0);
        assert forall i :: 0 <= i < |offs| ==> work[0 + i] == Relr.Adds(offs)[i];
        Relr.RelocateRelr(base, words, img0, work, mem, flags);
    }
  }

  /** `relocate_dynrel`. */
  method RelocateDynrel(ctx: Ctx, rels: seq<Rela>, ghost img0: Image, ghost work: seq<Work>, ghost at: nat,
                        mem: array<byte>, flags: array<bool>) returns (s: Status)
    requires ValidCtx(ctx) && ValidEntries(ctx, rels)
    requires Ready(img0, work) && Holds(work, at, DynWork(ctx, rels))
    requires Done(ctx.core.base, img0, Now(mem, flags), work, at)
    modifies mem, flags
    ensures Reached(ctx.core.base, img0, Now(mem, flags), work, at, at + |rels|, s)
  {
    for i := 0 to |rels|
      invariant Done(ctx.core.base, img0, Now(mem, flags), work, at + i)
    {
      var a := ChooseDynAct(ctx, i, rels[i]);
      s := PerformNext(ctx.core.base, img0, work, at + i, Work(rels[i].off, a), mem, flags);
      if !s.Success? {
        return;
      }
    }
    s := Success;
  }

  /** The loop of `relocate_pltrel`. */
  method PltLoop(ctx: Ctx, isLazy: bool, pos: nat, rels: seq<Rela>, ghost img0: Image, ghost work: seq<Work>,
                        ghost at: nat, mem: array<byte>, flags: array<bool>) returns (s: Status)
    requires ValidCtx(ctx) && ValidEntries(ctx, rels)
    requires Ready(img0, work) && Holds(work, at, PltWork(ctx, isLazy, pos, rels))
    requires Done(ctx.core.base, img0, Now(mem, flags), work, at)
    modifies mem, flags
    ensures Reached(ctx.core.base, img0, Now(mem, flags), work, at, at + |rels|, s)
  {
    for i := 0 to |rels|
      invariant Done(ctx.core.base, img0, Now(mem, flags), work, at + i)
    {
      var a := ChoosePltAct(ctx, isLazy, pos + i, rels[i]);
      s := PerformNext(ctx.core.base, img0, work, at + i, Work(rels[i].off, a), mem, flags);
      if !s.Success? {
        return;
      }
    }
    s := Success;
  }

  /** `prepare_lazy_bind`. */
  method PrepareLazyBind(base: u64, got: nat, handle: u64, resolver: u64, ghost img0: Image, ghost work: seq<Work>,
                         ghost at: nat, mem: array<byte>, flags: array<bool>)
    requires Ready(img0, work) && at + 2 == |work|
    requires work[at] == Work(got + 8, Write(Word(handle), None))
    requires work[at + 1] == Work(got + 16, Write(Word(resolver), None))
    requires Done(base, img0, Now(mem, flags), work, at)
    modifies mem, flags
    ensures Done(base, img0, Now(mem, flags), work, |work|)
  {
    WriteNext(base, img0, work, at, got + 8, Word(handle), mem, flags);
    WriteNext(base, img0, work, at + 1, got + 16, Word(resolver), mem, flags);
  }

  /** An entry that only writes always succeeds. */
  method WriteNext(base: u64, ghost img0: Image, ghost work: seq<Work>, ghost k: nat, off: nat, bytes: seq<byte>,
                   mem: array<byte>, flags: array<bool>)
    requires Ready(img0, work) && k < |work| && work[k] == Work(off, Write(bytes, None))
    requires Done(base, img0, Now(mem, flags), work, k)
    modifies mem, flags
    ensures Done(base, img0, Now(mem, flags), work, k + 1)
  {
    var _ := PerformNext(base, img0, work, k, Work(off, Write(bytes, None)), mem, flags);
  }

  // ---------------------------------------------------------------- the dependencies

  /** The scope libraries from `i` on that were used or are named by the image. */
  function Kept(scope: seq<Lib>, flags: seq<bool>, needed: seq<Name>, i: nat): seq<Lib>
    requires |flags| == |scope|
    decreases |scope| - i
  {
    if i >= |scope| then []
    else (if flags[i] || scope[i].name in needed then [scope[i]] else []) + Kept(scope, flags, needed, i + 1)
  }

  lemma {:induction false} KeptHas(scope: seq<Lib>, flags: seq<bool>, needed: seq<Name>, i: nat, k: nat)
    requires |flags| == |scope| && i <= k < |scope| && (flags[k] || scope[k].name in needed)
    ensures scope[k] in Kept(scope, flags, needed, i)
    decreases |scope| - i
  {
    if i < k {
      KeptHas(scope, flags, needed, i + 1, k);
    }
  }

  lemma {:induction false} KeptOnly(scope: seq<Lib>, flags: seq<bool>, needed: seq<Name>, i: nat, l: Lib)
    returns (k: nat)
    requires |flags| == |scope| && l in Kept(scope, flags, needed, i)
    ensures i <= k < |scope| && scope[k] == l && (flags[k] || scope[k].name in needed)
    decreases |scope| - i
  {
    if l in Kept(scope, flags, needed, i + 1) {
      k := KeptOnly(scope, flags, needed, i + 1, l);
    } else {
      k := i;
    }
  }

  /** `LazyScope`: the libraries held weakly, and the caller's own lookup. */
  datatype LazyScope = LazyScope(libs: seq<Lib>, custom: Option<Name -> Option<u64>>)

  /** The scope libraries from `i` on that the image names. */
  function Needed(scope: seq<Lib>, needed: seq<Name>, i: nat): seq<Lib>
    decreases |scope| - i
  {
    if i >= |scope| then [] else (if scope[i].name in needed then [scope[i]] else []) + Needed(scope, needed, i + 1)
  }

  /** The lazy scope of a run: by default the needed libraries. */
  function MakeLazyScope(opt: Options, scope: seq<Lib>, needed: seq<Name>): Option<LazyScope> {
    if !opt.isLazy then None
    else Some(LazyScope(if opt.custom.None? then Needed(scope, needed, 0) else [], opt.custom))
  }

  lemma {:induction false} NeededKept(scope: seq<Lib>, flags: seq<bool>, needed: seq<Name>, i: nat)
    requires |flags| == |scope|
    ensures forall l :: l in Needed(scope, needed, i) ==> l in Kept(scope, flags, needed, i)
    decreases |scope| - i
  {
    if i < |scope| {
      NeededKept(scope, flags, needed, i + 1);
    }
  }

  method CollectKept(scope: seq<Lib>, flags: array<bool>, needed: seq<Name>) returns (deps: seq<Lib>)
    requires flags.Length == |scope|
    ensures deps == Kept(scope, flags[..], needed, 0)
  {
    deps := [];
    for i := 0 to |scope|
      invariant deps + Kept(scope, flags[..], needed, i) == Kept(scope, flags[..], needed, 0)
    {
      if flags[i] || scope[i].name in needed {
        deps := deps + [scope[i]];
      }
    }
  }

  /** Library `k` of the scope is named by the image, or some entry used it. */
  ghost predicate KeptFor(scope: seq<Lib>, work: seq<Work>, needed: seq<Name>, l: Lib, k: nat) {
    && k < |scope| && scope[k] == l
    && (l.name in needed || exists i :: 0 <= i < |work| && work[i].act.Dep() == Some(k))
  }

  /** The result keeps every scope library that some entry used and every library the
      lazy scope holds, and nothing that was neither used nor named. */
  ghost predicate Retains(scope: seq<Lib>, work: seq<Work>, needed: seq<Name>, deps: seq<Lib>,
                          lazy: Option<LazyScope>) {
    && (forall i :: 0 <= i < |work| && work[i].act.Dep().Some? ==>
          work[i].act.Dep().value < |scope| && scope[work[i].act.Dep().value] in deps)
    && (lazy.Some? ==> forall l :: l in lazy.value.libs ==> l in deps)
    && (forall l :: l in deps ==> exists k :: KeptFor(scope, work, needed, l, k))
  }

  lemma RunRetains(base: u64, img0: Image, img: Image, scope: seq<Lib>, work: seq<Work>, opt: Options,
                   needed: seq<Name>)
    requires |img0.flags| == |scope| && forall d :: 0 <= d < |scope| ==> !img0.flags[d]
    requires Done(base, img0, img, work, |work|)
    ensures |img.flags| == |scope|
    ensures Retains(scope, work, needed, Kept(scope, img.flags, needed, 0), MakeLazyScope(opt, scope, needed))
  {
    var deps := Kept(scope, img.flags, needed, 0);
    forall i | 0 <= i < |work| && work[i].act.Dep().Some?
      ensures work[i].act.Dep().value < |scope| && scope[work[i].act.Dep().value] in deps
    {
      assert Applied(base, img0.m, img, work[i]);
      KeptHas(scope, img.flags, needed, 0, work[i].act.Dep().value);
    }
    NeededKept(scope, img.flags, needed, 0);
    forall l | l in deps
      ensures exists k :: KeptFor(scope, work, needed, l, k)
    {
      var k := KeptOnly(scope, img.flags, needed, 0, l);
      assert KeptFor(scope, work, needed, l, k);
    }
  }

  // ------------------------------------------------------------------- the whole run

  /** The first relative entry is checked before anything is written. */
  predicate Started(rl: Relocations) {
    rl.relative.Rel? && rl.relative.entries != [] ==> rl.relative.entries[0].rtype == REL_RELATIVE
  }

  ghost predicate ValidRun(ctx: Ctx, rl: Relocations) {
    && ValidCtx(ctx) && ValidEntries(ctx, rl.dynrel) && ValidEntries(ctx, rl.pltrel)
    && (rl.relative.Relr? && rl.relative.words != [] ==> rl.relative.words[0] % 2 == 0)
  }

  lemma HoldParts(a: seq<Work>, b: seq<Work>, c: seq<Work>, d: seq<Work>)
    ensures var all := a + b + c + d;
            Holds(all, 0, a) && Holds(all, |a|, b) && Holds(all, |a| + |b|, c) && Holds(all, |a| + |b| + |c|, d)
  {
  }

  lemma PartsHold(ctx: Ctx, opt: Options, rl: Relocations)
    requires ValidRun(ctx, rl)
    ensures var all := AllWork(ctx, opt, rl);
            var rw, n := RelativeWork(ctx.core.base, rl.relative), |rl.dynrel|;
            && Holds(all, 0, rw) && Holds(all, |rw|, DynWork(ctx, rl.dynrel))
            && Holds(all, |rw| + n, PltWork(ctx, opt.isLazy, n, rl.pltrel))
            && Holds(all, |rw| + n + |rl.pltrel|, LazyWork(opt, rl.pltrel))
            && |all| == |rw| + n + |rl.pltrel| + |LazyWork(opt, rl.pltrel)|
  {
    HoldParts(RelativeWork(ctx.core.base, rl.relative), DynWork(ctx, rl.dynrel),
              PltWork(ctx, opt.isLazy, |rl.dynrel|, rl.pltrel), LazyWork(opt, rl.pltrel));
  }

  lemma HeldAt(all: seq<Work>, at: nat, part: seq<Work>, i: nat)
    requires Holds(all, at, part) && at <= i < at + |part|
    ensures i < |all| && all[i] == part[i - at]
  {
    assert all[at + (i - at)] == part[i - at];
  }

  /** The entries alone let the run finish. */
  ghost predicate Clean(work: seq<Work>, n: nat) {
    forall i :: 0 <= i < |work| ==> Verdict(work[i], n).Success?
  }

  lemma DoneClean(base: u64, img0: Image, img: Image, work: seq<Work>)
    requires Done(base, img0, img, work, |work|)
    ensures Clean(work, |img.flags|)
  {
    forall i | 0 <= i < |work| ensures Verdict(work[i], |img.flags|).Success? {
      assert Applied(base, img0.m, img, work[i]);
    }
  }

  lemma ReachedFrame(base: u64, img0: Image, img: Image, work: seq<Work>, lo: nat, hi: nat, s: Status)
    requires Reached(base, img0, img, work, lo, hi, s) && hi <= |work|
    ensures OnlyFields(img0.m, img.m, work, |work|) && |img.flags| == |img0.flags|
    ensures !s.Success? ==> !Clean(work, |img.flags|)
  {
  }

  /** `relocate_pltrel`: the loop, then the words that lazy binding needs. It finishes
      the run `work`, of which it is the last part. */
  method RelocatePltrel(ctx: Ctx, opt: Options, pos: nat, rels: seq<Rela>, ghost img0: Image, ghost work: seq<Work>,
                        ghost at: nat, mem: array<byte>, flags: array<bool>) returns (s: Status)
    requires ValidCtx(ctx) && ValidEntries(ctx, rels)
    requires Ready(img0, work) && Holds(work, at, PltWork(ctx, opt.isLazy, pos, rels))
    requires Holds(work, at + |rels|, LazyWork(opt, rels)) && |work| == at + |rels| + |LazyWork(opt, rels)|
    requires Done(ctx.core.base, img0, Now(mem, flags), work, at)
    modifies mem, flags
    ensures OnlyFields(img0.m, mem[..], work, |work|)
    ensures s.Success? ==> Done(ctx.core.base, img0, Now(mem, flags), work, |work|)
    ensures s.Success? <==> Clean(work, |img0.flags|) && (opt.isLazy && rels != [] ==> opt.got.Some?)
  {
    s := PltLoop(ctx, opt.isLazy, pos, rels, img0, work, at, mem, flags);
    ReachedFrame(ctx.core.base, img0, Now(mem, flags), work, at, at + |rels|, s);
    if !s.Success? {
      return;
    }
    if opt.isLazy && rels != [] {
      if opt.got.None? {
        return Panicked;
      }
      assert work[at + |rels| + 0] == LazyWork(opt, rels)[0] && work[at + |rels| + 1] == LazyWork(opt, rels)[1];
      PrepareLazyBind(ctx.core.base, opt.got.value, opt.handle, opt.resolver, img0, work, at + |rels|, mem, flags);
    }
    DoneClean(ctx.core.base, img0, Now(mem, flags), work);
  }

  /** The three passes, in order, over one memory. */
  method RunPasses(ctx: Ctx, opt: Options, rl: Relocations, ghost img0: Image, mem: array<byte>, flags: array<bool>)
    returns (s: Status)
    requires ValidRun(ctx, rl) && Started(rl) && Now(mem, flags) == img0
    requires Ready(img0, AllWork(ctx, opt, rl))
    modifies mem, flags
    ensures var all := AllWork(ctx, opt, rl);
            && OnlyFields(img0.m, mem[..], all, |all|)
            && (s.Success? ==> Done(ctx.core.base, img0, Now(mem, flags), all, |all|))
            && (s.Success? <==> Clean(all, |img0.flags|) && (opt.isLazy && rl.pltrel != [] ==> opt.got.Some?))
  {
    ghost var all, n := AllWork(ctx, opt, rl), |rl.dynrel|;
    ghost var rw := RelativeWork(ctx.core.base, rl.relative);
    PartsHold(ctx, opt, rl);
    EmptyDone(ctx.core.base, img0, all);
    RelocateRelative(ctx.core.base, rl.relative, img0, all, mem, flags);
    s := RelocateDynrel(ctx, rl.dynrel, img0, all, |rw|, mem, flags);
    ReachedFrame(ctx.core.base, img0, Now(mem, flags), all, |rw|, |rw| + n, s);
    if s.Success? {
      s := RelocatePltrel(ctx, opt, |rl.dynrel|, rl.pltrel, img0, all, |rw| + n, mem, flags);
    }
  }

  /** Every entry of this part of the run is applied. */
  ghost predicate PartApplied(base: u64, m0: seq<byte>, img: Image, part: seq<Work>) {
    forall i :: 0 <= i < |part| ==> Applied(base, m0, img, part[i])
  }

  /** What a successful run of a non-empty set of relocations leaves: every entry is
      applied, only their fields have changed, and the libraries used are kept. */
  ghost predicate Relocated(ctx: Ctx, opt: Options, needed: seq<Name>, rl: Relocations, m0: seq<byte>, m: seq<byte>,
                            deps: seq<Lib>, lazy: Option<LazyScope>)
    requires ValidRun(ctx, rl)
  {
    var all := AllWork(ctx, opt, rl);
    && (exists flags :: |flags| == |ctx.scope| && PartApplied(ctx.core.base, m0, Image(m, flags), all))
    && OnlyFields(m0, m, all, |all|)
    && Reaches(ctx.core.base, m0, m, all, |all|) && OwnCopies(ctx.core.base, m0, m, all)
    && Retains(ctx.scope, all, needed, deps, lazy)
    && lazy == MakeLazyScope(opt, ctx.scope, needed)
  }

  /** The GOT is there if lazy binding needs it; binding eagerly, RELRO can be applied. */
  predicate CanFinish(opt: Options, rl: Relocations) {
    if opt.isLazy then rl.pltrel != [] ==> opt.got.Some? else opt.relroOk
  }

  /** `relocate_impl`. With nothing to relocate the image is returned as it is, with no
      dependencies. Otherwise it succeeds exactly when no entry stops it, the GOT is
      there if lazy binding needs it and (when binding eagerly) RELRO can be applied. */
  method RelocateImage(ctx: Ctx, opt: Options, needed: seq<Name>, rl: Relocations, mem: array<byte>)
    returns (s: Status, deps: seq<Lib>, lazy: Option<LazyScope>)
    requires ValidRun(ctx, rl)
    requires Ready(Image(mem[..], seq(|ctx.scope|, _ => false)), AllWork(ctx, opt, rl))
    modifies mem
    ensures rl.IsEmpty() ==> s.Success? && mem[..] == old(mem[..]) && deps == [] && lazy == None
    ensures OnlyFields(old(mem[..]), mem[..], AllWork(ctx, opt, rl), |AllWork(ctx, opt, rl)|)
    ensures !rl.IsEmpty() && s.Success? ==> Relocated(ctx, opt, needed, rl, old(mem[..]), mem[..], deps, lazy)
    ensures !rl.IsEmpty() ==>
              (s.Success? <==> Started(rl) && Clean(AllWork(ctx, opt, rl), |ctx.scope|) && CanFinish(opt, rl))
  {
    deps, lazy := [], None;
    if rl.IsEmpty() {
      return Success, deps, lazy;
    }
    if !Started(rl) {
      return Panicked, deps, lazy;
    }
    var flags := new bool[|ctx.scope|](_ => false);
    ghost var img0 := Now(mem, flags);
    assert flags[..] == seq(|ctx.scope|, _ => false);
    s := RunPasses(ctx, opt, rl, img0, mem, flags);
    if s.Success? && !opt.isLazy && !opt.relroOk {
      s := Failure;
    }
    if s.Success? {
      lazy := MakeLazyScope(opt, ctx.scope, needed);
      deps := CollectKept(ctx.scope, flags, needed);
      assert PartApplied(ctx.core.base, img0.m, Image(mem[..], flags[..]), AllWork(ctx, opt, rl));
      CopiesDone(ctx.core.base, img0.m, mem[..], AllWork(ctx, opt, rl));
      RunRetains(ctx.core.base, img0, Now(mem, flags), ctx.scope, AllWork(ctx, opt, rl), opt, needed);
    }
  }

  // -------------------------------------------------------- RELR and a PLT suffix

  lemma RejectedEntry(ctx: Ctx, opt: Options, rl: Relocations, i: nat)
    requires ValidRun(ctx, rl) && i < |rl.dynrel| && DynAct(ctx, i, rl.dynrel[i]).Reject?
    ensures !Clean(AllWork(ctx, opt, rl), |ctx.scope|)
  {
    PartsHold(ctx, opt, rl);
    var rw := RelativeWork(ctx.core.base, rl.relative);
    HeldAt(AllWork(ctx, opt, rl), |rw|, DynWork(ctx, rl.dynrel), |rw| + i);
    NotClean(AllWork(ctx, opt, rl), |rw| + i, |ctx.scope|);
  }

  lemma NotClean(work: seq<Work>, at: nat, n: nat)
    requires at < |work| && work[at].act.Reject?
    ensures !Clean(work, n)
  {
  }

  /** With RELR the dynamic pass also visits PLT entries at the end of its table, and it
      has no arm for a jump slot: such an image cannot be relocated unless a handler
      claims the entry. */
  lemma RelrSuffixFails(ctx: Ctx, opt: Options, view: nat -> Rela, dyn: RelocTables.Slice, plt: RelocTables.Slice,
                        words: seq<u64>, relCount: nat, nowhere: nat)
    requires dyn.End() == plt.End() && 0 < plt.len && 0 < dyn.len && view(plt.Addr(plt.len - 1)).rtype == REL_JUMP_SLOT
    requires ctx.preHandler(dyn.len - 1).Pass? && !ctx.postHandler(dyn.len - 1).Claimed?
    requires var rl := ReadTables(view, RelocTables.Split(Some(plt), Some(dyn), Some(words), relCount, nowhere).value);
             ValidRun(ctx, rl)
    ensures var rl := ReadTables(view, RelocTables.Split(Some(plt), Some(dyn), Some(words), relCount, nowhere).value);
            !Clean(AllWork(ctx, opt, rl), |ctx.scope|)
  {
    var rl := ReadTables(view, RelocTables.Split(Some(plt), Some(dyn), Some(words), relCount, nowhere).value);
    var i := dyn.len - 1;
    assert dyn.Addr(i) == plt.Addr(plt.len - 1);
    assert rl.dynrel[i].rtype == REL_JUMP_SLOT;
    assert ctx.postHandler(i).Failed? || ctx.postHandler(i).Pass?;
    RejectedEntry(ctx, opt, rl, i);
  }
}
