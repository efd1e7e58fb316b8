/** Relocating a dynamic image (src/relocation/dynamic.rs): the split of the tables,
    the relative, dynamic and PLT passes, and the dependencies that the result keeps. */
module DynamicLink {
  import opened Words
  import opened Symbols
  import opened SymbolSearch
  import opened RelocPass

  const REL_NONE := 0
  const REL_SYMBOLIC := 1
  const REL_COPY := 5
  const REL_GOT := 6
  const REL_JUMP_SLOT := 7
  const REL_RELATIVE := 8
  const REL_DTPOFF := 17
  const REL_IRELATIVE := 37

  /** A user handler's answer for an entry: not mine, an error, or handled, possibly
      using a library of the scope. */
  datatype Handled = Pass | Failed | Claimed(dep: Option<nat>)

  /** Everything a pass consults. Handlers may keep state of their own, so their
      answers depend on the position of the entry in the run. */
  datatype Ctx = Ctx(hs: Hashes, cb: Callbacks, core: Lib, scope: seq<Lib>,
                     preHandler: nat -> Handled, postHandler: nat -> Handled)

  ghost predicate ValidCtx(ctx: Ctx) {
    ValidScope(ctx.hs, ctx.scope)
  }

  /** The entry's symbol exists, and the block a copy reads lies in the defining library. */
  ghost predicate ValidEntry(ctx: Ctx, r: Rela)
    requires ValidCtx(ctx)
  {
    && r.sym < |ctx.core.symtab.symbols|
    && (r.rtype == REL_COPY ==>
          match Symdef(ctx.hs, ctx.core, ctx.scope, r.sym)
          case Hit(f) => f.def.sym.Some? ==>
            f.def.lib.id == ctx.core.id ||
            f.def.sym.value.value + ctx.core.symtab.symbols[r.sym].size <= |f.def.lib.mem|
          case _ => true)
  }

  function Word(v: int): seq<byte> {
    LittleEndian(Wrap64(v), 8)
  }

  function AfterHandler(h: Handled, otherwise: Act): Act {
    match h
    case Failed => Reject
    case Claimed(d) => Nothing(d)
    case Pass => otherwise
  }

  // ------------------------------------------------------------- what an entry does

  /** The default treatment of a dynamic entry; `None` leaves it to the post handler. */
  ghost function DynDefault(ctx: Ctx, r: Rela): Option<Act>
    requires ValidCtx(ctx) && ValidEntry(ctx, r)
  {
    if r.rtype == REL_GOT || r.rtype == REL_SYMBOLIC then
      match SymbolAddr(ctx.hs, ctx.cb, ctx.core, ctx.scope, r.sym)
      case At(a, dep) => Some(Write(Word(a + r.addend), dep))
      case Broken => Some(Crash)
      case Unresolved => None
    else if r.rtype == REL_DTPOFF then
      match Symdef(ctx.hs, ctx.core, ctx.scope, r.sym)
      case Hit(f) => Some(if f.def.sym.Some? then Write(Word(f.def.sym.value.value + r.addend), f.dep) else Crash)
      case Aborted => Some(Crash)
      case NotFound => None
    else if r.rtype == REL_COPY then
      match Symdef(ctx.hs, ctx.core, ctx.scope, r.sym)
      case Hit(f) => Some(CopyAct(ctx, f, ctx.core.symtab.symbols[r.sym].size))
      case Aborted => Some(Crash)
      case NotFound => None
    else if r.rtype == REL_IRELATIVE then
      Some(Write(Word(ctx.cb.ifunc(Wrap64(ctx.core.base + r.addend))), None))
    else if r.rtype == REL_NONE then Some(Nothing(None))
    else None
  }

  /** Copying `len` bytes of the definition, from its own library's memory. */
  ghost function CopyAct(ctx: Ctx, f: Found, len: nat): Act
    requires f.def.sym.Some? && f.def.lib.id != ctx.core.id ==> f.def.sym.value.value + len <= |f.def.lib.mem|
  {
    match f.def.sym
    case None => Crash
    case Some(s) =>
      if f.def.lib.id == ctx.core.id then CopyOwn(s.value, len, f.dep)
      else Write(f.def.lib.mem[s.value..s.value + len], f.dep)
  }

  /** One iteration of `relocate_dynrel`. */
  ghost function DynAct(ctx: Ctx, i: nat, r: Rela): Act
    requires ValidCtx(ctx) && ValidEntry(ctx, r)
  {
    match ctx.preHandler(i)
    case Failed => Reject
    case Claimed(d) => Nothing(d)
    case Pass =>
      match DynDefault(ctx, r)
      case Some(a) => a
      case None => AfterHandler(ctx.postHandler(i), Reject)
  }

  /** One iteration of `relocate_pltrel`. An eager jump slot whose symbol cannot be
      found is left as it is, without an error. */
  ghost function PltAct(ctx: Ctx, isLazy: bool, i: nat, r: Rela): Act
    requires ValidCtx(ctx) && ValidEntry(ctx, r)
  {
    match ctx.preHandler(i)
    case Failed => Reject
    case Claimed(d) => Nothing(d)
    case Pass =>
      if r.rtype == REL_JUMP_SLOT then
        if isLazy then AddBase
        else
          match SymbolAddr(ctx.hs, ctx.cb, ctx.core, ctx.scope, r.sym)
          case At(a, dep) => Write(Word(a), dep)
          case Broken => Crash
          case Unresolved => Nothing(None)
      else if r.rtype == REL_IRELATIVE then
        Write(Word(ctx.cb.ifunc(Wrap64(ctx.core.base + r.addend))), None)
      else AfterHandler(ctx.postHandler(i), Reject)
  }

  /** A relative entry: base plus addend. */
  function RelativeAct(base: u64, r: Rela): Act {
    Write(Word(base + r.addend), None)
  }

  // ------------------------------------------------------------------ the methods

  method ChooseDynAct(ctx: Ctx, i: nat, r: Rela) returns (a: Act)
    requires ValidCtx(ctx) && ValidEntry(ctx, r)
    ensures a == DynAct(ctx, i, r)
  {
    var h := ctx.preHandler(i);
    if !h.Pass? {
      return if h.Failed? then Reject else Nothing(h.dep);
    }
    if r.rtype == REL_GOT || r.rtype == REL_SYMBOLIC {
      var s := FindSymbolAddr(ctx.hs, ctx.cb, ctx.core, ctx.scope, r.sym);
      match s
      case At(addr, dep) => return Write(Word(addr + r.addend), dep);
      case Broken => return Crash;
      case Unresolved =>
    } else if r.rtype == REL_DTPOFF || r.rtype == REL_COPY {
      var s := FindSymdef(ctx.hs, ctx.core, ctx.scope, r.sym);
      match s
      case Hit(f) =>
        if f.def.sym.None? {
          return Crash;
        }
        var v := f.def.sym.value.value;
        if r.rtype == REL_DTPOFF {
          return Write(Word(v + r.addend), f.dep);
        }
        var len := ctx.core.symtab.symbols[r.sym].size;
        if f.def.lib.id == ctx.core.id {
          return CopyOwn(v, len, f.dep);
        }
        return Write(f.def.lib.mem[v..v + len], f.dep);
      case Aborted => return Crash;
      case NotFound =>
    } else if r.rtype == REL_IRELATIVE {
      return Write(Word(ctx.cb.ifunc(Wrap64(ctx.core.base + r.addend))), None);
    } else if r.rtype == REL_NONE {
      return Nothing(None);
    }
    a := AfterHandler(ctx.postHandler(i), Reject);
  }

  method ChoosePltAct(ctx: Ctx, isLazy: bool, i: nat, r: Rela) returns (a: Act)
    requires ValidCtx(ctx) && ValidEntry(ctx, r)
    ensures a == PltAct(ctx, isLazy, i, r)
  {
    var h := ctx.preHandler(i);
    if !h.Pass? {
      return if h.Failed? then Reject else Nothing(h.dep);
    }
    if r.rtype == REL_JUMP_SLOT {
      if isLazy {
        return AddBase;
      }
      var s := FindSymbolAddr(ctx.hs, ctx.cb, ctx.core, ctx.scope, r.sym);
      match s
      case At(addr, dep) => return Write(Word(addr), dep);
      case Broken => return Crash;
      case Unresolved => return Nothing(None);
    }
    if r.rtype == REL_IRELATIVE {
      return Write(Word(ctx.cb.ifunc(Wrap64(ctx.core.base + r.addend))), None);
    }
    a := AfterHandler(ctx.postHandler(i), Reject);
  }
}
