/** Linking a loaded object in place: the relocation loop over memory and the
    GOT/PLT section (src/relocation/static.rs, src/arch/x86_64.rs). Entries, symbols and
    names are read from the same memory that is being relocated. */
module ObjectLink {
  import opened Words
  import opened PltGot
  import opened StaticLink
  import opened Symbols
  import opened GnuIndex
  import opened SymbolSearch
  import opened ObjectTables

  datatype Status = Done | Rejected | Crashed

  ghost predicate Attached(env: Env, pltgot: PltGotSection)
    reads pltgot
  {
    pltgot.Valid() && pltgot.gotBase == env.base + env.gotOff && pltgot.pltBase == env.base + env.pltOff
  }

  /** What a method needs to know of the environment: where the object is, and the
      template that stubs are made from. */
  datatype Place = Place(base: nat, template: seq<byte>)

  ghost predicate Here(env: Env, p: Place) {
    env.base == p.base && env.template == p.template
  }

  /** The method did what `Step` says. */
  ghost predicate Follows(o: Outcome, st: State, status: Status, st': State) {
    match o
    case Ok(s) => status == Done && st' == s
    case Err => status == Rejected && st' == st
    case Panic => status == Crashed
  }

  /** The displacement of a stub's jump, with the wrapping subtractions and the
      conversion of the relocator. In an object under 2 GiB the conversion, which is
      unwrapped without a check, always succeeds. */
  method CallOffset(slot: nat, stub: nat) returns (d: int)
    requires -0x7fff_f000 <= slot - stub <= 0x7fff_f000
    ensures d == slot - stub - 10 && FitsI32(d)
  {
    WrapAdd(slot - stub, -10);
    d := Signed64(Wrap64(Wrap64(slot - stub) - 10));
  }

  /** Stores a signed field, converting with `try_into`. */
  method StoreSigned(mem: array<byte>, off: nat, v: u64) returns (ok: bool)
    requires off + 4 <= mem.Length
    modifies mem
    ensures ok == FitsI32(Signed64(v))
    ensures mem[..] == if ok then Store(old(mem[..]), off, Signed64(v), 4) else old(mem[..])
  {
    ok := FitsI32(Signed64(v));
    if ok {
      WriteBytes(mem, off, LittleEndian(Signed64(v), 4));
    }
  }

  method StoreField(mem: array<byte>, ghost st: State, ghost t: Tables, r: Rela, v: u64) returns (status: Status)
    requires r.off + 4 <= mem.Length
    modifies mem
    ensures Follows(Signed(old(mem[..]), t, r, v, Panic), st, status, State(mem[..], t))
  {
    var ok := StoreSigned(mem, r.off, v);
    status := if ok then Done else Crashed;
  }

  /** Writes a stub and its slot. */
  method BuildStub(mem: array<byte>, template: seq<byte>, stub: nat, slot: nat, s: u64, d: int)
    requires |template| == 16 && stub + 16 <= mem.Length && slot + 8 <= mem.Length && d == slot - stub - 10
    modifies mem
    ensures mem[..] == NewStub(old(mem[..]), template, stub, slot, s)
  {
    WriteBytes(mem, stub, template);
    WriteBytes(mem, slot, LittleEndian(s, 8));
    WriteBytes(mem, stub + 6, LittleEndian(d, 4));
  }

  /** Takes the symbol's stub: its address and, if it is new, that of its slot. */
  method TakeStub(ghost env: Env, pltgot: PltGotSection, sym: nat) returns (isNew: bool, stub: nat, slot: nat)
    requires Attached(env, pltgot)
    modifies pltgot
    ensures Attached(env, pltgot)
    ensures pltgot.tables == old(pltgot.tables).AddPlt(sym) && sym in pltgot.tables.stubs
    ensures stub == env.base + env.StubAt(IndexOf(pltgot.tables.stubs, sym))
    ensures isNew <==> sym !in old(pltgot.tables).stubs
    ensures isNew ==> stub == env.base + env.StubAt(|old(pltgot.tables).stubs|)
    ensures isNew ==> slot == env.base + env.Slot(|old(pltgot.tables).owners|)
  {
    ghost var t := pltgot.tables;
    var e := pltgot.AddPltEntry(sym);
    isNew, stub, slot := e.Vacant?, e.idx * 16 + pltgot.pltBase, 0;
    if isNew {
      FreshIndex(t.stubs, sym);
      FreshIndex(t.owners, Stub(sym));
      slot := e.got * 8 + pltgot.gotBase;
    }
  }

  /** The symbol's stub is at `l`, with its slot, in the state `st1` that follows `st`. */
  ghost predicate StubTaken(env: Env, st: State, st1: State, sym: nat, s: u64, l: nat)
    requires env.Valid() && |st.m| == env.len && |st.t.owners| <= env.gotCnt && |st.t.stubs| <= env.pltCnt
    requires sym !in st.t.stubs ==> |st.t.owners| < env.gotCnt && |st.t.stubs| < env.pltCnt
  {
    && st1.m == PltMemory(env, st, sym, s) && st1.t == st.t.AddPlt(sym) && sym in st1.t.stubs
    && l == env.base + env.StubAt(IndexOf(st1.t.stubs, sym))
  }

  /** The address of the symbol's stub, building stub and slot on first use. */
  method StubAddress(ghost env: Env, ghost st: State, p: Place, pltgot: PltGotSection, mem: array<byte>, r: Rela,
                     s: u64)
    returns (l: nat)
    requires Here(env, p) && Attached(env, pltgot) && st == State(mem[..], pltgot.tables)
    requires Room(env, st, r) && r.rtype == R_X86_64_PLT32
    modifies pltgot, mem
    ensures Attached(env, pltgot) && StubTaken(env, st, State(mem[..], pltgot.tables), r.sym, s, l)
  {
    var isNew, slot;
    isNew, l, slot := TakeStub(env, pltgot, r.sym);
    if isNew {
      var at, got := l - p.base, slot - p.base;
      StubPlace(env, st, p, r, s, at, got);
      FillStub(p, mem, s, at, got);
    }
  }

  /** Where the next stub and its slot go. */
  lemma StubPlace(env: Env, st: State, p: Place, r: Rela, s: u64, stub: nat, slot: nat)
    requires Here(env, p) && Room(env, st, r) && r.rtype == R_X86_64_PLT32 && r.sym !in st.t.stubs
    requires stub == env.StubAt(|st.t.stubs|) && slot == env.Slot(|st.t.owners|)
    ensures |p.template| == 16 && stub + 16 <= |st.m| <= 0x7fff_f000 && slot + 8 <= |st.m|
    ensures PltMemory(env, st, r.sym, s) == NewStub(st.m, p.template, stub, slot, s)
  {
  }

  /** Fills a stub and a slot that were just taken. */
  method FillStub(p: Place, mem: array<byte>, s: u64, stub: nat, slot: nat)
    requires |p.template| == 16 && mem.Length <= 0x7fff_f000 && stub + 16 <= mem.Length && slot + 8 <= mem.Length
    modifies mem
    ensures mem[..] == NewStub(old(mem[..]), p.template, stub, slot, s)
  {
    var d := CallOffset(p.base + slot, p.base + stub);
    BuildStub(mem, p.template, stub, slot, s, d);
  }

  lemma StubOutcome(env: Env, st: State, st1: State, r: Rela, s: u64, l: nat, pc: nat)
    requires Room(env, st, r) && r.rtype == R_X86_64_PLT32
    requires StubTaken(env, st, st1, r.sym, s, l) && pc == env.base + r.off
    ensures ViaStub(env, st, r, s) == Signed(st1.m, st1.t, r, Wrap64(l + r.addend - pc), Panic)
  {
  }

  lemma GotOutcome(env: Env, st: State, st1: State, r: Rela, s: u64, g: nat, pc: nat)
    requires Room(env, st, r) && r.rtype == R_X86_64_GOTPCREL
    requires SlotTaken(env, st, st1, r.sym, s, g) && pc == env.base + r.off
    ensures ViaGot(env, st, r, s) == Signed(st1.m, st1.t, r, Wrap64(g + r.addend - pc), Panic)
  {
  }

  /** A PLT32 call that is out of range: finds or makes the stub, then the field. */
  method ThroughStub(ghost env: Env, ghost st: State, p: Place, pltgot: PltGotSection, mem: array<byte>, r: Rela,
                     s: u64)
    returns (status: Status)
    requires Here(env, p) && Attached(env, pltgot) && st == State(mem[..], pltgot.tables)
    requires Room(env, st, r) && r.rtype == R_X86_64_PLT32
    modifies pltgot, mem
    ensures Attached(env, pltgot) && Follows(ViaStub(env, st, r, s), st, status, State(mem[..], pltgot.tables))
  {
    var l := StubAddress(env, st, p, pltgot, mem, r, s);
    var pc := p.base + r.off;
    var v := Wrap64(l + r.addend - pc);
    ghost var st1 := State(mem[..], pltgot.tables);
    StubOutcome(env, st, st1, r, s, l, pc);
    status := StoreField(mem, st, st1.t, r, v);
  }

  /** Takes the symbol's GOT slot. */
  method TakeSlot(ghost env: Env, pltgot: PltGotSection, sym: nat) returns (isNew: bool, slot: nat)
    requires Attached(env, pltgot)
    modifies pltgot
    ensures Attached(env, pltgot)
    ensures pltgot.tables == old(pltgot.tables).AddGot(sym) && Direct(sym) in pltgot.tables.owners
    ensures slot == env.base + env.Slot(IndexOf(pltgot.tables.owners, Direct(sym)))
    ensures isNew <==> Direct(sym) !in old(pltgot.tables).owners
    ensures isNew ==> slot == env.base + env.Slot(|old(pltgot.tables).owners|)
  {
    ghost var t := pltgot.tables;
    var e := pltgot.AddGotEntry(sym);
    isNew, slot := e.Vacant?, e.idx * 8 + pltgot.gotBase;
    if isNew {
      FreshIndex(t.owners, Direct(sym));
    }
  }

  /** Where the next slot goes. */
  lemma SlotPlace(env: Env, st: State, r: Rela, s: u64, slot: nat)
    requires Room(env, st, r) && r.rtype == R_X86_64_GOTPCREL && Direct(r.sym) !in st.t.owners
    requires slot == env.Slot(|st.t.owners|)
    ensures slot + 8 <= |st.m| && GotMemory(env, st, r.sym, s) == Store(st.m, slot, s, 8)
  {
  }

  /** The symbol's slot is at `g` in the state `st1` that follows `st`. */
  ghost predicate SlotTaken(env: Env, st: State, st1: State, sym: nat, s: u64, g: nat)
    requires env.Valid() && |st.m| == env.len && |st.t.owners| <= env.gotCnt
    requires Direct(sym) !in st.t.owners ==> |st.t.owners| < env.gotCnt
  {
    && st1.m == GotMemory(env, st, sym, s) && st1.t == st.t.AddGot(sym) && Direct(sym) in st1.t.owners
    && g == env.base + env.Slot(IndexOf(st1.t.owners, Direct(sym)))
  }

  /** The address of the symbol's GOT slot, filling it on first use. */
  method SlotAddress(ghost env: Env, ghost st: State, p: Place, pltgot: PltGotSection, mem: array<byte>, r: Rela,
                     s: u64)
    returns (g: nat)
    requires Here(env, p) && Attached(env, pltgot) && st == State(mem[..], pltgot.tables)
    requires Room(env, st, r) && r.rtype == R_X86_64_GOTPCREL
    modifies pltgot, mem
    ensures Attached(env, pltgot) && SlotTaken(env, st, State(mem[..], pltgot.tables), r.sym, s, g)
  {
    var isNew;
    isNew, g := TakeSlot(env, pltgot, r.sym);
    if isNew {
      var at := g - p.base;
      SlotPlace(env, st, r, s, at);
      WriteBytes(mem, at, LittleEndian(s, 8));
    }
  }

  /** A GOT-relative reference: finds or fills the slot, then the field. */
  method ThroughGot(ghost env: Env, ghost st: State, p: Place, pltgot: PltGotSection, mem: array<byte>, r: Rela, s: u64)
    returns (status: Status)
    requires Here(env, p) && Attached(env, pltgot) && st == State(mem[..], pltgot.tables)
    requires Room(env, st, r) && r.rtype == R_X86_64_GOTPCREL
    modifies pltgot, mem
    ensures Attached(env, pltgot) && Follows(ViaGot(env, st, r, s), st, status, State(mem[..], pltgot.tables))
  {
    var g := SlotAddress(env, st, p, pltgot, mem, r, s);
    var pc := p.base + r.off;
    var v := Wrap64(g + r.addend - pc);
    ghost var st1 := State(mem[..], pltgot.tables);
    GotOutcome(env, st, st1, r, s, g, pc);
    status := StoreField(mem, st, st1.t, r, v);
  }

  /** The outcome of a relocation that touches only its field. */
  ghost function DirectOutcome(env: Env, st: State, r: Rela, s: u64): Outcome
    requires r.off + Width(r.rtype) <= |st.m|
  {
    if r.rtype == R_X86_64_64 then Ok(State(Store(st.m, r.off, Wrap64(s + r.addend), 8), st.t))
    else if r.rtype == R_X86_64_32 then
      if Wrap64(s + r.addend) < 0x1_0000_0000 then Ok(State(Store(st.m, r.off, Wrap64(s + r.addend), 4), st.t)) else Err
    else if r.rtype == R_X86_64_PC32 || r.rtype == R_X86_64_PLT32 then
      Signed(st.m, st.t, r, Wrap64(s + r.addend - (env.base + r.off)), Err)
    else if r.rtype == R_X86_64_32S then Signed(st.m, st.t, r, Wrap64(s + r.addend), Err)
    else Err
  }

  lemma DirectStep(env: Env, st: State, r: Rela, s: u64)
    requires Room(env, st, r) && !env.broken(r.sym) && env.resolve(r.sym) == Some(s)
    requires KnownType(r.rtype) && r.rtype != R_X86_64_GOTPCREL
    requires r.rtype == R_X86_64_PLT32 ==> FitsI32(Signed64(Wrap64(s + r.addend - (env.base + r.off))))
    ensures Step(env, st, r) == DirectOutcome(env, st, r, s)
  {
  }

  /** Relocations that touch only their field. */
  method Direct32(ghost env: Env, p: Place, ghost t: Tables, mem: array<byte>, r: Rela, s: u64) returns (status: Status)
    requires Here(env, p) && r.off + Width(r.rtype) <= mem.Length
    modifies mem
    ensures Follows(DirectOutcome(env, old(State(mem[..], t)), r, s), old(State(mem[..], t)), status, State(mem[..], t))
  {
    var v := Wrap64(s + r.addend);
    if r.rtype == R_X86_64_64 {
      WriteBytes(mem, r.off, LittleEndian(v, 8));
      status := Done;
    } else if r.rtype == R_X86_64_32 {
      status := Rejected;
      if v < 0x1_0000_0000 {
        WriteBytes(mem, r.off, LittleEndian(v, 4));
        status := Done;
      }
    } else if r.rtype == R_X86_64_PC32 || r.rtype == R_X86_64_PLT32 {
      var ok := StoreSigned(mem, r.off, Wrap64(s + r.addend - (p.base + r.off)));
      status := if ok then Done else Rejected;
    } else if r.rtype == R_X86_64_32S {
      var ok := StoreSigned(mem, r.off, v);
      status := if ok then Done else Rejected;
    } else {
      status := Rejected;
    }
  }

  /** What the symbol search answered for the symbol of `r`. */
  ghost predicate Answers(env: Env, sym: nat, found: Resolved) {
    match found
    case At(a, _) => !env.broken(sym) && env.resolve(sym) == Some(a)
    case Unresolved => !env.broken(sym) && env.resolve(sym) == None
    case Broken => env.broken(sym)
  }

  /** `X86_64Relocator::relocate`, given the answer of the symbol search; a type that is not
      known is rejected without it. */
  method Relocate(ghost env: Env, p: Place, pltgot: PltGotSection, mem: array<byte>, r: Rela, found: Resolved)
    returns (status: Status)
    requires Here(env, p) && Attached(env, pltgot) && Room(env, State(mem[..], pltgot.tables), r)
    requires Answers(env, r.sym, found)
    modifies pltgot, mem
    ensures Attached(env, pltgot)
    ensures Follows(Step(env, old(State(mem[..], pltgot.tables)), r), old(State(mem[..], pltgot.tables)),
                    status, State(mem[..], pltgot.tables))
  {
    if !KnownType(r.rtype) {
      return Rejected;
    }
    if !found.At? {
      return if found.Broken? then Crashed else Rejected;
    }
    var s := found.addr;
    if r.rtype == R_X86_64_GOTPCREL {
      status := ThroughGot(env, State(mem[..], pltgot.tables), p, pltgot, mem, r, s);
    } else if r.rtype == R_X86_64_PLT32 && !FitsI32(Signed64(Wrap64(s + r.addend - (p.base + r.off)))) {
      status := ThroughStub(env, State(mem[..], pltgot.tables), p, pltgot, mem, r, s);
    } else {
      DirectStep(env, State(mem[..], pltgot.tables), r, s);
      status := Direct32(env, p, pltgot.tables, mem, r, s);
    }
  }

  lemma {:induction false} FlattenAt(tables: seq<seq<Rela>>, t: nat, i: nat)
    requires t < |tables| && i < |tables[t]|
    ensures |Flatten(tables[..t])| + i < |Flatten(tables)|
    ensures Flatten(tables)[|Flatten(tables[..t])| + i] == tables[t][i]
    decreases |tables|
  {
    var n := |tables| - 1;
    if t < n {
      FlattenAt(tables[..n], t, i);
      assert tables[..n][..t] == tables[..t];
    }
  }

  lemma NothingLinked(env: Env, m: seq<byte>, rels: seq<Rela>)
    requires env.Valid() && |m| == env.len
    ensures Linked(env, m, State(m, Tables([], [])), rels, 0)
  {
  }

  lemma LinkNext(env: Env, m0: seq<byte>, st: State, rels: seq<Rela>, k: nat)
    requires k < |rels| && Linked(env, m0, st, rels, k) && Separate(env, rels) && Counted(env, rels)
    ensures Room(env, st, rels[k])
    ensures Step(env, st, rels[k]).Ok? ==> Linked(env, m0, Step(env, st, rels[k]).st, rels, k + 1)
  {
    RoomForNext(env, st, rels, k);
    if Step(env, st, rels[k]).Ok? {
      StepKeepsLinked(env, m0, st, rels, k);
    }
  }

  // ----------------------------------------------------------- reading while linking

  /** What the search needs to know of the object: where its symbol and string tables are
      in memory, and what else it consults. */
  datatype Finder = Finder(hs: Hashes, cb: Callbacks, scope: seq<Lib>, base: u64, symAt: nat, nsyms: nat,
                           strAt: nat, strLen: nat)

  predicate InMemory(f: Finder, size: nat) {
    Within(f.symAt, 24 * f.nsyms, size) && Within(f.strAt, f.strLen, size)
  }

  function Strings(m: seq<byte>, at: nat, n: nat): seq<byte>
    requires Within(at, n, |m|)
  {
    if n == 0 then [] else m[at..at + n]
  }

  /** The object as the search sees it in memory `m`. Its own index is never asked. */
  function Core(f: Finder, m: seq<byte>): (l: Lib)
    requires InMemory(f, |m|)
    ensures |l.symtab.symbols| == f.nsyms
  {
    Lib(0, [], f.base, SymTab(Syms(m, f.symAt, f.nsyms), Strings(m, f.strAt, f.strLen)), Custom(_ => None), [])
  }

  /** The environment's symbol search is the search in memory `m`. */
  ghost predicate Searches(env: Env, f: Finder, m: seq<byte>) {
    && InMemory(f, |m|) && ValidScope(f.hs, f.scope)
    && forall i :: 0 <= i < f.nsyms ==> Answers(env, i, SymbolAddr(f.hs, f.cb, Core(f, m), f.scope, i))
  }

  /** The bytes are outside every field, the GOT and the PLT. */
  ghost predicate Clear(env: Env, rels: seq<Rela>, at: nat, n: nat) {
    forall b :: at <= b < at + n ==> !InTables(env, b) && forall i :: 0 <= i < |rels| ==> !InField(rels[i], b)
  }

  lemma ClearKept(env: Env, m0: seq<byte>, m: seq<byte>, rels: seq<Rela>, k: nat, at: nat, n: nat)
    requires k <= |rels| && OnlyLinked(env, m0, m, rels, k) && Clear(env, rels, at, n) && at + n <= |m0|
    ensures m[at..at + n] == m0[at..at + n]
  {
    forall b | at <= b < at + n ensures m[b] == m0[b] {
      assert !InTables(env, b) && forall i :: 0 <= i < |rels| ==> !InField(rels[i], b);
    }
  }

  /** Relocating changes neither the symbols nor their names. */
  lemma CoreKept(env: Env, f: Finder, m0: seq<byte>, m: seq<byte>, rels: seq<Rela>, k: nat)
    requires k <= |rels| && OnlyLinked(env, m0, m, rels, k) && InMemory(f, |m0|)
    requires f.nsyms > 0 ==> Clear(env, rels, f.symAt, 24 * f.nsyms)
    requires f.strLen > 0 ==> Clear(env, rels, f.strAt, f.strLen)
    ensures Core(f, m).symtab == Core(f, m0).symtab
  {
    if f.nsyms > 0 {
      ClearKept(env, m0, m, rels, k, f.symAt, 24 * f.nsyms);
    }
    if f.strLen > 0 {
      ClearKept(env, m0, m, rels, k, f.strAt, f.strLen);
    }
    SymsSame(m, m0, f.symAt, f.symAt, f.nsyms);
  }

  /** The search looks at the symbols and the names only. */
  lemma SameSearch(f: Finder, m0: seq<byte>, m: seq<byte>, i: nat)
    requires InMemory(f, |m0|) && InMemory(f, |m|) && ValidScope(f.hs, f.scope) && i < f.nsyms
    requires Core(f, m).symtab == Core(f, m0).symtab
    ensures SymbolAddr(f.hs, f.cb, Core(f, m), f.scope, i) == SymbolAddr(f.hs, f.cb, Core(f, m0), f.scope, i)
  {
    assert Core(f, m) == Core(f, m0);
  }

  function TablesAt(m: seq<byte>, spots: seq<Spot>): (tables: seq<seq<Rela>>)
    requires forall t :: 0 <= t < |spots| ==> Within(spots[t].at, 24 * spots[t].n, |m|)
    ensures |tables| == |spots|
    ensures forall t :: 0 <= t < |spots| ==> tables[t] == Relas(m, spots[t].at, spots[t].n)
  {
    seq(|spots|, t requires 0 <= t < |spots| => Relas(m, spots[t].at, spots[t].n))
  }

  /** What the object must promise so that it can be read while it is being relocated:
      no field lies in a relocation table, the symbol table or the string table. */
  ghost predicate Undisturbed(env: Env, f: Finder, m0: seq<byte>, spots: seq<Spot>, rels: seq<Rela>) {
    && |m0| == env.len && Searches(env, f, m0)
    && (f.nsyms > 0 ==> Clear(env, rels, f.symAt, 24 * f.nsyms))
    && (f.strLen > 0 ==> Clear(env, rels, f.strAt, f.strLen))
    && (forall t :: 0 <= t < |spots| ==> Within(spots[t].at, 24 * spots[t].n, |m0|))
    && (forall t :: 0 <= t < |spots| && spots[t].n > 0 ==> Clear(env, rels, spots[t].at, 24 * spots[t].n))
    && rels == Flatten(TablesAt(m0, spots)) && (forall k :: 0 <= k < |rels| ==> rels[k].sym < f.nsyms)
  }

  /** Relocation `k`, in state `st`, is what stopped the loop. */
  ghost predicate StoppedAt(env: Env, m0: seq<byte>, rels: seq<Rela>, k: nat, st: State, status: Status) {
    && k < |rels| && Linked(env, m0, st, rels, k) && Room(env, st, rels[k])
    && (status == Rejected ==> Step(env, st, rels[k]).Err?) && (status == Crashed ==> Step(env, st, rels[k]).Panic?)
    && status != Done
  }

  /** An entry read during the loop is the entry that was there before it. */
  lemma EntryKept(env: Env, f: Finder, m0: seq<byte>, m: seq<byte>, spots: seq<Spot>, rels: seq<Rela>, k: nat,
                  t: nat, i: nat)
    requires Undisturbed(env, f, m0, spots, rels) && k <= |rels| && OnlyLinked(env, m0, m, rels, k)
    requires t < |spots| && i < spots[t].n
    ensures spots[t].at + 24 * i + 24 <= |m|
    ensures RelaAt(m, spots[t].at, i) == TablesAt(m0, spots)[t][i]
  {
    var at, n := spots[t].at, spots[t].n;
    ClearKept(env, m0, m, rels, k, at, 24 * n);
    RelasSame(m, m0, at, at, n);
    assert Relas(m, at, n)[i] == RelaAt(m, at, i);
  }

  /** One turn of the loop: the entry and its symbol are read from memory as it is now. */
  method RelocateNext(ghost env: Env, p: Place, f: Finder, pltgot: PltGotSection, mem: array<byte>, row: nat,
                      ghost m0: seq<byte>, ghost rels: seq<Rela>, ghost k: nat) returns (status: Status)
    requires Here(env, p) && p.base == f.base && Attached(env, pltgot) && k < |rels| && Separate(env, rels)
    requires Counted(env, rels)
    requires Linked(env, m0, State(mem[..], pltgot.tables), rels, k)
    requires row + 24 <= mem.Length && DecodeRela(mem[..][row..row + 24]) == rels[k]
    requires Searches(env, f, m0) && InMemory(f, mem.Length) && Core(f, mem[..]).symtab == Core(f, m0).symtab
    requires rels[k].sym < f.nsyms
    modifies pltgot, mem
    ensures Attached(env, pltgot)
    ensures status == Done ==> Linked(env, m0, State(mem[..], pltgot.tables), rels, k + 1)
    ensures status != Done ==> StoppedAt(env, m0, rels, k, old(State(mem[..], pltgot.tables)), status)
    ensures status == Rejected ==> State(mem[..], pltgot.tables) == old(State(mem[..], pltgot.tables))
  {
    ghost var st := State(mem[..], pltgot.tables);
    var r := DecodeRela(mem[..][row..row + 24]);
    LinkNext(env, m0, st, rels, k);
    SameSearch(f, m0, mem[..], r.sym);
    assert Answers(env, r.sym, SymbolAddr(f.hs, f.cb, Core(f, m0), f.scope, r.sym));
    var found := FindSymbolAddr(f.hs, f.cb, Core(f, mem[..]), f.scope, r.sym);
    status := Relocate(env, p, pltgot, mem, r, found);
  }

  /** `RawObject::relocate_impl`: every entry of every table, in order. The object is
      linked, or the loop stopped at the relocation `k` that was rejected (and changed
      nothing) or that panicked. */
  method RelocateAll(ghost env: Env, p: Place, f: Finder, pltgot: PltGotSection, mem: array<byte>, spots: seq<Spot>,
                     ghost rels: seq<Rela>) returns (status: Status, ghost k: nat, ghost st: State)
    requires env.Valid() && Here(env, p) && p.base == f.base
    requires Attached(env, pltgot) && pltgot.tables == Tables([], [])
    requires Undisturbed(env, f, mem[..], spots, rels) && Separate(env, rels) && Counted(env, rels)
    modifies pltgot, mem
    ensures status == Done ==> Linked(env, old(mem[..]), State(mem[..], pltgot.tables), rels, |rels|)
    ensures status != Done ==> StoppedAt(env, old(mem[..]), rels, k, st, status)
    ensures status == Rejected ==> st == State(mem[..], pltgot.tables)
  {
    ghost var m0 := mem[..];
    ghost var tables := TablesAt(m0, spots);
    NothingLinked(env, m0, rels);
    k, st := 0, State(m0, Tables([], []));
    for t := 0 to |spots|
      invariant Attached(env, pltgot) && k == |Flatten(tables[..t])| <= |rels|
      invariant Linked(env, m0, State(mem[..], pltgot.tables), rels, k)
    {
      status, k, st := RelocateTable(env, p, f, pltgot, mem, spots, t, m0, rels, k);
      if status != Done {
        return;
      }
      FlattenNext(tables, t);
    }
    assert tables[..|spots|] == tables;
    status := Done;
  }

  lemma FlattenNext(tables: seq<seq<Rela>>, t: nat)
    requires t < |tables|
    ensures |Flatten(tables[..t + 1])| == |Flatten(tables[..t])| + |tables[t]|
  {
    assert tables[..t + 1][..t] == tables[..t];
  }

  /** What is read for row `i` of table `t` is right. */
  lemma NextReady(env: Env, f: Finder, m0: seq<byte>, st: State, spots: seq<Spot>, rels: seq<Rela>, k: nat, t: nat,
                  i: nat)
    requires Undisturbed(env, f, m0, spots, rels) && Linked(env, m0, st, rels, k) && t < |spots| && i < spots[t].n
    requires k == |Flatten(TablesAt(m0, spots)[..t])| + i
    ensures k < |rels| && rels[k].sym < f.nsyms
    ensures var row := spots[t].at + 24 * i; row + 24 <= |st.m| && DecodeRela(st.m[row..row + 24]) == rels[k]
    ensures Searches(env, f, m0) && InMemory(f, |st.m|) && Core(f, st.m).symtab == Core(f, m0).symtab
  {
    FlattenAt(TablesAt(m0, spots), t, i);
    EntryKept(env, f, m0, st.m, spots, rels, k, t, i);
    CoreKept(env, f, m0, st.m, rels, k);
  }

  method RelocateTable(ghost env: Env, p: Place, f: Finder, pltgot: PltGotSection, mem: array<byte>,
                       spots: seq<Spot>, t: nat,
                       ghost m0: seq<byte>, ghost rels: seq<Rela>, ghost start: nat)
    returns (status: Status, ghost k: nat, ghost st: State)
    requires Here(env, p) && p.base == f.base && Attached(env, pltgot) && Separate(env, rels) && Counted(env, rels)
    requires Undisturbed(env, f, m0, spots, rels) && t < |spots|
    requires start == |Flatten(TablesAt(m0, spots)[..t])| <= |rels|
    requires Linked(env, m0, State(mem[..], pltgot.tables), rels, start)
    modifies pltgot, mem
    ensures Attached(env, pltgot)
    ensures status == Done ==>
              k == start + spots[t].n <= |rels| && Linked(env, m0, State(mem[..], pltgot.tables), rels, k)
    ensures status != Done ==> StoppedAt(env, m0, rels, k, st, status)
    ensures status == Rejected ==> st == State(mem[..], pltgot.tables)
  {
    st, k, status := State(mem[..], pltgot.tables), start, Done;
    for i := 0 to spots[t].n
      invariant Attached(env, pltgot) && k == start + i <= |rels| && status == Done
      invariant Linked(env, m0, State(mem[..], pltgot.tables), rels, k)
    {
      NextReady(env, f, m0, State(mem[..], pltgot.tables), spots, rels, k, t, i);
      st := State(mem[..], pltgot.tables);
      status := RelocateNext(env, p, f, pltgot, mem, spots[t].at + 24 * i, m0, rels, k);
      if status != Done {
        return;
      }
      k := k + 1;
    }
  }
}
