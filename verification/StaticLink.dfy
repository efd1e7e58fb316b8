/** Relocating a loaded object file on x86-64 (src/arch/x86_64.rs,
    src/relocation/static.rs).

    Offsets into the object's memory are relative to its base. `resolve` is the
    symbol search: it gives the address of a symbol index, or nothing; for a symbol that
    is `broken` it trips an assertion. */
module StaticLink {
  import opened Words
  import opened PltGot
  import opened Symbols

  const R_X86_64_64 := 1
  const R_X86_64_PC32 := 2
  const R_X86_64_PLT32 := 4
  const R_X86_64_GOTPCREL := 9
  const R_X86_64_32 := 10
  const R_X86_64_32S := 11

  predicate NeedsGot(rtype: nat) {
    rtype == R_X86_64_GOTPCREL || rtype == R_X86_64_PLT32
  }

  predicate NeedsPlt(rtype: nat) {
    rtype == R_X86_64_PLT32
  }

  function GotSyms(rels: seq<Rela>): set<nat> {
    set i | 0 <= i < |rels| && NeedsGot(rels[i].rtype) :: rels[i].sym
  }

  function PltSyms(rels: seq<Rela>): set<nat> {
    set i | 0 <= i < |rels| && NeedsPlt(rels[i].rtype) :: rels[i].sym
  }

  function Flatten(tables: seq<seq<Rela>>): seq<Rela> {
    if |tables| == 0 then [] else Flatten(tables[..|tables| - 1]) + tables[|tables| - 1]
  }

  /** Adds the symbols of one table to the two sets of `count_needed_entries`. */
  method CountTable(got0: set<nat>, plt0: set<nat>, ghost before: seq<Rela>, table: seq<Rela>)
    returns (got: set<nat>, plt: set<nat>)
    requires got0 == GotSyms(before) && plt0 == PltSyms(before)
    ensures got == GotSyms(before + table) && plt == PltSyms(before + table)
  {
    got, plt := got0, plt0;
    ghost var seen := before;
    for i := 0 to |table|
      invariant seen == before + table[..i] && got == GotSyms(seen) && plt == PltSyms(seen)
    {
      var r := table[i];
      SymsStep(seen, r);
      if NeedsGot(r.rtype) {
        got := got + {r.sym};
      }
      if NeedsPlt(r.rtype) {
        plt := plt + {r.sym};
      }
      seen := seen + [r];
    }
    assert seen == before + table;
  }

  lemma SymsStep(rels: seq<Rela>, r: Rela)
    ensures GotSyms(rels + [r]) == GotSyms(rels) + (if NeedsGot(r.rtype) then {r.sym} else {})
    ensures PltSyms(rels + [r]) == PltSyms(rels) + (if NeedsPlt(r.rtype) then {r.sym} else {})
  {
    var l := rels + [r];
    assert l[|rels|] == r && forall i :: 0 <= i < |rels| ==> l[i] == rels[i];
    forall s | s in GotSyms(rels) ensures s in GotSyms(l) {
      var i :| 0 <= i < |rels| && NeedsGot(rels[i].rtype) && rels[i].sym == s;
      assert l[i] == rels[i];
    }
    forall s | s in PltSyms(rels) ensures s in PltSyms(l) {
      var i :| 0 <= i < |rels| && NeedsPlt(rels[i].rtype) && rels[i].sym == s;
      assert l[i] == rels[i];
    }
  }

  // ------------------------------------------------------------------- the object

  /** Where the object lives, where its GOT and PLT are, and the code of a stub
      before its displacement is filled in. */
  datatype Env = Env(base: nat, len: nat, gotOff: nat, gotCnt: nat, pltOff: nat, pltCnt: nat,
                     template: seq<byte>, resolve: nat -> Option<u64>, broken: nat -> bool)
  {
    /** An object under 2 GiB whose GOT and PLT lie in it and do not overlap. */
    predicate Valid() {
      && base + len < 0x1_0000_0000_0000_0000 && len <= 0x7fff_f000
      && |template| == 16
      && (gotCnt > 0 ==> gotOff + 8 * gotCnt <= len)
      && (pltCnt > 0 ==> pltOff + 16 * pltCnt <= len)
      && Disjoint(gotOff, 8 * gotCnt, pltOff, 16 * pltCnt)
    }

    function Slot(i: nat): nat {
      gotOff + 8 * i
    }

    function StubAt(j: nat): nat {
      pltOff + 16 * j
    }
  }

  function Width(rtype: nat): nat {
    if rtype == R_X86_64_64 then 8 else 4
  }

  datatype State = State(m: seq<byte>, t: Tables)

  /** A relocation either succeeds, is rejected with an error, or trips an `unwrap`. */
  datatype Outcome = Ok(st: State) | Err | Panic

  predicate FitsI32(v: int) {
    -0x8000_0000 <= v <= 0x7fff_ffff
  }

  /** `PLT_ENTRY`: `endbr64; jmp *0(%rip)` and padding. */
  function PltTemplate(): seq<byte> {
    [0xf3, 0x0f, 0x1e, 0xfa, 0xff, 0x25, 0, 0, 0, 0, 0xcc, 0xcc, 0xcc, 0xcc, 0xcc, 0xcc]
  }

  /** Room for the field, and for whatever slot or stub the relocation may add. */
  predicate Room(env: Env, st: State, r: Rela) {
    && env.Valid() && |st.m| == env.len
    && r.off + Width(r.rtype) <= env.len
    && |st.t.owners| <= env.gotCnt && |st.t.stubs| <= env.pltCnt
    && (r.rtype == R_X86_64_GOTPCREL && Direct(r.sym) !in st.t.owners ==> |st.t.owners| < env.gotCnt)
    && (r.rtype == R_X86_64_PLT32 && r.sym !in st.t.stubs ==>
          |st.t.owners| < env.gotCnt && |st.t.stubs| < env.pltCnt)
  }

  /** Fills the GOT slot of a symbol used for the first time. */
  function GotMemory(env: Env, st: State, sym: nat, s: u64): (m: seq<byte>)
    requires env.Valid() && |st.m| == env.len && |st.t.owners| <= env.gotCnt
    requires Direct(sym) !in st.t.owners ==> |st.t.owners| < env.gotCnt
    ensures |m| == env.len
  {
    if Direct(sym) in st.t.owners then st.m else Store(st.m, env.Slot(|st.t.owners|), s, 8)
  }

  /** Writes the stub and the slot of a symbol called out of range for the first time. */
  function PltMemory(env: Env, st: State, sym: nat, s: u64): (m: seq<byte>)
    requires env.Valid() && |st.m| == env.len && |st.t.owners| <= env.gotCnt && |st.t.stubs| <= env.pltCnt
    requires sym !in st.t.stubs ==> |st.t.owners| < env.gotCnt && |st.t.stubs| < env.pltCnt
    ensures |m| == env.len
  {
    if sym in st.t.stubs then st.m
    else
      var slot, stub := env.Slot(|st.t.owners|), env.StubAt(|st.t.stubs|);
      NewStub(st.m, env.template, stub, slot, s)
  }

  /** The three writes that make a stub: code, slot, displacement. */
  function NewStub(m: seq<byte>, template: seq<byte>, stub: nat, slot: nat, s: u64): (r: seq<byte>)
    requires |template| == 16 && stub + 16 <= |m| && slot + 8 <= |m|
    ensures |r| == |m|
  {
    Store(Store(Put(m, stub, template), slot, s, 8), stub + 6, slot - stub - 10, 4)
  }

  /** Stores a 32-bit signed field, if the value fits. */
  ghost function Signed(m: seq<byte>, t: Tables, r: Rela, v: u64, otherwise: Outcome): Outcome
    requires r.off + 4 <= |m|
  {
    if FitsI32(Signed64(v)) then Ok(State(Store(m, r.off, Signed64(v), 4), t)) else otherwise
  }

  /** A call that is out of range goes through the symbol's stub. */
  ghost function ViaStub(env: Env, st: State, r: Rela, s: u64): Outcome
    requires Room(env, st, r) && r.rtype == R_X86_64_PLT32
  {
    var t := st.t.AddPlt(r.sym);
    assert r.sym in t.stubs;
    var l := env.base + env.StubAt(IndexOf(t.stubs, r.sym));
    Signed(PltMemory(env, st, r.sym, s), t, r, Wrap64(l + r.addend - (env.base + r.off)), Panic)
  }

  ghost function ViaGot(env: Env, st: State, r: Rela, s: u64): Outcome
    requires Room(env, st, r) && r.rtype == R_X86_64_GOTPCREL
  {
    var t := st.t.AddGot(r.sym);
    assert Direct(r.sym) in t.owners;
    var g := env.base + env.Slot(IndexOf(t.owners, Direct(r.sym)));
    Signed(GotMemory(env, st, r.sym, s), t, r, Wrap64(g + r.addend - (env.base + r.off)), Panic)
  }

  /** The types that are relocated; any other is rejected before its symbol is looked for. */
  predicate KnownType(rtype: nat) {
    rtype in {R_X86_64_64, R_X86_64_PC32, R_X86_64_PLT32, R_X86_64_GOTPCREL, R_X86_64_32, R_X86_64_32S}
  }

  /** `X86_64Relocator::relocate` as a function of the state. */
  ghost function Step(env: Env, st: State, r: Rela): Outcome
    requires Room(env, st, r)
  {
    var p := env.base + r.off;
    if !KnownType(r.rtype) then Err
    else if env.broken(r.sym) then Panic
    else match env.resolve(r.sym)
    case None => Err
    case Some(s) =>
      if r.rtype == R_X86_64_64 then
        Ok(State(Store(st.m, r.off, Wrap64(s + r.addend), 8), st.t))
      else if r.rtype == R_X86_64_PC32 then
        Signed(st.m, st.t, r, Wrap64(s + r.addend - p), Err)
      else if r.rtype == R_X86_64_PLT32 then
        if FitsI32(Signed64(Wrap64(s + r.addend - p))) then
          Signed(st.m, st.t, r, Wrap64(s + r.addend - p), Panic)
        else ViaStub(env, st, r, s)
      else if r.rtype == R_X86_64_GOTPCREL then
        ViaGot(env, st, r, s)
      else if r.rtype == R_X86_64_32 then
        if Wrap64(s + r.addend) < 0x1_0000_0000
        then Ok(State(Store(st.m, r.off, Wrap64(s + r.addend), 4), st.t)) else Err
      else if r.rtype == R_X86_64_32S then
        Signed(st.m, st.t, r, Wrap64(s + r.addend), Err)
      else Err
  }

  // ----------------------------------------------------- what a linked object means

  /** The 32-bit field at `off`, sign extended, is `x` modulo 2^64. */
  predicate Holds32S(m: seq<byte>, off: nat, x: int)
    requires off + 4 <= |m|
  {
    Wrap64(Signed32(Load(m, off, 4))) == Wrap64(x)
  }

  /** `x` is the value that section 4.4.1 of the AMD64 psABI gives for the 32-bit
      signed type of `r`: S + A, S + A - P, L + A - P or GOT(S) + A - P. */
  ghost predicate Value32S(env: Env, t: Tables, r: Rela, s: u64, x: int) {
    var a, p := r.addend, env.base + r.off;
    if r.rtype == R_X86_64_32S then x == s + a
    else if r.rtype == R_X86_64_PC32 then x == s + a - p
    else if r.rtype == R_X86_64_PLT32 then
      x == s + a - p || (r.sym in t.stubs && x == env.base + env.StubAt(IndexOf(t.stubs, r.sym)) + a - p)
    else if r.rtype == R_X86_64_GOTPCREL then
      Direct(r.sym) in t.owners && x == env.base + env.Slot(IndexOf(t.owners, Direct(r.sym))) + a - p
    else false
  }

  /** The field of `r` holds what the psABI asks for. */
  ghost predicate FieldOk(env: Env, st: State, r: Rela) {
    && |st.m| == env.len && r.off + Width(r.rtype) <= env.len
    && env.resolve(r.sym).Some?
    && var s := env.resolve(r.sym).value;
       if r.rtype == R_X86_64_64 then Load(st.m, r.off, 8) == Wrap64(s + r.addend)
       else if r.rtype == R_X86_64_32 then Load(st.m, r.off, 4) == Wrap64(s + r.addend)
       else exists x :: Value32S(env, st.t, r, s, x) && Holds32S(st.m, r.off, x)
  }

  /** Slot `i` holds the address of its owner's symbol. */
  predicate SlotOk(env: Env, st: State, i: nat)
    requires env.Valid() && |st.m| == env.len && i < |st.t.owners| <= env.gotCnt
  {
    env.resolve(st.t.owners[i].sym) == Some(Load(st.m, env.Slot(i), 8))
  }

  /** Stub `j` is the template, and its jump (whose next instruction is ten bytes into
      the stub) reads the slot that belongs to the stub's symbol. */
  ghost predicate StubOk(env: Env, st: State, j: nat)
    requires env.Valid() && |st.m| == env.len && j < |st.t.stubs| <= env.pltCnt
  {
    var at := env.StubAt(j);
    && st.m[at..at + 6] == env.template[..6]
    && st.m[at + 10..at + 16] == env.template[10..]
    && Stub(st.t.stubs[j]) in st.t.owners
    && at + 10 + Signed32(Load(st.m, at + 6, 4)) == env.Slot(IndexOf(st.t.owners, Stub(st.t.stubs[j])))
  }

  predicate InTables(env: Env, k: int) {
    || env.gotOff <= k < env.gotOff + 8 * env.gotCnt
    || env.pltOff <= k < env.pltOff + 16 * env.pltCnt
  }

  predicate InField(r: Rela, k: int) {
    r.off <= k < r.off + Width(r.rtype)
  }

  /** Fields lie in the object, outside GOT and PLT, and do not overlap. */
  ghost predicate Separate(env: Env, rels: seq<Rela>) {
    && (forall i :: 0 <= i < |rels| ==>
          && rels[i].off + Width(rels[i].rtype) <= env.len
          && Disjoint(rels[i].off, Width(rels[i].rtype), env.gotOff, 8 * env.gotCnt)
          && Disjoint(rels[i].off, Width(rels[i].rtype), env.pltOff, 16 * env.pltCnt))
    && (forall i, j :: 0 <= i < j < |rels| ==>
          Disjoint(rels[i].off, Width(rels[i].rtype), rels[j].off, Width(rels[j].rtype)))
  }

  /** The tables are sized by the pre-pass over these relocations. */
  predicate Counted(env: Env, rels: seq<Rela>) {
    && env.gotCnt == |GotSyms(rels)| + |PltSyms(rels)|
    && env.pltCnt == |PltSyms(rels)|
  }

  ghost predicate TablesOk(env: Env, st: State, rels: seq<Rela>) {
    && env.Valid() && |st.m| == env.len
    && st.t.Consistent() && DrawnFrom(st.t, GotSyms(rels), PltSyms(rels))
    && |st.t.owners| <= env.gotCnt && |st.t.stubs| <= env.pltCnt
    && (forall i :: 0 <= i < |st.t.owners| ==> SlotOk(env, st, i))
    && (forall j :: 0 <= j < |st.t.stubs| ==> StubOk(env, st, j))
  }

  /** Only fields of the first `k` relocations, GOT and PLT differ from the loaded object. */
  ghost predicate OnlyLinked(env: Env, m0: seq<byte>, m: seq<byte>, rels: seq<Rela>, k: nat)
    requires k <= |rels|
  {
    && |m| == |m0|
    && forall b :: 0 <= b < |m| && m[b] != m0[b] ==>
         InTables(env, b) || exists i :: 0 <= i < k && InField(rels[i], b)
  }

  /** The state of the link after the first `k` relocations. */
  ghost predicate Linked(env: Env, m0: seq<byte>, st: State, rels: seq<Rela>, k: nat) {
    && k <= |rels|
    && TablesOk(env, st, rels)
    && (forall i :: 0 <= i < k ==> FieldOk(env, st, rels[i]))
    && OnlyLinked(env, m0, st.m, rels, k)
  }

  // ---------------------------------------------------------------- steps keep it

  /** With the counts of the pre-pass there is always room for the next relocation. */
  lemma RoomForNext(env: Env, st: State, rels: seq<Rela>, k: nat)
    requires k < |rels| && TablesOk(env, st, rels) && Counted(env, rels) && Separate(env, rels)
    ensures Room(env, st, rels[k])
  {
    var r := rels[k];
    var got, plt := GotSyms(rels), PltSyms(rels);
    if NeedsGot(r.rtype) {
      assert r.sym in got;
      st.t.AddKeeps(r.sym);
      DrawnAfterAdd(st.t, r.sym, got, plt);
      Capacity(st.t.AddGot(r.sym), got, plt);
    }
    if NeedsPlt(r.rtype) {
      assert r.sym in plt;
      Capacity(st.t.AddPlt(r.sym), got, plt);
    }
  }

  lemma Stored32S(m: seq<byte>, off: nat, v: u64)
    requires off + 4 <= |m| && FitsI32(Signed64(v))
    ensures Holds32S(Store(m, off, Signed64(v), 4), off, v)
  {
    LoadStored(m, off, Signed64(v), 4);
    Pow256Values();
    SignExtended(v);
  }

  /** Truncating to 32 bits and sign extending again restores a value that fits. */
  lemma SignExtended(v: u64)
    requires FitsI32(Signed64(v))
    ensures Wrap64(Signed32(Signed64(v) % 0x1_0000_0000)) == v == Wrap64(v)
  {
    SignedDisplacement(Signed64(v));
    WrapSmall(v);
  }

  predicate SameAt(m: seq<byte>, m': seq<byte>, at: nat, n: nat) {
    |m'| == |m| && at + n <= |m| && m'[at..at + n] == m[at..at + n]
  }

  lemma SameWithin(m: seq<byte>, m': seq<byte>, at: nat, n: nat, i: nat, j: nat)
    requires SameAt(m, m', at, n) && i <= j <= n
    ensures m'[at + i..at + j] == m[at + i..at + j]
  {
    forall b | at + i <= b < at + j ensures m'[b] == m[b] {
      assert m'[at..at + n][b - at] == m[at..at + n][b - at];
    }
  }

  lemma ValueStable(env: Env, t: Tables, t': Tables, r: Rela, s: u64, x: int)
    requires Value32S(env, t, r, s, x) && t'.Extends(t) && t'.Consistent()
    ensures Value32S(env, t', r, s, x)
  {
    if r.rtype == R_X86_64_PLT32 && r.sym in t.stubs {
      IndexStable(t.stubs, t'.stubs, r.sym);
    }
    if r.rtype == R_X86_64_GOTPCREL {
      IndexStable(t.owners, t'.owners, Direct(r.sym));
    }
  }

  /** A field stays right as long as its bytes are untouched and the tables only grow. */
  lemma FieldStable(env: Env, st: State, st': State, r: Rela)
    requires FieldOk(env, st, r) && st'.t.Extends(st.t) && st'.t.Consistent()
    requires SameAt(st.m, st'.m, r.off, Width(r.rtype))
    ensures FieldOk(env, st', r)
  {
    if r.rtype != R_X86_64_64 && r.rtype != R_X86_64_32 {
      var s := env.resolve(r.sym).value;
      var x :| Value32S(env, st.t, r, s, x) && Holds32S(st.m, r.off, x);
      ValueStable(env, st.t, st'.t, r, s, x);
      assert Holds32S(st'.m, r.off, x);
    }
  }

  lemma StubStable(env: Env, st: State, st': State, j: nat)
    requires env.Valid() && |st.m| == env.len && j < |st.t.stubs| && |st'.t.stubs| <= env.pltCnt
    requires st'.t.Extends(st.t) && st'.t.Consistent() && StubOk(env, st, j)
    requires SameAt(st.m, st'.m, env.StubAt(j), 16)
    ensures StubOk(env, st', j)
  {
    SameWithin(st.m, st'.m, env.StubAt(j), 16, 0, 6);
    SameWithin(st.m, st'.m, env.StubAt(j), 16, 6, 10);
    SameWithin(st.m, st'.m, env.StubAt(j), 16, 10, 16);
    IndexStable(st.t.owners, st'.t.owners, Stub(st.t.stubs[j]));
  }

  /** Writing bytes outside GOT and PLT leaves the tables right. */
  lemma TablesAfterField(env: Env, st: State, rels: seq<Rela>, off: nat, bytes: seq<byte>)
    requires TablesOk(env, st, rels) && off + |bytes| <= env.len
    requires Disjoint(off, |bytes|, env.gotOff, 8 * env.gotCnt) && Disjoint(off, |bytes|, env.pltOff, 16 * env.pltCnt)
    ensures TablesOk(env, State(Put(st.m, off, bytes), st.t), rels)
  {
    var st' := State(Put(st.m, off, bytes), st.t);
    forall i | 0 <= i < |st.t.owners| ensures SlotOk(env, st', i) {
      LoadPutElsewhere(st.m, off, bytes, env.Slot(i), 8);
      assert SlotOk(env, st, i);
    }
    forall j | 0 <= j < |st.t.stubs| ensures StubOk(env, st', j) {
      LoadPutElsewhere(st.m, off, bytes, env.StubAt(j), 16);
      StubStable(env, st, st', j);
    }
  }

  ghost predicate OnlyTables(env: Env, m: seq<byte>, m': seq<byte>) {
    |m'| == |m| && forall b :: 0 <= b < |m| && m'[b] != m[b] ==> InTables(env, b)
  }

  /** Giving a symbol its GOT slot. */
  lemma TablesAfterGot(env: Env, st: State, rels: seq<Rela>, r: Rela, s: u64)
    requires TablesOk(env, st, rels) && Room(env, st, r)
    requires r.rtype == R_X86_64_GOTPCREL && r.sym in GotSyms(rels) && env.resolve(r.sym) == Some(s)
    ensures var st' := State(GotMemory(env, st, r.sym, s), st.t.AddGot(r.sym));
            TablesOk(env, st', rels) && OnlyTables(env, st.m, st'.m) && st'.t.Extends(st.t)
  {
    st.t.AddKeeps(r.sym);
    DrawnAfterAdd(st.t, r.sym, GotSyms(rels), PltSyms(rels));
    if Direct(r.sym) !in st.t.owners {
      var n := |st.t.owners|;
      var st' := State(GotMemory(env, st, r.sym, s), st.t.AddGot(r.sym));
      var bytes := LittleEndian(s, 8);
      LoadStored(st.m, env.Slot(n), s, 8);
      Pow256Values();
      WrapSmall(s);
      forall i | 0 <= i < |st'.t.owners| ensures SlotOk(env, st', i) {
        if i < n {
          LoadPutElsewhere(st.m, env.Slot(n), bytes, env.Slot(i), 8);
          assert SlotOk(env, st, i);
        }
      }
      forall j | 0 <= j < |st'.t.stubs| ensures StubOk(env, st', j) {
        LoadPutElsewhere(st.m, env.Slot(n), bytes, env.StubAt(j), 16);
        StubStable(env, st, st', j);
      }
    }
  }

  lemma NewStubElsewhere(m: seq<byte>, template: seq<byte>, stub: nat, slot: nat, s: u64, at: nat, n: nat)
    requires |template| == 16 && stub + 16 <= |m| && slot + 8 <= |m| && at + n <= |m|
    requires Disjoint(stub, 16, at, n) && Disjoint(slot, 8, at, n)
    ensures SameAt(m, NewStub(m, template, stub, slot, s), at, n)
  {
    var m1 := Put(m, stub, template);
    var m2 := Store(m1, slot, s, 8);
    LoadPutElsewhere(m, stub, template, at, n);
    LoadPutElsewhere(m1, slot, LittleEndian(s, 8), at, n);
    LoadPutElsewhere(m2, stub + 6, LittleEndian(slot - stub - 10, 4), at, n);
  }

  lemma SignedDisplacement(d: int)
    requires FitsI32(d)
    ensures Signed32(d % 0x1_0000_0000) == d
  {
  }

  /** The new slot holds the symbol. */
  lemma NewStubSlot(m: seq<byte>, template: seq<byte>, stub: nat, slot: nat, s: u64)
    requires |template| == 16 && stub + 16 <= |m| && slot + 8 <= |m| && Disjoint(stub, 16, slot, 8)
    ensures Load(NewStub(m, template, stub, slot, s), slot, 8) == s
  {
    var m1 := Put(m, stub, template);
    LoadStored(m1, slot, s, 8);
    LoadPutElsewhere(Store(m1, slot, s, 8), stub + 6, LittleEndian(slot - stub - 10, 4), slot, 8);
    Pow256Values();
    WrapSmall(s);
  }

  /** Outside the displacement the stub is the template. */
  lemma CodeKept(m: seq<byte>, template: seq<byte>, stub: nat, slot: nat, s: u64, i: nat, j: nat)
    requires |template| == 16 && stub + 16 <= |m| && slot + 8 <= |m| && Disjoint(stub, 16, slot, 8)
    requires i <= j <= 6 || 10 <= i <= j <= 16
    ensures NewStub(m, template, stub, slot, s)[stub + i..stub + j] == template[i..j]
  {
    var m1 := Put(m, stub, template);
    var m2 := Store(m1, slot, s, 8);
    PutInside(m, stub, template, i, j);
    LoadPutElsewhere(m1, slot, LittleEndian(s, 8), stub + i, j - i);
    LoadPutElsewhere(m2, stub + 6, LittleEndian(slot - stub - 10, 4), stub + i, j - i);
  }

  lemma PutInside(m: seq<byte>, off: nat, bytes: seq<byte>, i: nat, j: nat)
    requires off + |bytes| <= |m| && i <= j <= |bytes|
    ensures Put(m, off, bytes)[off + i..off + j] == bytes[i..j]
  {
    var x, y := Put(m, off, bytes)[off + i..off + j], bytes[i..j];
    forall k | 0 <= k < j - i ensures x[k] == y[k] {
    }
  }

  lemma StubDisplacement(m: seq<byte>, template: seq<byte>, stub: nat, slot: nat, s: u64)
    requires |template| == 16 && stub + 16 <= |m| && slot + 8 <= |m|
    requires FitsI32(slot - stub - 10)
    ensures Signed32(Load(NewStub(m, template, stub, slot, s), stub + 6, 4)) == slot - stub - 10
  {
    LoadStored(Store(Put(m, stub, template), slot, s, 8), stub + 6, slot - stub - 10, 4);
    Pow256Values();
    SignedDisplacement(slot - stub - 10);
  }

  /** The new stub is the template around a displacement to the new slot. */
  lemma NewStubCode(m: seq<byte>, template: seq<byte>, stub: nat, slot: nat, s: u64)
    requires |template| == 16 && stub + 16 <= |m| && slot + 8 <= |m| && Disjoint(stub, 16, slot, 8)
    requires FitsI32(slot - stub - 10)
    ensures var r := NewStub(m, template, stub, slot, s);
            && r[stub..stub + 6] == template[..6] && r[stub + 10..stub + 16] == template[10..]
            && Signed32(Load(r, stub + 6, 4)) == slot - stub - 10
  {
    StubDisplacement(m, template, stub, slot, s);
    CodeKept(m, template, stub, slot, s, 0, 6);
    CodeKept(m, template, stub, slot, s, 10, 16);
  }

  lemma StubAdded(env: Env, st: State, sym: nat, m': seq<byte>)
    requires env.Valid() && |st.m| == env.len == |m'| && |st.t.stubs| < env.pltCnt && |st.t.owners| < env.gotCnt
    requires st.t.Consistent() && sym !in st.t.stubs
    requires var stub, slot := env.StubAt(|st.t.stubs|), env.Slot(|st.t.owners|);
             && m'[stub..stub + 6] == env.template[..6] && m'[stub + 10..stub + 16] == env.template[10..]
             && Signed32(Load(m', stub + 6, 4)) == slot - stub - 10
    ensures StubOk(env, State(m', st.t.AddPlt(sym)), |st.t.stubs|)
  {
    FreshIndex(st.t.owners, Stub(sym));
    assert st.t.AddPlt(sym).stubs[|st.t.stubs|] == sym;
  }

  /** What holds when a stub is added to tables that are right. */
  ghost predicate StubFits(env: Env, st: State, sym: nat, s: u64) {
    && env.Valid() && |st.m| == env.len && st.t.Consistent() && sym !in st.t.stubs
    && |st.t.stubs| < env.pltCnt && |st.t.owners| < env.gotCnt
    && env.resolve(sym) == Some(s)
  }

  ghost function AfterStub(env: Env, st: State, sym: nat, s: u64): (st': State)
    requires StubFits(env, st, sym, s)
    ensures |st'.m| == env.len
  {
    State(NewStub(st.m, env.template, env.StubAt(|st.t.stubs|), env.Slot(|st.t.owners|), s), st.t.AddPlt(sym))
  }

  lemma SlotAfterStub(env: Env, st: State, sym: nat, s: u64, i: nat)
    requires StubFits(env, st, sym, s) && i <= |st.t.owners|
    requires i < |st.t.owners| ==> SlotOk(env, st, i)
    ensures SlotOk(env, AfterStub(env, st, sym, s), i)
  {
    var slot, stub := env.Slot(|st.t.owners|), env.StubAt(|st.t.stubs|);
    if i < |st.t.owners| {
      NewStubElsewhere(st.m, env.template, stub, slot, s, env.Slot(i), 8);
    } else {
      NewStubSlot(st.m, env.template, stub, slot, s);
    }
  }

  lemma StubAfterStub(env: Env, st: State, sym: nat, s: u64, j: nat)
    requires StubFits(env, st, sym, s) && j <= |st.t.stubs|
    requires j < |st.t.stubs| ==> StubOk(env, st, j)
    ensures StubOk(env, AfterStub(env, st, sym, s), j)
  {
    if j < |st.t.stubs| {
      OldStubAfterStub(env, st, sym, s, j);
    } else {
      NewStubAfterStub(env, st, sym, s);
    }
  }

  lemma OldStubAfterStub(env: Env, st: State, sym: nat, s: u64, j: nat)
    requires StubFits(env, st, sym, s) && j < |st.t.stubs| && StubOk(env, st, j)
    ensures StubOk(env, AfterStub(env, st, sym, s), j)
  {
    st.t.AddKeeps(sym);
    StubUntouched(env, st, sym, s, j);
    StubStable(env, st, AfterStub(env, st, sym, s), j);
  }

  lemma StubUntouched(env: Env, st: State, sym: nat, s: u64, j: nat)
    requires StubFits(env, st, sym, s) && j < |st.t.stubs|
    ensures SameAt(st.m, AfterStub(env, st, sym, s).m, env.StubAt(j), 16)
  {
    NewStubElsewhere(st.m, env.template, env.StubAt(|st.t.stubs|), env.Slot(|st.t.owners|), s, env.StubAt(j), 16);
  }

  lemma NewStubAfterStub(env: Env, st: State, sym: nat, s: u64)
    requires StubFits(env, st, sym, s)
    ensures StubOk(env, AfterStub(env, st, sym, s), |st.t.stubs|)
  {
    st.t.AddKeeps(sym);
    NewStubCode(st.m, env.template, env.StubAt(|st.t.stubs|), env.Slot(|st.t.owners|), s);
    StubAdded(env, st, sym, AfterStub(env, st, sym, s).m);
  }

  lemma StubInTables(env: Env, st: State, sym: nat, s: u64)
    requires StubFits(env, st, sym, s)
    ensures OnlyTables(env, st.m, AfterStub(env, st, sym, s).m)
  {
  }

  /** Giving a symbol its stub and the stub its slot. */
  lemma TablesAfterPlt(env: Env, st: State, rels: seq<Rela>, r: Rela, s: u64)
    requires TablesOk(env, st, rels) && Room(env, st, r)
    requires r.rtype == R_X86_64_PLT32 && r.sym in PltSyms(rels) && env.resolve(r.sym) == Some(s)
    ensures var st' := State(PltMemory(env, st, r.sym, s), st.t.AddPlt(r.sym));
            TablesOk(env, st', rels) && OnlyTables(env, st.m, st'.m) && st'.t.Extends(st.t)
  {
    st.t.AddKeeps(r.sym);
    DrawnAfterAdd(st.t, r.sym, GotSyms(rels), PltSyms(rels));
    if r.sym !in st.t.stubs {
      var st' := AfterStub(env, st, r.sym, s);
      StubInTables(env, st, r.sym, s);
      forall i | 0 <= i < |st'.t.owners| ensures SlotOk(env, st', i) {
        SlotAfterStub(env, st, r.sym, s, i);
      }
      forall j | 0 <= j < |st'.t.stubs| ensures StubOk(env, st', j) {
        StubAfterStub(env, st, r.sym, s, j);
      }
    }
  }

  /** The effect of one relocation: the tables may grow to `st1`, then the field of
      `r` is set to `bytes`, which is what the psABI asks for. */
  ghost predicate Effect(env: Env, st: State, rels: seq<Rela>, r: Rela, st1: State, bytes: seq<byte>) {
    && TablesOk(env, st1, rels) && OnlyTables(env, st.m, st1.m) && st1.t.Extends(st.t)
    && |bytes| == Width(r.rtype) && r.off + |bytes| <= |st1.m|
    && FieldOk(env, State(Put(st1.m, r.off, bytes), st1.t), r)
  }

  lemma StoredWord(m: seq<byte>, off: nat, v: u64, n: nat)
    requires off + n <= |m| && (n == 8 || (n == 4 && v < 0x1_0000_0000))
    ensures Load(Put(m, off, LittleEndian(v, n)), off, n) == v
  {
    LoadStored(m, off, v, n);
    Pow256Values();
    WrapSmall(v);
  }

  /** A 32-bit signed field computed from value `x`. */
  lemma SignedEffect(env: Env, st: State, rels: seq<Rela>, r: Rela, st1: State, s: u64, x: int)
    requires TablesOk(env, st1, rels) && OnlyTables(env, st.m, st1.m) && st1.t.Extends(st.t)
    requires r.off + 4 <= |st1.m| && env.resolve(r.sym) == Some(s) && Value32S(env, st1.t, r, s, x)
    requires FitsI32(Signed64(Wrap64(x)))
    ensures Effect(env, st, rels, r, st1, LittleEndian(Signed64(Wrap64(x)), 4))
  {
    Stored32S(st1.m, r.off, Wrap64(x));
    WrapAdd(x, 0);
    assert Holds32S(Put(st1.m, r.off, LittleEndian(Signed64(Wrap64(x)), 4)), r.off, x);
  }

  lemma GotEffect(env: Env, st: State, rels: seq<Rela>, r: Rela, s: u64) returns (st1: State, bytes: seq<byte>)
    requires TablesOk(env, st, rels) && Room(env, st, r) && env.resolve(r.sym) == Some(s)
    requires r.rtype == R_X86_64_GOTPCREL && r.sym in GotSyms(rels) && ViaGot(env, st, r, s).Ok?
    ensures Effect(env, st, rels, r, st1, bytes)
    ensures ViaGot(env, st, r, s).st == State(Put(st1.m, r.off, bytes), st1.t)
  {
    TablesAfterGot(env, st, rels, r, s);
    st1 := State(GotMemory(env, st, r.sym, s), st.t.AddGot(r.sym));
    st.t.AddKeeps(r.sym);
    var x := env.base + env.Slot(IndexOf(st1.t.owners, Direct(r.sym))) + r.addend - (env.base + r.off);
    SignedEffect(env, st, rels, r, st1, s, x);
    bytes := LittleEndian(Signed64(Wrap64(x)), 4);
  }

  lemma StubEffect(env: Env, st: State, rels: seq<Rela>, r: Rela, s: u64) returns (st1: State, bytes: seq<byte>)
    requires TablesOk(env, st, rels) && Room(env, st, r) && env.resolve(r.sym) == Some(s)
    requires r.rtype == R_X86_64_PLT32 && r.sym in PltSyms(rels) && ViaStub(env, st, r, s).Ok?
    ensures Effect(env, st, rels, r, st1, bytes)
    ensures ViaStub(env, st, r, s).st == State(Put(st1.m, r.off, bytes), st1.t)
  {
    TablesAfterPlt(env, st, rels, r, s);
    st1 := State(PltMemory(env, st, r.sym, s), st.t.AddPlt(r.sym));
    st.t.AddKeeps(r.sym);
    var x := env.base + env.StubAt(IndexOf(st1.t.stubs, r.sym)) + r.addend - (env.base + r.off);
    SignedEffect(env, st, rels, r, st1, s, x);
    bytes := LittleEndian(Signed64(Wrap64(x)), 4);
  }

  lemma DirectEffect(env: Env, st: State, rels: seq<Rela>, r: Rela, s: u64) returns (bytes: seq<byte>)
    requires TablesOk(env, st, rels) && Room(env, st, r) && env.resolve(r.sym) == Some(s)
    requires r.rtype != R_X86_64_GOTPCREL
    requires r.rtype == R_X86_64_PLT32 ==> FitsI32(Signed64(Wrap64(s + r.addend - (env.base + r.off))))
    requires Step(env, st, r).Ok?
    ensures Effect(env, st, rels, r, st, bytes)
    ensures Step(env, st, r).st == State(Put(st.m, r.off, bytes), st.t)
  {
    if r.rtype == R_X86_64_64 || r.rtype == R_X86_64_32 {
      StoredWord(st.m, r.off, Wrap64(s + r.addend), Width(r.rtype));
      bytes := LittleEndian(Wrap64(s + r.addend), Width(r.rtype));
    } else {
      var x := if r.rtype == R_X86_64_32S then s + r.addend else s + r.addend - (env.base + r.off);
      SignedEffect(env, st, rels, r, st, s, x);
      bytes := LittleEndian(Signed64(Wrap64(x)), 4);
    }
  }

  /** Whatever its type, a relocation that succeeds has the right effect. */
  lemma StepEffect(env: Env, st: State, rels: seq<Rela>, r: Rela) returns (st1: State, bytes: seq<byte>)
    requires TablesOk(env, st, rels) && Room(env, st, r) && Step(env, st, r).Ok?
    requires NeedsGot(r.rtype) ==> r.sym in GotSyms(rels)
    requires NeedsPlt(r.rtype) ==> r.sym in PltSyms(rels)
    ensures Effect(env, st, rels, r, st1, bytes)
    ensures Step(env, st, r).st == State(Put(st1.m, r.off, bytes), st1.t)
  {
    var s := env.resolve(r.sym).value;
    if r.rtype == R_X86_64_GOTPCREL {
      st1, bytes := GotEffect(env, st, rels, r, s);
    } else if r.rtype == R_X86_64_PLT32 && !FitsI32(Signed64(Wrap64(s + r.addend - (env.base + r.off)))) {
      st1, bytes := StubEffect(env, st, rels, r, s);
    } else {
      st1 := st;
      bytes := DirectEffect(env, st, rels, r, s);
    }
  }

  /** The field of relocation `k` is written last: everything before it stays linked. */
  lemma FieldWritten(env: Env, m0: seq<byte>, st: State, st1: State, rels: seq<Rela>, k: nat, bytes: seq<byte>)
    requires Linked(env, m0, st, rels, k) && k < |rels| && Separate(env, rels)
    requires Effect(env, st, rels, rels[k], st1, bytes)
    ensures Linked(env, m0, State(Put(st1.m, rels[k].off, bytes), st1.t), rels, k + 1)
  {
    var st' := State(Put(st1.m, rels[k].off, bytes), st1.t);
    TablesAfterField(env, st1, rels, rels[k].off, bytes);
    forall i | 0 <= i < k ensures FieldOk(env, st', rels[i]) {
      assert FieldOk(env, st, rels[i]);
      FieldUntouched(env, st, st1, rels, i, k, bytes);
    }
    FrameGrows(env, m0, st.m, st1.m, rels, k, bytes);
  }

  lemma FieldUntouched(env: Env, st: State, st1: State, rels: seq<Rela>, i: nat, k: nat, bytes: seq<byte>)
    requires i < k < |rels| && Separate(env, rels) && FieldOk(env, st, rels[i])
    requires OnlyTables(env, st.m, st1.m) && st1.t.Extends(st.t) && st1.t.Consistent()
    requires |bytes| == Width(rels[k].rtype)
    ensures FieldOk(env, State(Put(st1.m, rels[k].off, bytes), st1.t), rels[i])
  {
    var q, r := rels[i], rels[k];
    var m' := Put(st1.m, r.off, bytes);
    assert Disjoint(q.off, Width(q.rtype), r.off, Width(r.rtype));
    forall b | q.off <= b < q.off + Width(q.rtype) ensures m'[b] == st.m[b] {
      assert !InTables(env, b);
    }
    FieldStable(env, st, State(m', st1.t), q);
  }

  lemma FrameGrows(env: Env, m0: seq<byte>, m: seq<byte>, m1: seq<byte>, rels: seq<Rela>, k: nat, bytes: seq<byte>)
    requires k < |rels| && OnlyLinked(env, m0, m, rels, k) && OnlyTables(env, m, m1)
    requires |bytes| == Width(rels[k].rtype) && rels[k].off + |bytes| <= |m1|
    ensures OnlyLinked(env, m0, Put(m1, rels[k].off, bytes), rels, k + 1)
  {
    var m' := Put(m1, rels[k].off, bytes);
    forall b | 0 <= b < |m0| && m'[b] != m0[b]
      ensures InTables(env, b) || exists i :: 0 <= i < k + 1 && InField(rels[i], b)
    {
      if !InField(rels[k], b) && m1[b] == m[b] {
        assert m[b] != m0[b];
      }
    }
  }

  /** One relocation keeps the object linked. */
  lemma StepKeepsLinked(env: Env, m0: seq<byte>, st: State, rels: seq<Rela>, k: nat)
    requires k < |rels| && Linked(env, m0, st, rels, k) && Separate(env, rels) && Room(env, st, rels[k])
    requires Step(env, st, rels[k]).Ok?
    ensures Linked(env, m0, Step(env, st, rels[k]).st, rels, k + 1)
  {
    var st1, bytes := StepEffect(env, st, rels, rels[k]);
    FieldWritten(env, m0, st, st1, rels, k, bytes);
  }

  /** Calling a stub reaches the symbol: the word its jump reads is the symbol's address. */
  lemma StubReaches(env: Env, m0: seq<byte>, st: State, rels: seq<Rela>, k: nat, j: nat)
    requires Linked(env, m0, st, rels, k) && j < |st.t.stubs|
    ensures var target := env.StubAt(j) + 10 + Signed32(Load(st.m, env.StubAt(j) + 6, 4));
            && 0 <= target && target + 8 <= |st.m|
            && env.resolve(st.t.stubs[j]) == Some(Load(st.m, target, 8))
  {
    assert StubOk(env, st, j);
    assert SlotOk(env, st, IndexOf(st.t.owners, Stub(st.t.stubs[j])));
  }
}
