/** Final addresses in the writer's relocations (`patch_reloc`, `patch_got` and
    `Reloc::write`, tools/gen-elf/src/dylib/reloc.rs), and what the loader decodes from
    the bytes (src/elf/defs.rs). */
module DylibPatch {
  import opened Words
  import opened Symbols
  import opened Records
  import opened DylibRelocs

  /** Where the sections ended up. */
  datatype Places = Places(got: nat, gotPlt: nat, data: nat, text: nat, plt: nat, dyn: nat)

  /** The symbols' final values, and the IFUNC resolver's. */
  datatype Values = Values(of: nat -> u64, resolver: u64)

  /** The addend of x86-64 (`calculate_addend`), from the offset inside its section. */
  function Addend(r: Reloc, p: Places, v: Values): int {
    if r.rtype == R_IRELATIVE then Signed64(v.resolver)
    else
      var value := if r.sym != 0 then v.of(r.sym) else 0;
      if r.rtype == R_GLOB_DAT || r.rtype == R_JUMP_SLOT || r.rtype == R_COPY || 16 <= r.rtype <= 18 then 0
      else if r.rtype == 1 then Signed64(Wrap64(value + 0x10))
      else if r.rtype == R_RELATIVE then if value != 0 then Signed64(value) else Signed64(Wrap64(p.data))
      else Signed64(Wrap64(r.offset))
  }

  function Final(r: Reloc, base: nat, p: Places, v: Values): Reloc {
    Reloc(r.sym, r.offset + base, Addend(r, p, v), r.rtype, r.symSize)
  }

  /** The section that entry `i` of the list relocates. */
  function BaseOf(plan: Plan, i: nat, p: Places): nat {
    var copyStart := |plan.relative| + |plan.got|;
    if i < |plan.Dyn()| then if copyStart <= i < copyStart + |plan.copies| then p.data else p.got else p.gotPlt
  }

  function FinalAll(plan: Plan, p: Places, v: Values): (rs: seq<Reloc>)
    ensures |rs| == |plan.All()|
    ensures forall i :: 0 <= i < |rs| ==> rs[i] == Final(plan.All()[i], BaseOf(plan, i, p), p, v)
  {
    var all := plan.All();
    seq(|all|, i requires 0 <= i < |all| => Final(all[i], BaseOf(plan, i, p), p, v))
  }

  // ----------------------------------------------------------------- as bytes

  function RelaFields(r: Reloc): seq<Field> {
    [Field(r.offset, 8), Field(r.sym * 0x1_0000_0000 + r.rtype, 8), Field(r.addend, 8)]
  }

  predicate Encodable(r: Reloc) {
    && r.offset < 0x1_0000_0000_0000_0000 && r.sym < 0x1_0000_0000 && r.rtype < 0x1_0000_0000
    && -0x8000_0000_0000_0000 <= r.addend < 0x8000_0000_0000_0000
  }

  lemma AddendLoads(fs: seq<Field>, at: nat)
    requires |fs| == 3 && fs[2].n == 8 && at == Skip(fs, 2) && -0x8000_0000_0000_0000 <= fs[2].v < 0x8000_0000_0000_0000
    ensures at + 8 <= |Encode(fs)| && Load(Encode(fs), at, 8) == Wrap64(fs[2].v) && Signed64(Wrap64(fs[2].v)) == fs[2].v
  {
    FieldAt(fs, 2);
    LittleEndianDecodes(fs[2].v, 8);
    Pow256Values();
  }

  /** Type, symbol, offset and addend decode back unchanged. */
  lemma RelaRoundTrip(r: Reloc)
    requires Encodable(r)
    ensures |Encode(RelaFields(r))| == 24
    ensures DecodeRela(Encode(RelaFields(r))) == Rela(r.offset, r.rtype, r.sym, r.addend)
  {
    var fs := RelaFields(r);
    Pow256Values();
    assert Skip(fs, 1) == 8;
    assert Skip(fs, 2) == 16;
    EncodeLength(fs);
    FieldLoads(fs, 0, 0);
    FieldLoads(fs, 1, 8);
    AddendLoads(fs, 16);
    ModUnique(r.sym * 0x1_0000_0000 + r.rtype, 0x1_0000_0000, r.sym, r.rtype);
  }

  function RelaRows(rs: seq<Reloc>): (rows: seq<seq<byte>>)
    ensures |rows| == |rs| && forall i :: 0 <= i < |rs| ==> rows[i] == Encode(RelaFields(rs[i]))
  {
    seq(|rs|, i requires 0 <= i < |rs| => Encode(RelaFields(rs[i])))
  }

  function RelaBytes(rs: seq<Reloc>): seq<byte> {
    Flatten(RelaRows(rs))
  }

  lemma RelaWidth(r: Reloc)
    ensures |Encode(RelaFields(r))| == 24
  {
    var fs := RelaFields(r);
    assert Skip(fs, 1) == 8;
    assert Skip(fs, 2) == 16;
    EncodeLength(fs);
  }

  /** A table of relocations takes 24 bytes an entry, whatever the entries say. */
  lemma RelaBytesLength(rs: seq<Reloc>)
    ensures |RelaBytes(rs)| == 24 * |rs|
  {
    forall i | 0 <= i < |rs| ensures |RelaRows(rs)[i]| == 24 {
      RelaWidth(rs[i]);
    }
    FlattenLength(RelaRows(rs), 24);
  }

  /** Entry `i` of a table as the loader sees it. */
  lemma RelaReadBack(rs: seq<Reloc>, i: nat)
    requires i < |rs| && Encodable(rs[i])
    ensures 24 * i + 24 <= |RelaBytes(rs)|
    ensures DecodeRela(RelaBytes(rs)[24 * i..24 * i + 24]) == Rela(rs[i].offset, rs[i].rtype, rs[i].sym, rs[i].addend)
  {
    forall k | 0 <= k < |rs| ensures |RelaRows(rs)[k]| == 24 {
      RelaWidth(rs[k]);
    }
    RowAt(RelaRows(rs), 24, i);
    RelaRoundTrip(rs[i]);
  }

  lemma RelaAppend(rs: seq<Reloc>, r: Reloc)
    ensures RelaBytes(rs + [r]) == RelaBytes(rs) + Encode(RelaFields(r))
  {
    assert RelaRows(rs + [r]) == RelaRows(rs) + [Encode(RelaFields(r))];
    FlattenAppend(RelaRows(rs), Encode(RelaFields(r)));
  }

  // ------------------------------------------------------------------- the patching

  /** What a PLT slot holds at first: the second instruction of the stub at position `j`
      behind the first entry, with 16 bytes to each. */
  function StubValue(p: Places, j: nat): u64 {
    Wrap64(p.plt + 16 + 16 * j + 6)
  }

  /** Slots `0..n` of `.got.plt` behind the three reserved words are set; the first word
      is `.dynamic`. */
  ghost predicate SlotsSet(m: seq<byte>, p: Places, n: nat) {
    && 8 * (3 + n) <= |m|
    && Load(m, 0, 8) == Wrap64(p.dyn)
    && forall j :: 0 <= j < n ==> Load(m, 8 * (3 + j), 8) == StubValue(p, j)
  }

  lemma SetSlot(m: seq<byte>, p: Places, n: nat, k: nat)
    requires SlotsSet(m, p, n) && k <= n && 8 * (4 + k) <= |m|
    ensures SlotsSet(Store(m, 8 * (3 + k), StubValue(p, k), 8), p, if k == n then n + 1 else n)
  {
    var bytes := LittleEndian(StubValue(p, k), 8);
    var m' := Put(m, 8 * (3 + k), bytes);
    LoadPutElsewhere(m, 8 * (3 + k), bytes, 0, 8);
    forall j | 0 <= j <= n && (j < n || k == n) ensures Load(m', 8 * (3 + j), 8) == StubValue(p, j) {
      if j == k {
        LoadStored(m, 8 * (3 + k), StubValue(p, k), 8);
        Pow256Values();
      } else {
        LoadPutElsewhere(m, 8 * (3 + k), bytes, 8 * (3 + j), 8);
      }
    }
  }

  /** `patch_got`: `.dynamic` in the first word of both tables, the addresses in the slots. */
  method PatchGot(got: array<byte>, gotPlt: array<byte>, p: Places, n: nat)
    requires got != gotPlt && got.Length >= 8 && gotPlt.Length == 8 * (3 + n)
    modifies got, gotPlt
    ensures Load(got[..], 0, 8) == Wrap64(p.dyn) && SlotsSet(gotPlt[..], p, n)
  {
    LoadStored(got[..], 0, Wrap64(p.dyn), 8);
    LoadStored(gotPlt[..], 0, Wrap64(p.dyn), 8);
    Pow256Values();
    WriteBytes(got, 0, LittleEndian(Wrap64(p.dyn), 8));
    WriteBytes(gotPlt, 0, LittleEndian(Wrap64(p.dyn), 8));
    for i := 0 to n
      invariant SlotsSet(gotPlt[..], p, i) && Load(got[..], 0, 8) == Wrap64(p.dyn)
    {
      SetSlot(gotPlt[..], p, i, i);
      WriteBytes(gotPlt, (3 + i) * 8, LittleEndian(StubValue(p, i), 8));
    }
  }

  method SetStub(gotPlt: array<byte>, p: Places, n: nat, k: nat)
    requires SlotsSet(gotPlt[..], p, n) && k < n
    modifies gotPlt
    ensures SlotsSet(gotPlt[..], p, n)
  {
    SetSlot(gotPlt[..], p, n, k);
    WriteBytes(gotPlt, 8 * (3 + k), LittleEndian(StubValue(p, k), 8));
  }

  /** The two tables hold the entries so far, the first `n` in `.rela.dyn`. */
  ghost predicate TablesHold(relocs: seq<Reloc>, n: nat, relDyn: seq<byte>, relPlt: seq<byte>) {
    if |relocs| <= n then relDyn == RelaBytes(relocs) && relPlt == []
    else relDyn == RelaBytes(relocs[..n]) && relPlt == RelaBytes(relocs[n..])
  }

  lemma TablesStep(relocs: seq<Reloc>, n: nat, relDyn: seq<byte>, relPlt: seq<byte>, r: Reloc)
    requires TablesHold(relocs, n, relDyn, relPlt)
    ensures |relocs| < n ==> TablesHold(relocs + [r], n, relDyn + Encode(RelaFields(r)), relPlt)
    ensures |relocs| >= n ==> TablesHold(relocs + [r], n, relDyn, relPlt + Encode(RelaFields(r)))
  {
    var now := relocs + [r];
    if |relocs| < n {
      RelaAppend(relocs, r);
    } else {
      assert now[..n] == relocs[..n] && now[n..] == relocs[n..] + [r];
      assert |relocs| == n ==> relocs[..n] == relocs && relocs[n..] == [];
      RelaAppend(relocs[n..], r);
    }
  }

  lemma TablesEnd(relocs: seq<Reloc>, n: nat, relDyn: seq<byte>, relPlt: seq<byte>)
    requires TablesHold(relocs, n, relDyn, relPlt) && n <= |relocs|
    ensures relDyn == RelaBytes(relocs[..n]) && relPlt == RelaBytes(relocs[n..])
  {
    assert |relocs| == n ==> relocs[..n] == relocs && relocs[n..] == [];
  }

  /** `patch_reloc`: final offsets and addends, the tables emitted anew, and the stubs in
      the PLT slots once more. */
  method PatchReloc(plan: Plan, p: Places, v: Values, gotPlt: array<byte>)
    returns (relocs: seq<Reloc>, relDyn: seq<byte>, relPlt: seq<byte>)
    requires SlotsSet(gotPlt[..], p, |plan.plt|)
    modifies gotPlt
    ensures relocs == FinalAll(plan, p, v)
    ensures relDyn == RelaBytes(relocs[..|plan.Dyn()|]) && relPlt == RelaBytes(relocs[|plan.Dyn()|..])
    ensures SlotsSet(gotPlt[..], p, |plan.plt|)
  {
    var all, n := plan.All(), |plan.Dyn()|;
    ghost var final := FinalAll(plan, p, v);
    relocs, relDyn, relPlt := [], [], [];
    for i := 0 to |all|
      invariant relocs == final[..i] && TablesHold(relocs, n, relDyn, relPlt)
      invariant SlotsSet(gotPlt[..], p, |plan.plt|)
    {
      if i >= n {
        SetStub(gotPlt, p, |plan.plt|, i - n);
      }
      var r := Final(all[i], BaseOf(plan, i, p), p, v);
      TablesStep(relocs, n, relDyn, relPlt, r);
      if i < n {
        relDyn := relDyn + Encode(RelaFields(r));
      } else {
        relPlt := relPlt + Encode(RelaFields(r));
      }
      relocs := relocs + [r];
    }
    TablesEnd(relocs, n, relDyn, relPlt);
  }

  // -------------------------------------------------------------- fields do not clash

  /** How many bytes an entry's field has. */
  function Width(r: Reloc): nat {
    if r.rtype == R_COPY then r.symSize else 8
  }

  /** What the slots of a plan are. */
  ghost predicate InPlace(plan: Plan, dataLen: nat) {
    && (var slots := plan.relative + plan.got + plan.irelative;
        forall i :: 0 <= i < |slots| ==> slots[i].offset == 8 * i && Width(slots[i]) == 8)
    && (forall i :: 0 <= i < |plan.plt| ==> plan.plt[i].offset == 8 * (3 + i) && Width(plan.plt[i]) == 8)
    && CopiesOk(plan.copies, dataLen)
  }

  ghost predicate CopiesOk(cs: seq<Reloc>, off: nat) {
    && (forall i :: 0 <= i < |cs| ==> off <= cs[i].offset && cs[i].offset + Width(cs[i]) <= off + CopySize(cs))
    && (forall i, j :: 0 <= i < j < |cs| ==> cs[i].offset + Width(cs[i]) <= cs[j].offset)
  }

  lemma {:induction false} CopiesInPlace(rs: seq<RelocEntry>, off: nat, s: Syms)
    requires AllKnown(rs, s) && ValidSyms(s) && forall i :: 0 <= i < |rs| ==> Class(rs[i]) == 2
    ensures CopiesOk(Copies(rs, off, s), off)
  {
    if rs != [] {
      var k := |rs| - 1;
      CopiesInPlace(rs[..k], off, s);
      assert Class(rs[k]) == 2;
      CopiesStep(Copies(rs[..k], off, s), off, Copies(rs, off, s)[k]);
    }
  }

  lemma CopiesStep(cs: seq<Reloc>, off: nat, r: Reloc)
    requires CopiesOk(cs, off) && r.offset == off + CopySize(cs) && Width(r) == r.symSize
    ensures CopiesOk(cs + [r], off)
  {
    var cs' := cs + [r];
    assert cs'[..|cs|] == cs;
    assert CopySize(cs') == CopySize(cs) + r.symSize;
    forall i | 0 <= i < |cs'| ensures off <= cs'[i].offset && cs'[i].offset + Width(cs'[i]) <= off + CopySize(cs') {
      assert i < |cs| ==> cs'[i] == cs[i];
    }
  }

  lemma SlotsJoin(a: seq<Reloc>, b: seq<Reloc>, c: seq<Reloc>)
    requires forall i :: 0 <= i < |a| ==> a[i].offset == 8 * i && Width(a[i]) == 8
    requires forall i :: 0 <= i < |b| ==> b[i].offset == 8 * (|a| + i) && Width(b[i]) == 8
    requires forall i :: 0 <= i < |c| ==> c[i].offset == 8 * (|a| + |b| + i) && Width(c[i]) == 8
    ensures forall i :: 0 <= i < |a + b + c| ==> (a + b + c)[i].offset == 8 * i && Width((a + b + c)[i]) == 8
  {
  }

  lemma PlanInPlace(raw: seq<RelocEntry>, s: Syms, dataLen: nat)
    requires AllKnown(raw, s) && ValidSyms(s)
    ensures InPlace(PlanOf(raw, s, dataLen), dataLen)
  {
    var plan := PlanOf(raw, s, dataLen);
    KnownPart(raw, s, 0);
    KnownPart(raw, s, 1);
    KnownPart(raw, s, 2);
    KnownPart(raw, s, 3);
    KnownPart(raw, s, 4);
    CopiesInPlace(OfClass(raw, 2), dataLen, s);
    SlotsJoin(plan.relative, plan.got, plan.irelative);
  }

  /** The three sections that relocations write do not overlap. */
  predicate SectionsApart(plan: Plan, dataLen: nat, p: Places) {
    var dataSize := dataLen + CopySize(plan.copies);
    && Disjoint(p.got, plan.GotSize(), p.gotPlt, plan.GotPltSize())
    && Disjoint(p.got, plan.GotSize(), p.data, dataSize)
    && Disjoint(p.gotPlt, plan.GotPltSize(), p.data, dataSize)
  }

  /** Where entry `i` is: in which section, and at which slot of it. */
  lemma EntryPlace(plan: Plan, dataLen: nat, p: Places, v: Values, i: nat)
    requires InPlace(plan, dataLen) && i < |plan.All()|
    ensures var r, nr, ng, nc := FinalAll(plan, p, v)[i], |plan.relative|, |plan.got|, |plan.copies|;
            if nr + ng <= i < nr + ng + nc then
              r.offset == p.data + plan.copies[i - nr - ng].offset && Width(r) == Width(plan.copies[i - nr - ng])
            else if i < |plan.Dyn()| then
              r.offset == p.got + 8 * (if i < nr + ng then i else i - nc) && Width(r) == 8
            else r.offset == p.gotPlt + 8 * (3 + i - |plan.Dyn()|) && Width(r) == 8
  {
    var nr, ng, nc, all := |plan.relative|, |plan.got|, |plan.copies|, plan.All();
    var slots := plan.relative + plan.got + plan.irelative;
    if i < nr + ng {
      assert all[i] == slots[i];
    } else if i < nr + ng + nc {
      assert all[i] == plan.copies[i - nr - ng];
    } else if i < |plan.Dyn()| {
      assert all[i] == slots[i - nc];
    } else {
      assert all[i] == plan.plt[i - |plan.Dyn()|];
    }
  }

  /** No two relocations of the file write the same byte: what the dynamic linker needs. */
  lemma FieldsApart(plan: Plan, dataLen: nat, p: Places, v: Values, i: nat, j: nat)
    requires InPlace(plan, dataLen) && SectionsApart(plan, dataLen, p) && i < j < |plan.All()|
    ensures var rs := FinalAll(plan, p, v); Disjoint(rs[i].offset, Width(rs[i]), rs[j].offset, Width(rs[j]))
  {
    EntryPlace(plan, dataLen, p, v, i);
    EntryPlace(plan, dataLen, p, v, j);
  }
}
