/** The relocations that the writer emits (tools/gen-elf/src/dylib/reloc.rs), for x86-64:
    their order, the slot each one gets, and their bytes. */
module DylibRelocs {
  import opened Words
  import opened Symbols

  const R_COPY := 5
  const R_GLOB_DAT := 6
  const R_JUMP_SLOT := 7
  const R_RELATIVE := 8
  const R_IRELATIVE := 37

  datatype RelocEntry = RelocEntry(name: seq<byte>, rtype: nat, addend: int)

  datatype Reloc = Reloc(sym: nat, offset: nat, addend: int, rtype: nat, symSize: nat)

  /** 0 relative, 1 GOT, 2 copy, 3 irelative, 4 PLT. */
  function Class(r: RelocEntry): nat {
    if r.rtype == R_RELATIVE then 0
    else if r.rtype == R_IRELATIVE then 3
    else if r.rtype == R_JUMP_SLOT then 4
    else if r.rtype == R_COPY then 2
    else 1
  }

  function OfClass(raw: seq<RelocEntry>, c: nat): seq<RelocEntry> {
    if raw == [] then []
    else OfClass(raw[..|raw| - 1], c) + (if Class(raw[|raw| - 1]) == c then [raw[|raw| - 1]] else [])
  }

  lemma {:induction false} ClassMembers(raw: seq<RelocEntry>, c: nat)
    ensures forall i :: 0 <= i < |OfClass(raw, c)| ==> OfClass(raw, c)[i] in raw && Class(OfClass(raw, c)[i]) == c
  {
    if raw != [] {
      ClassMembers(raw[..|raw| - 1], c);
    }
  }

  lemma {:induction false} ClassCounts(raw: seq<RelocEntry>)
    ensures |OfClass(raw, 0)| + |OfClass(raw, 1)| + |OfClass(raw, 2)| + |OfClass(raw, 3)| + |OfClass(raw, 4)| == |raw|
  {
    if raw != [] {
      ClassCounts(raw[..|raw| - 1]);
    }
  }

  /** The symbols' indexes and sizes. */
  datatype Syms = Syms(index: map<seq<byte>, nat>, sizes: seq<nat>)

  ghost predicate ValidSyms(s: Syms) {
    forall n :: n in s.index ==> s.index[n] < |s.sizes|
  }

  /** Every entry that names a symbol names a known one (`unwrap` panics otherwise). */
  predicate AllKnown(raw: seq<RelocEntry>, s: Syms) {
    forall i :: 0 <= i < |raw| && Class(raw[i]) in {1, 2, 4} ==> raw[i].name in s.index
  }

  // --------------------------------------------------------------------- the slots

  function SymOf(r: RelocEntry, s: Syms): nat
    requires Class(r) in {1, 2, 4} ==> r.name in s.index
  {
    if Class(r) in {1, 2, 4} then s.index[r.name] else 0
  }

  /** Entries in consecutive 8-byte slots from `slot` on. */
  function InSlots(rs: seq<RelocEntry>, slot: nat, s: Syms): (out: seq<Reloc>)
    requires AllKnown(rs, s)
    ensures |out| == |rs|
    ensures forall i :: 0 <= i < |rs| ==>
              out[i] ==
              Reloc(SymOf(rs[i], s), 8 * (slot + i), if Class(rs[i]) <= 1 then rs[i].addend else 0, rs[i].rtype, 0)
  {
    seq(|rs|, i requires 0 <= i < |rs| =>
      Reloc(SymOf(rs[i], s), 8 * (slot + i), if Class(rs[i]) <= 1 then rs[i].addend else 0, rs[i].rtype, 0))
  }

  /** Copies one after the other behind the data. */
  function Copies(rs: seq<RelocEntry>, off: nat, s: Syms): (out: seq<Reloc>)
    requires AllKnown(rs, s) && ValidSyms(s) && forall i :: 0 <= i < |rs| ==> Class(rs[i]) == 2
    ensures |out| == |rs|
  {
    if rs == [] then []
    else
      var k := |rs| - 1;
      var before := Copies(rs[..k], off, s);
      var sym := s.index[rs[k].name];
      before + [Reloc(sym, off + CopySize(before), 0, rs[k].rtype, s.sizes[sym])]
  }

  function CopySize(rs: seq<Reloc>): nat {
    if rs == [] then 0 else CopySize(rs[..|rs| - 1]) + rs[|rs| - 1].symSize
  }

  datatype Plan = Plan(relative: seq<Reloc>, got: seq<Reloc>, copies: seq<Reloc>, irelative: seq<Reloc>,
                       plt: seq<Reloc>) {
    /** The one list, in the order of the tables. */
    function All(): seq<Reloc> {
      Dyn() + plt
    }

    /** What goes to `.rela.dyn`. */
    function Dyn(): seq<Reloc> {
      relative + got + copies + irelative
    }

    function GotSize(): nat {
      8 * (1 + |relative| + |got| + |irelative|)
    }

    function GotPltSize(): nat {
      8 * (3 + |plt|)
    }
  }

  lemma KnownPart(raw: seq<RelocEntry>, s: Syms, c: nat)
    requires AllKnown(raw, s)
    ensures AllKnown(OfClass(raw, c), s) && forall i :: 0 <= i < |OfClass(raw, c)| ==> Class(OfClass(raw, c)[i]) == c
  {
    ClassMembers(raw, c);
  }

  /** Where every relocation goes: relative, GOT and irelative ones in the GOT, copies
      behind the `dataLen` bytes of data, PLT ones in `.got.plt` behind three words. */
  function PlanOf(raw: seq<RelocEntry>, s: Syms, dataLen: nat): Plan
    requires AllKnown(raw, s) && ValidSyms(s)
  {
    KnownPart(raw, s, 0);
    KnownPart(raw, s, 1);
    KnownPart(raw, s, 2);
    KnownPart(raw, s, 3);
    KnownPart(raw, s, 4);
    var r, g := OfClass(raw, 0), OfClass(raw, 1);
    Plan(InSlots(r, 0, s), InSlots(g, |r|, s), Copies(OfClass(raw, 2), dataLen, s),
         InSlots(OfClass(raw, 3), |r| + |g|, s), InSlots(OfClass(raw, 4), 3, s))
  }

  /** `RelocMetaData::new`: sorts the entries into classes and gives them their slots. */
  method Classify(raw: seq<RelocEntry>) returns (parts: seq<seq<RelocEntry>>)
    ensures |parts| == 5 && forall c :: 0 <= c < 5 ==> parts[c] == OfClass(raw, c)
  {
    parts := [[], [], [], [], []];
    for i := 0 to |raw|
      invariant |parts| == 5 && forall c :: 0 <= c < 5 ==> parts[c] == OfClass(raw[..i], c)
    {
      assert raw[..i + 1][..i] == raw[..i];
      var c := Class(raw[i]);
      parts := parts[c := parts[c] + [raw[i]]];
    }
    assert raw[..|raw|] == raw;
  }

  method PlaceInSlots(rs: seq<RelocEntry>, first: nat, s: Syms) returns (out: seq<Reloc>, slot: nat)
    requires AllKnown(rs, s)
    ensures out == InSlots(rs, first, s) && slot == first + |rs|
  {
    out, slot := [], first;
    for i := 0 to |rs|
      invariant slot == first + i && |out| == i && forall k :: 0 <= k < i ==> out[k] == InSlots(rs, first, s)[k]
    {
      var a := if Class(rs[i]) <= 1 then rs[i].addend else 0;
      out := out + [Reloc(SymOf(rs[i], s), slot * 8, a, rs[i].rtype, 0)];
      slot := slot + 1;
    }
  }

  method PlaceCopies(rs: seq<RelocEntry>, off: nat, s: Syms) returns (out: seq<Reloc>, total: nat)
    requires AllKnown(rs, s) && ValidSyms(s) && forall i :: 0 <= i < |rs| ==> Class(rs[i]) == 2
    ensures out == Copies(rs, off, s) && total == CopySize(out)
  {
    out, total := [], 0;
    var cur := off;
    for i := 0 to |rs|
      invariant out == Copies(rs[..i], off, s) && total == CopySize(out) && cur == off + total
    {
      assert rs[..i + 1][..i] == rs[..i];
      var sym := s.index[rs[i].name];
      ghost var before := out;
      out := out + [Reloc(sym, cur, 0, rs[i].rtype, s.sizes[sym])];
      assert out[..|out| - 1] == before;
      cur := cur + s.sizes[sym];
      total := total + s.sizes[sym];
    }
    assert rs[..|rs|] == rs;
  }

  /** An unknown symbol name is `None`: the writer panics. */
  method NewRelocs(raw: seq<RelocEntry>, s: Syms, dataLen: nat) returns (r: Option<Plan>, copySize: nat)
    requires ValidSyms(s)
    ensures r.Some? <==> AllKnown(raw, s)
    ensures r.Some? ==> r.value == PlanOf(raw, s, dataLen) && copySize == CopySize(r.value.copies)
  {
    if !AllKnown(raw, s) {
      return None, 0;
    }
    var parts := Classify(raw);
    KnownPart(raw, s, 0);
    KnownPart(raw, s, 1);
    KnownPart(raw, s, 2);
    KnownPart(raw, s, 3);
    KnownPart(raw, s, 4);
    var relative, slot := PlaceInSlots(parts[0], 0, s);
    var got;
    got, slot := PlaceInSlots(parts[1], slot, s);
    var copies;
    copies, copySize := PlaceCopies(parts[2], dataLen, s);
    var irelative;
    irelative, slot := PlaceInSlots(parts[3], slot, s);
    var plt;
    plt, slot := PlaceInSlots(parts[4], 3, s);
    r := Some(Plan(relative, got, copies, irelative, plt));
  }
}
