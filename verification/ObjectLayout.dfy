/** The whole section layout of a relocatable object: grouping by protection,
    the four segments, and the GOT and PLT that the loader adds
    (src/segment/section.rs, `SectionSegments::new`). */
module ObjectLayout {
  import opened Words
  import opened Pages
  import opened Segments
  import opened SectionLayout

  /** `create_got_shdr`: eight bytes per entry, writable. */
  function GotShdr(entries: nat): Shdr {
    Shdr(SHT_NOBITS, 3, 0, 0, entries * 8, 0, 0, 16, 8)
  }

  /** `create_plt_shdr`: sixteen bytes per stub, executable. */
  function PltShdr(entries: nat): Shdr {
    Shdr(SHT_NOBITS, 6, 0, 0, entries * 16, 0, 0, 8, 16)
  }

  predicate InGroup(s: Shdr, u: nat, z: bool) {
    FlagsToIdx(s.sh_flags) == u && (s.sh_type == SHT_NOBITS) == z
  }

  /** The sections of unit `u` with (`z` false) or without (`z` true) file content. */
  function Members(l: seq<Shdr>, u: nat, z: bool): (r: seq<Shdr>)
    ensures forall k :: 0 <= k < |r| ==> r[k] in l && InGroup(r[k], u, z)
  {
    if |l| == 0 then []
    else
      var last := l[|l| - 1];
      Members(l[..|l| - 1], u, z) + if InGroup(last, u, z) then [last] else []
  }

  function UnitOf(l: seq<Shdr>, u: nat): Unit {
    Unit(Members(l, u, false), Members(l, u, true))
  }

  /** Where section `i` stands in its group. */
  function Position(l: seq<Shdr>, i: nat): nat
    requires i < |l|
  {
    |Members(l[..i], FlagsToIdx(l[i].sh_flags), l[i].sh_type == SHT_NOBITS)|
  }

  lemma MembersStep(l: seq<Shdr>, i: nat, u: nat, z: bool)
    requires i < |l|
    ensures Members(l[..i + 1], u, z) == Members(l[..i], u, z) + if InGroup(l[i], u, z) then [l[i]] else []
  {
    assert l[..i + 1][..i] == l[..i];
  }

  lemma {:induction false} MembersPrefix(l: seq<Shdr>, i: nat, j: nat, u: nat, z: bool)
    requires i <= j <= |l|
    ensures Members(l[..i], u, z) <= Members(l[..j], u, z)
    decreases j
  {
    if i < j {
      MembersPrefix(l, i, j - 1, u, z);
      MembersStep(l, j - 1, u, z);
    }
  }

  /** Section `i` is found at its position, and positions grow within a group. */
  lemma PositionFinds(l: seq<Shdr>, i: nat, u: nat, z: bool)
    requires i < |l| && InGroup(l[i], u, z)
    ensures Position(l, i) < |Members(l, u, z)| && Members(l, u, z)[Position(l, i)] == l[i]
  {
    MembersStep(l, i, u, z);
    MembersPrefix(l, i + 1, |l|, u, z);
    assert l[..|l|] == l;
  }

  lemma PositionsGrow(l: seq<Shdr>, i: nat, j: nat, u: nat, z: bool)
    requires i < j < |l| && InGroup(l[i], u, z) && InGroup(l[j], u, z)
    ensures Position(l, i) < Position(l, j)
  {
    MembersStep(l, i, u, z);
    MembersPrefix(l, i + 1, j, u, z);
  }

  // ------------------------------------------------------------------- segments

  /** The segments made so far: page aligned, in order, below `offset`. */
  ghost predicate Chain(slots: seq<Option<Placement>>, offset: int) {
    && PageAligned(offset)
    && (forall u :: 0 <= u < |slots| && slots[u].Some? ==>
          && PageAligned(slots[u].value.rel) && ValidLayout(slots[u].value.layout)
          && slots[u].value.rel + slots[u].value.layout.len <= offset)
    && (forall u, v :: 0 <= u < v < |slots| && slots[u].Some? && slots[v].Some? ==>
          slots[u].value.rel + slots[u].value.layout.len <= slots[v].value.rel)
  }

  /** Unit `u` was laid out by `create_segment` at some offset. */
  ghost predicate LaidUnit(l: seq<Shdr>, u: nat, unit: Unit, slot: Option<Placement>) {
    exists o: nat, o': nat :: Created(UnitOf(l, u), unit, o, slot, o')
  }

  ghost predicate HasSlot(slots: seq<Option<Placement>>, p: Placement) {
    exists u :: 0 <= u < |slots| && slots[u] == Some(p)
  }

  /** `segments` lists the slots that hold one, in order. */
  ghost predicate Collected(slots: seq<Option<Placement>>, segments: seq<Placement>) {
    && (forall i :: 0 <= i < |segments| ==> HasSlot(slots, segments[i]))
    && (forall u :: 0 <= u < |slots| && slots[u].Some? ==> slots[u].value in segments)
  }

  lemma ChainStep(slots: seq<Option<Placement>>, offset: nat, u: Unit, u': Unit, seg: Option<Placement>, offset': nat)
    requires Chain(slots, offset) && Created(u, u', offset, seg, offset')
    ensures Chain(slots + [seg], offset')
  {
    if seg.Some? {
      assert forall v :: 0 <= v < |slots| ==> (slots + [seg])[v] == slots[v];
      assert (slots + [seg])[|slots|] == seg;
    } else {
      assert forall v :: 0 <= v <= |slots| && (slots + [seg])[v].Some? ==>
        v < |slots| && (slots + [seg])[v] == slots[v];
    }
  }

  /** The loops of `SectionSegments::new`: group the sections, then turn each unit
      into a segment. */
  method BuildUnits(all: seq<Shdr>) returns (units: seq<Unit>)
    ensures |units| == 4 && forall u :: 0 <= u < 4 ==> units[u] == UnitOf(all, u)
  {
    units := [Unit([], []), Unit([], []), Unit([], []), Unit([], [])];
    for i := 0 to |all|
      invariant |units| == 4 && forall u :: 0 <= u < 4 ==> units[u] == UnitOf(all[..i], u)
    {
      var u := FlagsToIdx(all[i].sh_flags);
      if all[i].sh_type == SHT_NOBITS {
        units := units[u := units[u].(zero := units[u].zero + [all[i]])];
      } else {
        units := units[u := units[u].(content := units[u].content + [all[i]])];
      }
      forall v | 0 <= v < 4 ensures units[v] == UnitOf(all[..i + 1], v) {
        MembersStep(all, i, v, true);
        MembersStep(all, i, v, false);
      }
    }
    assert all[..|all|] == all;
  }

  method BuildSegments(all: seq<Shdr>, units: seq<Unit>)
    returns (laid: seq<Unit>, segments: seq<Placement>, total: nat, ghost slots: seq<Option<Placement>>)
    requires |units| == 4 && forall u {:trigger units[u]} :: 0 <= u < 4 ==> units[u] == UnitOf(all, u)
    requires forall i :: 0 <= i < |all| ==> ValidSection(all[i])
    ensures |laid| == |slots| == 4 && Chain(slots, total) && Collected(slots, segments)
    ensures forall i, j :: 0 <= i < j < |segments| ==>
              segments[i].rel + segments[i].layout.len <= segments[j].rel
    ensures UnitsLaid(all, laid, slots)
  {
    laid, segments, total, slots := [], [], 0, [];
    for u := 0 to 4
      invariant SegmentsSoFar(slots, segments, total) && |laid| == u && UnitsLaid(all, laid, slots)
    {
      var unit, seg, offset := NextSegment(all, u, units[u], slots, segments, total);
      LaidStep(all, laid, slots, unit, seg);
      laid, slots := laid + [unit], slots + [seg];
      if seg.Some? {
        segments := segments + [seg.value];
      }
      total := PageUp(offset);
    }
  }

  ghost predicate UnitsLaid(all: seq<Shdr>, laid: seq<Unit>, slots: seq<Option<Placement>>) {
    |laid| == |slots| && forall u :: 0 <= u < |laid| ==> LaidUnit(all, u, laid[u], slots[u])
  }

  lemma LaidStep(all: seq<Shdr>, laid: seq<Unit>, slots: seq<Option<Placement>>, unit: Unit, seg: Option<Placement>)
    requires UnitsLaid(all, laid, slots) && LaidUnit(all, |laid|, unit, seg)
    ensures UnitsLaid(all, laid + [unit], slots + [seg])
  {
    var laid', slots' := laid + [unit], slots + [seg];
    forall u | 0 <= u < |laid'| ensures LaidUnit(all, u, laid'[u], slots'[u]) {
      if u < |laid| {
        assert laid'[u] == laid[u] && slots'[u] == slots[u];
      }
    }
  }

  method NextSegment(ghost all: seq<Shdr>, ghost u: nat, next: Unit, ghost slots: seq<Option<Placement>>,
                     ghost segments: seq<Placement>, total: nat)
    returns (unit: Unit, seg: Option<Placement>, offset: nat)
    requires next == UnitOf(all, u) && SegmentsSoFar(slots, segments, total)
    requires forall i :: 0 <= i < |all| ==> ValidSection(all[i])
    ensures LaidUnit(all, u, unit, seg)
    ensures SegmentsSoFar(slots + [seg], if seg.Some? then segments + [seg.value] else segments, PageUp(offset))
  {
    unit, seg, offset := CreateSegment(next, total);
    SegmentsStep(slots, segments, total, next, unit, seg, offset);
  }

  /** The segments collected so far, in order and below `total`. */
  ghost predicate SegmentsSoFar(slots: seq<Option<Placement>>, segments: seq<Placement>, total: nat) {
    && Chain(slots, total) && Collected(slots, segments)
    && (forall i :: 0 <= i < |segments| ==> segments[i].rel + segments[i].layout.len <= total)
    && (forall i, j :: 0 <= i < j < |segments| ==> segments[i].rel + segments[i].layout.len <= segments[j].rel)
  }

  lemma CollectedStep(slots: seq<Option<Placement>>, segments: seq<Placement>, seg: Option<Placement>,
                      segments': seq<Placement>)
    requires Collected(slots, segments) && segments' == if seg.Some? then segments + [seg.value] else segments
    ensures Collected(slots + [seg], segments')
  {
    var slots' := slots + [seg];
    forall i | 0 <= i < |segments'| ensures HasSlot(slots', segments'[i]) {
      if i < |segments| {
        assert HasSlot(slots, segments[i]);
        var u :| 0 <= u < |slots| && slots[u] == Some(segments[i]);
        assert slots'[u] == slots[u] && segments'[i] == segments[i];
      } else {
        assert slots'[|slots|] == Some(segments'[i]);
      }
    }
    forall u | 0 <= u < |slots'| && slots'[u].Some? ensures slots'[u].value in segments' {
      if u < |slots| {
        assert slots'[u] == slots[u] && slots[u].value in segments;
        var i :| 0 <= i < |segments| && segments[i] == slots[u].value;
        assert segments'[i] == slots'[u].value;
      } else {
        assert segments'[|segments|] == slots'[u].value;
      }
    }
  }

  lemma SegmentsStep(slots: seq<Option<Placement>>, segments: seq<Placement>, total: nat, u: Unit, u': Unit,
                     seg: Option<Placement>, offset: nat)
    requires SegmentsSoFar(slots, segments, total) && Created(u, u', total, seg, offset)
    ensures SegmentsSoFar(slots + [seg], if seg.Some? then segments + [seg.value] else segments, PageUp(offset))
  {
    ChainStep(slots, total, u, u', seg, offset);
    CollectedStep(slots, segments, seg, if seg.Some? then segments + [seg.value] else segments);
    PageBounds(offset);
  }

  // ------------------------------------------------------------ the whole layout

  function Slot(unit: Unit, z: bool): seq<Shdr> {
    if z then unit.zero else unit.content
  }

  /** The header list after layout: each section read back through its unit. */
  ghost predicate Scattered(all: seq<Shdr>, laid: seq<Unit>, out: seq<Shdr>) {
    && |laid| == 4 && |out| == |all|
    && forall i :: 0 <= i < |all| ==> At(all, laid, i, out[i])
  }

  ghost predicate At(all: seq<Shdr>, laid: seq<Unit>, i: nat, s: Shdr)
    requires |laid| == 4 && i < |all|
  {
    var l := Slot(laid[FlagsToIdx(all[i].sh_flags)], all[i].sh_type == SHT_NOBITS);
    Position(all, i) < |l| && l[Position(all, i)] == s
  }

  /** A non-empty section in its segment: right protection, in range, aligned, and
      in the part that shows its file bytes or zeros. */
  ghost predicate InSegment(s: Shdr, p: Placement) {
    && p.layout.prot == SectionProt(s.sh_flags)
    && PageAligned(p.rel) && ValidLayout(p.layout)
    && p.rel <= s.sh_addr && s.sh_addr + s.sh_size <= p.rel + p.layout.len
    && Aligned(s)
    && (if s.sh_type == SHT_NOBITS then
          && p.rel + p.layout.contentSize <= s.sh_addr
          && s.sh_addr + s.sh_size <= p.rel + p.layout.contentSize + p.layout.zeroSize
        else HasPiece(s, p) && s.sh_addr + s.sh_size <= p.rel + p.layout.contentSize)
  }

  ghost predicate SectionPlaced(s: Shdr, slots: seq<Option<Placement>>)
    requires |slots| == 4
  {
    s.sh_size > 0 ==>
      var slot := slots[FlagsToIdx(s.sh_flags)];
      slot.Some? && InSegment(s, slot.value)
  }

  lemma SameFlagsSameProt(a: nat, b: nat)
    requires FlagsToIdx(a) == FlagsToIdx(b)
    ensures SectionProt(a) == SectionProt(b)
  {
  }

  /** One section of a correctly laid unit. */
  lemma PlacedInUnit(l: seq<Shdr>, u: nat, unit: Unit, slot: Option<Placement>, z: bool, k: nat)
    requires u < 4 && LaidUnit(l, u, unit, slot) && !FixupMissed(Members(l, u, false))
    requires k < |Slot(unit, z)| && |Slot(unit, z)| == |Members(l, u, z)|
    requires Slot(unit, z)[k].sh_size > 0
    ensures slot.Some? && InSegment(Slot(unit, z)[k], slot.value)
    ensures Slot(unit, z)[k].sh_flags == Members(l, u, z)[k].sh_flags
  {
    var o: nat, o': nat :| Created(UnitOf(l, u), unit, o, slot, o');
    var s := Slot(unit, z)[k];
    assert s == Members(l, u, z)[k].(sh_addr := s.sh_addr);
    var p := slot.value;
    var first := (UnitOf(l, u).content + UnitOf(l, u).zero)[0];
    assert InGroup(first, u, true) || InGroup(first, u, false);
    SameFlagsSameProt(first.sh_flags, s.sh_flags);
  }

  /** Two sections of the same unit do not overlap. */
  lemma ApartInUnit(l: seq<Shdr>, u: nat, unit: Unit, slot: Option<Placement>, z: bool, k: nat, z': bool, k': nat)
    requires u < 4 && LaidUnit(l, u, unit, slot) && !FixupMissed(Members(l, u, false)) && slot.Some?
    requires k < |Slot(unit, z)| && k' < |Slot(unit, z')| && (z != z' || k < k')
    requires Slot(unit, z)[k].sh_size > 0 && Slot(unit, z')[k'].sh_size > 0
    ensures var a, b := Slot(unit, z)[k], Slot(unit, z')[k'];
            Disjoint(a.sh_addr, a.sh_size, b.sh_addr, b.sh_size)
  {
  }

  predicate Apart(l: seq<Shdr>) {
    forall i, j :: 0 <= i < j < |l| && l[i].sh_size > 0 && l[j].sh_size > 0 ==>
      Disjoint(l[i].sh_addr, l[i].sh_size, l[j].sh_addr, l[j].sh_size)
  }

  /** Every non-empty section is placed in the segment of its protection, no two
      sections overlap, and the segments are disjoint pages of `[0, total)`. */
  ghost predicate LayoutOk(out: seq<Shdr>, slots: seq<Option<Placement>>, segments: seq<Placement>, total: nat) {
    && |slots| == 4 && Chain(slots, total) && Collected(slots, segments)
    && (forall i, j :: 0 <= i < j < |segments| ==> segments[i].rel + segments[i].layout.len <= segments[j].rel)
    && (forall i :: 0 <= i < |out| ==> SectionPlaced(out[i], slots))
    && Apart(out)
  }

  ghost predicate AllLaid(all: seq<Shdr>, laid: seq<Unit>, slots: seq<Option<Placement>>) {
    && |laid| == |slots| == 4 && UnitsLaid(all, laid, slots)
    && (forall u :: 0 <= u < 4 ==> !FixupMissed(Members(all, u, false)))
  }

  lemma LaidLengths(all: seq<Shdr>, u: nat, unit: Unit, slot: Option<Placement>)
    requires LaidUnit(all, u, unit, slot)
    ensures SameButAddr(Members(all, u, false), unit.content) && SameButAddr(Members(all, u, true), unit.zero)
  {
  }

  lemma SectionsPlaced(all: seq<Shdr>, laid: seq<Unit>, slots: seq<Option<Placement>>, out: seq<Shdr>, i: nat)
    requires AllLaid(all, laid, slots) && Scattered(all, laid, out) && i < |all|
    ensures out[i] == all[i].(sh_addr := out[i].sh_addr)
    ensures SectionPlaced(out[i], slots)
  {
    var u, z := FlagsToIdx(all[i].sh_flags), all[i].sh_type == SHT_NOBITS;
    LaidLengths(all, u, laid[u], slots[u]);
    PositionFinds(all, i, u, z);
    assert At(all, laid, i, out[i]);
    if out[i].sh_size > 0 {
      PlacedInUnit(all, u, laid[u], slots[u], z, Position(all, i));
    }
  }

  lemma SectionsApart(all: seq<Shdr>, laid: seq<Unit>, slots: seq<Option<Placement>>, out: seq<Shdr>, i: nat, j: nat,
                      total: int)
    requires AllLaid(all, laid, slots) && Scattered(all, laid, out) && i < j < |all| && Chain(slots, total)
    requires out[i].sh_size > 0 && out[j].sh_size > 0
    ensures Disjoint(out[i].sh_addr, out[i].sh_size, out[j].sh_addr, out[j].sh_size)
  {
    SectionsPlaced(all, laid, slots, out, i);
    SectionsPlaced(all, laid, slots, out, j);
    var u, v := FlagsToIdx(all[i].sh_flags), FlagsToIdx(all[j].sh_flags);
    var z, w := all[i].sh_type == SHT_NOBITS, all[j].sh_type == SHT_NOBITS;
    if u == v {
      assert At(all, laid, i, out[i]) && At(all, laid, j, out[j]);
      if z == w {
        PositionsGrow(all, i, j, u, z);
      }
      ApartInUnit(all, u, laid[u], slots[u], z, Position(all, i), w, Position(all, j));
    }
  }

  lemma LayoutCorrect(all: seq<Shdr>, laid: seq<Unit>, slots: seq<Option<Placement>>, segments: seq<Placement>,
                      total: nat, out: seq<Shdr>)
    requires AllLaid(all, laid, slots) && Scattered(all, laid, out)
    requires Chain(slots, total) && Collected(slots, segments)
    requires forall i, j :: 0 <= i < j < |segments| ==> segments[i].rel + segments[i].layout.len <= segments[j].rel
    ensures LayoutOk(out, slots, segments, total)
  {
    forall i | 0 <= i < |out| ensures SectionPlaced(out[i], slots) {
      SectionsPlaced(all, laid, slots, out, i);
    }
    forall i, j | 0 <= i < j < |out| && out[i].sh_size > 0 && out[j].sh_size > 0
      ensures Disjoint(out[i].sh_addr, out[i].sh_size, out[j].sh_addr, out[j].sh_size)
    {
      SectionsApart(all, laid, slots, out, i, j, total);
    }
  }

  /** The sections the loader lays out: the object's own, then the GOT and the PLT. */
  function WithPltGot(shdrs: seq<Shdr>, gotCnt: nat, pltCnt: nat): seq<Shdr> {
    shdrs + [GotShdr(gotCnt), PltShdr(pltCnt)]
  }

  /** `SectionSegments::new`. */
  method LayOut(shdrs: seq<Shdr>, gotCnt: nat, pltCnt: nat)
    returns (out: seq<Shdr>, segments: seq<Placement>, total: nat, ghost slots: seq<Option<Placement>>)
    requires forall i :: 0 <= i < |shdrs| ==> ValidSection(shdrs[i])
    ensures SameButAddr(WithPltGot(shdrs, gotCnt, pltCnt), out)
    ensures (forall u :: 0 <= u < 4 ==> !FixupMissed(Members(WithPltGot(shdrs, gotCnt, pltCnt), u, false))) ==>
              LayoutOk(out, slots, segments, total)
  {
    var all := WithPltGot(shdrs, gotCnt, pltCnt);
    assert ValidSection(GotShdr(gotCnt)) && ValidSection(PltShdr(pltCnt));
    var units := BuildUnits(all);
    var laid;
    laid, segments, total, slots := BuildSegments(all, units);
    forall i | 0 <= i < |all| ensures Kept(all, laid, i) {
      ReadOne(all, laid, slots, i);
    }
    out := ReadBack(all, laid);
    if forall u :: 0 <= u < 4 ==> !FixupMissed(Members(all, u, false)) {
      LayoutCorrect(all, laid, slots, segments, total, out);
    }
  }

  /** Section `i` is where its unit says, with nothing but its address changed. */
  ghost predicate Kept(all: seq<Shdr>, laid: seq<Unit>, i: nat)
    requires |laid| == 4 && i < |all|
  {
    var l := Slot(laid[FlagsToIdx(all[i].sh_flags)], all[i].sh_type == SHT_NOBITS);
    Position(all, i) < |l| && l[Position(all, i)] == all[i].(sh_addr := l[Position(all, i)].sh_addr)
  }

  lemma ReadOne(all: seq<Shdr>, laid: seq<Unit>, slots: seq<Option<Placement>>, i: nat)
    requires |laid| == |slots| == 4 && forall u :: 0 <= u < 4 ==> LaidUnit(all, u, laid[u], slots[u])
    requires i < |all|
    ensures Kept(all, laid, i)
  {
    var u, z := FlagsToIdx(all[i].sh_flags), all[i].sh_type == SHT_NOBITS;
    LaidLengths(all, u, laid[u], slots[u]);
    PositionFinds(all, i, u, z);
  }

  ghost predicate ReadSoFar(all: seq<Shdr>, laid: seq<Unit>, out: seq<Shdr>, n: nat)
    requires |laid| == 4 && n == |out| <= |all|
  {
    forall j :: 0 <= j < n ==> At(all, laid, j, out[j]) && out[j] == all[j].(sh_addr := out[j].sh_addr)
  }

  /** The headers as the caller sees them once the units are dropped. */
  method ReadBack(all: seq<Shdr>, laid: seq<Unit>) returns (out: seq<Shdr>)
    requires |laid| == 4 && forall i :: 0 <= i < |all| ==> Kept(all, laid, i)
    ensures Scattered(all, laid, out) && SameButAddr(all, out)
  {
    out := [];
    for i := 0 to |all|
      invariant |out| == i && ReadSoFar(all, laid, out, i)
    {
      var s := ReadSection(all, laid, i);
      ReadStep(all, laid, out, s);
      out := out + [s];
    }
  }

  lemma ReadStep(all: seq<Shdr>, laid: seq<Unit>, out: seq<Shdr>, s: Shdr)
    requires |laid| == 4 && |out| < |all| && ReadSoFar(all, laid, out, |out|)
    requires At(all, laid, |out|, s) && s == all[|out|].(sh_addr := s.sh_addr)
    ensures ReadSoFar(all, laid, out + [s], |out| + 1)
  {
    var out' := out + [s];
    forall j | 0 <= j < |out'| ensures At(all, laid, j, out'[j]) && out'[j] == all[j].(sh_addr := out'[j].sh_addr) {
      assert j < |out| ==> At(all, laid, j, out[j]) && out'[j] == out[j];
    }
  }

  method ReadSection(all: seq<Shdr>, laid: seq<Unit>, i: nat) returns (s: Shdr)
    requires |laid| == 4 && i < |all| && Kept(all, laid, i)
    ensures At(all, laid, i, s) && s == all[i].(sh_addr := s.sh_addr)
  {
    var l := Slot(laid[FlagsToIdx(all[i].sh_flags)], all[i].sh_type == SHT_NOBITS);
    s := l[Position(all, i)];
  }

  // ---------------------------------------------------------------- loaded bytes

  /** The section's address shows its file bytes, or zeros for NOBITS. */
  predicate SectionShows(s: Shdr, file: seq<byte>, os: Os, m: seq<byte>) {
    s.sh_addr + s.sh_size <= |m| &&
    forall i :: s.sh_addr <= i < s.sh_addr + s.sh_size ==>
      m[i] == if s.sh_type == SHT_NOBITS then 0 else ByteAt(file, os, s.sh_offset + (i - s.sh_addr))
  }

  lemma SectionInLoaded(s: Shdr, p: Placement, space: ElfSegments, file: seq<byte>, os: Os, m: seq<byte>)
    requires InSegment(s, p) && Fits(p, space) && |m| == space.len && space.offset == 0
    requires LoadedAt(p, space, file, os, m)
    ensures SectionShows(s, file, os, m)
  {
    if s.sh_type != SHT_NOBITS {
      var k :| 0 <= k < |p.layout.maps| && CoveredBy(p.layout.maps[k], s, p.rel);
      assert MapLoaded(p.layout.maps[k], file, os, m, p.rel);
    }
  }

  lemma LayoutIsPlan(out: seq<Shdr>, slots: seq<Option<Placement>>, segments: seq<Placement>, space: ElfSegments)
    requires LayoutOk(out, slots, segments, space.len) && space.Valid() && space.offset == 0
    ensures ValidPlan(segments, space)
  {
    forall i | 0 <= i < |segments| ensures Fits(segments[i], space) {
      assert HasSlot(slots, segments[i]);
      var u :| 0 <= u < |slots| && slots[u] == Some(segments[i]);
    }
  }

  /** Loading a relocatable object: after the segments are mapped, copied and zero
      filled, every section shows its contents at its assigned address. */
  method LoadObject(out: seq<Shdr>, ghost slots: seq<Option<Placement>>, segments: seq<Placement>,
                    space: ElfSegments, mem: array<byte>, file: seq<byte>, os: Os) returns (ok: bool)
    requires LayoutOk(out, slots, segments, space.len) && space.Valid() && space.offset == 0
    requires mem.Length == space.len
    modifies mem
    ensures ok ==> forall i :: 0 <= i < |out| && out[i].sh_size > 0 ==> SectionShows(out[i], file, os, mem[..])
    ensures ok <==> forall i :: 0 <= i < |segments| ==> Readable(segments[i].layout, file, os)
  {
    LayoutIsPlan(out, slots, segments, space);
    var objects := MakeSegments(segments);
    ok := LoadSegments(objects, segments, space, mem, file, os);
    if ok {
      forall i | 0 <= i < |out| && out[i].sh_size > 0 ensures SectionShows(out[i], file, os, mem[..]) {
        assert SectionPlaced(out[i], slots);
        var p := slots[FlagsToIdx(out[i].sh_flags)].value;
        assert p in segments;
        var k :| 0 <= k < |segments| && segments[k] == p;
        assert LoadedAt(segments[k], space, file, os, mem[..]);
        SectionInLoaded(out[i], p, space, file, os, mem[..]);
      }
    }
  }

  method MakeSegments(plan: seq<Placement>) returns (segments: seq<ElfSegment>)
    ensures Matches(segments, plan) && fresh(segments)
  {
    segments := [];
    for i := 0 to |plan|
      invariant |segments| == i && PairwiseDistinct(segments) && fresh(segments)
      invariant forall j :: 0 <= j < i ==>
                  segments[j].layout == plan[j].layout && segments[j].addr == Relative(plan[j].rel)
    {
      var s := new ElfSegment(plan[i].rel, plan[i].layout);
      segments := segments + [s];
    }
  }
}
