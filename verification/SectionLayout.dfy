/** Laying out the sections of a relocatable object (src/segment/section.rs).

    Sections are grouped by protection into four units; each unit becomes one
    segment holding its content sections and then its NOBITS sections. The slice
    of section headers that the loader updates through references is threaded
    through the methods as a sequence, with the synthetic GOT and PLT at its end. */
module SectionLayout {
  import opened Words
  import opened Pages
  import opened Segments

  const SHT_NOBITS := 8

  datatype Shdr = Shdr(sh_type: nat, sh_flags: nat, sh_addr: nat, sh_offset: nat, sh_size: nat,
                       sh_link: nat, sh_info: nat, sh_addralign: nat, sh_entsize: nat)

  function SectionProt(flags: nat): Prot {
    Prot(true, flags % 2 == 1, flags / 4 % 2 == 1)
  }

  function ProtToIdx(p: Prot): (i: nat)
    ensures i < 4
  {
    (if p.write then 1 else 0) + (if p.exec then 2 else 0)
  }

  function FlagsToIdx(flags: nat): nat {
    ProtToIdx(SectionProt(flags))
  }

  /** The headers of one protection: sections with file content, and NOBITS ones. */
  datatype Unit = Unit(content: seq<Shdr>, zero: seq<Shdr>)

  /** What the object file must promise for its sections to be placed: alignments
      that divide the page, and file offsets aligned like the addresses. */
  predicate ValidSection(s: Shdr) {
    s.sh_addralign > 0 ==>
      && 0x1000 % s.sh_addralign == 0
      && (s.sh_type != SHT_NOBITS ==> s.sh_offset % s.sh_addralign == 0)
  }

  predicate Aligned(s: Shdr) {
    MultipleOf(s.sh_addr, s.sh_addralign)
  }

  /** Two header lists that differ in addresses only. */
  predicate SameButAddr(a: seq<Shdr>, b: seq<Shdr>) {
    |a| == |b| && forall i :: 0 <= i < |a| ==> b[i] == a[i].(sh_addr := b[i].sh_addr)
  }

  /** The first `n` sections of the list that are not empty stand one after the
      other, aligned, between `lo` and `hi`. */
  predicate Packed(l: seq<Shdr>, n: nat, lo: int, hi: int)
    requires n <= |l|
  {
    && (forall k :: 0 <= k < n && l[k].sh_size > 0 ==>
          lo <= l[k].sh_addr && l[k].sh_addr + l[k].sh_size <= hi && Aligned(l[k]))
    && (forall j, k :: 0 <= j < k < n && l[j].sh_size > 0 && l[k].sh_size > 0 ==>
          l[j].sh_addr + l[j].sh_size <= l[k].sh_addr)
  }

  predicate MultipleOf(x: int, align: nat) {
    align > 0 ==> x % align == 0
  }

  /** `Cursor::roundup`: the first position at or after `cur` that is aligned. */
  method AlignCursor(cur: nat, align: nat) returns (a: nat)
    ensures cur <= a && MultipleOf(a, align)
    ensures MultipleOf(cur, align) ==> a == cur
    ensures align > 0 ==> a < cur + align
  {
    if align > 0 {
      NearestMultiples(cur, align);
    }
    a := RoundUp(cur, align);
  }

  /** `owner[m]` is the section that the m-th file piece belongs to. */
  ghost predicate MapsMatch(l: seq<Shdr>, n: nat, owner: seq<nat>, start: int, maps: seq<FileMap>)
    requires n <= |l|
  {
    && |maps| == |owner|
    && (forall m :: 0 <= m < |owner| ==> owner[m] < n && l[owner[m]].sh_size > 0)
    && (forall m, m' :: 0 <= m < m' < |owner| ==> owner[m] < owner[m'])
    && (forall k :: 0 <= k < n && l[k].sh_size > 0 ==> k in owner)
    && (forall m :: 0 <= m < |owner| ==> PieceOf(maps[m], l[owner[m]], start))
  }

  predicate PieceOf(f: FileMap, s: Shdr, start: int) {
    s.sh_addr == start + f.start && f.filesz == s.sh_size && f.offset == s.sh_offset
  }

  lemma MapsExtend(l: seq<Shdr>, j: nat, owner: seq<nat>, start: int, maps: seq<FileMap>, f: FileMap)
    requires j < |l| && l[j].sh_size > 0 && PieceOf(f, l[j], start)
    requires MapsMatch(l, j, owner, start, maps)
    ensures MapsMatch(l, j + 1, owner + [j], start, maps + [f])
  {
    var owner', maps' := owner + [j], maps + [f];
    assert owner'[|owner|] == j;
    assert forall m :: 0 <= m < |owner| ==> owner'[m] == owner[m] && maps'[m] == maps[m];
  }

  lemma PackedExtend(l: seq<Shdr>, j: nat, lo: int, hi: int, hi': int)
    requires j < |l| && Packed(l, j, lo, hi) && lo <= hi
    requires l[j].sh_size > 0 ==> hi <= l[j].sh_addr && Aligned(l[j])
    requires hi <= hi' && l[j].sh_addr + l[j].sh_size <= hi'
    ensures Packed(l, j + 1, lo, hi')
  {
  }

  /** The state of the first loop of `create_segment` before section `j`. */
  ghost predicate ContentInv(content: seq<Shdr>, placed: seq<Shdr>, j: nat, start: nat, cur: nat,
                             maps: seq<FileMap>, owner: seq<nat>)
  {
    && |placed| == |content| && j <= |content| && start <= cur
    && SameButAddr(content, placed)
    && (forall k :: 0 <= k < |content| && (j <= k || content[k].sh_size == 0) ==> placed[k] == content[k])
    && Packed(placed, j, start, cur)
    && MapsMatch(placed, j, owner, start, maps)
    && (|maps| == 0 ==> cur == start)
    && (|maps| == 1 ==>
          var s := placed[owner[0]];
          cur == s.sh_addr + s.sh_size && (MultipleOf(start, s.sh_addralign) ==> s.sh_addr == start))
  }

  lemma ContentStep(content: seq<Shdr>, placed: seq<Shdr>, j: nat, start: nat, cur: nat,
                    maps: seq<FileMap>, owner: seq<nat>, a: nat)
    requires j < |content| && ContentInv(content, placed, j, start, cur, maps, owner)
    requires content[j].sh_size > 0
    requires cur <= a && MultipleOf(a, content[j].sh_addralign)
    requires MultipleOf(cur, content[j].sh_addralign) ==> a == cur
    ensures var s := content[j];
            ContentInv(content, placed[j := s.(sh_addr := a)], j + 1, start, a + s.sh_size,
                       maps + [FileMap(a - start, s.sh_size, s.sh_offset)], owner + [j])
  {
    var s := content[j];
    var placed' := placed[j := s.(sh_addr := a)];
    assert forall k :: 0 <= k < j ==> placed'[k] == placed[k];
    assert Packed(placed', j, start, a) && MapsMatch(placed', j, owner, start, maps);
    MapsExtend(placed', j, owner, start, maps, FileMap(a - start, s.sh_size, s.sh_offset));
    PackedExtend(placed', j, start, a, a + s.sh_size);
  }

  lemma ContentSkip(content: seq<Shdr>, placed: seq<Shdr>, j: nat, start: nat, cur: nat,
                    maps: seq<FileMap>, owner: seq<nat>)
    requires j < |content| && ContentInv(content, placed, j, start, cur, maps, owner)
    requires placed[j].sh_size == 0
    ensures ContentInv(content, placed, j + 1, start, cur, maps, owner)
  {
  }

  /** First loop of `create_segment`: the sections with file content. */
  method PlaceContent(content: seq<Shdr>, start: nat)
    returns (placed: seq<Shdr>, cur: nat, maps: seq<FileMap>, ghost owner: seq<nat>)
    ensures ContentInv(content, placed, |content|, start, cur, maps, owner)
  {
    placed, cur, maps, owner := content, start, [], [];
    for j := 0 to |content|
      invariant ContentInv(content, placed, j, start, cur, maps, owner)
    {
      if placed[j].sh_size != 0 {
        placed, cur, maps, owner := PlaceOne(content, placed, j, start, cur, maps, owner);
      } else {
        ContentSkip(content, placed, j, start, cur, maps, owner);
      }
    }
  }

  method PlaceOne(ghost content: seq<Shdr>, placed: seq<Shdr>, j: nat, start: nat, cur: nat, maps: seq<FileMap>,
                  ghost owner: seq<nat>)
    returns (placed': seq<Shdr>, cur': nat, maps': seq<FileMap>, ghost owner': seq<nat>)
    requires j < |content| && ContentInv(content, placed, j, start, cur, maps, owner) && placed[j].sh_size != 0
    ensures ContentInv(content, placed', j + 1, start, cur', maps', owner')
  {
    var s := placed[j];
    var a := AlignCursor(cur, s.sh_addralign);
    ContentStep(content, placed, j, start, cur, maps, owner, a);
    placed' := placed[j := s.(sh_addr := a)];
    maps' := maps + [FileMap(a - start, s.sh_size, s.sh_offset)];
    cur' := a + s.sh_size;
    owner' := owner + [j];
  }

  /** Last loop of `create_segment`: the NOBITS sections. */
  method PlaceZero(zero: seq<Shdr>, from: nat) returns (placed: seq<Shdr>, cur: nat)
    ensures SameButAddr(zero, placed) && from <= cur
    ensures Packed(placed, |placed|, from, cur)
    ensures zero == [] ==> cur == from
  {
    placed, cur := zero, from;
    for j := 0 to |zero|
      invariant SameButAddr(zero, placed) && from <= cur
      invariant forall k :: j <= k < |zero| ==> placed[k] == zero[k]
      invariant Packed(placed, j, from, cur)
      invariant j == 0 ==> cur == from
    {
      cur := AlignCursor(cur, placed[j].sh_addralign);
      placed := placed[j := placed[j].(sh_addr := cur)];
      cur := cur + placed[j].sh_size;
    }
  }

  /** Piece `f` of a segment at `rel` shows the whole section at its address. */
  predicate CoveredBy(f: FileMap, s: Shdr, rel: int) {
    && rel + f.start <= s.sh_addr && s.sh_addr + s.sh_size <= rel + f.start + f.filesz
    && f.offset + (s.sh_addr - rel - f.start) == s.sh_offset
  }

  ghost predicate HasPiece(s: Shdr, p: Placement) {
    exists m :: 0 <= m < |p.layout.maps| && CoveredBy(p.layout.maps[m], s, p.rel)
  }

  /** A unit correctly laid out as segment `p`: content sections aligned and disjoint
      in the content part and backed by their file bytes, NOBITS sections aligned and
      disjoint in the zero part. */
  ghost predicate UnitLaid(u: Unit, p: Placement) {
    && PageAligned(p.rel) && ValidLayout(p.layout)
    && Packed(u.content, |u.content|, p.rel, p.rel + p.layout.contentSize)
    && Packed(u.zero, |u.zero|, p.rel + p.layout.contentSize, p.rel + p.layout.contentSize + p.layout.zeroSize)
    && forall k :: 0 <= k < |u.content| && u.content[k].sh_size > 0 ==> HasPiece(u.content[k], p)
  }

  /** The section that the single-section fix-up adjusts. */
  method FindOffset(content: seq<Shdr>, offset: nat) returns (f: nat)
    requires exists k :: 0 <= k < |content| && content[k].sh_offset == offset
    ensures f < |content| && content[f].sh_offset == offset
    ensures forall k :: 0 <= k < f ==> content[k].sh_offset != offset
  {
    f := 0;
    while content[f].sh_offset != offset
      invariant f < |content|
      invariant exists k :: f <= k < |content| && content[k].sh_offset == offset
      invariant forall k :: 0 <= k < f ==> content[k].sh_offset != offset
      decreases |content| - f
    {
      f := f + 1;
    }
  }

  predicate Sole(content: seq<Shdr>, k: nat) {
    k < |content| && content[k].sh_size > 0 &&
    forall j :: 0 <= j < |content| && j != k ==> content[j].sh_size == 0
  }

  /** The fix-up looks its section up by file offset, so an empty section that
      precedes the only non-empty one and shares its offset is adjusted instead.
      This is harmless only when the offset starts a page. */
  ghost predicate FixupMissed(content: seq<Shdr>) {
    exists j, k :: 0 <= j < k < |content| && Sole(content, k) &&
      content[j].sh_offset == content[k].sh_offset && content[k].sh_offset % 0x1000 != 0
  }

  predicate ValidUnit(u: Unit) {
    && (forall k :: 0 <= k < |u.content| ==> ValidSection(u.content[k]) && u.content[k].sh_type != SHT_NOBITS)
    && (forall k :: 0 <= k < |u.zero| ==> ValidSection(u.zero[k]))
  }

  /** Distance of the file offset into its page, added by the fix-up, keeps alignment. */
  lemma ShiftKeepsAlignment(start: nat, offset: nat, align: nat)
    requires PageAligned(start) && align > 0 && 0x1000 % align == 0 && offset % align == 0
    ensures start % align == 0
    ensures (start + (offset - PageDown(offset))) % align == 0
  {
    var q := 0x1000 / align;
    assert 0x1000 == align * q;
    var n := start / 0x1000;
    assert start == align * (q * n) by { assert start == 0x1000 * n; }
    ModUnique(start, align, q * n, 0);
    var d := offset / 0x1000;
    assert PageDown(offset) == align * (q * d) by { assert PageDown(offset) == 0x1000 * d; }
    var o := offset / align;
    assert offset == align * o;
    var r := start + (offset - PageDown(offset));
    assert r == align * (q * n + o - q * d);
    ModUnique(r, align, q * n + o - q * d, 0);
  }

  /** The segment after the content loop and the fix-up, before NOBITS sections. */
  ghost predicate ContentLaid(placed: seq<Shdr>, maps: seq<FileMap>, start: nat, end: nat) {
    && start <= end
    && Packed(placed, |placed|, start, end)
    && ValidMaps(maps, end - start)
    && forall k :: 0 <= k < |placed| && placed[k].sh_size > 0 ==>
         exists m :: 0 <= m < |maps| && CoveredBy(maps[m], placed[k], start)
  }

  lemma ManyPiecesLaid(content: seq<Shdr>, placed: seq<Shdr>, start: nat, cur: nat, maps: seq<FileMap>, owner: seq<nat>)
    requires ContentInv(content, placed, |content|, start, cur, maps, owner)
    requires |maps| != 1
    ensures ContentLaid(placed, maps, start, cur)
  {
    forall i, j | 0 <= i < j < |maps|
      ensures Disjoint(maps[i].start, maps[i].filesz, maps[j].start, maps[j].filesz)
    {
      assert PieceOf(maps[i], placed[owner[i]], start) && PieceOf(maps[j], placed[owner[j]], start);
    }
    forall j | 0 <= j < |maps| ensures maps[j].start + maps[j].filesz <= cur - start {
      assert PieceOf(maps[j], placed[owner[j]], start);
    }
    forall k | 0 <= k < |placed| && placed[k].sh_size > 0
      ensures exists m :: 0 <= m < |maps| && CoveredBy(maps[m], placed[k], start)
    {
      var m :| 0 <= m < |owner| && owner[m] == k;
      assert PieceOf(maps[m], placed[k], start);
    }
  }

  lemma OnePieceLaid(content: seq<Shdr>, placed: seq<Shdr>, start: nat, cur: nat, maps: seq<FileMap>, owner: seq<nat>)
    requires ContentInv(content, placed, |content|, start, cur, maps, owner) && |maps| == 1
    requires PageAligned(start) && ValidSection(placed[owner[0]]) && placed[owner[0]].sh_type != SHT_NOBITS
    ensures var s := placed[owner[0]];
            var shift := s.sh_offset - PageDown(s.sh_offset);
            && s.sh_addr == start && shift >= 0
            && ContentLaid(placed[owner[0] := s.(sh_addr := s.sh_addr + shift)],
                           [FileMap(0, s.sh_size + shift, PageDown(s.sh_offset))], start, cur + shift)
  {
    var o := owner[0];
    var s := placed[o];
    var shift := s.sh_offset - PageDown(s.sh_offset);
    PageBounds(s.sh_offset);
    if s.sh_addralign > 0 {
      ShiftKeepsAlignment(start, s.sh_offset, s.sh_addralign);
    }
    var placed' := placed[o := s.(sh_addr := s.sh_addr + shift)];
    forall k | 0 <= k < |placed'| && placed'[k].sh_size > 0 ensures k == o {
      assert k in owner;
    }
    assert CoveredBy(FileMap(0, s.sh_size + shift, PageDown(s.sh_offset)), placed'[o], start);
  }

  /** The special handling of a unit with one non-empty content section. */
  method FixSingle(content: seq<Shdr>, placed0: seq<Shdr>, start: nat, cur0: nat, maps0: seq<FileMap>,
                   ghost owner: seq<nat>)
    returns (placed: seq<Shdr>, cur: nat, maps: seq<FileMap>)
    requires ContentInv(content, placed0, |content|, start, cur0, maps0, owner)
    requires PageAligned(start)
    requires forall k :: 0 <= k < |content| ==> ValidSection(content[k]) && content[k].sh_type != SHT_NOBITS
    ensures SameButAddr(content, placed) && start <= cur && ValidMaps(maps, cur - start)
    ensures ContentLaid(placed, maps, start, cur) <==> !FixupMissed(content)
    ensures cur == start ==> forall k :: 0 <= k < |content| ==> content[k].sh_size == 0
  {
    placed, cur, maps := placed0, cur0, maps0;
    SoleOwner(content, placed0, owner, start, maps0);
    if |maps| == 1 {
      placed, cur, maps := ShiftSingle(content, placed0, start, cur0, maps0, owner);
    } else {
      ManyPiecesLaid(content, placed, start, cur, maps, owner);
    }
  }

  /** The one file piece is mapped from its page on, and the section found at its file offset
      moves by the same amount. */
  method ShiftSingle(content: seq<Shdr>, placed0: seq<Shdr>, start: nat, cur0: nat, maps0: seq<FileMap>,
                     ghost owner: seq<nat>)
    returns (placed: seq<Shdr>, cur: nat, maps: seq<FileMap>)
    requires ContentInv(content, placed0, |content|, start, cur0, maps0, owner) && |maps0| == 1
    requires PageAligned(start) && Sole(content, owner[0])
    requires forall k :: 0 <= k < |content| ==> ValidSection(content[k]) && content[k].sh_type != SHT_NOBITS
    ensures SameButAddr(content, placed) && start < cur && ValidMaps(maps, cur - start)
    ensures ContentLaid(placed, maps, start, cur) <==> !FixupMissed(content)
  {
    ghost var o := owner[0];
    assert PieceOf(maps0[0], placed0[o], start);
    OnePieceLaid(content, placed0, start, cur0, maps0, owner);
    var f := FindOffset(placed0, maps0[0].offset);
    var fileOffset := PageDown(maps0[0].offset);
    var shift := maps0[0].offset - fileOffset;
    placed := placed0[f := placed0[f].(sh_addr := placed0[f].sh_addr + shift)];
    maps := [FileMap(maps0[0].start, maps0[0].filesz + shift, fileOffset)];
    cur := cur0 + shift;
    FixupExact(content, placed0, placed, f, o, start, cur, maps);
  }

  /** The loop recorded one piece exactly when one content section is not empty. */
  lemma SoleOwner(content: seq<Shdr>, placed: seq<Shdr>, owner: seq<nat>, start: nat, maps: seq<FileMap>)
    requires SameButAddr(content, placed) && MapsMatch(placed, |placed|, owner, start, maps)
    ensures |maps| == 1 ==> Sole(content, owner[0])
    ensures |maps| != 1 ==> forall k :: !Sole(content, k)
    ensures |maps| == 0 ==> forall k :: 0 <= k < |content| ==> content[k].sh_size == 0
  {
    assert forall k :: 0 <= k < |content| ==> placed[k].sh_size == content[k].sh_size;
    if |maps| > 1 {
      assert owner[0] != owner[1] && content[owner[0]].sh_size > 0 && content[owner[1]].sh_size > 0;
    }
  }

  lemma FixupExact(content: seq<Shdr>, placed0: seq<Shdr>, placed: seq<Shdr>, f: nat, o: nat, start: nat, cur: nat,
                   maps: seq<FileMap>)
    requires SameButAddr(content, placed0) && Sole(content, o) && f <= o
    requires placed0[o].sh_addr == start
    requires content[f].sh_offset == content[o].sh_offset
    requires forall k :: 0 <= k < f ==> content[k].sh_offset != content[o].sh_offset
    requires var shift := content[o].sh_offset - PageDown(content[o].sh_offset);
             && placed == placed0[f := placed0[f].(sh_addr := placed0[f].sh_addr + shift)]
             && maps == [FileMap(0, content[o].sh_size + shift, PageDown(content[o].sh_offset))]
             && ContentLaid(placed0[o := placed0[o].(sh_addr := placed0[o].sh_addr + shift)], maps, start, cur)
    ensures ContentLaid(placed, maps, start, cur) <==> !FixupMissed(content)
  {
    var shift := content[o].sh_offset - PageDown(content[o].sh_offset);
    assert forall k :: Sole(content, k) ==> k == o;
    if f != o && shift != 0 {
      assert FixupMissed(content);
      assert placed[o] == placed0[o] && !CoveredBy(maps[0], placed[o], start);
    } else {
      assert placed == placed0[o := placed0[o].(sh_addr := placed0[o].sh_addr + shift)];
    }
  }

  lemma UnitFromParts(content: seq<Shdr>, zero: seq<Shdr>, p: Placement)
    requires PageAligned(p.rel) && ValidLayout(p.layout)
    requires Packed(zero, |zero|, p.rel + p.layout.contentSize, p.rel + p.layout.contentSize + p.layout.zeroSize)
    ensures UnitLaid(Unit(content, zero), p) <==>
            ContentLaid(content, p.layout.maps, p.rel, p.rel + p.layout.contentSize)
  {
    assert forall k :: 0 <= k < |content| ==>
      (HasPiece(content[k], p) <==>
        exists m :: 0 <= m < |p.layout.maps| && CoveredBy(p.layout.maps[m], content[k], p.rel));
  }

  method LayContent(content: seq<Shdr>, start: nat)
    returns (placed: seq<Shdr>, cur: nat, maps: seq<FileMap>)
    requires PageAligned(start)
    requires forall k :: 0 <= k < |content| ==> ValidSection(content[k]) && content[k].sh_type != SHT_NOBITS
    ensures SameButAddr(content, placed) && start <= cur && ValidMaps(maps, cur - start)
    ensures ContentLaid(placed, maps, start, cur) <==> !FixupMissed(content)
    ensures cur == start ==> forall k :: 0 <= k < |content| ==> content[k].sh_size == 0
  {
    ghost var owner;
    placed, cur, maps, owner := PlaceContent(content, start);
    placed, cur, maps := FixSingle(content, placed, start, cur, maps, owner);
  }

  lemma NothingPacked(l: seq<Shdr>, at: int)
    requires Packed(l, |l|, at, at)
    ensures forall k :: 0 <= k < |l| ==> l[k].sh_size == 0
  {
  }

  /** What `create_segment` promises: nothing to map, or a segment at `offset` with
      the protection of the unit's first section, correct unless the fix-up missed. */
  ghost predicate Created(u: Unit, u': Unit, offset: nat, seg: Option<Placement>, offset': nat) {
    && SameButAddr(u.content, u'.content) && SameButAddr(u.zero, u'.zero)
    && match seg
       case None =>
         && offset' == offset
         && (forall k :: 0 <= k < |u.content| ==> u.content[k].sh_size == 0)
         && (forall k :: 0 <= k < |u.zero| ==> u.zero[k].sh_size == 0)
       case Some(p) =>
         && p.rel == offset && offset' == offset + p.layout.len && PageAligned(offset')
         && |u.content| + |u.zero| > 0
         && p.layout.prot == SectionProt((u.content + u.zero)[0].sh_flags)
         && ValidLayout(p.layout)
         && (UnitLaid(u', p) <==> !FixupMissed(u.content))
  }

  method CreateSegment(u: Unit, offset: nat) returns (u': Unit, seg: Option<Placement>, offset': nat)
    requires PageAligned(offset) && ValidUnit(u)
    ensures Created(u, u', offset, seg, offset')
  {
    u', seg, offset' := u, None, offset;
    if |u.content| == 0 && |u.zero| == 0 {
      return;
    }
    var prot := SectionProt(if |u.content| > 0 then u.content[0].sh_flags else u.zero[0].sh_flags);
    var content, cur, maps := LayContent(u.content, offset);
    var zero, end := PlaceZero(u.zero, cur);
    u' := Unit(content, zero);
    var len := PageUp(end - offset);
    if len == 0 {
      PageBounds(end - offset);
      NothingPacked(zero, cur);
      return;
    }
    offset' := offset + len;
    var p := Placement(offset, Layout(prot, len, cur - offset, end - cur, maps));
    seg := Some(p);
    SegmentCreated(u, content, zero, offset, cur, end, p);
  }

  lemma SegmentCreated(u: Unit, content: seq<Shdr>, zero: seq<Shdr>, offset: nat, cur: nat, end: nat, p: Placement)
    requires PageAligned(offset) && |u.content| + |u.zero| > 0
    requires SameButAddr(u.content, content) && SameButAddr(u.zero, zero) && offset <= cur <= end
    requires p.rel == offset && p.layout.len == PageUp(end - offset)
    requires p.layout.contentSize == cur - offset && p.layout.zeroSize == end - cur
    requires p.layout.prot == SectionProt((u.content + u.zero)[0].sh_flags)
    requires ValidMaps(p.layout.maps, cur - offset)
    requires ContentLaid(content, p.layout.maps, offset, cur) <==> !FixupMissed(u.content)
    requires Packed(zero, |zero|, cur, end)
    ensures Created(u, Unit(content, zero), offset, Some(p), offset + p.layout.len)
  {
    PageBounds(end - offset);
    UnitFromParts(content, zero, p);
  }
}
