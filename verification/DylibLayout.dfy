/** Where the shared-library writer puts its sections, and the program headers it gives
    them (tools/gen-elf/src/dylib/layout.rs, tools/gen-elf/src/dylib/shdr.rs).

    File offsets and addresses are unbounded naturals here; the headers require the
    file to stay below 2^64 - 2^13. */
module DylibLayout {
  import opened Words
  import opened Pages

  datatype SectionKind = Null | DynStr | DynSym | RelaDyn | RelaPlt | Dynamic | Hash | ShStrTab
                       | Plt | Text | Data | Got | GotPlt | Tls

  /** The segment a section belongs to: 0 read-only, 1 code, 2 data, 3 not loaded. */
  function Group(k: SectionKind): (g: nat)
    ensures g <= 3
  {
    match k
    case Plt | Text => 1
    case Data | Got | GotPlt | Tls | Dynamic => 2
    case DynStr | DynSym | RelaDyn | RelaPlt | Hash => 0
    case Null | ShStrTab => 3
  }

  /** `data` identifies the section's bytes in the allocator. */
  datatype Section = Section(kind: SectionKind, addr: nat, offset: nat, size: nat, addralign: nat, data: nat) {
    function End(): nat {
      offset + size
    }

    predicate IsAlloc() {
      Group(kind) < 3
    }
  }

  // ---------------------------------------------------------------------- the cursor

  function AlignUp(val: nat, align: nat): nat
    requires align > 0
  {
    (val + align - 1) / align * align
  }

  lemma AlignUpIs(val: nat, align: nat)
    requires align > 0
    ensures AlignUp(val, align) % align == 0 && val <= AlignUp(val, align) < val + align
    ensures AlignUp(val, align) == Ceil(val, align)
  {
    NearestMultiples(val, align);
    var y := val + align - 1;
    assert y == align * (y / align) + y % align;
  }

  lemma MultipleOfPages(x: nat, page: nat)
    requires page > 0 && x % page == 0 && page % 0x1000 == 0
    ensures x % 0x1000 == 0
  {
    var q, r := x / page, page / 0x1000;
    assert x == page * q && page == 0x1000 * r;
    assert x == 0x1000 * (r * q) by {
      assert 0x1000 * r * q == 0x1000 * (r * q);
    }
    ModUnique(x, 0x1000, r * q, 0);
  }

  class ElfLayout {
    const baseAddr: nat
    const pageSize: nat
    var fileOff: nat

    constructor (base: nat, page: nat)
      ensures baseAddr == base && pageSize == page && fileOff == 0
    {
      baseAddr, pageSize, fileOff := base, page, 0;
    }

    method AlignToPage()
      requires pageSize > 0
      modifies this
      ensures fileOff == AlignUp(old(fileOff), pageSize)
    {
      fileOff := AlignUp(fileOff, pageSize);
    }

    /** The headers come first, and the first section starts on a page. */
    method AddHeader(ehdrSize: nat, phSize: nat)
      requires pageSize > 0
      modifies this
      ensures fileOff == AlignUp(ehdrSize + phSize, pageSize)
    {
      fileOff := ehdrSize + phSize;
      AlignToPage();
    }

    method AddSection(size: nat, align: nat) returns (offset: nat, vaddr: nat)
      requires align > 0
      modifies this
      ensures offset == AlignUp(old(fileOff), align) && fileOff == offset + size && vaddr == baseAddr + offset
    {
      fileOff := AlignUp(fileOff, align);
      offset := fileOff;
      vaddr := baseAddr + offset;
      fileOff := fileOff + size;
    }
  }

  // ------------------------------------------------------------------- the sort order

  /** The sections of one group, in the order they were added. */
  function Of(secs: seq<Section>, g: nat): seq<Section> {
    if secs == [] then []
    else (if Group(secs[0].kind) == g then [secs[0]] else []) + Of(secs[1..], g)
  }

  /** The stable sort by group. */
  function SortByGroup(secs: seq<Section>): seq<Section> {
    Of(secs, 0) + Of(secs, 1) + Of(secs, 2) + Of(secs, 3)
  }

  ghost predicate ByGroup(secs: seq<Section>) {
    forall i, j :: 0 <= i < j < |secs| ==> Group(secs[i].kind) <= Group(secs[j].kind)
  }

  lemma {:induction false} OfHas(secs: seq<Section>, g: nat)
    ensures forall s :: s in Of(secs, g) <==> s in secs && Group(s.kind) == g
  {
    if secs != [] {
      OfHas(secs[1..], g);
      assert secs == [secs[0]] + secs[1..];
    }
  }

  lemma {:induction false} OfCounts(secs: seq<Section>)
    ensures multiset(Of(secs, 0)) + multiset(Of(secs, 1)) + multiset(Of(secs, 2)) + multiset(Of(secs, 3)) ==
            multiset(secs)
  {
    if secs != [] {
      OfCounts(secs[1..]);
      assert secs == [secs[0]] + secs[1..];
      assert multiset(secs) == multiset([secs[0]]) + multiset(secs[1..]);
      forall g | 0 <= g <= 3
        ensures multiset(Of(secs, g)) ==
                (if Group(secs[0].kind) == g then multiset([secs[0]]) else multiset{}) + multiset(Of(secs[1..], g))
      {
      }
    }
  }

  /** Sorting keeps every section, as often as it occurs, and brings the groups in order. */
  lemma SortSorts(secs: seq<Section>)
    ensures multiset(SortByGroup(secs)) == multiset(secs) && |SortByGroup(secs)| == |secs|
    ensures ByGroup(SortByGroup(secs))
    ensures forall s :: s in SortByGroup(secs) <==> s in secs
  {
    var sorted := SortByGroup(secs);
    OfCounts(secs);
    assert multiset(sorted) == multiset(secs);
    assert |multiset(sorted)| == |sorted| && |multiset(secs)| == |secs|;
    forall g | 0 <= g <= 3 ensures forall s :: s in Of(secs, g) <==> s in secs && Group(s.kind) == g {
      OfHas(secs, g);
    }
    forall i, j | 0 <= i < j < |sorted| ensures Group(sorted[i].kind) <= Group(sorted[j].kind) {
      GroupAt(secs, i);
      GroupAt(secs, j);
    }
    forall s ensures s in sorted <==> s in secs {
      assert s in sorted <==> s in multiset(sorted);
    }
  }

  /** Where each group lies in the sorted list. */
  lemma GroupAt(secs: seq<Section>, i: nat)
    requires i < |SortByGroup(secs)|
    ensures var n0, n1, n2 := |Of(secs, 0)|, |Of(secs, 1)|, |Of(secs, 2)|;
            Group(SortByGroup(secs)[i].kind) ==
            if i < n0 then 0 else if i < n0 + n1 then 1 else if i < n0 + n1 + n2 then 2 else 3
  {
    var n0, n1, n2 := |Of(secs, 0)|, |Of(secs, 1)|, |Of(secs, 2)|;
    var (g, k) := if i < n0 then (0, i) else if i < n0 + n1 then (1, i - n0)
                else if i < n0 + n1 + n2 then (2, i - n0 - n1) else (3, i - n0 - n1 - n2);
    assert SortByGroup(secs)[i] == Of(secs, g)[k];
    OfHas(secs, g);
  }

  // ------------------------------------------------------------------------ the layout

  /** One section's place. */
  ghost predicate Placed(s: Section, base: nat, lo: nat, hi: nat) {
    && lo <= s.offset && s.End() <= hi
    && s.addralign > 0 && s.offset % s.addralign == 0
    && s.addr == if s.IsAlloc() then base + s.offset else 0
  }

  /** A page boundary lies between two sections of different segments. */
  ghost predicate Apart(a: Section, b: Section) {
    && a.End() <= b.offset
    && (Group(a.kind) != Group(b.kind) && b.IsAlloc() ==> PageUp(a.End()) <= PageDown(b.offset))
  }

  ghost predicate LaidOut(secs: seq<Section>, base: nat, lo: nat, hi: nat) {
    && (forall i :: 0 <= i < |secs| ==> Placed(secs[i], base, lo, hi))
    && (forall i, j :: 0 <= i < j < |secs| ==> Apart(secs[i], secs[j]))
  }

  /** The same section, before and after it gets its place. */
  predicate SameSection(a: Section, b: Section) {
    a.kind == b.kind && a.size == b.size && a.addralign == b.addralign && a.data == b.data
  }

  lemma PagesAround(off: nat, b: nat, o: nat)
    requires off <= b <= o && b % 0x1000 == 0
    ensures PageUp(off) <= PageDown(o)
  {
  }

  /** The next offset, `off` being the cursor: aligned, and on a new page if asked. */
  lemma NextOffset(off: nat, page: nat, align: nat)
    requires page > 0 && page % 0x1000 == 0 && align > 0
    ensures off <= AlignUp(off, align) && AlignUp(off, align) % align == 0
    ensures var o := AlignUp(AlignUp(off, page), align); off <= o && o % align == 0 && PageUp(off) <= PageDown(o)
  {
    AlignUpIs(off, align);
    AlignUpIs(off, page);
    AlignUpIs(AlignUp(off, page), align);
    MultipleOfPages(AlignUp(off, page), page);
    PagesAround(off, AlignUp(off, page), AlignUp(AlignUp(off, page), align));
  }

  /** The group of the section before the next one; 4 if there is none. */
  function LastGroup(secs: seq<Section>): nat {
    if secs == [] then 4 else Group(secs[|secs| - 1].kind)
  }

  lemma StepApart(secs: seq<Section>, base: nat, lo: nat, off: nat, s: Section, i: nat)
    requires LaidOut(secs, base, lo, off) && i < |secs| && off <= s.offset
    requires Group(s.kind) != LastGroup(secs) && s.IsAlloc() ==> PageUp(off) <= PageDown(s.offset)
    ensures Apart(secs[i], s)
  {
    assert Placed(secs[i], base, lo, off);
    if Group(secs[i].kind) != Group(s.kind) && s.IsAlloc() {
      PageMonotone(secs[i].End(), off);
      if LastGroup(secs) == Group(s.kind) {
        var last := secs[|secs| - 1];
        assert Apart(secs[i], last) && Placed(last, base, lo, off);
        PageMonotone(last.offset, s.offset);
      }
    }
  }

  /** Adding the next section keeps the layout. */
  lemma LayoutStep(secs: seq<Section>, base: nat, lo: nat, off: nat, s: Section)
    requires LaidOut(secs, base, lo, off) && lo <= off <= s.offset && s.addralign > 0 && s.offset % s.addralign == 0
    requires Group(s.kind) != LastGroup(secs) && s.IsAlloc() ==> PageUp(off) <= PageDown(s.offset)
    requires s.addr == if s.IsAlloc() then base + s.offset else 0
    ensures LaidOut(secs + [s], base, lo, s.End())
  {
    var all := secs + [s];
    forall i | 0 <= i < |all| ensures Placed(all[i], base, lo, s.End()) {
      assert i < |secs| ==> Placed(secs[i], base, lo, off);
    }
    forall i, j | 0 <= i < j < |all| ensures Apart(all[i], all[j]) {
      if j < |secs| {
        assert Apart(secs[i], secs[j]);
      } else {
        StepApart(secs, base, lo, off, s, i);
      }
    }
  }

  /** Where a layout of these sections from `lo` on ends: each section is aligned, the first
      of a segment to a page as well. */
  function EndOf(secs: seq<Section>, page: nat, lo: nat): nat
    requires page > 0 && forall i :: 0 <= i < |secs| ==> secs[i].addralign > 0
  {
    if secs == [] then lo
    else
      var front, s := secs[..|secs| - 1], secs[|secs| - 1];
      var end := EndOf(front, page, lo);
      var start := if Group(s.kind) != LastGroup(front) && Group(s.kind) < 3 then AlignUp(end, page) else end;
      AlignUp(start, s.addralign) + s.size
  }

  /** What a caller can count on: no section costs more than its size, its alignment and a
      page. */
  lemma {:induction false} EndBound(secs: seq<Section>, page: nat, lo: nat)
    requires page > 0 && forall i :: 0 <= i < |secs| ==> secs[i].addralign > 0
    ensures lo <= EndOf(secs, page, lo) <= lo + Cost(secs, page)
  {
    if secs != [] {
      var front, s := secs[..|secs| - 1], secs[|secs| - 1];
      EndBound(front, page, lo);
      var end := EndOf(front, page, lo);
      AlignUpIs(end, page);
      AlignUpIs(end, s.addralign);
      AlignUpIs(AlignUp(end, page), s.addralign);
    }
  }

  function Cost(secs: seq<Section>, page: nat): nat {
    if secs == [] then 0
    else Cost(secs[..|secs| - 1], page) + secs[|secs| - 1].size + secs[|secs| - 1].addralign + page
  }

  /** Step 2 of `ShdrManager::layout`: gives every section its offset and address. */
  method AssignOffsets(secs: seq<Section>, layout: ElfLayout) returns (out: seq<Section>)
    requires layout.pageSize > 0 && layout.pageSize % 0x1000 == 0
    requires forall i :: 0 <= i < |secs| ==> secs[i].addralign > 0
    modifies layout
    ensures |out| == |secs| && forall i :: 0 <= i < |secs| ==> SameSection(secs[i], out[i])
    ensures old(layout.fileOff) <= layout.fileOff
    ensures LaidOut(out, layout.baseAddr, old(layout.fileOff), layout.fileOff)
    ensures layout.fileOff == EndOf(secs, layout.pageSize, old(layout.fileOff))
  {
    out := [];
    var last: nat := 4;
    ghost var lo := layout.fileOff;
    for i := 0 to |secs|
      invariant |out| == i && lo <= layout.fileOff
      invariant forall k :: 0 <= k < i ==> SameSection(secs[k], out[k])
      invariant last == LastGroup(out)
      invariant LaidOut(out, layout.baseAddr, lo, layout.fileOff)
      invariant last == LastGroup(secs[..i]) && layout.fileOff == EndOf(secs[..i], layout.pageSize, lo)
    {
      assert secs[..i + 1][..i] == secs[..i];
      ghost var before := layout.fileOff;
      NextOffset(before, layout.pageSize, secs[i].addralign);
      var g := Group(secs[i].kind);
      if g != last && g < 3 {
        layout.AlignToPage();
      }
      last := g;
      var off, vaddr := layout.AddSection(secs[i].size, secs[i].addralign);
      var s := secs[i].(offset := off, addr := if g < 3 then vaddr else 0);
      LayoutStep(out, layout.baseAddr, lo, before, s);
      out := out + [s];
    }
    assert secs[..|secs|] == secs;
  }
}
