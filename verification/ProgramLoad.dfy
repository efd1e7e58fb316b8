/** Loading an executable or shared library from its program headers
    (src/segment/program.rs): the "Program Loading" section of chapter 5 of the
    System V gABI. */
module ProgramLoad {
  import opened Words
  import opened Pages
  import opened Segments

  const PT_LOAD := 1
  const PT_DYNAMIC := 2

  datatype Phdr = Phdr(p_type: nat, p_flags: nat, p_offset: u64, p_vaddr: u64, p_paddr: u64, p_filesz: u64,
                       p_memsz: u64)

  /** `PF_X`, `PF_W`, `PF_R` are bits 0, 1 and 2 of `p_flags`. */
  function SegmentProt(flags: nat): Prot {
    Prot(flags / 4 % 2 == 1, flags / 2 % 2 == 1, flags % 2 == 1)
  }

  function Lo(p: Phdr): int {
    PageDown(p.p_vaddr)
  }

  function Hi(p: Phdr): int {
    PageUp(p.p_vaddr + p.p_memsz)
  }

  /** A loadable header as the gABI asks for it. */
  predicate ValidLoad(p: Phdr) {
    && p.p_filesz <= p.p_memsz
    && p.p_vaddr % 0x1000 == p.p_offset % 0x1000
    && p.p_vaddr + p.p_memsz + PAGE_SIZE <= U64
    && p.p_offset + PAGE_SIZE <= U64
  }

  predicate IsLoad(phdrs: seq<Phdr>, i: int) {
    0 <= i < |phdrs| && phdrs[i].p_type == PT_LOAD
  }

  ghost predicate ValidHeaders(phdrs: seq<Phdr>) {
    forall i :: IsLoad(phdrs, i) ==> ValidLoad(phdrs[i])
  }

  /** No two loadable headers share a page. */
  ghost predicate PageDisjoint(phdrs: seq<Phdr>) {
    forall i, j :: IsLoad(phdrs, i) && IsLoad(phdrs, j) && i < j ==>
      Hi(phdrs[i]) <= Lo(phdrs[j]) || Hi(phdrs[j]) <= Lo(phdrs[i])
  }

  /** `ElfPhdr::create_segment`, with the wrapping subtraction of the release build. */
  function CreateSegment(p: Phdr): Placement {
    var minVaddr := PageDown(p.p_vaddr);
    var maxVaddr := PageUp(Wrap64(p.p_vaddr + p.p_memsz));
    var offset := PageDown(p.p_offset);
    var filesz := p.p_filesz + (p.p_offset - offset);
    Placement(minVaddr,
              Layout(SegmentProt(p.p_flags), Wrap64(maxVaddr - minVaddr), filesz, Wrap64(p.p_memsz - p.p_filesz),
                     [FileMap(0, filesz, offset)]))
  }

  lemma RoundingOfLoad(p: Phdr)
    requires ValidLoad(p)
    ensures PageDown(p.p_vaddr) == Lo(p) && PageUp(Wrap64(p.p_vaddr + p.p_memsz)) == Hi(p)
    ensures PageDown(p.p_offset) == PageDown(p.p_offset)
    ensures PageAligned(Lo(p)) && PageAligned(Hi(p))
    ensures 0 <= Lo(p) <= p.p_vaddr && p.p_vaddr + p.p_memsz <= Hi(p) < p.p_vaddr + p.p_memsz + PAGE_SIZE
    ensures p.p_vaddr - Lo(p) == p.p_offset - PageDown(p.p_offset)
  {
  }

  /** The created segment is exactly the header's page range, with the file bytes
      followed by the zero tail ending at `p_vaddr + p_memsz`. */
  lemma SegmentOfLoad(p: Phdr)
    requires ValidLoad(p)
    ensures var s := CreateSegment(p);
            && ValidLayout(s.layout)
            && s.rel == Lo(p) && s.rel + s.layout.len == Hi(p) && PageAligned(s.rel)
            && s.rel + s.layout.contentSize == p.p_vaddr + p.p_filesz
            && s.rel + s.layout.contentSize + s.layout.zeroSize == p.p_vaddr + p.p_memsz
            && p.p_offset - s.layout.maps[0].offset == p.p_vaddr - s.rel
  {
    RoundingOfLoad(p);
  }

  /** The least start and the greatest end among the loadable headers. */
  ghost predicate Bounds(phdrs: seq<Phdr>, n: int, lo: u64, hi: u64) {
    && (forall i :: IsLoad(phdrs, i) && i < n ==> lo <= phdrs[i].p_vaddr && phdrs[i].p_vaddr + phdrs[i].p_memsz <= hi)
    && (if exists i :: IsLoad(phdrs, i) && i < n then
          && (exists i :: IsLoad(phdrs, i) && phdrs[i].p_vaddr == lo)
          && (exists i :: IsLoad(phdrs, i) && phdrs[i].p_vaddr + phdrs[i].p_memsz == hi)
        else lo == 0xffff_ffff_ffff_ffff && hi == 0)
  }

  method AddressRange(phdrs: seq<Phdr>) returns (lo: u64, hi: u64)
    ensures ValidHeaders(phdrs) ==> Bounds(phdrs, |phdrs|, lo, hi)
    ensures (forall i :: !IsLoad(phdrs, i)) ==> lo == 0xffff_ffff_ffff_ffff && hi == 0
  {
    lo, hi := 0xffff_ffff_ffff_ffff, 0;
    for i := 0 to |phdrs|
      invariant ValidHeaders(phdrs) ==> Bounds(phdrs, i, lo, hi)
      invariant (forall j :: !IsLoad(phdrs, j)) ==> lo == 0xffff_ffff_ffff_ffff && hi == 0
    {
      if phdrs[i].p_type == PT_LOAD {
        assert IsLoad(phdrs, i) && (ValidHeaders(phdrs) ==> ValidLoad(phdrs[i]));
        var end := Wrap64(phdrs[i].p_vaddr + phdrs[i].p_memsz);
        if phdrs[i].p_vaddr < lo {
          lo := phdrs[i].p_vaddr;
        }
        if end > hi {
          hi := end;
        }
        assert ValidHeaders(phdrs) ==> end == phdrs[i].p_vaddr + phdrs[i].p_memsz;
      }
    }
  }

  /** The smallest page range that covers every loadable header. */
  ghost predicate SpaceOf(phdrs: seq<Phdr>, minVaddr: u64, total: u64) {
    && PageAligned(minVaddr)
    && (forall i :: IsLoad(phdrs, i) ==> minVaddr <= Lo(phdrs[i]) && Hi(phdrs[i]) <= minVaddr + total)
    && ((exists i :: IsLoad(phdrs, i)) ==>
          && (exists i :: IsLoad(phdrs, i) && minVaddr == Lo(phdrs[i]))
          && (exists i :: IsLoad(phdrs, i) && minVaddr + total == Hi(phdrs[i])))
  }

  lemma SpaceFromBounds(phdrs: seq<Phdr>, lo: u64, hi: u64)
    requires ValidHeaders(phdrs) && Bounds(phdrs, |phdrs|, lo, hi)
    requires exists i :: IsLoad(phdrs, i)
    ensures 0 <= PageDown(lo) <= PageUp(hi) < 0x1_0000_0000_0000_0000
    ensures SpaceOf(phdrs, PageDown(lo), PageUp(hi) - PageDown(lo))
  {
    PageBounds(lo);
    PageBounds(hi);
    var w :| IsLoad(phdrs, w);
    assert ValidLoad(phdrs[w]);
    PageMonotone(lo, hi);
    var first :| IsLoad(phdrs, first) && phdrs[first].p_vaddr == lo;
    var last :| IsLoad(phdrs, last) && phdrs[last].p_vaddr + phdrs[last].p_memsz == hi;
    assert Lo(phdrs[first]) == PageDown(lo) && Hi(phdrs[last]) == PageUp(hi);
    assert ValidLoad(phdrs[last]);
    forall i | IsLoad(phdrs, i)
      ensures PageDown(lo) <= Lo(phdrs[i]) && Hi(phdrs[i]) <= PageUp(hi)
    {
      PagesWithin(phdrs[i], lo, hi);
    }
  }

  lemma PagesWithin(p: Phdr, lo: u64, hi: u64)
    requires lo <= p.p_vaddr && p.p_vaddr + p.p_memsz <= hi
    ensures PageDown(lo) <= Lo(p) && Hi(p) <= PageUp(hi)
  {
    PageMonotone(lo, p.p_vaddr);
    PageMonotone(p.p_vaddr + p.p_memsz, hi);
  }

  /** Congruence of address and offset is exactly what puts the first file byte at
      `p_vaddr`: the loader never checks it, and an incongruent header is shifted. */
  lemma CongruenceIsExact(p: Phdr)
    requires p.p_vaddr + p.p_memsz + 0x1000 <= 0x1_0000_0000_0000_0000
    ensures var s := CreateSegment(p);
            s.rel + (p.p_offset - s.layout.maps[0].offset) == p.p_vaddr <==>
            p.p_vaddr % 0x1000 == p.p_offset % 0x1000
  {
  }

  /** `parse_segments`: the page range to reserve. With no loadable header the
      wrapping subtraction asks for the one page at the top of the address space. */
  method ParseSegments(phdrs: seq<Phdr>, isDylib: bool) returns (addr: Option<u64>, total: u64, minVaddr: u64)
    ensures addr == if isDylib then None else Some(minVaddr)
    ensures ValidHeaders(phdrs) ==> SpaceOf(phdrs, minVaddr, total)
    ensures (forall i :: !IsLoad(phdrs, i)) ==> total == 0x1000
  {
    var lo, hi := AddressRange(phdrs);
    PageBounds(lo);
    minVaddr := PageDown(lo);
    total := Wrap64(Wrap64(PageUp(hi)) - minVaddr);
    addr := if isDylib then None else Some(minVaddr);
    if ValidHeaders(phdrs) && exists i :: IsLoad(phdrs, i) {
      SpaceFromBounds(phdrs, lo, hi);
      WrapSmall(PageUp(hi));
      WrapSmall(PageUp(hi) - minVaddr);
    }
  }

  /** `from` lists the loadable headers in header order. */
  ghost predicate LoadsOf(phdrs: seq<Phdr>, from: seq<nat>) {
    && (forall k :: 0 <= k < |from| ==> IsLoad(phdrs, from[k]))
    && (forall j, k :: 0 <= j < k < |from| ==> from[j] < from[k])
    && (forall i :: IsLoad(phdrs, i) ==> i in from)
  }

  /** `create_segments`: one segment per loadable header, in header order. */
  method CreateSegments(phdrs: seq<Phdr>) returns (segments: seq<ElfSegment>, ghost from: seq<nat>)
    ensures |segments| == |from| && PairwiseDistinct(segments)
    ensures LoadsOf(phdrs, from)
    ensures forall k :: 0 <= k < |from| ==>
              && IsLoad(phdrs, from[k])
              && fresh(segments[k])
              && segments[k].addr == Relative(CreateSegment(phdrs[from[k]]).rel)
              && segments[k].layout == CreateSegment(phdrs[from[k]]).layout
  {
    segments, from := [], [];
    for i := 0 to |phdrs|
      invariant |segments| == |from| && PairwiseDistinct(segments)
      invariant forall k :: 0 <= k < |from| ==> IsLoad(phdrs, from[k]) && from[k] < i
      invariant forall j, k :: 0 <= j < k < |from| ==> from[j] < from[k]
      invariant forall j :: IsLoad(phdrs, j) && j < i ==> j in from
      invariant forall k :: 0 <= k < |from| ==>
                  && fresh(segments[k])
                  && segments[k].addr == Relative(CreateSegment(phdrs[from[k]]).rel)
                  && segments[k].layout == CreateSegment(phdrs[from[k]]).layout
    {
      if phdrs[i].p_type == PT_LOAD {
        var p := CreateSegment(phdrs[i]);
        var segment := new ElfSegment(p.rel, p.layout);
        segments := segments + [segment];
        from := from + [i];
      }
    }
  }

  /** The header's bytes in memory: the file image, then zeros up to `p_memsz`. */
  predicate Image(p: Phdr, space: ElfSegments, file: seq<byte>, os: Os, m: seq<byte>)
    requires space.offset <= p.p_vaddr && p.p_vaddr - space.offset + p.p_memsz <= |m| && p.p_filesz <= p.p_memsz
  {
    var at := p.p_vaddr - space.offset;
    && (forall k :: at <= k < at + p.p_filesz ==> m[k] == ByteAt(file, os, p.p_offset + (k - at)))
    && ZeroRange(m, at + p.p_filesz, at + p.p_memsz)
  }

  /** Every load is in the space and can be checked there. */
  lemma ImageInSpace(phdrs: seq<Phdr>, space: ElfSegments, i: int)
    requires ValidHeaders(phdrs) && SpaceOf(phdrs, space.offset, space.len) && IsLoad(phdrs, i)
    ensures var p := phdrs[i];
            && p.p_filesz <= p.p_memsz && space.offset <= p.p_vaddr
            && p.p_vaddr - space.offset + p.p_memsz <= space.len
            && Fits(CreateSegment(p), space)
  {
    SegmentOfLoad(phdrs[i]);
    RoundingOfLoad(phdrs[i]);
  }

  lemma LoadedIsImage(p: Phdr, space: ElfSegments, file: seq<byte>, os: Os, m: seq<byte>)
    requires ValidLoad(p) && Fits(CreateSegment(p), space) && |m| == space.len
    requires space.offset <= p.p_vaddr && p.p_vaddr - space.offset + p.p_memsz <= |m|
    requires LoadedAt(CreateSegment(p), space, file, os, m)
    ensures Image(p, space, file, os, m)
  {
    SegmentOfLoad(p);
    var s := CreateSegment(p);
    assert MapLoaded(s.layout.maps[0], file, os, m, s.rel - space.offset);
  }

  ghost predicate Planned(phdrs: seq<Phdr>, from: seq<nat>, plan: seq<Placement>) {
    LoadsOf(phdrs, from) && |plan| == |from| &&
    forall k :: 0 <= k < |from| ==> plan[k] == CreateSegment(phdrs[from[k]])
  }

  lemma PlanValid(phdrs: seq<Phdr>, space: ElfSegments, from: seq<nat>, plan: seq<Placement>)
    requires ValidHeaders(phdrs) && PageDisjoint(phdrs) && space.Valid() && SpaceOf(phdrs, space.offset, space.len)
    requires Planned(phdrs, from, plan)
    ensures ValidPlan(plan, space)
    ensures forall k :: 0 <= k < |from| ==>
              plan[k].rel == Lo(phdrs[from[k]]) && plan[k].rel + plan[k].layout.len == Hi(phdrs[from[k]])
  {
    forall k | 0 <= k < |from|
      ensures Fits(plan[k], space)
      ensures plan[k].rel == Lo(phdrs[from[k]]) && plan[k].rel + plan[k].layout.len == Hi(phdrs[from[k]])
    {
      ImageInSpace(phdrs, space, from[k]);
      SegmentOfLoad(phdrs[from[k]]);
    }
    forall j, k | 0 <= j < k < |plan|
      ensures Disjoint(plan[j].rel, plan[j].layout.len, plan[k].rel, plan[k].layout.len)
    {
      assert IsLoad(phdrs, from[j]) && IsLoad(phdrs, from[k]) && from[j] < from[k];
    }
  }

  /** Header `i` is in the space and its bytes are there. */
  ghost predicate HasImage(phdrs: seq<Phdr>, i: int, space: ElfSegments, file: seq<byte>, os: Os, m: seq<byte>)
    requires IsLoad(phdrs, i)
  {
    && space.offset <= phdrs[i].p_vaddr && phdrs[i].p_vaddr - space.offset + phdrs[i].p_memsz <= |m|
    && phdrs[i].p_filesz <= phdrs[i].p_memsz
    && Image(phdrs[i], space, file, os, m)
  }

  lemma PlanImages(phdrs: seq<Phdr>, space: ElfSegments, from: seq<nat>, plan: seq<Placement>,
                   file: seq<byte>, os: Os, m: seq<byte>)
    requires ValidHeaders(phdrs) && SpaceOf(phdrs, space.offset, space.len) && |m| == space.len
    requires Planned(phdrs, from, plan) && ValidPlan(plan, space)
    requires forall k :: 0 <= k < |plan| ==> LoadedAt(plan[k], space, file, os, m)
    ensures forall i :: IsLoad(phdrs, i) ==> HasImage(phdrs, i, space, file, os, m)
  {
    forall i | IsLoad(phdrs, i) ensures HasImage(phdrs, i, space, file, os, m) {
      var k :| 0 <= k < |from| && from[k] == i;
      ImageInSpace(phdrs, space, i);
      LoadedIsImage(phdrs[i], space, file, os, m);
    }
  }

  lemma PlanReadable(phdrs: seq<Phdr>, from: seq<nat>, plan: seq<Placement>, file: seq<byte>, os: Os)
    requires ValidHeaders(phdrs) && Planned(phdrs, from, plan)
    ensures (forall k :: 0 <= k < |plan| ==> Readable(plan[k].layout, file, os)) <==>
            (os.fd || forall i :: IsLoad(phdrs, i) ==> phdrs[i].p_offset + phdrs[i].p_filesz <= |file|)
  {
    forall k | 0 <= k < |plan|
      ensures Readable(plan[k].layout, file, os) <==>
              (os.fd || phdrs[from[k]].p_offset + phdrs[from[k]].p_filesz <= |file|)
    {
      SegmentOfLoad(phdrs[from[k]]);
    }
    forall i | IsLoad(phdrs, i) ensures exists k :: 0 <= k < |plan| && from[k] == i {
    }
  }

  /** Only bytes in the pages of loadable headers differ. */
  ghost predicate OnlyLoadPages(phdrs: seq<Phdr>, space: ElfSegments, m: seq<byte>, m': seq<byte>) {
    && |m| == |m'|
    && forall k :: 0 <= k < |m| && m'[k] != m[k] ==>
         exists i :: IsLoad(phdrs, i) && Lo(phdrs[i]) <= k + space.offset < Hi(phdrs[i])
  }

  lemma PlanFrame(phdrs: seq<Phdr>, space: ElfSegments, from: seq<nat>, plan: seq<Placement>, m: seq<byte>,
                  m': seq<byte>)
    requires Planned(phdrs, from, plan) && OnlySegments(plan, space, m, m')
    requires forall k :: 0 <= k < |from| ==>
               plan[k].rel == Lo(phdrs[from[k]]) && plan[k].rel + plan[k].layout.len == Hi(phdrs[from[k]])
    ensures OnlyLoadPages(phdrs, space, m, m')
  {
    forall k | 0 <= k < |m| && m'[k] != m[k]
      ensures exists i :: IsLoad(phdrs, i) && Lo(phdrs[i]) <= k + space.offset < Hi(phdrs[i])
    {
      var j :| 0 <= j < |plan| && Covers(plan[j], space, k);
      assert IsLoad(phdrs, from[j]);
    }
  }

  /** Program loading. On success each loadable header's bytes are its file image
      followed by zeros, whichever way the pages were obtained; it succeeds exactly
      when every piece can be mapped or read; and bytes of the space that belong to
      no loadable page are as they were reserved. */
  method LoadProgram(phdrs: seq<Phdr>, space: ElfSegments, mem: array<byte>, file: seq<byte>, os: Os)
    returns (ok: bool)
    requires ValidHeaders(phdrs) && PageDisjoint(phdrs)
    requires space.Valid() && SpaceOf(phdrs, space.offset, space.len) && mem.Length == space.len
    modifies mem
    ensures ok ==> forall i :: IsLoad(phdrs, i) ==> HasImage(phdrs, i, space, file, os, mem[..])
    ensures ok <==> os.fd || forall i :: IsLoad(phdrs, i) ==> phdrs[i].p_offset + phdrs[i].p_filesz <= |file|
    ensures OnlyLoadPages(phdrs, space, old(mem[..]), mem[..])
  {
    var segments, from := CreateSegments(phdrs);
    ghost var plan := seq(|from|, k requires 0 <= k < |from| => CreateSegment(phdrs[from[k]]));
    PlanValid(phdrs, space, from, plan);
    PlanReadable(phdrs, from, plan, file, os);
    assert Matches(segments, plan);
    ok := LoadSegments(segments, plan, space, mem, file, os);
    if ok {
      PlanImages(phdrs, space, from, plan, file, os, mem[..]);
    }
    PlanFrame(phdrs, space, from, plan, old(mem[..]), mem[..]);
  }

  // ------------------------------------------------------------ finding `.dynamic`

  /** The last header of a type. */
  function LastHeader(ps: seq<Phdr>, t: nat): (r: Option<Phdr>)
    ensures r.Some? ==> r.value in ps && r.value.p_type == t
    ensures r.None? ==> forall i :: 0 <= i < |ps| ==> ps[i].p_type != t
  {
    if ps == [] then None
    else if ps[|ps| - 1].p_type == t then Some(ps[|ps| - 1])
    else LastHeader(ps[..|ps| - 1], t)
  }

  /** Where a header's `p_paddr` is in an image at `base`. */
  function PtrOf(d: Option<Phdr>, base: u64): Option<u64> {
    if d.Some? then Some(Wrap64(base + d.value.p_paddr)) else None
  }

  /** `parse_phdr` over all the headers, as far as it is about `.dynamic`: its address is
      taken from `p_paddr`. A null address is unwrapped, which panics. */
  method DynamicPtr(ps: seq<Phdr>, base: u64) returns (ok: bool, ptr: Option<u64>)
    ensures ok <==> forall i :: 0 <= i < |ps| && ps[i].p_type == PT_DYNAMIC ==> Wrap64(base + ps[i].p_paddr) != 0
    ensures ok ==> ptr == PtrOf(LastHeader(ps, PT_DYNAMIC), base)
  {
    ptr := None;
    for i := 0 to |ps|
      invariant forall j :: 0 <= j < i && ps[j].p_type == PT_DYNAMIC ==> Wrap64(base + ps[j].p_paddr) != 0
      invariant ptr == PtrOf(LastHeader(ps[..i], PT_DYNAMIC), base)
    {
      assert ps[..i + 1][..i] == ps[..i];
      if ps[i].p_type == PT_DYNAMIC {
        if Wrap64(base + ps[i].p_paddr) == 0 {
          return false, ptr;
        }
        ptr := Some(Wrap64(base + ps[i].p_paddr));
      }
    }
    assert ps[..|ps|] == ps;
    ok := true;
  }

  /** The gABI puts the section at `p_vaddr` and leaves `p_paddr` unspecified. The pointer is
      the section's address if and only if the two are equal. */
  lemma DynamicFoundIff(ps: seq<Phdr>, base: u64)
    requires LastHeader(ps, PT_DYNAMIC).Some?
    ensures var d := LastHeader(ps, PT_DYNAMIC).value;
            Wrap64(base + d.p_paddr) == Wrap64(base + d.p_vaddr) <==> d.p_paddr == d.p_vaddr
  {
    var d := LastHeader(ps, PT_DYNAMIC).value;
    WrapCancels(base + d.p_vaddr, d.p_paddr - d.p_vaddr);
  }

  /** A file that leaves `p_paddr` at 0: the pointer is the start of the image. */
  lemma DynamicMissed(base: u64)
    ensures var d := Phdr(PT_DYNAMIC, 6, 0x1000, 0x1000, 0, 0x100, 0x100);
            && LastHeader([d], PT_DYNAMIC) == Some(d)
            && Wrap64(base + d.p_paddr) == base && Wrap64(base + d.p_paddr) != Wrap64(base + d.p_vaddr)
  {
    var d := Phdr(PT_DYNAMIC, 6, 0x1000, 0x1000, 0, 0x100, 0x100);
    DynamicFoundIff([d], base);
    WrapSmall(base);
  }
}
