/** The program headers of a laid-out file (`get_phnum` and `write_phdrs`,
    tools/gen-elf/src/dylib/shdr.rs), and why the loader accepts them. */
module DylibHeaders {
  import opened Words
  import opened Pages
  import opened ProgramLoad
  import opened DylibLayout

  const PT_PHDR := 6
  const PT_TLS := 7

  /** Room for the file below the top of the address space. */
  const LIMIT := 0xffff_ffff_ffff_e000

  /** The sections come from a layout, at a page-aligned base, in a file that fits. */
  ghost predicate Fits(secs: seq<Section>, base: nat, lo: nat, hi: nat) {
    LaidOut(secs, base, lo, hi) && ByGroup(secs) && PageAligned(base) && base + hi <= LIMIT
  }

  // -------------------------------------------------------------- first and last

  ghost predicate Ordered(secs: seq<Section>) {
    forall i, j :: 0 <= i < j < |secs| ==> secs[i].End() <= secs[j].offset
  }

  lemma {:induction false} OfOrdered(secs: seq<Section>, g: nat)
    requires Ordered(secs)
    ensures Ordered(Of(secs, g))
  {
    if secs != [] {
      var rest := secs[1..];
      assert Ordered(rest);
      OfOrdered(rest, g);
      OfHas(rest, g);
      var tail := Of(rest, g);
      forall j | 0 <= j < |tail| ensures secs[0].End() <= tail[j].offset {
        assert tail[j] in rest;
        var k :| 0 <= k < |rest| && rest[k] == tail[j];
        assert rest[k] == secs[k + 1];
      }
    }
  }

  /** Every section of a group lies between the start of its first and the end of its
      last. */
  lemma GroupSpan(secs: seq<Section>, g: nat, s: Section)
    requires Ordered(secs) && s in Of(secs, g)
    ensures Of(secs, g)[0].offset <= s.offset && s.End() <= Of(secs, g)[|Of(secs, g)| - 1].End()
  {
    OfOrdered(secs, g);
    var sub := Of(secs, g);
    var k :| 0 <= k < |sub| && sub[k] == s;
    assert k > 0 ==> sub[0].End() <= sub[k].offset;
    assert k < |sub| - 1 ==> sub[k].End() <= sub[|sub| - 1].offset;
  }

  // ----------------------------------------------------------------- the headers

  /** The group's sections have 64-bit places. */
  predicate Words64(secs: seq<Section>, g: nat) {
    Of(secs, g) != [] ==>
      var first, last := Of(secs, g)[0], Of(secs, g)[|Of(secs, g)| - 1];
      && first.offset <= first.addr < 0x1_0000_0000_0000_0000
      && first.offset <= last.End() < 0x1_0000_0000_0000_0000
  }

  /** The load header of a group. The read-only one starts at offset 0 so that it covers
      the ELF header and the program headers. */
  function LoadHeader(secs: seq<Section>, g: nat): Phdr
    requires Of(secs, g) != [] && Words64(secs, g)
  {
    var first, last := Of(secs, g)[0], Of(secs, g)[|Of(secs, g)| - 1];
    var flags := if g == 0 then 4 else if g == 1 then 5 else 6;
    if g == 0 then Phdr(PT_LOAD, flags, 0, first.addr - first.offset, first.addr - first.offset, last.End(), last.End())
    else Phdr(PT_LOAD, flags, first.offset, first.addr, first.addr, last.End() - first.offset,
              last.End() - first.offset)
  }

  /** What a group's sections are, in a file that fits. */
  lemma GroupFacts(secs: seq<Section>, base: nat, lo: nat, hi: nat, g: nat)
    requires Fits(secs, base, lo, hi) && g < 3 && Of(secs, g) != []
    ensures var first, last := Of(secs, g)[0], Of(secs, g)[|Of(secs, g)| - 1];
            && first in secs && last in secs && Group(first.kind) == g && Group(last.kind) == g
            && first.addr == base + first.offset && first.offset <= last.End() && last.End() <= hi
  {
    var sub := Of(secs, g);
    var first, last := sub[0], sub[|sub| - 1];
    OfHas(secs, g);
    assert first in sub && last in sub;
    var i :| 0 <= i < |secs| && secs[i] == first;
    var j :| 0 <= j < |secs| && secs[j] == last;
    assert Placed(secs[i], base, lo, hi) && Placed(secs[j], base, lo, hi);
    LaidOutOrdered(secs, base, lo, hi);
    GroupSpan(secs, g, first);
  }

  lemma LaidOutOrdered(secs: seq<Section>, base: nat, lo: nat, hi: nat)
    requires LaidOut(secs, base, lo, hi)
    ensures Ordered(secs)
  {
    forall i, j | 0 <= i < j < |secs| ensures secs[i].End() <= secs[j].offset {
      assert Apart(secs[i], secs[j]);
    }
  }

  /** The file bytes `offset..offset + size` appear at `base + offset` through `p`. */
  predicate Shows(p: Phdr, base: nat, offset: nat, size: nat) {
    && p.p_type == PT_LOAD && p.p_vaddr == base + p.p_offset
    && p.p_offset <= offset && offset + size <= p.p_offset + p.p_filesz
  }

  /** The load header of a group is valid and shows every section of the group. */
  lemma LoadHeaderGood(secs: seq<Section>, base: nat, lo: nat, hi: nat, g: nat)
    requires Fits(secs, base, lo, hi) && g < 3 && Of(secs, g) != []
    ensures Words64(secs, g)
    ensures ValidLoad(LoadHeader(secs, g)) && LoadHeader(secs, g).p_filesz == LoadHeader(secs, g).p_memsz
    ensures forall s :: s in Of(secs, g) ==> Shows(LoadHeader(secs, g), base, s.offset, s.size)
  {
    GroupFacts(secs, base, lo, hi, g);
    SpanGood(secs, g, base, Of(secs, g)[0], Of(secs, g)[|Of(secs, g)| - 1]);
    LaidOutOrdered(secs, base, lo, hi);
    forall s | s in Of(secs, g) ensures Shows(LoadHeader(secs, g), base, s.offset, s.size) {
      GroupSpan(secs, g, s);
    }
  }

  lemma SpanGood(secs: seq<Section>, g: nat, base: nat, first: Section, last: Section)
    requires g < 3 && Of(secs, g) != [] && first == Of(secs, g)[0] && last == Of(secs, g)[|Of(secs, g)| - 1]
    requires PageAligned(base) && first.addr == base + first.offset && first.offset <= last.End()
    requires base + last.End() <= 0xffff_ffff_ffff_e000
    ensures Words64(secs, g)
    ensures var p := LoadHeader(secs, g);
            ValidLoad(p) && p.p_type == PT_LOAD && p.p_filesz == p.p_memsz &&
            p.p_vaddr == base + p.p_offset && p.p_offset <= first.offset && p.p_offset + p.p_filesz == last.End()
  {
  }

  lemma ShiftedPages(base: nat, x: nat)
    requires PageAligned(base)
    ensures PageUp(base + x) == base + PageUp(x) && PageDown(base + x) == base + PageDown(x)
  {
  }

  lemma GroupOrder(secs: seq<Section>, a: Section, b: Section)
    requires ByGroup(secs) && a in secs && b in secs && Group(a.kind) < Group(b.kind)
    ensures exists i, j :: 0 <= i < j < |secs| && secs[i] == a && secs[j] == b
  {
    var i :| 0 <= i < |secs| && secs[i] == a;
    var j :| 0 <= j < |secs| && secs[j] == b;
    assert i < j;
  }

  /** The load headers of two groups share no page. */
  lemma LoadHeadersApart(secs: seq<Section>, base: nat, lo: nat, hi: nat, g: nat, h: nat)
    requires Fits(secs, base, lo, hi) && g < h < 3 && Of(secs, g) != [] && Of(secs, h) != []
    requires Words64(secs, g) && Words64(secs, h)
    ensures Hi(LoadHeader(secs, g)) <= Lo(LoadHeader(secs, h))
  {
    GroupPages(secs, base, lo, hi, g);
    GroupPages(secs, base, lo, hi, h);
    var last, first := Of(secs, g)[|Of(secs, g)| - 1], Of(secs, h)[0];
    GroupFacts(secs, base, lo, hi, g);
    GroupFacts(secs, base, lo, hi, h);
    GroupOrder(secs, last, first);
    var i, j :| 0 <= i < j < |secs| && secs[i] == last && secs[j] == first;
    assert Apart(secs[i], secs[j]);
  }

  lemma GroupPages(secs: seq<Section>, base: nat, lo: nat, hi: nat, g: nat)
    requires Fits(secs, base, lo, hi) && g < 3 && Of(secs, g) != [] && Words64(secs, g)
    ensures Hi(LoadHeader(secs, g)) == base + PageUp(Of(secs, g)[|Of(secs, g)| - 1].End())
    ensures g > 0 ==> Lo(LoadHeader(secs, g)) == base + PageDown(Of(secs, g)[0].offset)
  {
    GroupFacts(secs, base, lo, hi, g);
    ShiftedPages(base, Of(secs, g)[|Of(secs, g)| - 1].End());
    ShiftedPages(base, Of(secs, g)[0].offset);
  }

  // -------------------------------------------------------------- the whole table

  function LoadOf(secs: seq<Section>, g: nat): seq<Phdr>
    requires Words64(secs, g)
  {
    if Of(secs, g) == [] then [] else [LoadHeader(secs, g)]
  }

  /** The first section of a kind. */
  function FindKind(secs: seq<Section>, k: SectionKind): Option<Section> {
    if secs == [] then None else if secs[0].kind == k then Some(secs[0]) else FindKind(secs[1..], k)
  }

  function Special(secs: seq<Section>, k: SectionKind, ptype: nat, flags: nat): seq<Phdr> {
    match FindKind(secs, k)
    case None => []
    case Some(s) =>
      [Phdr(ptype, flags, Wrap64(s.offset), Wrap64(s.addr), Wrap64(s.addr), Wrap64(s.size), Wrap64(s.size))]
  }

  predicate AllWords64(secs: seq<Section>) {
    Words64(secs, 0) && Words64(secs, 1) && Words64(secs, 2)
  }

  function Loads(secs: seq<Section>): seq<Phdr>
    requires AllWords64(secs)
  {
    LoadOf(secs, 0) + LoadOf(secs, 1) + LoadOf(secs, 2)
  }

  /** PT_DYNAMIC and PT_TLS. */
  function Specials(secs: seq<Section>): seq<Phdr> {
    Special(secs, Dynamic, PT_DYNAMIC, 6) + Special(secs, Tls, PT_TLS, 4)
  }

  function PhdrHeader(secs: seq<Section>): Phdr {
    Phdr(PT_PHDR, 4, 64, 64, 64, Wrap64(56 * PhNum(secs)), Wrap64(56 * PhNum(secs)))
  }

  /** `write_phdrs`: PT_PHDR, the load headers, PT_DYNAMIC and PT_TLS. */
  function ProgramHeaders(secs: seq<Section>): seq<Phdr>
    requires AllWords64(secs)
  {
    [PhdrHeader(secs)] + Loads(secs) + Specials(secs)
  }

  function One(b: bool): nat {
    if b then 1 else 0
  }

  predicate HasGroup(secs: seq<Section>, g: nat) {
    exists s :: s in secs && Group(s.kind) == g
  }

  predicate HasKind(secs: seq<Section>, k: SectionKind) {
    exists s :: s in secs && s.kind == k
  }

  /** `get_phnum`. */
  function PhNum(secs: seq<Section>): nat {
    1 + One(HasGroup(secs, 1)) + One(HasGroup(secs, 0)) + One(HasGroup(secs, 2))
    + One(HasKind(secs, Dynamic)) + One(HasKind(secs, Tls))
  }

  lemma {:induction false} FindKindFinds(secs: seq<Section>, k: SectionKind)
    ensures FindKind(secs, k).Some? <==> HasKind(secs, k)
    ensures FindKind(secs, k).Some? ==> FindKind(secs, k).value in secs && FindKind(secs, k).value.kind == k
  {
    if secs != [] {
      FindKindFinds(secs[1..], k);
      assert secs == [secs[0]] + secs[1..];
    }
  }

  lemma OfSome(secs: seq<Section>, g: nat)
    ensures Of(secs, g) != [] <==> HasGroup(secs, g)
  {
    OfHas(secs, g);
    assert Of(secs, g) != [] ==> Of(secs, g)[0] in Of(secs, g);
  }

  /** As many headers are written as were counted before the layout. */
  lemma CountedHeaders(secs: seq<Section>)
    requires AllWords64(secs)
    ensures |ProgramHeaders(secs)| == PhNum(secs)
  {
    OfSome(secs, 0);
    OfSome(secs, 1);
    OfSome(secs, 2);
    FindKindFinds(secs, Dynamic);
    FindKindFinds(secs, Tls);
  }

  /** Headers with a page boundary between them, in order. */
  ghost predicate InOrder(ps: seq<Phdr>) {
    forall i, j :: 0 <= i < j < |ps| ==> Hi(ps[i]) <= Lo(ps[j])
  }

  lemma LoadsInOrder(secs: seq<Section>, base: nat, lo: nat, hi: nat)
    requires Fits(secs, base, lo, hi) && AllWords64(secs)
    ensures InOrder(Loads(secs))
    ensures forall i :: 0 <= i < |Loads(secs)| ==> Loads(secs)[i].p_type == PT_LOAD && ValidLoad(Loads(secs)[i])
  {
    LoadGood(secs, base, lo, hi, 0);
    LoadGood(secs, base, lo, hi, 1);
    LoadGood(secs, base, lo, hi, 2);
    LoadBefore(secs, base, lo, hi, 0, 1);
    LoadBefore(secs, base, lo, hi, 0, 2);
    LoadBefore(secs, base, lo, hi, 1, 2);
    ThreeInOrder(LoadOf(secs, 0), LoadOf(secs, 1), LoadOf(secs, 2));
  }

  lemma LoadGood(secs: seq<Section>, base: nat, lo: nat, hi: nat, g: nat)
    requires Fits(secs, base, lo, hi) && g < 3 && Words64(secs, g)
    ensures |LoadOf(secs, g)| <= 1 && forall p :: p in LoadOf(secs, g) ==> p.p_type == PT_LOAD && ValidLoad(p)
  {
    if Of(secs, g) != [] {
      LoadHeaderGood(secs, base, lo, hi, g);
    }
  }

  lemma LoadBefore(secs: seq<Section>, base: nat, lo: nat, hi: nat, g: nat, h: nat)
    requires Fits(secs, base, lo, hi) && g < h < 3 && Words64(secs, g) && Words64(secs, h)
    ensures forall p, q :: p in LoadOf(secs, g) && q in LoadOf(secs, h) ==> Hi(p) <= Lo(q)
  {
    if Of(secs, g) != [] && Of(secs, h) != [] {
      LoadHeadersApart(secs, base, lo, hi, g, h);
    }
  }

  lemma ThreeInOrder(a: seq<Phdr>, b: seq<Phdr>, c: seq<Phdr>)
    requires |a| <= 1 && |b| <= 1 && |c| <= 1
    requires forall p, q :: p in a && q in b ==> Hi(p) <= Lo(q)
    requires forall p, q :: p in a && q in c ==> Hi(p) <= Lo(q)
    requires forall p, q :: p in b && q in c ==> Hi(p) <= Lo(q)
    ensures InOrder(a + b + c)
  {
  }

  lemma Middle(first: Phdr, mid: seq<Phdr>, rest: seq<Phdr>)
    requires first.p_type != PT_LOAD && forall i :: 0 <= i < |rest| ==> rest[i].p_type != PT_LOAD
    ensures var ps := [first] + mid + rest;
            && ps[1..1 + |mid|] == mid
            && forall i :: 0 <= i < |ps| && !(1 <= i < 1 + |mid|) ==> ps[i].p_type != PT_LOAD
  {
    var ps := [first] + mid + rest;
    forall i | 0 <= i < |ps| && !(1 <= i < 1 + |mid|) ensures ps[i].p_type != PT_LOAD {
      assert i > 0 ==> ps[i] == rest[i - 1 - |mid|];
    }
  }

  lemma TableShape(secs: seq<Section>)
    requires AllWords64(secs)
    ensures var ps, loads := ProgramHeaders(secs), Loads(secs);
            && 1 + |loads| <= |ps| && ps[1..1 + |loads|] == loads
            && forall i :: 0 <= i < |ps| && !(1 <= i < 1 + |loads|) ==> ps[i].p_type != PT_LOAD
  {
    Middle(PhdrHeader(secs), Loads(secs), Specials(secs));
  }

  lemma WordsFit(secs: seq<Section>, base: nat, lo: nat, hi: nat)
    requires Fits(secs, base, lo, hi)
    ensures AllWords64(secs)
  {
    forall g | 0 <= g < 3 && Of(secs, g) != [] ensures Words64(secs, g) {
      LoadHeaderGood(secs, base, lo, hi, g);
    }
  }

  /** The loader's preconditions hold of the headers the writer emits, and every
      allocatable section is shown by one of them at base plus its file offset. */
  lemma HeadersLoadable(secs: seq<Section>, base: nat, lo: nat, hi: nat)
    requires Fits(secs, base, lo, hi)
    ensures AllWords64(secs)
    ensures ValidHeaders(ProgramHeaders(secs)) && PageDisjoint(ProgramHeaders(secs))
    ensures forall s :: s in secs && s.IsAlloc() ==>
              exists i :: IsLoad(ProgramHeaders(secs), i) && Shows(ProgramHeaders(secs)[i], base, s.offset, s.size)
  {
    WordsFit(secs, base, lo, hi);
    var ps, loads := ProgramHeaders(secs), Loads(secs);
    TableShape(secs);
    LoadsInOrder(secs, base, lo, hi);
    forall i | IsLoad(ps, i) ensures 1 <= i < 1 + |loads| && ps[i] == loads[i - 1] {
      assert ps[1..1 + |loads|][i - 1] == ps[i];
    }
    forall s | s in secs && s.IsAlloc() ensures exists i :: IsLoad(ps, i) && Shows(ps[i], base, s.offset, s.size) {
      var k := LoadShowing(secs, base, lo, hi, s);
      assert ps[1..1 + |loads|][k] == ps[k + 1];
      assert IsLoad(ps, k + 1);
    }
  }

  lemma LoadShowing(secs: seq<Section>, base: nat, lo: nat, hi: nat, s: Section) returns (k: nat)
    requires Fits(secs, base, lo, hi) && AllWords64(secs) && s in secs && s.IsAlloc()
    ensures k < |Loads(secs)| && Shows(Loads(secs)[k], base, s.offset, s.size)
  {
    var g := Group(s.kind);
    OfHas(secs, g);
    LoadHeaderGood(secs, base, lo, hi, g);
    k := if g == 0 then 0 else if g == 1 then |LoadOf(secs, 0)| else |LoadOf(secs, 0)| + |LoadOf(secs, 1)|;
    assert Loads(secs)[k] == LoadHeader(secs, g);
  }

  /** The address range of the program headers, as PT_PHDR gives it, is in a segment. */
  ghost predicate PhdrsCovered(secs: seq<Section>)
    requires AllWords64(secs)
  {
    exists i :: IsLoad(ProgramHeaders(secs), i) && Covered(PhdrHeader(secs), ProgramHeaders(secs)[i])
  }

  predicate Covered(p: Phdr, load: Phdr) {
    load.p_vaddr <= p.p_vaddr && p.p_vaddr + p.p_memsz <= load.p_vaddr + load.p_memsz
  }

  lemma LoadsAboveBase(secs: seq<Section>, base: nat, lo: nat, hi: nat, i: int)
    requires Fits(secs, base, lo, hi) && AllWords64(secs) && IsLoad(ProgramHeaders(secs), i)
    ensures base <= ProgramHeaders(secs)[i].p_vaddr
  {
    TableShape(secs);
    var ps, loads := ProgramHeaders(secs), Loads(secs);
    assert ps[1..1 + |loads|][i - 1] == ps[i];
    var n0, n1 := |LoadOf(secs, 0)|, |LoadOf(secs, 1)|;
    var g := if i - 1 < n0 then 0 else if i - 1 < n0 + n1 then 1 else 2;
    assert ps[i] == LoadHeader(secs, g);
    GroupFacts(secs, base, lo, hi, g);
  }

  /** PT_PHDR is written with address 64, without the base address. The loader takes the
      program headers from there, and that is inside the image exactly when the base
      address is 0. */
  lemma PhdrsCoveredIff(secs: seq<Section>, base: nat, hi: nat)
    requires Fits(secs, base, 64 + 56 * PhNum(secs), hi) && AllWords64(secs) && Of(secs, 0) != []
    ensures PhdrsCovered(secs) <==> base == 0
  {
    var ps, lo := ProgramHeaders(secs), 64 + 56 * PhNum(secs);
    if base == 0 {
      ReadOnlyCovers(secs, lo, hi, PhdrHeader(secs));
      TableShape(secs);
      assert ps[1..1 + |Loads(secs)|][0] == ps[1];
      assert IsLoad(ps, 1) && Covered(PhdrHeader(secs), ps[1]);
    } else if PhdrsCovered(secs) {
      var i :| IsLoad(ps, i) && Covered(PhdrHeader(secs), ps[i]);
      LoadsAboveBase(secs, base, lo, hi, i);
    }
  }

  lemma ReadOnlyCovers(secs: seq<Section>, lo: nat, hi: nat, p: Phdr)
    requires Fits(secs, 0, lo, hi) && AllWords64(secs) && Of(secs, 0) != [] && p.p_vaddr + p.p_memsz <= lo
    ensures |Loads(secs)| > 0 && Loads(secs)[0].p_type == PT_LOAD && Covered(p, Loads(secs)[0])
  {
    GroupFacts(secs, 0, lo, hi, 0);
    var last := Of(secs, 0)[|Of(secs, 0)| - 1];
    var k :| 0 <= k < |secs| && secs[k] == last;
    assert Placed(secs[k], 0, lo, hi);
    assert Loads(secs)[0] == LoadHeader(secs, 0);
  }
}
