/** The sections of a generated library before the layout (steps 1 to 4 of
    `DylibWriter::write`, tools/gen-elf/src/dylib/mod.rs), and the `.dynamic` entries they
    give rise to.

    Section bytes are kept in an allocator; a section refers to its bytes by number. */
module DylibSections {
  import opened Words
  import opened DylibLayout
  import opened DylibHeaders
  import opened DylibFile
  import opened DylibDynamic

  const DYNSYM := 0
  const DYNSTR := 1
  const HASH := 2
  const RELA_DYN := 3
  const RELA_PLT := 4
  const GOT := 5
  const GOT_PLT := 6
  const DATA := 7
  const TEXT := 8
  const PLT := 9
  const TLS := 10
  const DYNAMIC := 11
  const SHSTRTAB := 12

  function Fresh(kind: SectionKind, align: nat, data: nat, sizes: seq<nat>): Section
    requires data < |sizes|
  {
    Section(kind, 0, 0, sizes[data], align, data)
  }

  function Front(sizes: seq<nat>): seq<Section>
    requires |sizes| == 13
  {
    [Fresh(Text, 16, TEXT, sizes), Fresh(Plt, 16, PLT, sizes), Fresh(Data, 8, DATA, sizes)]
    + if sizes[TLS] > 0 then [Fresh(Tls, 8, TLS, sizes)] else []
  }

  function Back(sizes: seq<nat>): seq<Section>
    requires |sizes| == 13
  {
    [Fresh(DynStr, 1, DYNSTR, sizes), Fresh(DynSym, 8, DYNSYM, sizes), Fresh(Hash, 4, HASH, sizes),
     Fresh(RelaDyn, 8, RELA_DYN, sizes), Fresh(RelaPlt, 8, RELA_PLT, sizes), Fresh(Got, 8, GOT, sizes),
     Fresh(GotPlt, 8, GOT_PLT, sizes)]
  }

  /** The sections that `.dynamic` describes; an empty TLS block has none. */
  function Described(sizes: seq<nat>): seq<Section>
    requires |sizes| == 13
  {
    Front(sizes) + Back(sizes)
  }

  function AllSections(sizes: seq<nat>): seq<Section>
    requires |sizes| == 13
  {
    Described(sizes) + [Fresh(Dynamic, 8, DYNAMIC, sizes), Fresh(ShStrTab, 1, SHSTRTAB, sizes)]
  }

  /** The place of a kind in the list. */
  function Rank(k: SectionKind): nat {
    match k
    case Text => 0
    case Plt => 1
    case Data => 2
    case Tls => 3
    case DynStr => 4
    case DynSym => 5
    case Hash => 6
    case RelaDyn => 7
    case RelaPlt => 8
    case Got => 9
    case GotPlt => 10
    case Dynamic => 11
    case ShStrTab => 12
    case Null => 13
  }

  ghost predicate Ranked(secs: seq<Section>) {
    forall i, j :: 0 <= i < j < |secs| ==> Rank(secs[i].kind) < Rank(secs[j].kind)
  }

  lemma RankedJoin(a: seq<Section>, b: seq<Section>, r: nat)
    requires Ranked(a) && Ranked(b)
    requires forall i :: 0 <= i < |a| ==> Rank(a[i].kind) < r
    requires forall i :: 0 <= i < |b| ==> r <= Rank(b[i].kind)
    ensures Ranked(a + b)
  {
  }

  /** No kind occurs twice. */
  lemma SectionsRanked(sizes: seq<nat>)
    requires |sizes| == 13
    ensures Ranked(Described(sizes)) && Ranked(AllSections(sizes)) && OneOfEach(Described(sizes))
  {
    RankedJoin(Front(sizes), Back(sizes), 4);
    RankedJoin(Described(sizes), [Fresh(Dynamic, 8, DYNAMIC, sizes), Fresh(ShStrTab, 1, SHSTRTAB, sizes)], 11);
  }

  /** Every section names its own bytes, and asks for an alignment. */
  ghost predicate Numbered(s: Section, sizes: seq<nat>) {
    s.data < |sizes| && s.size == sizes[s.data] && s.addralign > 0
  }

  lemma SectionsNumbered(sizes: seq<nat>)
    requires |sizes| == 13
    ensures forall s :: s in AllSections(sizes) ==> Numbered(s, sizes)
  {
    assert forall s :: s in Front(sizes) ==> Numbered(s, sizes);
    assert forall s :: s in Back(sizes) ==> Numbered(s, sizes);
  }

  // -------------------------------------------------------------- after the layout

  /** `laid` is the layout of the sections. */
  ghost predicate LaidFrom(laid: seq<Section>, secs: seq<Section>) {
    |laid| == |SortByGroup(secs)| && forall i :: 0 <= i < |laid| ==> SameSection(SortByGroup(secs)[i], laid[i])
  }

  /** Every section has a place, and only sections do. */
  lemma LaidHas(laid: seq<Section>, secs: seq<Section>)
    requires LaidFrom(laid, secs)
    ensures forall s :: s in secs ==> exists l :: l in laid && SameSection(s, l)
    ensures forall l :: l in laid ==> exists s :: s in secs && SameSection(s, l)
  {
    SortSorts(secs);
    var sorted := SortByGroup(secs);
    forall s | s in secs ensures exists l :: l in laid && SameSection(s, l) {
      assert s in sorted;
      var i :| 0 <= i < |sorted| && sorted[i] == s;
      assert laid[i] in laid && SameSection(sorted[i], laid[i]);
    }
    forall l | l in laid ensures exists s :: s in secs && SameSection(s, l) {
      var i :| 0 <= i < |laid| && laid[i] == l;
      assert sorted[i] in sorted && SameSection(sorted[i], laid[i]);
    }
  }

  /** The address of the section of a kind; 0 if there is none. */
  function AddrOf(laid: seq<Section>, k: SectionKind): nat {
    match FindKind(laid, k)
    case None => 0
    case Some(s) => s.addr
  }

  /** A section list without repeated kinds has one section of each. */
  lemma OnlyOne(laid: seq<Section>, sizes: seq<nat>, a: Section, b: Section)
    requires |sizes| == 13 && LaidFrom(laid, AllSections(sizes)) && a in laid && b in laid && a.kind == b.kind
    ensures SameSection(a, b)
  {
    var secs := AllSections(sizes);
    LaidHas(laid, secs);
    SectionsRanked(sizes);
    var s :| s in secs && SameSection(s, a);
    var t :| t in secs && SameSection(t, b);
    RankedOne(secs, s, t);
  }

  lemma RankedOne(secs: seq<Section>, s: Section, t: Section)
    requires Ranked(secs) && s in secs && t in secs && s.kind == t.kind
    ensures s == t
  {
    var i :| 0 <= i < |secs| && secs[i] == s;
    var j :| 0 <= j < |secs| && secs[j] == t;
    assert i == j;
  }

  /** The final bytes have the sizes that were laid out. */
  lemma SizesKept(laid: seq<Section>, sizes: seq<nat>, alloc: seq<seq<byte>>)
    requires |sizes| == 13 && LaidFrom(laid, AllSections(sizes))
    requires |alloc| == 13 && forall d :: 0 <= d < 13 ==> |alloc[d]| == sizes[d]
    ensures SizesMatch(laid, alloc)
  {
    LaidHas(laid, AllSections(sizes));
    SectionsNumbered(sizes);
    forall i | 0 <= i < |laid| ensures laid[i].data < |alloc| && |alloc[laid[i].data]| == laid[i].size {
      assert laid[i] in laid;
      var s :| s in AllSections(sizes) && SameSection(s, laid[i]);
      assert Numbered(s, sizes);
    }
  }

  // ----------------------------------------------------------------------- .dynamic

  lemma TagsThere(sizes: seq<nat>, p: Patch)
    requires |sizes| == 13
    ensures forall i :: 0 <= i < |Patches(p)| ==>
              HasTag(AllEntries(Described(sizes)) + [DynEntry(DT_NULL, 0)], Patches(p)[i].tag)
  {
    var secs := Described(sizes);
    var es := AllEntries(secs) + [DynEntry(DT_NULL, 0)];
    var n := |Front(sizes)|;
    assert secs[n] == Back(sizes)[0] && secs[n + 1] == Back(sizes)[1] && secs[n + 2] == Back(sizes)[2];
    assert secs[n + 3] == Back(sizes)[3] && secs[n + 4] == Back(sizes)[4] && secs[n + 5] == Back(sizes)[5];
    TagFrom(secs, n, 0);
    TagFrom(secs, n + 1, 0);
    TagFrom(secs, n + 2, 0);
    TagFrom(secs, n + 5, 0);
    TagFrom(secs, n + 3, 0);
    TagFrom(secs, n + 3, 1);
    TagFrom(secs, n + 4, 0);
    TagFrom(secs, n + 4, 1);
    TagFrom(secs, n + 3, 3);
  }

  lemma TagFrom(secs: seq<Section>, k: nat, i: nat)
    requires k < |secs| && i < |SectionEntries(secs[k])|
    ensures HasTag(AllEntries(secs) + [DynEntry(DT_NULL, 0)], SectionEntries(secs[k])[i].tag)
  {
    var e := SectionEntries(secs[k])[i];
    EntriesFrom(secs, k, e);
    var j :| 0 <= j < |AllEntries(secs)| && AllEntries(secs)[j] == e;
    assert (AllEntries(secs) + [DynEntry(DT_NULL, 0)])[j].tag == e.tag;
  }
}
