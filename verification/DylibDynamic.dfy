/** The `.dynamic` section: the writer's entry list
    (tools/gen-elf/src/dylib/dynamic.rs) and the loader's tag loop (src/elf/dynamic.rs). */
module DylibDynamic {
  import opened Words
  import opened DylibLayout

  const DT_NULL := 0
  const DT_NEEDED := 1
  const DT_PLTRELSZ := 2
  const DT_PLTGOT := 3
  const DT_HASH := 4
  const DT_STRTAB := 5
  const DT_SYMTAB := 6
  const DT_RELA := 7
  const DT_RELASZ := 8
  const DT_RELAENT := 9
  const DT_STRSZ := 10
  const DT_SYMENT := 11
  const DT_INIT := 12
  const DT_FINI := 13
  const DT_REL := 17
  const DT_RELSZ := 18
  const DT_PLTREL := 20
  const DT_JMPREL := 23
  const DT_INIT_ARRAY := 25
  const DT_FINI_ARRAY := 26
  const DT_INIT_ARRAYSZ := 27
  const DT_FINI_ARRAYSZ := 28
  const DT_FLAGS := 30
  const DT_RELRSZ := 35
  const DT_RELR := 36
  const DT_GNU_HASH := 0x6fff_fef5
  const DT_RELACOUNT := 0x6fff_fff9
  const DT_RELCOUNT := 0x6fff_fffa
  const DT_FLAGS_1 := 0x6fff_fffb

  datatype DynEntry = DynEntry(tag: u64, value: u64)

  // ------------------------------------------------------------------ finding a tag

  /** The value of the last of the first `k` entries that carries the tag or its alternative. */
  function Last(es: seq<DynEntry>, k: nat, tag: nat, alt: nat): Option<u64>
    requires k <= |es|
  {
    if k == 0 then None
    else if es[k - 1].tag == tag || es[k - 1].tag == alt then Some(es[k - 1].value)
    else Last(es, k - 1, tag, alt)
  }

  /** The value given to a tag, in any position. */
  function Get(es: seq<DynEntry>, tag: nat): Option<u64> {
    Last(es, |es|, tag, tag)
  }

  /** The first position with the tag, or the length. */
  function Find(es: seq<DynEntry>, tag: nat): (i: nat)
    ensures i <= |es| && (i < |es| ==> es[i].tag == tag) && forall j :: 0 <= j < i ==> es[j].tag != tag
  {
    if es == [] then 0 else if es[0].tag == tag then 0 else 1 + Find(es[1..], tag)
  }

  /** Unique non-null tags, then one DT_NULL. */
  ghost predicate WellFormed(es: seq<DynEntry>) {
    && |es| > 0 && es[|es| - 1].tag == DT_NULL
    && (forall i :: 0 <= i < |es| - 1 ==> es[i].tag != DT_NULL)
    && (forall i, j :: 0 <= i < j < |es| ==> es[i].tag != es[j].tag)
  }

  /** `update_entry`: replaces the tag's value, or inserts it before DT_NULL, or appends. */
  function Update(es: seq<DynEntry>, tag: u64, value: u64): seq<DynEntry> {
    var i := Find(es, tag);
    if i < |es| then es[i := DynEntry(tag, value)]
    else
      var z := Find(es, DT_NULL);
      es[..z] + [DynEntry(tag, value)] + es[z..]
  }

  lemma {:induction false} LastIs(es: seq<DynEntry>, k: nat, tag: nat, i: nat)
    requires i < k <= |es| && es[i].tag == tag && forall j :: i < j < k ==> es[j].tag != tag
    ensures Last(es, k, tag, tag) == Some(es[i].value)
  {
    if i < k - 1 {
      LastIs(es, k - 1, tag, i);
    }
  }

  lemma {:induction false} LastNone(es: seq<DynEntry>, k: nat, tag: nat)
    requires k <= |es| && forall j :: 0 <= j < k ==> es[j].tag != tag
    ensures Last(es, k, tag, tag) == None
  {
    if k > 0 {
      LastNone(es, k - 1, tag);
    }
  }

  predicate HasTag(es: seq<DynEntry>, tag: nat) {
    exists i :: 0 <= i < |es| && es[i].tag == tag
  }

  /** In a well-formed list a tag has one value. */
  lemma GetIs(es: seq<DynEntry>, i: nat)
    requires WellFormed(es) && i < |es|
    ensures Get(es, es[i].tag) == Some(es[i].value)
  {
    LastIs(es, |es|, es[i].tag, i);
  }

  lemma GetNone(es: seq<DynEntry>, tag: nat)
    requires !HasTag(es, tag)
    ensures Get(es, tag) == None
  {
    LastNone(es, |es|, tag);
  }

  lemma ReplaceKeeps(es: seq<DynEntry>, i: nat, value: u64)
    requires WellFormed(es) && i < |es| && es[i].tag != 0
    ensures var es' := es[i := DynEntry(es[i].tag, value)];
            WellFormed(es') && forall j :: 0 <= j < |es| ==> HasTag(es', es[j].tag)
  {
    var es' := es[i := DynEntry(es[i].tag, value)];
    forall j | 0 <= j < |es| ensures HasTag(es', es[j].tag) {
      assert es'[j].tag == es[j].tag;
    }
  }

  lemma InsertKeeps(es: seq<DynEntry>, tag: u64, value: u64)
    requires WellFormed(es) && tag != 0 && !HasTag(es, tag)
    ensures var z := |es| - 1;
            var es' := es[..z] + [DynEntry(tag, value)] + es[z..];
            WellFormed(es') && es'[z] == DynEntry(tag, value) && forall j :: 0 <= j < |es| ==> HasTag(es', es[j].tag)
  {
    var z := |es| - 1;
    var es' := es[..z] + [DynEntry(tag, value)] + es[z..];
    assert es'[z] == DynEntry(tag, value) && es'[z + 1] == es[z];
    forall j | 0 <= j < |es| ensures HasTag(es', es[j].tag) {
      assert es'[if j < z then j else j + 1].tag == es[j].tag;
    }
  }

  /** Updating keeps the list well formed, sets its own tag, leaves every other tag's
      value, and changes the length only if the tag is new. */
  lemma UpdateKeeps(es: seq<DynEntry>, tag: u64, value: u64)
    requires WellFormed(es) && tag != 0
    ensures WellFormed(Update(es, tag, value))
    ensures |Update(es, tag, value)| == |es| + if HasTag(es, tag) then 0 else 1
    ensures forall i :: 0 <= i < |es| ==> HasTag(Update(es, tag, value), es[i].tag)
  {
    var i := Find(es, tag);
    if i < |es| {
      ReplaceKeeps(es, i, value);
    } else {
      InsertKeeps(es, tag, value);
      assert Find(es, DT_NULL) == |es| - 1;
    }
  }

  lemma UpdateGets(es: seq<DynEntry>, tag: u64, value: u64, other: nat)
    requires WellFormed(es) && tag != 0
    ensures Get(Update(es, tag, value), other) == if other == tag then Some(value) else Get(es, other)
  {
    UpdateKeeps(es, tag, value);
    var es' := Update(es, tag, value);
    if other == tag {
      var k := UpdatedAt(es, tag, value);
      GetIs(es', k);
    } else if HasTag(es, other) {
      var j :| 0 <= j < |es| && es[j].tag == other;
      GetIs(es, j);
      var k := if Find(es, tag) < |es| || j < Find(es, DT_NULL) then j else j + 1;
      assert es'[k] == es[j];
      GetIs(es', k);
    } else {
      GetNone(es, other);
      assert forall k :: 0 <= k < |es'| ==> es'[k].tag == tag || HasTag(es, es'[k].tag);
      GetNone(es', other);
    }
  }

  lemma UpdatedAt(es: seq<DynEntry>, tag: u64, value: u64) returns (k: nat)
    ensures k < |Update(es, tag, value)| && Update(es, tag, value)[k] == DynEntry(tag, value)
  {
    k := if Find(es, tag) < |es| then Find(es, tag) else Find(es, DT_NULL);
  }

  // --------------------------------------------------------------------- the writer

  /** What a section contributes to `.dynamic`. */
  function SectionEntries(s: Section): seq<DynEntry> {
    match s.kind
    case DynStr => [DynEntry(DT_STRTAB, Wrap64(s.addr)), DynEntry(DT_STRSZ, Wrap64(s.size))]
    case DynSym => [DynEntry(DT_SYMTAB, Wrap64(s.addr)), DynEntry(DT_SYMENT, 24)]
    case Hash => [DynEntry(DT_HASH, Wrap64(s.addr))]
    case Got => [DynEntry(DT_PLTGOT, Wrap64(s.addr))]
    case RelaDyn => [DynEntry(DT_RELA, Wrap64(s.addr)), DynEntry(DT_RELASZ, Wrap64(s.size)),
                     DynEntry(DT_RELAENT, 24), DynEntry(DT_RELACOUNT, 0)]
    case RelaPlt => [DynEntry(DT_JMPREL, Wrap64(s.addr)), DynEntry(DT_PLTRELSZ, Wrap64(s.size)), DynEntry(DT_PLTREL, 7)]
    case _ => []
  }

  function AllEntries(secs: seq<Section>): seq<DynEntry> {
    if secs == [] then [] else AllEntries(secs[..|secs| - 1]) + SectionEntries(secs[|secs| - 1])
  }

  /** Which kind of section a tag comes from. */
  function Owner(tag: nat): SectionKind {
    if tag == DT_STRTAB || tag == DT_STRSZ then DynStr
    else if tag == DT_SYMTAB || tag == DT_SYMENT then DynSym
    else if tag == DT_HASH then Hash
    else if tag == DT_PLTGOT then Got
    else if tag == DT_RELA || tag == DT_RELASZ || tag == DT_RELAENT || tag == DT_RELACOUNT then RelaDyn
    else if tag == DT_JMPREL || tag == DT_PLTRELSZ || tag == DT_PLTREL then RelaPlt
    else Null
  }

  ghost predicate DistinctTags(es: seq<DynEntry>) {
    && (forall i :: 0 <= i < |es| ==> es[i].tag != DT_NULL)
    && (forall i, j :: 0 <= i < j < |es| ==> es[i].tag != es[j].tag)
  }

  /** No kind that `.dynamic` describes occurs twice. */
  ghost predicate OneOfEach(secs: seq<Section>) {
    forall i, j :: 0 <= i < j < |secs| && SectionEntries(secs[i]) != [] ==> secs[i].kind != secs[j].kind
  }

  lemma SectionTags(s: Section)
    ensures DistinctTags(SectionEntries(s))
    ensures forall i :: 0 <= i < |SectionEntries(s)| ==> Owner(SectionEntries(s)[i].tag) == s.kind
  {
  }

  /** Some section of the list contributes the tag. */
  ghost predicate Owned(secs: seq<Section>, tag: nat) {
    exists j :: 0 <= j < |secs| && secs[j].kind == Owner(tag) && SectionEntries(secs[j]) != []
  }

  lemma OwnedMore(secs: seq<Section>, tag: nat)
    requires secs != [] && Owned(secs[..|secs| - 1], tag)
    ensures Owned(secs, tag)
  {
    var n := |secs| - 1;
    var j :| 0 <= j < n && secs[..n][j].kind == Owner(tag) && SectionEntries(secs[..n][j]) != [];
    assert secs[j] == secs[..n][j];
  }

  lemma {:induction false} AllTags(secs: seq<Section>)
    requires OneOfEach(secs)
    ensures DistinctTags(AllEntries(secs))
    ensures forall i :: 0 <= i < |AllEntries(secs)| ==> Owned(secs, AllEntries(secs)[i].tag)
  {
    if secs != [] {
      var n := |secs| - 1;
      var front, back, all := AllEntries(secs[..n]), SectionEntries(secs[n]), AllEntries(secs);
      AllTags(secs[..n]);
      SectionTags(secs[n]);
      forall i, j | 0 <= i < |front| && 0 <= j < |back| ensures front[i].tag != back[j].tag {
        assert Owned(secs[..n], front[i].tag);
        var k :| 0 <= k < n && secs[..n][k].kind == Owner(front[i].tag) && SectionEntries(secs[..n][k]) != [];
        assert secs[k].kind != secs[n].kind;
      }
      forall i | 0 <= i < |all| ensures Owned(secs, all[i].tag) {
        if i < |front| {
          assert all[i] == front[i];
          OwnedMore(secs, front[i].tag);
        } else {
          assert all[i] == back[i - |front|];
        }
      }
    }
  }

  lemma {:induction false} EntriesFrom(secs: seq<Section>, k: nat, e: DynEntry)
    requires k < |secs| && e in SectionEntries(secs[k])
    ensures e in AllEntries(secs)
  {
    if k < |secs| - 1 {
      EntriesFrom(secs[..|secs| - 1], k, e);
    }
  }

  /** The tags that `patch_dynamic` sets, with their final values. */
  datatype Patch = Patch(strtab: u64, symtab: u64, hash: u64, gotPlt: u64, rela: u64, relaSize: u64,
                         jmprel: u64, pltrelSize: u64, relaCount: u64)

  function Patches(p: Patch): (us: seq<DynEntry>)
    ensures forall i :: 0 <= i < |us| ==> us[i].tag != 0 && Owner(us[i].tag) != Null
  {
    [DynEntry(DT_STRTAB, p.strtab), DynEntry(DT_SYMTAB, p.symtab), DynEntry(DT_HASH, p.hash),
     DynEntry(DT_PLTGOT, p.gotPlt),
     DynEntry(DT_RELA, p.rela), DynEntry(DT_RELASZ, p.relaSize), DynEntry(DT_JMPREL, p.jmprel),
     DynEntry(DT_PLTRELSZ, p.pltrelSize), DynEntry(DT_RELACOUNT, p.relaCount)]
  }

  function UpdateAll(es: seq<DynEntry>, us: seq<DynEntry>): seq<DynEntry> {
    if us == [] then es
    else
      var u := us[|us| - 1];
      Update(UpdateAll(es, us[..|us| - 1]), u.tag, u.value)
  }

  /** Any run of updates keeps the list well formed; each tag ends with the last value
      given to it; and the length stays if all the tags were there. */
  lemma {:induction false} UpdateAllKeeps(es: seq<DynEntry>, us: seq<DynEntry>)
    requires WellFormed(es) && forall i :: 0 <= i < |us| ==> us[i].tag != 0
    ensures WellFormed(UpdateAll(es, us))
    ensures forall i :: 0 <= i < |es| ==> HasTag(UpdateAll(es, us), es[i].tag)
    ensures forall tag :: Get(UpdateAll(es, us), tag) == if Get(us, tag).Some? then Get(us, tag) else Get(es, tag)
    ensures (forall i :: 0 <= i < |us| ==> HasTag(es, us[i].tag)) ==> |UpdateAll(es, us)| == |es|
  {
    if us != [] {
      var n := |us| - 1;
      var u, before := us[n], UpdateAll(es, us[..n]);
      UpdateAllKeeps(es, us[..n]);
      UpdateKeeps(before, u.tag, u.value);
      forall i | 0 <= i < |es| ensures HasTag(UpdateAll(es, us), es[i].tag) {
        assert HasTag(before, es[i].tag);
        var k :| 0 <= k < |before| && before[k].tag == es[i].tag;
        assert HasTag(Update(before, u.tag, u.value), before[k].tag);
      }
      forall tag
        ensures Get(UpdateAll(es, us), tag) == if Get(us, tag).Some? then Get(us, tag) else Get(es, tag)
      {
        UpdateGets(before, u.tag, u.value, tag);
        LastPrefix(us, n, tag);
      }
      if HasTag(es, u.tag) {
        var i :| 0 <= i < |es| && es[i].tag == u.tag;
        assert HasTag(before, es[i].tag);
      }
    }
  }

  lemma LastPrefix(es: seq<DynEntry>, k: nat, tag: nat)
    requires k <= |es|
    ensures Last(es[..k], k, tag, tag) == Last(es, k, tag, tag)
  {
    LastSame(es[..k], es, k, tag, tag);
  }

  lemma {:induction false} LastSame(a: seq<DynEntry>, b: seq<DynEntry>, k: nat, tag: nat, alt: nat)
    requires k <= |a| && k <= |b| && a[..k] == b[..k]
    ensures Last(a, k, tag, alt) == Last(b, k, tag, alt)
  {
    if k > 0 {
      assert a[..k][k - 1] == b[..k][k - 1];
      assert a[..k - 1] == a[..k][..k - 1] == b[..k - 1];
      LastSame(a, b, k - 1, tag, alt);
    }
  }

  class DynamicWriter {
    var entries: seq<DynEntry>

    /** `init_from_sections`: what each section contributes, then DT_NULL. */
    constructor (secs: seq<Section>)
      ensures entries == AllEntries(secs) + [DynEntry(DT_NULL, 0)]
      ensures OneOfEach(secs) ==> WellFormed(entries)
    {
      entries := [];
      new;
      for i := 0 to |secs|
        invariant entries == AllEntries(secs[..i])
      {
        assert secs[..i + 1][..i] == secs[..i];
        entries := entries + SectionEntries(secs[i]);
      }
      assert secs[..|secs|] == secs;
      if OneOfEach(secs) {
        AllTags(secs);
      }
      entries := entries + [DynEntry(DT_NULL, 0)];
    }

    method UpdateEntry(tag: u64, value: u64)
      modifies this
      ensures entries == Update(old(entries), tag, value)
    {
      var i := Find(entries, tag);
      if i < |entries| {
        entries := entries[i := DynEntry(tag, value)];
      } else {
        var z := Find(entries, DT_NULL);
        entries := entries[..z] + [DynEntry(tag, value)] + entries[z..];
      }
    }

    /** `patch_dynamic`, for an architecture with addends in the relocations. */
    method PatchDynamic(p: Patch)
      requires WellFormed(entries)
      modifies this
      ensures WellFormed(entries) && (KnownTags(old(entries)) ==> KnownTags(entries))
      ensures forall tag :: Get(entries, tag) ==
                if Get(Patches(p), tag).Some? then Get(Patches(p), tag) else Get(old(entries), tag)
      ensures (forall i :: 0 <= i < |Patches(p)| ==> HasTag(old(entries), Patches(p)[i].tag)) ==>
                |entries| == |old(entries)|
    {
      ghost var us := Patches(p);
      var todo := Patches(p);
      for i := 0 to |todo|
        invariant entries == UpdateAll(old(entries), us[..i])
      {
        assert us[..i + 1][..i] == us[..i];
        UpdateEntry(todo[i].tag, todo[i].value);
      }
      assert us[..|us|] == us;
      UpdateAllKeeps(old(entries), us);
      if KnownTags(old(entries)) {
        UpdateAllTags(old(entries), us);
      }
    }
  }

  // --------------------------------------------------------------- which tags there are

  /** Every tag is DT_NULL or comes from a section. */
  ghost predicate KnownTags(es: seq<DynEntry>) {
    forall i :: 0 <= i < |es| ==> es[i].tag == DT_NULL || Owner(es[i].tag) != Null
  }

  lemma InitialTags(secs: seq<Section>)
    requires OneOfEach(secs)
    ensures KnownTags(AllEntries(secs) + [DynEntry(DT_NULL, 0)])
  {
    AllTags(secs);
    var es := AllEntries(secs) + [DynEntry(DT_NULL, 0)];
    forall i | 0 <= i < |es| ensures es[i].tag == DT_NULL || Owner(es[i].tag) != Null {
      if i < |es| - 1 {
        assert es[i] == AllEntries(secs)[i] && Owned(secs, es[i].tag);
      }
    }
  }

  lemma UpdateTags(es: seq<DynEntry>, tag: u64, value: u64)
    requires KnownTags(es) && Owner(tag) != Null
    ensures KnownTags(Update(es, tag, value))
  {
  }

  lemma {:induction false} UpdateAllTags(es: seq<DynEntry>, us: seq<DynEntry>)
    requires KnownTags(es) && forall i :: 0 <= i < |us| ==> Owner(us[i].tag) != Null
    ensures KnownTags(UpdateAll(es, us))
  {
    if us != [] {
      UpdateAllTags(es, us[..|us| - 1]);
      UpdateTags(UpdateAll(es, us[..|us| - 1]), us[|us| - 1].tag, us[|us| - 1].value);
    }
  }
}
