/** From an object file to a linked object: counting, layout, loading, building
    (src/image/builder.rs) and relocation, end to end. */
module ObjectFile {
  import opened Words
  import opened Segments
  import opened SectionLayout
  import opened ObjectLayout
  import opened StaticLink
  import opened Symbols
  import opened ObjectTables
  import opened ObjectBuild
  import opened ObjectLink

  // ------------------------------------------------------------- what the file promises

  /** The section that names are read from. */
  function NamesAt(shdrs: seq<Shdr>): Option<nat> {
    match LastSymtab(shdrs)
    case None => None
    case Some(j) => Some(shdrs[j].sh_link)
  }

  /** Sections that are read while the object is being relocated. */
  predicate ReadWhileLinking(shdrs: seq<Shdr>, t: nat)
    requires t < |shdrs|
  {
    IsRelocs(shdrs[t]) || IsSymtab(shdrs[t]) || NamesAt(shdrs) == Some(t)
  }

  /** A relocation stays inside its section, does not rewrite what the loop reads, and
      names a symbol of the table. */
  predicate InTarget(shdrs: seq<Shdr>, r: Rela, t: nat) {
    t < |shdrs| ==>
      && r.off + Width(r.rtype) <= shdrs[t].sh_size && !ReadWhileLinking(shdrs, t)
      && (LastSymtab(shdrs).Some? ==> r.sym < RowCount(shdrs[LastSymtab(shdrs).value]))
  }

  /** What the object file must promise about its relocations; no two fields overlap. */
  ghost predicate ValidRelocs(shdrs: seq<Shdr>, tables: seq<RelocTable>) {
    var rels, targets := Entries(tables), Targets(tables);
    && (forall k :: 0 <= k < |rels| ==> InTarget(shdrs, rels[k], targets[k]))
    && (forall j, k :: 0 <= j < k < |rels| && targets[j] == targets[k] ==>
          Disjoint(rels[j].off, Width(rels[j].rtype), rels[k].off, Width(rels[k].rtype)))
  }

  /** The section lies in the file, as far as it has rows. */
  predicate RowsInFile(s: Shdr, file: seq<byte>) {
    RowCount(s) == 0 || s.sh_offset + s.sh_size <= |file|
  }

  // ------------------------------------------------------------------ layout and load

  /** A layout of the object's sections, with the GOT and the PLT as the last two. */
  datatype Plan = Plan(out: seq<Shdr>, slots: seq<Option<Placement>>, segments: seq<Placement>, total: nat)

  ghost predicate LaidOut(shdrs: seq<Shdr>, gotCnt: nat, pltCnt: nat, plan: Plan) {
    && SameButAddr(WithPltGot(shdrs, gotCnt, pltCnt), plan.out)
    && LayoutOk(plan.out, plan.slots, plan.segments, plan.total)
  }

  /** Memory in which every section shows its contents. */
  ghost predicate AllShown(plan: Plan, file: seq<byte>, os: Os, m: seq<byte>) {
    && |m| == plan.total
    && (forall i :: 0 <= i < |plan.out| && plan.out[i].sh_size > 0 ==> SectionShows(plan.out[i], file, os, m))
    && (forall i :: 0 <= i < |plan.segments| ==> Readable(plan.segments[i].layout, file, os))
  }

  lemma SectionWithin(plan: Plan, i: nat)
    requires LayoutOk(plan.out, plan.slots, plan.segments, plan.total) && i < |plan.out| && plan.out[i].sh_size > 0
    ensures plan.out[i].sh_addr + plan.out[i].sh_size <= plan.total
  {
    assert SectionPlaced(plan.out[i], plan.slots);
  }

  /** The headers of the object itself, as they are after layout. */
  function OwnShdrs(shdrs: seq<Shdr>, plan: Plan): (own: seq<Shdr>)
    requires |plan.out| == |shdrs| + 2
    ensures |own| == |shdrs| && forall i :: 0 <= i < |own| ==> own[i] == plan.out[i]
  {
    plan.out[..|shdrs|]
  }

  lemma OwnSections(shdrs: seq<Shdr>, gotCnt: nat, pltCnt: nat, plan: Plan)
    requires LaidOut(shdrs, gotCnt, pltCnt, plan)
    ensures Sections(OwnShdrs(shdrs, plan), plan.total) && SameButAddr(shdrs, OwnShdrs(shdrs, plan))
  {
    var own, all := OwnShdrs(shdrs, plan), WithPltGot(shdrs, gotCnt, pltCnt);
    forall i | 0 <= i < |own|
      ensures own[i] == shdrs[i].(sh_addr := own[i].sh_addr) && Within(own[i].sh_addr, own[i].sh_size, plan.total)
    {
      assert plan.out[i] == all[i].(sh_addr := plan.out[i].sh_addr) && all[i] == shdrs[i];
      if own[i].sh_size > 0 {
        SectionWithin(plan, i);
      }
    }
  }

  /** GOT and PLT have no file content, so they never disturb the fix-up. */
  lemma ContentMembers(shdrs: seq<Shdr>, gotCnt: nat, pltCnt: nat, u: nat)
    ensures Members(WithPltGot(shdrs, gotCnt, pltCnt), u, false) == Members(shdrs, u, false)
  {
    var all := WithPltGot(shdrs, gotCnt, pltCnt);
    var n := |shdrs|;
    MembersStep(all, n, u, false);
    MembersStep(all, n + 1, u, false);
    assert all[..n + 2] == all && all[..n] == shdrs;
  }

  /** Without a descriptor to map, an object that loads has all its sections in the file. */
  lemma CopiedInFile(plan: Plan, file: seq<byte>, os: Os, m: seq<byte>, i: nat)
    requires LayoutOk(plan.out, plan.slots, plan.segments, plan.total) && AllShown(plan, file, os, m) && !os.fd
    requires i < |plan.out| && plan.out[i].sh_size > 0 && plan.out[i].sh_type != SHT_NOBITS
    ensures plan.out[i].sh_offset + plan.out[i].sh_size <= |file|
  {
    var s := plan.out[i];
    assert SectionPlaced(s, plan.slots);
    var p := plan.slots[FlagsToIdx(s.sh_flags)].value;
    assert p in plan.segments;
    var j :| 0 <= j < |p.layout.maps| && CoveredBy(p.layout.maps[j], s, p.rel);
    assert Readable(p.layout, file, os);
  }

  /** The pre-pass sees exactly the rows that are loaded, unless it cannot read a section
      that has some. */
  lemma SeenIff(s: Shdr, file: seq<byte>, os: Os, m: seq<byte>)
    requires IsRelocs(s) && s.sh_entsize != 0
    requires s.sh_size > 0 ==> SectionShows(s, file, os, m)
    ensures Within(s.sh_addr, 24 * RowCount(s), |m|)
    ensures FileTable(s, file) == Relas(m, s.sh_addr, RowCount(s)) <==> RowsInFile(s, file)
  {
    var n := RowCount(s);
    if n > 0 && s.sh_offset + s.sh_size <= |file| {
      var a, b := m[s.sh_addr..s.sh_addr + 24 * n], file[s.sh_offset..s.sh_offset + 24 * n];
      forall k | 0 <= k < 24 * n ensures a[k] == b[k] {
        assert m[s.sh_addr + k] == ByteAt(file, os, s.sh_offset + k);
      }
      RelasSame(m, file, s.sh_addr, s.sh_offset, n);
    }
  }

  /** An object whose one relocation section, for a call through a stub, ends a byte behind the
      file: the pre-pass counts no stub, but wherever the section is mapped there is an entry
      that asks for one. */
  lemma CutShort(file: seq<byte>, os: Os, addr: nat, m: seq<byte>)
    requires |file| == 23 && file[8] == 4 && file[9] == file[10] == file[11] == 0
    requires SectionShows(CutSection(addr), file, os, m)
    ensures Entries(FileTables([CutSection(0)], file)) == [] && PltSyms([]) == {}
    ensures Within(addr, 24, |m|) && RelaAt(m, addr, 0).rtype == R_X86_64_PLT32
  {
    var s := CutSection(0);
    var tables := FileTables([s], file);
    assert [s][..0] == [] && FileTables([], file) == [];
    assert tables == [RelocTable(0, [])];
    assert tables[..0] == [];
    var row := m[addr..addr + 24];
    forall i | 8 <= i < 12 ensures row[i] == file[i] {
      assert m[addr + i] == ByteAt(file, os, i);
    }
    TypeOf(row);
  }

  function CutSection(addr: nat): Shdr {
    Shdr(SHT_RELA, 0, addr, 0, 24, 0, 0, 8, 24)
  }

  /** The type is the low half of `r_info`. */
  lemma TypeOf(row: seq<byte>)
    requires |row| == 24 && row[8] == 4 && row[9] == row[10] == row[11] == 0
    ensures DecodeRela(row).rtype == 4
  {
    var w := row[8..16];
    var x := FromLittleEndian(w[1..][1..][1..][1..]);
    assert FromLittleEndian(w[1..][1..][1..]) == 256 * x;
    assert FromLittleEndian(w[1..][1..]) == 0x1_0000 * x;
    assert FromLittleEndian(w[1..]) == 0x100_0000 * x;
    assert FromLittleEndian(w) == 4 + 0x1_0000_0000 * x;
    ModUnique(FromLittleEndian(w), 0x1_0000_0000, x, 4);
  }

  // ------------------------------------------------------------------- built entries

  /** The entries `rels'` are `rels`, each moved by the address of its target. */
  ghost predicate MovedList(rels: seq<Rela>, targets: seq<nat>, out: seq<Shdr>, rels': seq<Rela>) {
    && |rels'| == |rels| == |targets|
    && forall k :: 0 <= k < |rels| ==> targets[k] < |out| && rels'[k] == MovedRela(rels[k], out[targets[k]].sh_addr)
  }

  lemma MovedAppend(rels: seq<Rela>, targets: seq<nat>, out: seq<Shdr>, rels': seq<Rela>, t: nat, more: seq<Rela>,
                    more': seq<Rela>)
    requires MovedList(rels, targets, out, rels') && t < |out|
    requires |more'| == |more| && forall i :: 0 <= i < |more| ==> more'[i] == MovedRela(more[i], out[t].sh_addr)
    ensures MovedList(rels + more, targets + seq(|more|, _ => t), out, rels' + more')
  {
  }

  lemma TargetsNext(shdrs: seq<Shdr>, file: seq<byte>, k: nat)
    requires k < |shdrs|
    ensures var s := shdrs[k];
            Targets(FileTables(shdrs[..k + 1], file)) ==
            Targets(FileTables(shdrs[..k], file)) +
            (if IsRelocs(s) then seq(|FileTable(s, file)|, _ => s.sh_info) else [])
  {
    FileTablesNext(shdrs, file, k);
    var before, after, s := FileTables(shdrs[..k], file), FileTables(shdrs[..k + 1], file), shdrs[k];
    if IsRelocs(s) {
      assert after[..|after| - 1] == before;
    } else {
      assert after == before;
    }
  }

  lemma SpotsNext(own: seq<Shdr>, m: seq<byte>, k: nat)
    requires k < |own| && Sections(own, |m|)
    ensures SpotsWithin(own[..k], m) && SpotsWithin(own[..k + 1], m)
    ensures Flatten(TablesAt(m, SpotsOf(own[..k + 1]))) ==
            Flatten(TablesAt(m, SpotsOf(own[..k]))) +
            (if IsRelocs(own[k]) then Relas(m, own[k].sh_addr, RowCount(own[k])) else [])
  {
    SpotsAreWithin(own[..k], m);
    SpotsAreWithin(own[..k + 1], m);
    assert own[..k + 1][..k] == own[..k];
    var before, after := TablesAt(m, SpotsOf(own[..k])), TablesAt(m, SpotsOf(own[..k + 1]));
    if IsRelocs(own[k]) {
      assert after == before + [Relas(m, own[k].sh_addr, RowCount(own[k]))];
      assert after[..|after| - 1] == before;
    } else {
      assert after == before;
    }
  }

  ghost predicate SpotsWithin(own: seq<Shdr>, m: seq<byte>) {
    var spots := SpotsOf(own);
    forall t :: 0 <= t < |spots| ==> Within(spots[t].at, 24 * spots[t].n, |m|)
  }

  /** Every spot is that of a relocation section. */
  ghost predicate IsSpot(own: seq<Shdr>, spot: Spot) {
    exists j :: 0 <= j < |own| && IsRelocs(own[j]) && spot == Spot(own[j].sh_addr, RowCount(own[j]))
  }

  lemma {:induction false} SpotSections(own: seq<Shdr>)
    ensures forall t :: 0 <= t < |SpotsOf(own)| ==> IsSpot(own, SpotsOf(own)[t])
  {
    if |own| > 0 {
      var front := own[..|own| - 1];
      SpotSections(front);
      forall t | 0 <= t < |SpotsOf(own)| ensures IsSpot(own, SpotsOf(own)[t]) {
        if t < |SpotsOf(front)| {
          assert IsSpot(front, SpotsOf(front)[t]);
          var j :| 0 <= j < |front| && IsRelocs(front[j]) &&
                   SpotsOf(front)[t] == Spot(front[j].sh_addr, RowCount(front[j]));
          assert own[j] == front[j];
        } else {
          assert IsRelocs(own[|own| - 1]);
        }
      }
    }
  }

  lemma SpotsAreWithin(own: seq<Shdr>, m: seq<byte>)
    requires forall j :: 0 <= j < |own| ==> Within(own[j].sh_addr, own[j].sh_size, |m|)
    ensures SpotsWithin(own, m)
  {
    SpotSections(own);
    forall t | 0 <= t < |SpotsOf(own)| ensures Within(SpotsOf(own)[t].at, 24 * SpotsOf(own)[t].n, |m|) {
      assert IsSpot(own, SpotsOf(own)[t]);
    }
  }

  /** An object loaded from `file` and then built, whose relocation sections the pre-pass
      could read. */
  ghost predicate BuiltFrom(shdrs: seq<Shdr>, file: seq<byte>, os: Os, own: seq<Shdr>, loaded: seq<byte>,
                            built: seq<byte>)
  {
    && SameButAddr(shdrs, own) && Sections(own, |loaded|) && BuiltTo(own, loaded, built, |own|)
    && (forall i :: 0 <= i < |own| && own[i].sh_size > 0 ==> SectionShows(own[i], file, os, loaded))
    && (forall i :: 0 <= i < |own| && IsRelocs(own[i]) ==> own[i].sh_entsize != 0 && RowsInFile(own[i], file))
  }

  /** The rows of one section in the built object are those the pre-pass saw, moved. */
  lemma RowsMoved(shdrs: seq<Shdr>, file: seq<byte>, os: Os, own: seq<Shdr>, loaded: seq<byte>, built: seq<byte>,
                  k: nat)
    requires BuiltFrom(shdrs, file, os, own, loaded, built) && k < |own| && IsRelocs(own[k])
    ensures Within(own[k].sh_addr, 24 * RowCount(own[k]), |built|) && own[k].sh_info < |own|
    ensures var rows, rows' := FileTable(shdrs[k], file), Relas(built, own[k].sh_addr, RowCount(own[k]));
            |rows'| == |rows| && forall i :: 0 <= i < |rows| ==>
              rows'[i] == MovedRela(rows[i], own[own[k].sh_info].sh_addr)
  {
    assert own[k] == shdrs[k].(sh_addr := own[k].sh_addr);
    SeenIff(own[k], file, os, loaded);
    assert TableBuilt(own, k, loaded, built);
  }

  /** The entries in the built object are those of the file, moved. */
  lemma {:induction false} EntriesMoved(shdrs: seq<Shdr>, file: seq<byte>, os: Os, own: seq<Shdr>, loaded: seq<byte>,
                                        built: seq<byte>, k: nat)
    requires BuiltFrom(shdrs, file, os, own, loaded, built) && k <= |own|
    ensures SpotsWithin(own[..k], built)
    ensures var tables := FileTables(shdrs[..k], file);
            MovedList(Entries(tables), Targets(tables), own, Flatten(TablesAt(built, SpotsOf(own[..k]))))
  {
    if k > 0 {
      EntriesMoved(shdrs, file, os, own, loaded, built, k - 1);
      EntriesStep(shdrs, file, os, own, loaded, built, k - 1);
    }
  }

  lemma EntriesStep(shdrs: seq<Shdr>, file: seq<byte>, os: Os, own: seq<Shdr>, loaded: seq<byte>, built: seq<byte>,
                    k: nat)
    requires BuiltFrom(shdrs, file, os, own, loaded, built) && k < |own| && SpotsWithin(own[..k], built)
    requires var tables := FileTables(shdrs[..k], file);
             MovedList(Entries(tables), Targets(tables), own, Flatten(TablesAt(built, SpotsOf(own[..k]))))
    ensures SpotsWithin(own[..k + 1], built)
    ensures var tables := FileTables(shdrs[..k + 1], file);
            MovedList(Entries(tables), Targets(tables), own, Flatten(TablesAt(built, SpotsOf(own[..k + 1]))))
  {
    var s, tables, moved := own[k], FileTables(shdrs[..k], file), Flatten(TablesAt(built, SpotsOf(own[..k])));
    assert s == shdrs[k].(sh_addr := s.sh_addr);
    FileTablesNext(shdrs, file, k);
    TargetsNext(shdrs, file, k);
    SpotsNext(own, built, k);
    if IsRelocs(s) {
      RowsMoved(shdrs, file, os, own, loaded, built, k);
      MovedAppend(Entries(tables), Targets(tables), own, moved, s.sh_info, FileTable(shdrs[k], file),
                  Relas(built, s.sh_addr, RowCount(s)));
    } else {
      assert Entries(tables) + [] == Entries(tables) && Targets(tables) + [] == Targets(tables) && moved + [] == moved;
    }
  }

  // ------------------------------------------------------------- the link's environment

  function GotCount(tables: seq<RelocTable>): nat {
    |GotSyms(Entries(tables))| + |PltSyms(Entries(tables))|
  }

  function PltCount(tables: seq<RelocTable>): nat {
    |PltSyms(Entries(tables))|
  }

  /** An object of the file `shdrs` laid out, loaded and built, small enough to link. */
  ghost predicate Ready(shdrs: seq<Shdr>, file: seq<byte>, os: Os, plan: Plan, loaded: seq<byte>, built: seq<byte>) {
    var tables := FileTables(shdrs, file);
    && LaidOut(shdrs, GotCount(tables), PltCount(tables), plan) && plan.total <= 0x7fff_f000
    && AllShown(plan, file, os, loaded)
    && BuiltFrom(shdrs, file, os, OwnShdrs(shdrs, plan), loaded, built)
    && LastSymtab(shdrs).Some? && shdrs[LastSymtab(shdrs).value].sh_link < |shdrs|
  }

  /** The offsets of `rels'` are relative to the object. */
  ghost predicate RebasedList(rels: seq<Rela>, targets: seq<nat>, out: seq<Shdr>, rels': seq<Rela>) {
    && |rels'| == |rels| == |targets|
    && forall k :: 0 <= k < |rels| ==>
         targets[k] < |out| && rels'[k] == rels[k].(off := rels[k].off + out[targets[k]].sh_addr)
  }

  /** The entries that the relocation loop reads: offsets in a section do not wrap. */
  lemma EntriesRebased(shdrs: seq<Shdr>, file: seq<byte>, os: Os, plan: Plan, loaded: seq<byte>, built: seq<byte>)
    requires Ready(shdrs, file, os, plan, loaded, built) && ValidRelocs(shdrs, FileTables(shdrs, file))
    ensures SpotsWithin(OwnShdrs(shdrs, plan), built)
    ensures var tables := FileTables(shdrs, file);
            RebasedList(Entries(tables), Targets(tables), OwnShdrs(shdrs, plan),
                        Flatten(TablesAt(built, SpotsOf(OwnShdrs(shdrs, plan)))))
  {
    var own, tables := OwnShdrs(shdrs, plan), FileTables(shdrs, file);
    EntriesMoved(shdrs, file, os, own, loaded, built, |own|);
    assert own[..|own|] == own && shdrs[..|own|] == shdrs;
    var rels, targets, rels' := Entries(tables), Targets(tables), Flatten(TablesAt(built, SpotsOf(own)));
    forall k | 0 <= k < |rels| ensures rels'[k] == rels[k].(off := rels[k].off + own[targets[k]].sh_addr) {
      assert InTarget(shdrs, rels[k], targets[k]) &&
             own[targets[k]] == shdrs[targets[k]].(sh_addr := own[targets[k]].sh_addr);
      OffsetSmall(plan, targets[k], rels[k]);
    }
  }

  /** An offset inside a section does not wrap when the section gets its address. */
  lemma OffsetSmall(plan: Plan, t: nat, r: Rela)
    requires LayoutOk(plan.out, plan.slots, plan.segments, plan.total) && plan.total <= 0x7fff_f000 && t < |plan.out|
    requires r.off + Width(r.rtype) <= plan.out[t].sh_size
    ensures MovedRela(r, plan.out[t].sh_addr) == r.(off := r.off + plan.out[t].sh_addr)
  {
    SectionWithin(plan, t);
    WrapSmall(r.off + plan.out[t].sh_addr);
  }

  lemma CountsKept(rels: seq<Rela>, rels': seq<Rela>)
    requires |rels'| == |rels|
    requires forall k :: 0 <= k < |rels| ==> rels'[k].rtype == rels[k].rtype && rels'[k].sym == rels[k].sym
    ensures GotSyms(rels') == GotSyms(rels) && PltSyms(rels') == PltSyms(rels)
  {
  }

  /** The environment of the link of an object of `n` file sections at `base`. */
  ghost predicate EnvOf(env: Env, n: nat, plan: Plan, base: nat, gotCnt: nat, pltCnt: nat) {
    && |plan.out| == n + 2
    && env.base == base && env.len == plan.total && env.gotCnt == gotCnt && env.pltCnt == pltCnt
    && env.gotOff == plan.out[n].sh_addr && env.pltOff == plan.out[n + 1].sh_addr && env.template == PltTemplate()
  }

  lemma EnvValid(shdrs: seq<Shdr>, gotCnt: nat, pltCnt: nat, plan: Plan, env: Env, base: nat)
    requires LaidOut(shdrs, gotCnt, pltCnt, plan) && EnvOf(env, |shdrs|, plan, base, gotCnt, pltCnt)
    requires base + plan.total < 0x1_0000_0000_0000_0000 && plan.total <= 0x7fff_f000
    ensures env.Valid() && plan.out[|shdrs|].sh_size == 8 * gotCnt && plan.out[|shdrs| + 1].sh_size == 16 * pltCnt
  {
    var n, out := |shdrs|, plan.out;
    var all := WithPltGot(shdrs, gotCnt, pltCnt);
    assert out[n] == all[n].(sh_addr := out[n].sh_addr) && out[n + 1] == all[n + 1].(sh_addr := out[n + 1].sh_addr);
    if gotCnt > 0 {
      SectionWithin(plan, n);
    }
    if pltCnt > 0 {
      SectionWithin(plan, n + 1);
    }
  }

  /** A field inside a section, against the bytes of another section. */
  lemma FieldApart(out: seq<Shdr>, i: nat, j: nat, off: nat, width: nat, off': nat, width': nat)
    requires Apart(out) && i < |out| && j < |out| && i != j
    requires off + width <= out[i].sh_size && off' + width' <= out[j].sh_size
    ensures Disjoint(out[i].sh_addr + off, width, out[j].sh_addr + off', width')
  {
    if width > 0 && width' > 0 {
      if i < j {
        assert Disjoint(out[i].sh_addr, out[i].sh_size, out[j].sh_addr, out[j].sh_size);
      } else {
        assert Disjoint(out[j].sh_addr, out[j].sh_size, out[i].sh_addr, out[i].sh_size);
      }
    }
  }

  /** An environment for the relocations `rels` of a laid-out object. */
  ghost predicate Arranged(shdrs: seq<Shdr>, file: seq<byte>, plan: Plan, env: Env, base: nat, rels: seq<Rela>) {
    var tables := FileTables(shdrs, file);
    && LaidOut(shdrs, GotCount(tables), PltCount(tables), plan)
    && EnvOf(env, |shdrs|, plan, base, GotCount(tables), PltCount(tables))
    && plan.out[|shdrs|].sh_size == 8 * env.gotCnt && plan.out[|shdrs| + 1].sh_size == 16 * env.pltCnt
    && ValidRelocs(shdrs, tables) && RebasedList(Entries(tables), Targets(tables), OwnShdrs(shdrs, plan), rels)
  }

  /** Entry `k` lies in its target, a section that is not read while linking. */
  lemma FieldIn(shdrs: seq<Shdr>, file: seq<byte>, plan: Plan, env: Env, base: nat, rels: seq<Rela>, k: nat)
    requires Arranged(shdrs, file, plan, env, base, rels) && k < |rels|
    ensures var t, r := Targets(FileTables(shdrs, file))[k], Entries(FileTables(shdrs, file))[k];
            && t < |shdrs| && rels[k] == r.(off := r.off + plan.out[t].sh_addr)
            && r.off + Width(r.rtype) <= plan.out[t].sh_size && !ReadWhileLinking(shdrs, t)
  {
    var t, r := Targets(FileTables(shdrs, file))[k], Entries(FileTables(shdrs, file))[k];
    assert InTarget(shdrs, r, t);
    OwnSections(shdrs, GotCount(FileTables(shdrs, file)), PltCount(FileTables(shdrs, file)), plan);
  }

  /** After layout and rebasing, relocation fields are inside the object, clear of the
      GOT and the PLT, and clear of each other. */
  lemma FieldsSeparate(shdrs: seq<Shdr>, file: seq<byte>, plan: Plan, env: Env, base: nat, rels: seq<Rela>)
    requires Arranged(shdrs, file, plan, env, base, rels)
    ensures Separate(env, rels)
  {
    var entries, targets, n := Entries(FileTables(shdrs, file)), Targets(FileTables(shdrs, file)), |shdrs|;
    forall k | 0 <= k < |rels|
      ensures && rels[k].off + Width(rels[k].rtype) <= env.len
              && Disjoint(rels[k].off, Width(rels[k].rtype), env.gotOff, 8 * env.gotCnt)
              && Disjoint(rels[k].off, Width(rels[k].rtype), env.pltOff, 16 * env.pltCnt)
    {
      FieldIn(shdrs, file, plan, env, base, rels, k);
      var t, r := targets[k], entries[k];
      SectionWithin(plan, t);
      FieldApart(plan.out, t, n, r.off, Width(r.rtype), 0, 8 * env.gotCnt);
      FieldApart(plan.out, t, n + 1, r.off, Width(r.rtype), 0, 16 * env.pltCnt);
    }
    forall j, k | 0 <= j < k < |rels|
      ensures Disjoint(rels[j].off, Width(rels[j].rtype), rels[k].off, Width(rels[k].rtype))
    {
      FieldIn(shdrs, file, plan, env, base, rels, j);
      FieldIn(shdrs, file, plan, env, base, rels, k);
      if targets[j] != targets[k] {
        FieldApart(plan.out, targets[j], targets[k], entries[j].off, Width(entries[j].rtype),
                   entries[k].off, Width(entries[k].rtype));
      }
    }
  }

  /** The counts come from the file before layout; rebasing does not change them. */
  lemma StillCounted(shdrs: seq<Shdr>, file: seq<byte>, plan: Plan, env: Env, base: nat, rels: seq<Rela>)
    requires Arranged(shdrs, file, plan, env, base, rels)
    ensures Counted(env, rels)
  {
    CountsKept(Entries(FileTables(shdrs, file)), rels);
  }

  /** A section that is read while linking is not written. */
  lemma SectionClear(shdrs: seq<Shdr>, file: seq<byte>, plan: Plan, env: Env, base: nat, rels: seq<Rela>, j: nat,
                     n: nat)
    requires Arranged(shdrs, file, plan, env, base, rels) && j < |shdrs| && ReadWhileLinking(shdrs, j)
    requires n <= plan.out[j].sh_size
    ensures Clear(env, rels, plan.out[j].sh_addr, n)
  {
    var s := plan.out[j];
    forall b | s.sh_addr <= b < s.sh_addr + n
      ensures !InTables(env, b) && forall k :: 0 <= k < |rels| ==> !InField(rels[k], b)
    {
      FieldApart(plan.out, j, |shdrs|, b - s.sh_addr, 1, 0, 8 * env.gotCnt);
      FieldApart(plan.out, j, |shdrs| + 1, b - s.sh_addr, 1, 0, 16 * env.pltCnt);
      forall k | 0 <= k < |rels| ensures !InField(rels[k], b) {
        FieldIn(shdrs, file, plan, env, base, rels, k);
        var t, r := Targets(FileTables(shdrs, file))[k], Entries(FileTables(shdrs, file))[k];
        FieldApart(plan.out, j, t, b - s.sh_addr, 1, r.off, Width(r.rtype));
      }
    }
  }
}
