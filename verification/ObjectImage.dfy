/** Loading and linking a relocatable object (src/image/builder.rs, src/relocation/static.rs),
    and what a reference to one of its own symbols becomes. */
module ObjectImage {
  import opened Words
  import opened Pages
  import opened Segments
  import opened SectionLayout
  import opened ObjectLayout
  import opened PltGot
  import opened StaticLink
  import opened Symbols
  import opened GnuIndex
  import opened SymbolSearch
  import opened ObjectTables
  import opened ObjectBuild
  import opened ObjectLink
  import opened ObjectFile

  // ------------------------------------------------------------------ the symbol search

  /** What the object's symbol search consults besides its own tables. */
  datatype World = World(hs: Hashes, cb: Callbacks, scope: seq<Lib>)

  predicate HasTables(own: seq<Shdr>) {
    LastSymtab(own).Some? && own[LastSymtab(own).value].sh_link < |own|
  }

  /** The tables that the search of a built object reads. */
  function FinderOf(w: World, base: u64, own: seq<Shdr>): Finder
    requires HasTables(own)
  {
    var s := own[LastSymtab(own).value];
    var names := own[s.sh_link];
    Finder(w.hs, w.cb, w.scope, base, s.sh_addr, RowCount(s), names.sh_addr, names.sh_size)
  }

  lemma {:induction false} SameSymtab(shdrs: seq<Shdr>, own: seq<Shdr>)
    requires SameButAddr(shdrs, own)
    ensures LastSymtab(own) == LastSymtab(shdrs)
  {
    if |own| > 0 && !IsSymtab(own[|own| - 1]) {
      SameSymtab(shdrs[..|own| - 1], own[..|own| - 1]);
    }
  }

  /** The search in memory `m` as a function of the symbol index. */
  ghost function ResolveIn(f: Finder, m: seq<byte>): nat -> Option<u64>
    requires InMemory(f, |m|) && ValidScope(f.hs, f.scope)
  {
    (i: nat) =>
      if i >= f.nsyms then None
      else
        match SymbolAddr(f.hs, f.cb, Core(f, m), f.scope, i)
        case At(a, _) => Some(a)
        case _ => None
  }

  ghost function BrokenIn(f: Finder, m: seq<byte>): nat -> bool
    requires InMemory(f, |m|) && ValidScope(f.hs, f.scope)
  {
    (i: nat) => i < f.nsyms && SymbolAddr(f.hs, f.cb, Core(f, m), f.scope, i).Broken?
  }

  lemma SearchesThere(env: Env, f: Finder, m: seq<byte>)
    requires InMemory(f, |m|) && ValidScope(f.hs, f.scope)
    requires env.resolve == ResolveIn(f, m) && env.broken == BrokenIn(f, m)
    ensures Searches(env, f, m)
  {
  }

  // --------------------------------------------------------------------------- the run

  datatype LinkStatus = Linked | TooLarge | Unreadable | BadTables | Rejected | Crashed

  /** A run of the linker: the layout, the memory as loaded and as built, the entries that
      the loop reads, the entry it has come to and the state it is in. */
  datatype Run = Run(plan: Plan, loaded: seq<byte>, built: seq<byte>, env: Env, rels: seq<Rela>, k: nat, st: State)

  /** The run has come to the relocation loop. */
  ghost predicate Started(shdrs: seq<Shdr>, file: seq<byte>, os: Os, base: u64, w: World, run: Run) {
    var tables := FileTables(shdrs, file);
    && Ready(shdrs, file, os, run.plan, run.loaded, run.built)
    && SpotsWithin(OwnShdrs(shdrs, run.plan), run.built)
    && run.rels == Flatten(TablesAt(run.built, SpotsOf(OwnShdrs(shdrs, run.plan))))
    && Arranged(shdrs, file, run.plan, run.env, base, run.rels)
    && HasTables(OwnShdrs(shdrs, run.plan))
    && Searches(run.env, FinderOf(w, base, OwnShdrs(shdrs, run.plan)), run.built)
  }

  lemma FinderInMemory(shdrs: seq<Shdr>, file: seq<byte>, os: Os, base: u64, w: World, plan: Plan,
                       loaded: seq<byte>, built: seq<byte>)
    requires Ready(shdrs, file, os, plan, loaded, built)
    ensures LastSymtab(OwnShdrs(shdrs, plan)) == LastSymtab(shdrs) && HasTables(OwnShdrs(shdrs, plan))
    ensures InMemory(FinderOf(w, base, OwnShdrs(shdrs, plan)), |built|)
  {
    var own := OwnShdrs(shdrs, plan);
    SameSymtab(shdrs, own);
    var j := LastSymtab(own).value;
    assert own[j] == shdrs[j].(sh_addr := own[j].sh_addr);
  }

  /** Nothing that the loop reads is written by it. */
  lemma ObjectUndisturbed(shdrs: seq<Shdr>, file: seq<byte>, os: Os, base: u64, w: World, run: Run)
    requires Started(shdrs, file, os, base, w, run)
    ensures var own := OwnShdrs(shdrs, run.plan);
            Undisturbed(run.env, FinderOf(w, base, own), run.built, SpotsOf(own), run.rels)
  {
    var own, env, rels := OwnShdrs(shdrs, run.plan), run.env, run.rels;
    FinderInMemory(shdrs, file, os, base, w, run.plan, run.loaded, run.built);
    var f, j := FinderOf(w, base, own), LastSymtab(own).value;
    assert own[j] == shdrs[j].(sh_addr := own[j].sh_addr);
    SectionClear(shdrs, file, run.plan, env, base, rels, j, 24 * f.nsyms);
    SectionClear(shdrs, file, run.plan, env, base, rels, own[j].sh_link, f.strLen);
    var spots := SpotsOf(own);
    forall t | 0 <= t < |spots| ensures Clear(env, rels, spots[t].at, 24 * spots[t].n) {
      SpotSections(own);
      assert IsSpot(own, spots[t]);
      var i :| 0 <= i < |own| && IsRelocs(own[i]) && spots[t] == Spot(own[i].sh_addr, RowCount(own[i]));
      assert own[i] == shdrs[i].(sh_addr := own[i].sh_addr);
      SectionClear(shdrs, file, run.plan, env, base, rels, i, 24 * RowCount(own[i]));
    }
    SymbolsInRange(shdrs, file, os, base, w, run);
  }

  lemma SymbolsInRange(shdrs: seq<Shdr>, file: seq<byte>, os: Os, base: u64, w: World, run: Run)
    requires Started(shdrs, file, os, base, w, run)
    ensures forall k :: 0 <= k < |run.rels| ==> run.rels[k].sym < FinderOf(w, base, OwnShdrs(shdrs, run.plan)).nsyms
  {
    var own, tables := OwnShdrs(shdrs, run.plan), FileTables(shdrs, file);
    FinderInMemory(shdrs, file, os, base, w, run.plan, run.loaded, run.built);
    var j := LastSymtab(own).value;
    assert own[j] == shdrs[j].(sh_addr := own[j].sh_addr);
    forall k | 0 <= k < |run.rels| ensures run.rels[k].sym < RowCount(own[j]) {
      assert InTarget(shdrs, Entries(tables)[k], Targets(tables)[k]);
    }
  }

  /** Lays out and loads the object. */
  method PlaceAndLoad(shdrs: seq<Shdr>, gotCnt: nat, pltCnt: nat, memory: u64, file: seq<byte>, os: Os)
    returns (status: LinkStatus, mem: array<byte>, out: seq<Shdr>, ghost plan: Plan)
    requires forall i :: 0 <= i < |shdrs| ==> ValidSection(shdrs[i])
    requires forall u :: 0 <= u < 4 ==> !FixupMissed(Members(shdrs, u, false))
    requires PageAligned(memory) && memory + 0x8000_0000 <= 0x1_0000_0000_0000_0000
    ensures fresh(mem) && out == plan.out && LaidOut(shdrs, gotCnt, pltCnt, plan)
    ensures status == LinkStatus.Linked || status == TooLarge || status == Unreadable
    ensures status == TooLarge <==> plan.total > 0x7fff_f000
    ensures status == LinkStatus.Linked ==> AllShown(plan, file, os, mem[..])
    ensures status == Unreadable ==> SomeUnreadable(plan, file, os)
  {
    forall u | 0 <= u < 4 ensures !FixupMissed(Members(WithPltGot(shdrs, gotCnt, pltCnt), u, false)) {
      ContentMembers(shdrs, gotCnt, pltCnt, u);
    }
    var total, segments;
    ghost var slots;
    out, segments, total, slots := LayOut(shdrs, gotCnt, pltCnt);
    plan := Plan(out, slots, segments, total);
    mem := new byte[0];
    status := TooLarge;
    if total <= 0x7fff_f000 {
      mem := new byte[total];
      var ok := LoadObject(out, slots, segments, ElfSegments(memory, 0, total), mem, file, os);
      status := if ok then LinkStatus.Linked else Unreadable;
    }
  }

  /** A segment has to be copied from beyond the end of the file. */
  ghost predicate SomeUnreadable(plan: Plan, file: seq<byte>, os: Os) {
    exists i :: 0 <= i < |plan.segments| && !Readable(plan.segments[i].layout, file, os)
  }

  /** What the builder's success adds. */
  lemma ReadyNow(shdrs: seq<Shdr>, file: seq<byte>, os: Os, plan: Plan, loaded: seq<byte>, built: seq<byte>)
    requires LaidOut(shdrs, GotCount(FileTables(shdrs, file)), PltCount(FileTables(shdrs, file)), plan)
    requires plan.total <= 0x7fff_f000 && AllShown(plan, file, os, loaded)
    requires os.fd ==> forall i :: 0 <= i < |shdrs| && IsRelocs(shdrs[i]) ==> RowsInFile(shdrs[i], file)
    requires Sections(OwnShdrs(shdrs, plan), |loaded|) && Buildable(OwnShdrs(shdrs, plan), loaded)
    requires BuiltTo(OwnShdrs(shdrs, plan), loaded, built, |shdrs|)
    ensures Ready(shdrs, file, os, plan, loaded, built)
  {
    var own := OwnShdrs(shdrs, plan);
    OwnSections(shdrs, GotCount(FileTables(shdrs, file)), PltCount(FileTables(shdrs, file)), plan);
    forall i | 0 <= i < |own| && IsRelocs(own[i]) ensures own[i].sh_entsize != 0 && RowsInFile(own[i], file) {
      assert TableBuildable(own, i, loaded) && own[i] == shdrs[i].(sh_addr := own[i].sh_addr);
      if !os.fd && RowCount(own[i]) > 0 {
        CopiedInFile(plan, file, os, loaded, i);
      }
    }
    SameSymtab(shdrs, own);
    assert TableBuildable(own, LastSymtab(own).value, loaded);
  }

  ghost function EnvFor(n: nat, plan: Plan, base: u64, gotCnt: nat, pltCnt: nat, f: Finder, m: seq<byte>): Env
    requires |plan.out| == n + 2 && InMemory(f, |m|) && ValidScope(f.hs, f.scope)
  {
    Env(base, plan.total, plan.out[n].sh_addr, gotCnt, plan.out[n + 1].sh_addr, pltCnt, PltTemplate(),
        ResolveIn(f, m), BrokenIn(f, m))
  }

  /** A built object is ready for the relocation loop. */
  lemma Start(shdrs: seq<Shdr>, file: seq<byte>, os: Os, base: u64, w: World, plan: Plan,
              loaded: seq<byte>, built: seq<byte>) returns (run: Run)
    requires Ready(shdrs, file, os, plan, loaded, built) && ValidRelocs(shdrs, FileTables(shdrs, file))
    requires ValidScope(w.hs, w.scope) && base + 0x8000_0000 <= 0x1_0000_0000_0000_0000
    ensures run.plan == plan && run.loaded == loaded && run.built == built
    ensures Started(shdrs, file, os, base, w, run) && run.env.Valid()
    ensures Separate(run.env, run.rels) && Counted(run.env, run.rels)
  {
    var own, tables := OwnShdrs(shdrs, plan), FileTables(shdrs, file);
    FinderInMemory(shdrs, file, os, base, w, plan, loaded, built);
    var f := FinderOf(w, base, own);
    var env := EnvFor(|shdrs|, plan, base, GotCount(tables), PltCount(tables), f, built);
    SearchesThere(env, f, built);
    EntriesRebased(shdrs, file, os, plan, loaded, built);
    var rels := Flatten(TablesAt(built, SpotsOf(own)));
    EnvValid(shdrs, GotCount(tables), PltCount(tables), plan, env, base);
    FieldsSeparate(shdrs, file, plan, env, base, rels);
    StillCounted(shdrs, file, plan, env, base, rels);
    run := Run(plan, loaded, built, env, rels, 0, State(built, Tables([], [])));
  }

  /** What is known of the run at its end, for every way it can end. */
  ghost predicate Ended(shdrs: seq<Shdr>, file: seq<byte>, os: Os, base: u64, w: World, run: Run, status: LinkStatus) {
    var tables := FileTables(shdrs, file);
    && LaidOut(shdrs, GotCount(tables), PltCount(tables), run.plan)
    && (status == TooLarge <==> run.plan.total > 0x7fff_f000)
    && (status == Unreadable ==> SomeUnreadable(run.plan, file, os))
    && (status == BadTables ==>
          && AllShown(run.plan, file, os, run.loaded) && Sections(OwnShdrs(shdrs, run.plan), |run.loaded|)
          && !Buildable(OwnShdrs(shdrs, run.plan), run.loaded))
    && (status == LinkStatus.Linked || status == LinkStatus.Rejected || status == LinkStatus.Crashed ==>
          Started(shdrs, file, os, base, w, run))
    && (status == LinkStatus.Linked ==>
          run.k == |run.rels| && StaticLink.Linked(run.env, run.built, run.st, run.rels, run.k))
    && (status == LinkStatus.Rejected ==> StoppedAt(run.env, run.built, run.rels, run.k, run.st, Status.Rejected))
    && (status == LinkStatus.Crashed ==> StoppedAt(run.env, run.built, run.rels, run.k, run.st, Status.Crashed))
  }

  /** The relocation loop over a built object. */
  method LinkBuilt(shdrs: seq<Shdr>, ghost file: seq<byte>, ghost os: Os, memory: u64, w: World, out: seq<Shdr>,
                   spots: seq<Spot>, symtab: nat, mem: array<byte>, ghost run0: Run)
    returns (status: Status, ghost run: Run)
    requires Started(shdrs, file, os, memory, w, run0) && run0.env.Valid()
    requires Separate(run0.env, run0.rels) && Counted(run0.env, run0.rels)
    requires out == run0.plan.out && mem[..] == run0.built
    requires spots == SpotsOf(OwnShdrs(shdrs, run0.plan)) && LastSymtab(OwnShdrs(shdrs, run0.plan)) == Some(symtab)
    modifies mem
    ensures run == run0.(k := run.k, st := run.st)
    ensures status == Done ==>
              && run.k == |run.rels| && StaticLink.Linked(run.env, run.built, run.st, run.rels, run.k)
              && run.st.m == mem[..]
    ensures status != Done ==> StoppedAt(run.env, run.built, run.rels, run.k, run.st, status)
    ensures status == Status.Rejected ==> run.st.m == mem[..]
  {
    var n := |shdrs|;
    var pltgot := new PltGotSection(out[n].sh_addr, out[n + 1].sh_addr);
    pltgot.Rebase(memory);
    var f := FinderOf(w, memory, out[..n]);
    ObjectUndisturbed(shdrs, file, os, memory, w, run0);
    ghost var k, st;
    status, k, st := RelocateAll(run0.env, Place(memory, PltTemplate()), f, pltgot, mem, spots, run0.rels);
    run := if status == Done then run0.(k := |run0.rels|, st := State(mem[..], pltgot.tables))
           else run0.(k := k, st := st);
  }

  /** Builds a loaded object and relocates it. */
  method LinkLoaded(shdrs: seq<Shdr>, ghost file: seq<byte>, ghost os: Os, memory: u64, w: World, out: seq<Shdr>,
                    mem: array<byte>, ghost plan: Plan) returns (status: LinkStatus, ghost run: Run)
    requires LaidOut(shdrs, GotCount(FileTables(shdrs, file)), PltCount(FileTables(shdrs, file)), plan)
    requires out == plan.out && plan.total <= 0x7fff_f000 && AllShown(plan, file, os, mem[..])
    requires ValidRelocs(shdrs, FileTables(shdrs, file))
    requires os.fd ==> forall i :: 0 <= i < |shdrs| && IsRelocs(shdrs[i]) ==> RowsInFile(shdrs[i], file)
    requires memory + 0x8000_0000 <= 0x1_0000_0000_0000_0000 && ValidScope(w.hs, w.scope)
    modifies mem
    ensures status != TooLarge && status != Unreadable && Ended(shdrs, file, os, memory, w, run, status)
    ensures status == LinkStatus.Linked || status == LinkStatus.Rejected ==> mem[..] == run.st.m
  {
    ghost var loaded := mem[..];
    OwnSections(shdrs, GotCount(FileTables(shdrs, file)), PltCount(FileTables(shdrs, file)), plan);
    var ok, spots, symtab := BuildObject(out[..|shdrs|], mem, memory);
    run, status := NoRun(plan, loaded), BadTables;
    if ok {
      ReadyNow(shdrs, file, os, plan, loaded, mem[..]);
      run := Start(shdrs, file, os, memory, w, plan, loaded, mem[..]);
      var s;
      s, run := LinkBuilt(shdrs, file, os, memory, w, out, spots, symtab, mem, run);
      status :=
        match s case Done => LinkStatus.Linked case Rejected => LinkStatus.Rejected case Crashed => LinkStatus.Crashed;
    }
  }

  /** A run that did not come to the relocation loop. */
  ghost function NoRun(plan: Plan, loaded: seq<byte>): Run {
    Run(plan, loaded, [], Env(0, 0, 0, 0, 0, 0, [], i => None, i => false), [], 0, State([], Tables([], [])))
  }

  /** Load and link a relocatable object. `memory` is where its space was reserved. The run
      ends with a linked object or with the step that stopped it; in the first case, and
      when a relocation is rejected, memory is as the run's last state says. */
  method LinkObject(shdrs: seq<Shdr>, memory: u64, file: seq<byte>, os: Os, w: World)
    returns (status: LinkStatus, mem: array<byte>, ghost run: Run)
    requires forall i :: 0 <= i < |shdrs| ==> ValidSection(shdrs[i]) && ValidTable(shdrs[i])
    requires forall u :: 0 <= u < 4 ==> !FixupMissed(Members(shdrs, u, false))
    requires ValidRelocs(shdrs, FileTables(shdrs, file))
    requires os.fd ==> forall i :: 0 <= i < |shdrs| && IsRelocs(shdrs[i]) ==> RowsInFile(shdrs[i], file)
    requires PageAligned(memory) && memory + 0x8000_0000 <= 0x1_0000_0000_0000_0000
    requires ValidScope(w.hs, w.scope)
    ensures Ended(shdrs, file, os, memory, w, run, status)
    ensures status == LinkStatus.Linked || status == LinkStatus.Rejected ==> mem[..] == run.st.m
  {
    var gotCnt, pltCnt := CountNeededEntries(shdrs, file);
    var out;
    ghost var plan;
    status, mem, out, plan := PlaceAndLoad(shdrs, gotCnt, pltCnt, memory, file, os);
    run := NoRun(plan, mem[..]);
    if status == LinkStatus.Linked {
      status, run := LinkLoaded(shdrs, file, os, memory, w, out, mem, plan);
    }
  }

  // ------------------------------------------------------------- what a linked object is

  /** From the loaded to the linked object, nothing changes but relocated fields, GOT and
      PLT, and the offsets and values in the object's own tables. */
  lemma LinkedFrame(shdrs: seq<Shdr>, file: seq<byte>, os: Os, base: u64, w: World, run: Run, b: nat)
    requires Ended(shdrs, file, os, base, w, run, LinkStatus.Linked) && b < |run.loaded|
    ensures |run.st.m| == |run.loaded|
    ensures run.st.m[b] == run.loaded[b] || InTables(run.env, b) ||
            (exists k :: 0 <= k < |run.rels| && InField(run.rels[k], b)) ||
            (exists j :: 0 <= j < |shdrs| && Rewritten(OwnShdrs(shdrs, run.plan)[j], b))
  {
    FramesJoin(run.env, OwnShdrs(shdrs, run.plan), run.loaded, run.built, run.st.m, run.rels, b);
  }

  lemma FramesJoin(env: Env, own: seq<Shdr>, loaded: seq<byte>, built: seq<byte>, m: seq<byte>, rels: seq<Rela>, b: nat)
    requires BuiltTo(own, loaded, built, |own|) && OnlyLinked(env, built, m, rels, |rels|) && b < |loaded|
    ensures |m| == |loaded|
    ensures m[b] == loaded[b] || InTables(env, b) || (exists k :: 0 <= k < |rels| && InField(rels[k], b)) ||
            (exists j :: 0 <= j < |own| && Rewritten(own[j], b))
  {
  }

  /** A row of a loaded section is the row in the file. */
  lemma RowOfFile(t: Shdr, file: seq<byte>, os: Os, m: seq<byte>, i: nat)
    requires t.sh_type != SHT_NOBITS && SectionShows(t, file, os, m) && i < RowCount(t)
    requires t.sh_offset + t.sh_size <= |file|
    ensures m[t.sh_addr + 24 * i..t.sh_addr + 24 * i + 24] == file[t.sh_offset + 24 * i..t.sh_offset + 24 * i + 24]
  {
    var x := m[t.sh_addr + 24 * i..t.sh_addr + 24 * i + 24];
    var y := file[t.sh_offset + 24 * i..t.sh_offset + 24 * i + 24];
    forall k | 0 <= k < 24 ensures x[k] == y[k] {
      assert m[t.sh_addr + 24 * i + k] == ByteAt(file, os, t.sh_offset + 24 * i + k);
    }
  }

  /** The symbol table section. */
  function SymtabOf(own: seq<Shdr>): Shdr
    requires HasTables(own)
  {
    own[LastSymtab(own).value]
  }

  /** Symbol `i` as it was loaded. */
  ghost function LoadedSym(own: seq<Shdr>, m: seq<byte>, i: nat): Sym
    requires HasTables(own) && Sections(own, |m|) && i < RowCount(SymtabOf(own))
  {
    SymAt(m, SymtabOf(own).sh_addr, i)
  }

  lemma LoadedSymbol(shdrs: seq<Shdr>, file: seq<byte>, os: Os, own: seq<Shdr>, loaded: seq<byte>, built: seq<byte>,
                     i: nat)
    requires BuiltFrom(shdrs, file, os, own, loaded, built) && HasTables(own) && i < RowCount(SymtabOf(own))
    ensures var s, t := LoadedSym(own, loaded, i), SymtabOf(own);
            && ValidSymbol(s, |own|) && SymAt(built, t.sh_addr, i) == RebasedSym(s, own)
            && (t.sh_offset + t.sh_size <= |file| ==> s == SymAt(file, t.sh_offset, i))
  {
    var j := LastSymtab(own).value;
    assert TableBuilt(own, j, loaded, built);
    if own[j].sh_offset + own[j].sh_size <= |file| {
      RowOfFile(own[j], file, os, loaded, i);
    }
  }

  /** A symbol with a place in the object: neither a file name nor undefined, and not one
      whose address a resolver chooses. */
  predicate Placed(s: Sym) {
    s.stype != STT_FILE && !s.IsUndef() && s.stype != STT_GNU_IFUNC
  }

  /** The address of the symbol `s` of the file in an object at `base`. */
  function OwnAddress(base: u64, own: seq<Shdr>, s: Sym): u64
    requires Placed(s) && s.shndx < |own|
  {
    Wrap64(base + own[s.shndx].sh_addr + s.value)
  }

  /** What the search answers for a symbol that is not undefined and that `pre_find` does not
      claim: for a local symbol, or one that no library of the scope defines, its own
      address; but in the second case only if its value is not 0. */
  lemma OwnFound(hs: Hashes, cb: Callbacks, core: Lib, scope: seq<Lib>, i: nat)
    requires i < |core.symtab.symbols| && ValidScope(hs, scope)
    ensures var s, name := core.symtab.symbols[i], core.symtab.Name(i);
            Placed(s) && cb.preFind(name).None? ==>
              && (s.IsLocal() || (FirstDefining(hs, scope, name, 0).None? && s.value != 0) ==>
                    SymbolAddr(hs, cb, core, scope, i) == At(Wrap64(core.base + s.value), None))
              && (!s.IsLocal() && FirstDefining(hs, scope, name, 0).None? && s.value == 0 ==>
                    SymbolAddr(hs, cb, core, scope, i) ==
                    if cb.postFind(name).Some? then At(cb.postFind(name).value, None) else Unresolved)
  {
  }

  /** The symbol `s` of the file, number `i`, is found where it is: a local symbol, unless
      `pre_find` claims its name, at its own address; so is a symbol that no library of the
      scope defines, if and only if it is not at offset 0 of the object; there, `post_find`
      decides. */
  ghost predicate FoundWhereItIs(env: Env, base: u64, own: seq<Shdr>, w: World, i: nat, s: Sym, name: Name)
    requires ValidScope(w.hs, w.scope)
  {
    Placed(s) && w.cb.preFind(name).None? ==>
      && s.shndx < |own| && !env.broken(i)
      && (s.IsLocal() ==> env.resolve(i) == Some(OwnAddress(base, own, s)))
      && (!s.IsLocal() && FirstDefining(w.hs, w.scope, name, 0).None? ==>
            env.resolve(i) == if RebasedSym(s, own).value != 0 then Some(OwnAddress(base, own, s))
                              else w.cb.postFind(name))
  }

  lemma AnswerIsOwn(env: Env, own: seq<Shdr>, w: World, core: Lib, i: nat, s: Sym)
    requires i < |core.symtab.symbols| && ValidScope(w.hs, w.scope)
    requires ValidSymbol(s, |own|) && core.symtab.symbols[i] == RebasedSym(s, own)
    requires Answers(env, i, SymbolAddr(w.hs, w.cb, core, w.scope, i))
    ensures FoundWhereItIs(env, core.base, own, w, i, s, core.symtab.Name(i))
  {
    OwnFound(w.hs, w.cb, core, w.scope, i);
    if Placed(s) {
      WrapAdd(own[s.shndx].sh_addr + s.value, core.base);
    }
  }

  lemma OwnSymbol(shdrs: seq<Shdr>, file: seq<byte>, os: Os, base: u64, w: World, run: Run, i: nat)
    requires Started(shdrs, file, os, base, w, run)
    requires i < RowCount(SymtabOf(OwnShdrs(shdrs, run.plan)))
    ensures var own := OwnShdrs(shdrs, run.plan);
            var name := Core(FinderOf(w, base, own), run.built).symtab.Name(i);
            FoundWhereItIs(run.env, base, own, w, i, LoadedSym(own, run.loaded, i), name)
  {
    var own := OwnShdrs(shdrs, run.plan);
    var f := FinderOf(w, base, own);
    LoadedSymbol(shdrs, file, os, own, run.loaded, run.built, i);
    AnswerIsOwn(run.env, own, w, Core(f, run.built), i, LoadedSym(own, run.loaded, i));
  }

  /** The search at work on the first symbol of an object: it is not found. */
  lemma FirstSymbolLost(hs: Hashes, base: u64)
    ensures var syms := [Sym(0, STB_LOCAL, 0, 0, 0, 0), Sym(1, STB_GLOBAL, 2, 1, 0, 8)];
            var core := Lib(0, [], base, SymTab(syms, [0, 0x66, 0]), Custom(_ => None), []);
            SymbolAddr(hs, Callbacks(_ => None, _ => None, a => a), core, [], 1) == Unresolved
  {
  }

  /** A symbol of the object that the search cannot find: global, at offset 0, and known to
      nobody else. */
  ghost predicate Lost(own: seq<Shdr>, w: World, s: Sym, name: Name)
    requires ValidScope(w.hs, w.scope)
  {
    && Placed(s) && !s.IsLocal() && s.shndx < |own| && RebasedSym(s, own).value == 0
    && w.cb.preFind(name).None? && w.cb.postFind(name).None? && FirstDefining(w.hs, w.scope, name, 0).None?
  }

  /** An object with a relocation against such a symbol is never linked. */
  lemma LostStops(shdrs: seq<Shdr>, file: seq<byte>, os: Os, base: u64, w: World, run: Run, k: nat)
    requires Started(shdrs, file, os, base, w, run) && k < |run.rels|
    requires run.rels[k].sym < RowCount(SymtabOf(OwnShdrs(shdrs, run.plan)))
    requires var own, i := OwnShdrs(shdrs, run.plan), run.rels[k].sym;
             Lost(own, w, LoadedSym(own, run.loaded, i), Core(FinderOf(w, base, own), run.built).symtab.Name(i))
    ensures !Ended(shdrs, file, os, base, w, run, LinkStatus.Linked)
  {
    OwnSymbol(shdrs, file, os, base, w, run, run.rels[k].sym);
    NotLinked(run.env, run.built, run.st, run.rels, k);
  }

  lemma NotLinked(env: Env, m0: seq<byte>, st: State, rels: seq<Rela>, k: nat)
    requires k < |rels| && env.resolve(rels[k].sym).None?
    ensures !StaticLink.Linked(env, m0, st, rels, |rels|)
  {
    assert !FieldOk(env, st, rels[k]);
  }

  /** The address of a symbol inside a section is that of its own byte. */
  lemma OwnByte(shdrs: seq<Shdr>, file: seq<byte>, os: Os, base: u64, w: World, run: Run, s: Sym)
    requires Started(shdrs, file, os, base, w, run) && run.env.Valid() && Placed(s)
    requires s.shndx < |shdrs| && s.value < shdrs[s.shndx].sh_size
    ensures var t := run.plan.out[s.shndx];
            && t == shdrs[s.shndx].(sh_addr := t.sh_addr)
            && OwnAddress(base, OwnShdrs(shdrs, run.plan), s) == base + t.sh_addr + s.value
            && t.sh_addr + s.value < |run.loaded|
            && run.loaded[t.sh_addr + s.value] ==
               if t.sh_type == SHT_NOBITS then 0 else ByteAt(file, os, t.sh_offset + s.value)
  {
    var own := OwnShdrs(shdrs, run.plan);
    assert own[s.shndx] == shdrs[s.shndx].(sh_addr := own[s.shndx].sh_addr);
    assert SectionShows(own[s.shndx], file, os, run.loaded);
    WrapSmall(base + own[s.shndx].sh_addr + s.value);
  }

  /** The field of `r`, which names the symbol `s`, holds the symbol's own address and the
      addend, absolute or relative to the field. */
  ghost predicate RefersTo(m: seq<byte>, base: u64, own: seq<Shdr>, r: Rela, s: Sym) {
    && Placed(s) && s.shndx < |own| && r.off + Width(r.rtype) <= |m|
    && (r.rtype == R_X86_64_64 ==> Load(m, r.off, 8) == Wrap64(OwnAddress(base, own, s) + r.addend))
    && (r.rtype == R_X86_64_PC32 ==> Holds32S(m, r.off, OwnAddress(base, own, s) + r.addend - (base + r.off)))
  }

  lemma FieldOfLocal(env: Env, st: State, base: u64, own: seq<Shdr>, w: World, r: Rela, s: Sym, name: Name)
    requires FieldOk(env, st, r) && env.base == base && ValidScope(w.hs, w.scope)
    requires FoundWhereItIs(env, base, own, w, r.sym, s, name)
    ensures Placed(s) && s.IsLocal() && w.cb.preFind(name).None? ==> RefersTo(st.m, base, own, r, s)
  {
  }

  /** In a linked object, references to a local symbol refer to it. */
  lemma LocalReference(shdrs: seq<Shdr>, file: seq<byte>, os: Os, base: u64, w: World, run: Run, k: nat)
    requires Ended(shdrs, file, os, base, w, run, LinkStatus.Linked) && k < |run.rels|
    requires run.rels[k].sym < RowCount(SymtabOf(OwnShdrs(shdrs, run.plan)))
    ensures var own, r := OwnShdrs(shdrs, run.plan), run.rels[k];
            var s, name := LoadedSym(own, run.loaded, r.sym),
                           Core(FinderOf(w, base, own), run.built).symtab.Name(r.sym);
            Placed(s) && s.IsLocal() && w.cb.preFind(name).None? ==> RefersTo(run.st.m, base, own, r, s)
  {
    var own, r := OwnShdrs(shdrs, run.plan), run.rels[k];
    OwnSymbol(shdrs, file, os, base, w, run, r.sym);
    var name := Core(FinderOf(w, base, own), run.built).symtab.Name(r.sym);
    assert FieldOk(run.env, run.st, r);
    FieldOfLocal(run.env, run.st, base, own, w, r, LoadedSym(own, run.loaded, r.sym), name);
  }
}
