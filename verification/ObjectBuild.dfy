/** Building an object in its loaded memory (`ObjectBuilder::new`, src/image/builder.rs),
    and the pre-pass over its relocations in the file (`count_needed_entries`,
    src/segment/section.rs). */
module ObjectBuild {
  import opened Words
  import opened Symbols
  import opened SectionLayout
  import opened ObjectLayout
  import opened StaticLink
  import opened ObjectTables

  // ------------------------------------------------------------- relocations in the file

  /** A relocation section: the section it applies to, and its entries with offsets
      into that section. */
  datatype RelocTable = RelocTable(target: nat, entries: seq<Rela>)

  function Entries(tables: seq<RelocTable>): seq<Rela> {
    if |tables| == 0 then [] else Entries(tables[..|tables| - 1]) + tables[|tables| - 1].entries
  }

  /** The target section of each entry, in the order of `Entries`. */
  function Targets(tables: seq<RelocTable>): (r: seq<nat>)
    ensures |r| == |Entries(tables)|
  {
    if |tables| == 0 then []
    else
      var last := tables[|tables| - 1];
      Targets(tables[..|tables| - 1]) + seq(|last.entries|, _ => last.target)
  }

  /** Entries have the size the loader takes them to have; a section without an entry size
      is skipped by the pre-pass and divided by when the object is built. */
  predicate ValidTable(s: Shdr) {
    IsSymtab(s) || IsRelocs(s) ==> s.sh_entsize == 24 || s.sh_entsize == 0
  }

  /** What the pre-pass sees of a relocation section: nothing, if it cannot be read. */
  function FileTable(s: Shdr, file: seq<byte>): seq<Rela> {
    if s.sh_size == 0 || s.sh_entsize == 0 || s.sh_offset + s.sh_size > |file| then []
    else Relas(file, s.sh_offset, RowCount(s))
  }

  /** The relocation sections of the file, in order. */
  function FileTables(shdrs: seq<Shdr>, file: seq<byte>): seq<RelocTable> {
    if |shdrs| == 0 then []
    else
      var last := shdrs[|shdrs| - 1];
      FileTables(shdrs[..|shdrs| - 1], file)
      + if IsRelocs(last) then [RelocTable(last.sh_info, FileTable(last, file))] else []
  }

  lemma FileTablesNext(shdrs: seq<Shdr>, file: seq<byte>, i: nat)
    requires i < |shdrs|
    ensures var s := shdrs[i];
            && FileTables(shdrs[..i + 1], file) ==
               FileTables(shdrs[..i], file) + (if IsRelocs(s) then [RelocTable(s.sh_info, FileTable(s, file))] else [])
            && Entries(FileTables(shdrs[..i + 1], file)) ==
               Entries(FileTables(shdrs[..i], file)) + (if IsRelocs(s) then FileTable(s, file) else [])
  {
    assert shdrs[..i + 1][..i] == shdrs[..i];
    var before, s := FileTables(shdrs[..i], file), shdrs[i];
    var after := FileTables(shdrs[..i + 1], file);
    if IsRelocs(s) {
      assert after == before + [RelocTable(s.sh_info, FileTable(s, file))];
      assert after[..|after| - 1] == before;
    } else {
      assert after == before;
    }
  }

  /** `count_needed_entries`: one GOT entry for each symbol that may be reached through
      the GOT and one more for each stub; one PLT entry for each stub. Sections that are
      empty, have no entry size or cannot be read are skipped. */
  method CountNeededEntries(shdrs: seq<Shdr>, file: seq<byte>) returns (gotCnt: nat, pltCnt: nat)
    requires forall i :: 0 <= i < |shdrs| ==> ValidTable(shdrs[i])
    ensures var rels := Entries(FileTables(shdrs, file));
            gotCnt == |GotSyms(rels)| + |PltSyms(rels)| && pltCnt == |PltSyms(rels)|
  {
    var got: set<nat>, plt: set<nat> := {}, {};
    ghost var seen: seq<Rela> := [];
    for i := 0 to |shdrs|
      invariant seen == Entries(FileTables(shdrs[..i], file)) && got == GotSyms(seen) && plt == PltSyms(seen)
    {
      var s := shdrs[i];
      FileTablesNext(shdrs, file, i);
      if IsRelocs(s) && s.sh_size != 0 && s.sh_entsize != 0 && s.sh_offset + s.sh_size <= |file| {
        var buf := file[s.sh_offset..s.sh_offset + s.sh_size];
        RelasSame(buf, file, 0, s.sh_offset, RowCount(s)) by {
          SubSlice(file, s.sh_offset, s.sh_size, 0, 24 * RowCount(s));
        }
        got, plt := CountTable(got, plt, seen, Relas(buf, 0, RowCount(s)));
      } else {
        assert seen + [] == seen;
      }
      seen := Entries(FileTables(shdrs[..i + 1], file));
    }
    assert shdrs[..|shdrs|] == shdrs;
    gotCnt, pltCnt := |got| + |plt|, |plt|;
  }

  // ---------------------------------------------------------------- tables in memory

  /** The symbol table that is used: the last one. */
  function LastSymtab(shdrs: seq<Shdr>): (j: Option<nat>)
    ensures j.Some? ==> j.value < |shdrs| && IsSymtab(shdrs[j.value])
  {
    if |shdrs| == 0 then None
    else if IsSymtab(shdrs[|shdrs| - 1]) then Some(|shdrs| - 1)
    else LastSymtab(shdrs[..|shdrs| - 1])
  }

  /** Where the relocation tables are. */
  function SpotsOf(out: seq<Shdr>): seq<Spot> {
    if |out| == 0 then []
    else
      var last := out[|out| - 1];
      SpotsOf(out[..|out| - 1]) + if IsRelocs(last) then [Spot(last.sh_addr, RowCount(last))] else []
  }

  /** Nothing makes the builder panic: entry sizes are there (also that of the array of
      initialisers), section numbers are in range, and there is a symbol table. */
  ghost predicate Buildable(out: seq<Shdr>, m: seq<byte>)
    requires forall j :: 0 <= j < |out| ==> Within(out[j].sh_addr, out[j].sh_size, |m|)
  {
    && (forall j :: 0 <= j < |out| ==> TableBuildable(out, j, m))
    && LastSymtab(out).Some?
  }

  ghost predicate TableBuildable(out: seq<Shdr>, j: nat, m: seq<byte>)
    requires j < |out| && Within(out[j].sh_addr, out[j].sh_size, |m|)
  {
    var s := out[j];
    && (IsRelocs(s) ==> s.sh_entsize != 0 && s.sh_info < |out|)
    && (s.sh_type == SHT_INIT_ARRAY ==> s.sh_entsize != 0)
    && (IsSymtab(s) ==> s.sh_entsize != 0 && s.sh_link < |out|)
    && (IsSymtab(s) ==> forall i :: 0 <= i < RowCount(s) ==> ValidSymbol(SymAt(m, s.sh_addr, i), |out|))
  }

  /** Byte `b` is an `r_offset` or `st_value` that the builder rewrites. */
  predicate Rewritten(s: Shdr, b: int) {
    || (IsRelocs(s) && InColumn(s.sh_addr, RowCount(s), 0, b))
    || (IsSymtab(s) && InColumn(s.sh_addr, RowCount(s), 8, b))
  }

  /** Table `j` of the object is rebased: offsets and values are relative to the object. */
  ghost predicate TableBuilt(out: seq<Shdr>, j: nat, m0: seq<byte>, m: seq<byte>)
    requires j < |out|
  {
    var s := out[j];
    && |m| == |m0| && Within(s.sh_addr, s.sh_size, |m|)
    && (IsRelocs(s) ==> s.sh_info < |out| && forall i :: 0 <= i < RowCount(s) ==>
          RelaAt(m, s.sh_addr, i) == MovedRela(RelaAt(m0, s.sh_addr, i), out[s.sh_info].sh_addr))
    && (IsSymtab(s) ==> forall i :: 0 <= i < RowCount(s) ==>
          ValidSymbol(SymAt(m0, s.sh_addr, i), |out|) &&
          SymAt(m, s.sh_addr, i) == RebasedSym(SymAt(m0, s.sh_addr, i), out))
  }

  /** The first `k` sections are built, and nothing but their columns has changed. */
  ghost predicate BuiltTo(out: seq<Shdr>, m0: seq<byte>, m: seq<byte>, k: nat) {
    && k <= |out| && |m| == |m0|
    && (forall j :: 0 <= j < k ==> TableBuilt(out, j, m0, m))
    && (forall b :: 0 <= b < |m| && m[b] != m0[b] ==> exists j :: 0 <= j < k && Rewritten(out[j], b))
  }

  /** The sections of the object in its memory. */
  predicate Sections(out: seq<Shdr>, size: nat) {
    && Apart(out)
    && forall j :: 0 <= j < |out| ==> Within(out[j].sh_addr, out[j].sh_size, size)
  }

  lemma RewrittenInside(s: Shdr, b: int)
    requires Rewritten(s, b)
    ensures s.sh_addr <= b < s.sh_addr + s.sh_size
  {
  }

  /** A section that the builder has not come to is as it was loaded. */
  lemma SectionKept(out: seq<Shdr>, m0: seq<byte>, m: seq<byte>, k: nat, j: nat)
    requires Sections(out, |m0|) && BuiltTo(out, m0, m, k) && j < |out| && out[j].sh_size > 0
    requires k <= j || !(IsRelocs(out[j]) || IsSymtab(out[j]))
    ensures m[out[j].sh_addr..out[j].sh_addr + out[j].sh_size] == m0[out[j].sh_addr..out[j].sh_addr + out[j].sh_size]
  {
    var s := out[j];
    forall b | s.sh_addr <= b < s.sh_addr + s.sh_size ensures m[b] == m0[b] {
      if m[b] != m0[b] {
        var i :| 0 <= i < k && Rewritten(out[i], b);
        RewrittenInside(out[i], b);
        NotBoth(out, i, j, b);
      }
    }
  }

  lemma NotBoth(out: seq<Shdr>, i: nat, j: nat, b: int)
    requires Apart(out) && i < |out| && j < |out|
    requires out[i].sh_addr <= b < out[i].sh_addr + out[i].sh_size
    requires out[j].sh_addr <= b < out[j].sh_addr + out[j].sh_size
    ensures i == j
  {
  }

  /** A built table stays built when its bytes stay. */
  lemma BuiltStays(out: seq<Shdr>, j: nat, m0: seq<byte>, m: seq<byte>, m': seq<byte>)
    requires j < |out| && TableBuilt(out, j, m0, m) && |m'| == |m|
    requires out[j].sh_size > 0 ==> m'[out[j].sh_addr..out[j].sh_addr + out[j].sh_size] ==
                                    m[out[j].sh_addr..out[j].sh_addr + out[j].sh_size]
    ensures TableBuilt(out, j, m0, m')
  {
    var s := out[j];
    forall i | 0 <= i < RowCount(s)
      ensures m'[s.sh_addr + 24 * i..s.sh_addr + 24 * i + 24] == m[s.sh_addr + 24 * i..s.sh_addr + 24 * i + 24]
    {
      SubSlice(m, s.sh_addr, s.sh_size, 24 * i, 24 * i + 24);
      SubSlice(m', s.sh_addr, s.sh_size, 24 * i, 24 * i + 24);
    }
  }

  /** Rewriting a column of section `k` keeps the sections before it built. */
  lemma BuildStep(out: seq<Shdr>, m0: seq<byte>, m: seq<byte>, m': seq<byte>, k: nat, col: nat)
    requires Sections(out, |m0|) && BuiltTo(out, m0, m, k) && k < |out|
    requires OnlyColumn(m, m', out[k].sh_addr, RowCount(out[k]), col)
    requires (IsRelocs(out[k]) && col == 0) || (IsSymtab(out[k]) && col == 8)
    requires TableBuilt(out, k, m0, m')
    ensures BuiltTo(out, m0, m', k + 1)
  {
    forall j | 0 <= j < k ensures TableBuilt(out, j, m0, m') {
      assert TableBuilt(out, j, m0, m);
      var s := out[j];
      if s.sh_size > 0 {
        forall b | s.sh_addr <= b < s.sh_addr + s.sh_size ensures m'[b] == m[b] {
          if m'[b] != m[b] {
            assert Rewritten(out[k], b);
            RewrittenInside(out[k], b);
            NotBoth(out, j, k, b);
          }
        }
      }
      BuiltStays(out, j, m0, m, m');
    }
    forall b | 0 <= b < |m'| && m'[b] != m0[b] ensures exists j :: 0 <= j < k + 1 && Rewritten(out[j], b) {
      if m'[b] != m[b] {
        assert Rewritten(out[k], b);
      } else {
        var j :| 0 <= j < k && Rewritten(out[j], b);
      }
    }
  }

  lemma BuildSkip(out: seq<Shdr>, m0: seq<byte>, m: seq<byte>, k: nat)
    requires Sections(out, |m0|) && BuiltTo(out, m0, m, k) && k < |out| && !IsRelocs(out[k]) && !IsSymtab(out[k])
    ensures BuiltTo(out, m0, m, k + 1)
  {
    forall b | 0 <= b < |m| && m[b] != m0[b] ensures exists j :: 0 <= j < k + 1 && Rewritten(out[j], b) {
      var j :| 0 <= j < k && Rewritten(out[j], b);
    }
  }

  /** The rows of a section that has not been built are those that were loaded. */
  lemma RowsKept(out: seq<Shdr>, m0: seq<byte>, m: seq<byte>, k: nat, i: nat)
    requires Sections(out, |m0|) && BuiltTo(out, m0, m, k) && k < |out| && i < RowCount(out[k])
    ensures var at := out[k].sh_addr;
            && at + 24 * i + 24 <= |m|
            && m[at + 24 * i..at + 24 * i + 24] == m0[at + 24 * i..at + 24 * i + 24]
  {
    var s := out[k];
    SectionKept(out, m0, m, k, k);
    SubSlice(m, s.sh_addr, s.sh_size, 24 * i, 24 * i + 24);
    SubSlice(m0, s.sh_addr, s.sh_size, 24 * i, 24 * i + 24);
  }

  lemma RelocsBuilt(out: seq<Shdr>, m0: seq<byte>, m: seq<byte>, m': seq<byte>, k: nat)
    requires Sections(out, |m0|) && BuiltTo(out, m0, m, k) && k < |out| && IsRelocs(out[k]) && out[k].sh_info < |out|
    requires RelasMoved(m, m', out[k].sh_addr, RowCount(out[k]), RowCount(out[k]), out[out[k].sh_info].sh_addr)
    ensures BuiltTo(out, m0, m', k + 1)
  {
    var s := out[k];
    forall i | 0 <= i < RowCount(s)
      ensures RelaAt(m', s.sh_addr, i) == MovedRela(RelaAt(m0, s.sh_addr, i), out[s.sh_info].sh_addr)
    {
      RowsKept(out, m0, m, k, i);
    }
    BuildStep(out, m0, m, m', k, 0);
  }

  lemma SymbolsBuilt(out: seq<Shdr>, m0: seq<byte>, m: seq<byte>, m': seq<byte>, k: nat)
    requires Sections(out, |m0|) && BuiltTo(out, m0, m, k) && k < |out| && IsSymtab(out[k])
    requires SymsMoved(m, m', out[k].sh_addr, RowCount(out[k]), RowCount(out[k]), out)
    ensures BuiltTo(out, m0, m', k + 1)
  {
    var s := out[k];
    forall i | 0 <= i < RowCount(s)
      ensures ValidSymbol(SymAt(m0, s.sh_addr, i), |out|)
      ensures SymAt(m', s.sh_addr, i) == RebasedSym(SymAt(m0, s.sh_addr, i), out)
    {
      RowsKept(out, m0, m, k, i);
      assert SymAt(m, s.sh_addr, i) == SymAt(m0, s.sh_addr, i);
    }
    BuildStep(out, m0, m, m', k, 8);
  }

  lemma SymbolsSame(out: seq<Shdr>, m0: seq<byte>, m: seq<byte>, k: nat)
    requires Sections(out, |m0|) && BuiltTo(out, m0, m, k) && k < |out|
    ensures forall i :: 0 <= i < RowCount(out[k]) ==> SymAt(m, out[k].sh_addr, i) == SymAt(m0, out[k].sh_addr, i)
  {
    forall i | 0 <= i < RowCount(out[k]) ensures SymAt(m, out[k].sh_addr, i) == SymAt(m0, out[k].sh_addr, i) {
      RowsKept(out, m0, m, k, i);
    }
  }

  /** One section of the builder's loop. */
  method BuildSection(out: seq<Shdr>, k: nat, mem: array<byte>, base: nat, ghost m0: seq<byte>) returns (ok: bool)
    requires |m0| == mem.Length && Sections(out, |m0|) && BuiltTo(out, m0, mem[..], k) && k < |out|
    modifies mem
    ensures ok <==> TableBuildable(out, k, m0)
    ensures ok ==> BuiltTo(out, m0, mem[..], k + 1)
  {
    var s := out[k];
    ghost var m := mem[..];
    ok := true;
    if IsSymtab(s) {
      SymbolsSame(out, m0, m, k);
      ok := s.sh_entsize != 0;
      if ok {
        ok := RebaseSymbols(mem, s.sh_addr, RowCount(s), out, base);
        if ok {
          SymbolsBuilt(out, m0, m, mem[..], k);
        }
      }
      ok := ok && s.sh_link < |out|;
    } else if IsRelocs(s) {
      ok := s.sh_entsize != 0 && s.sh_info < |out|;
      if ok {
        RebaseRelocs(mem, s.sh_addr, RowCount(s), out[s.sh_info].sh_addr + base, base);
        RelocsBuilt(out, m0, m, mem[..], k);
      }
    } else {
      // The array of initialisers is only looked at; its entries are counted all the same.
      ok := s.sh_type == SHT_INIT_ARRAY ==> s.sh_entsize != 0;
      BuildSkip(out, m0, m, k);
    }
  }

  /** `ObjectBuilder::new`: rebases symbols and relocations in the loaded sections, and
      finds the tables. It fails exactly when one of its lookups panics. */
  method BuildObject(out: seq<Shdr>, mem: array<byte>, base: nat) returns (ok: bool, spots: seq<Spot>, symtab: nat)
    requires Sections(out, mem.Length)
    modifies mem
    ensures ok <==> Buildable(out, old(mem[..]))
    ensures ok ==> BuiltTo(out, old(mem[..]), mem[..], |out|)
    ensures ok ==> spots == SpotsOf(out) && LastSymtab(out) == Some(symtab)
  {
    ghost var m0 := mem[..];
    var last: Option<nat> := None;
    spots, symtab := [], 0;
    for i := 0 to |out|
      invariant BuiltTo(out, m0, mem[..], i) && forall j :: 0 <= j < i ==> TableBuildable(out, j, m0)
      invariant spots == SpotsOf(out[..i]) && last == LastSymtab(out[..i])
    {
      assert out[..i + 1][..i] == out[..i];
      ok := BuildSection(out, i, mem, base, m0);
      if !ok {
        return;
      }
      if IsSymtab(out[i]) {
        last := Some(i);
      }
      if IsRelocs(out[i]) {
        spots := spots + [Spot(out[i].sh_addr, RowCount(out[i]))];
      }
    }
    assert out[..|out|] == out;
    ok := last.Some?;
    if ok {
      symtab := last.value;
    }
  }
}
