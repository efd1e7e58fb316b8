/** Symbol and relocation tables in the memory of a loaded object, and their rebasing in
    place (src/image/builder.rs, src/elf/defs.rs).

    A table is a run of 24-byte rows at an offset of the object's memory. */
module ObjectTables {
  import opened Words
  import opened Symbols
  import opened SectionLayout

  const SHT_SYMTAB := 2
  const SHT_RELA := 4
  const SHT_REL := 9
  const SHT_INIT_ARRAY := 14

  predicate IsSymtab(s: Shdr) {
    s.sh_type == SHT_SYMTAB
  }

  predicate IsRelocs(s: Shdr) {
    s.sh_type == SHT_RELA || s.sh_type == SHT_REL
  }

  /** The number of rows of a table section. */
  function RowCount(s: Shdr): nat {
    s.sh_size / 24
  }

  /** A table in memory: its offset and its number of rows. */
  datatype Spot = Spot(at: nat, n: nat)

  // -------------------------------------------------------------------- reading rows

  predicate Within(at: nat, n: nat, size: nat) {
    n > 0 ==> at + n <= size
  }

  function RelaAt(m: seq<byte>, at: nat, i: nat): Rela
    requires at + 24 * i + 24 <= |m|
  {
    DecodeRela(m[at + 24 * i..at + 24 * i + 24])
  }

  function SymAt(m: seq<byte>, at: nat, i: nat): Sym
    requires at + 24 * i + 24 <= |m|
  {
    DecodeSym(m[at + 24 * i..at + 24 * i + 24])
  }

  function Relas(m: seq<byte>, at: nat, n: nat): (rels: seq<Rela>)
    requires Within(at, 24 * n, |m|)
    ensures |rels| == n && forall i :: 0 <= i < n ==> rels[i] == RelaAt(m, at, i)
  {
    seq(n, i requires 0 <= i < n => RelaAt(m, at, i))
  }

  function Syms(m: seq<byte>, at: nat, n: nat): (syms: seq<Sym>)
    requires Within(at, 24 * n, |m|)
    ensures |syms| == n && forall i :: 0 <= i < n ==> syms[i] == SymAt(m, at, i)
  {
    seq(n, i requires 0 <= i < n => SymAt(m, at, i))
  }

  lemma RowSame(m: seq<byte>, m': seq<byte>, at: nat, at': nat, n: nat, i: nat)
    requires i < n && at + 24 * n <= |m| && at' + 24 * n <= |m'| && m[at..at + 24 * n] == m'[at'..at' + 24 * n]
    ensures m[at + 24 * i..at + 24 * i + 24] == m'[at' + 24 * i..at' + 24 * i + 24]
  {
    SubSlice(m, at, 24 * n, 24 * i, 24 * i + 24);
    SubSlice(m', at', 24 * n, 24 * i, 24 * i + 24);
  }

  /** Rows with the same bytes are the same entries, wherever they are. */
  lemma RelasSame(m: seq<byte>, m': seq<byte>, at: nat, at': nat, n: nat)
    requires Within(at, 24 * n, |m|) && Within(at', 24 * n, |m'|)
    requires n > 0 ==> m[at..at + 24 * n] == m'[at'..at' + 24 * n]
    ensures Relas(m, at, n) == Relas(m', at', n)
  {
    forall i | 0 <= i < n ensures Relas(m, at, n)[i] == Relas(m', at', n)[i] {
      RowSame(m, m', at, at', n, i);
    }
  }

  lemma SymsSame(m: seq<byte>, m': seq<byte>, at: nat, at': nat, n: nat)
    requires Within(at, 24 * n, |m|) && Within(at', 24 * n, |m'|)
    requires n > 0 ==> m[at..at + 24 * n] == m'[at'..at' + 24 * n]
    ensures Syms(m, at, n) == Syms(m', at', n)
  {
    forall i | 0 <= i < n ensures Syms(m, at, n)[i] == Syms(m', at', n)[i] {
      RowSame(m, m', at, at', n, i);
    }
  }

  // ------------------------------------------------------------------- one word of a row

  /** Byte `b` is in the 8-byte column at `col` of some of the first `k` rows. */
  predicate InColumn(at: nat, k: nat, col: nat, b: int) {
    exists i :: 0 <= i < k && at + 24 * i + col <= b < at + 24 * i + col + 8
  }

  /** Only the column of the first `k` rows has changed. */
  ghost predicate OnlyColumn(m0: seq<byte>, m: seq<byte>, at: nat, k: nat, col: nat) {
    && |m| == |m0|
    && forall b :: 0 <= b < |m| && m[b] != m0[b] ==> InColumn(at, k, col, b)
  }

  lemma ColumnStep(m0: seq<byte>, m: seq<byte>, at: nat, k: nat, col: nat, v: u64)
    requires OnlyColumn(m0, m, at, k, col) && at + 24 * k + 24 <= |m| && col <= 16
    ensures OnlyColumn(m0, Store(m, at + 24 * k + col, v, 8), at, k + 1, col)
  {
    var m' := Store(m, at + 24 * k + col, v, 8);
    forall b | 0 <= b < |m'| && m'[b] != m0[b] ensures InColumn(at, k + 1, col, b) {
      if at + 24 * k + col <= b < at + 24 * k + col + 8 {
      } else {
        assert InColumn(at, k, col, b);
        var i :| 0 <= i < k && at + 24 * i + col <= b < at + 24 * i + col + 8;
      }
    }
  }

  /** A row outside the rows written so far is as it was. */
  lemma LaterRow(m0: seq<byte>, m: seq<byte>, at: nat, k: nat, col: nat, i: nat)
    requires OnlyColumn(m0, m, at, k, col) && k <= i && col <= 16 && at + 24 * i + 24 <= |m|
    ensures m[at + 24 * i..at + 24 * i + 24] == m0[at + 24 * i..at + 24 * i + 24]
  {
    forall b | at + 24 * i <= b < at + 24 * i + 24 ensures m[b] == m0[b] {
      assert !InColumn(at, k, col, b);
    }
  }

  /** Rewriting the word at `col` of row `k` leaves the other rows. */
  lemma OtherRow(m: seq<byte>, at: nat, k: nat, col: nat, v: u64, i: nat)
    requires i != k && col <= 16 && at + 24 * i + 24 <= |m| && at + 24 * k + 24 <= |m|
    ensures Store(m, at + 24 * k + col, v, 8)[at + 24 * i..at + 24 * i + 24] == m[at + 24 * i..at + 24 * i + 24]
  {
    LoadPutElsewhere(m, at + 24 * k + col, LittleEndian(v, 8), at + 24 * i, 24);
  }

  /** A row whose word at `col` was rewritten, word by word. */
  lemma RowWords(m: seq<byte>, row: nat, col: nat, v: u64, at: nat, n: nat)
    requires row + 24 <= |m| && col <= 16 && at + n <= 24 && Disjoint(col, 8, at, n)
    ensures var r, r' := m[row..row + 24], Store(m, row + col, v, 8)[row..row + 24];
            Load(r', at, n) == Load(r, at, n) && Load(r', col, 8) == v
  {
    OtherWord(m, row, col, v, at, n);
    SubSlice(Store(m, row + col, v, 8), row, 24, col, col + 8);
    StoredWord(m, row + col, v);
  }

  lemma OtherWord(m: seq<byte>, row: nat, col: nat, v: u64, at: nat, n: nat)
    requires row + 24 <= |m| && col <= 16 && at + n <= 24 && Disjoint(col, 8, at, n)
    ensures Load(Store(m, row + col, v, 8)[row..row + 24], at, n) == Load(m[row..row + 24], at, n)
  {
    var m' := Store(m, row + col, v, 8);
    LoadPutElsewhere(m, row + col, LittleEndian(v, 8), row + at, n);
    SubSlice(m, row, 24, at, at + n);
    SubSlice(m', row, 24, at, at + n);
  }

  lemma StoredWord(m: seq<byte>, at: nat, v: u64)
    requires at + 8 <= |m|
    ensures Load(Store(m, at, v, 8), at, 8) == v
  {
    LoadStored(m, at, v, 8);
    Pow256Values();
    WrapSmall(v);
  }

  lemma RelaMoved(m: seq<byte>, row: nat, v: u64)
    requires row + 24 <= |m|
    ensures var r := DecodeRela(m[row..row + 24]);
            DecodeRela(Store(m, row, v, 8)[row..row + 24]) == r.(off := v)
  {
    RowWords(m, row, 0, v, 8, 8);
    RowWords(m, row, 0, v, 16, 8);
  }

  lemma SymMoved(m: seq<byte>, row: nat, v: u64)
    requires row + 24 <= |m|
    ensures var s := DecodeSym(m[row..row + 24]);
            DecodeSym(Store(m, row + 8, v, 8)[row..row + 24]) == s.(value := v)
  {
    RowWords(m, row, 8, v, 0, 4);
    RowWords(m, row, 8, v, 4, 1);
    RowWords(m, row, 8, v, 6, 2);
    RowWords(m, row, 8, v, 16, 8);
  }

  // ------------------------------------------------------------------- relocation rows

  function MovedRela(r: Rela, delta: nat): Rela {
    r.(off := Wrap64(r.off + delta))
  }

  /** The rows before `k` are moved by `delta`, the others are as they were. */
  ghost predicate RelasMoved(m0: seq<byte>, m: seq<byte>, at: nat, n: nat, k: nat, delta: nat) {
    && k <= n && Within(at, 24 * n, |m0|) && OnlyColumn(m0, m, at, k, 0)
    && forall i :: 0 <= i < k ==> RelaAt(m, at, i) == MovedRela(RelaAt(m0, at, i), delta)
  }

  lemma RelaStep(m0: seq<byte>, m: seq<byte>, at: nat, n: nat, k: nat, delta: nat)
    requires RelasMoved(m0, m, at, n, k, delta) && k < n
    ensures RelaAt(m, at, k) == RelaAt(m0, at, k)
    ensures RelasMoved(m0, Store(m, at + 24 * k, Wrap64(RelaAt(m, at, k).off + delta), 8), at, n, k + 1, delta)
  {
    LaterRow(m0, m, at, k, 0, k);
    var v := Wrap64(RelaAt(m, at, k).off + delta);
    var m' := Store(m, at + 24 * k, v, 8);
    ColumnStep(m0, m, at, k, 0, v);
    RelaMoved(m, at + 24 * k, v);
    forall i | 0 <= i < k ensures RelaAt(m', at, i) == MovedRela(RelaAt(m0, at, i), delta) {
      OtherRow(m, at, k, 0, v, i);
    }
  }

  /** The rebasing of one relocation section: the target's address is absolute by now,
      and offsets become relative to the base. */
  method RebaseRelocs(mem: array<byte>, at: nat, n: nat, sectionBase: nat, base: nat)
    requires Within(at, 24 * n, mem.Length) && base <= sectionBase
    modifies mem
    ensures RelasMoved(old(mem[..]), mem[..], at, n, n, sectionBase - base)
  {
    ghost var m0, delta := mem[..], sectionBase - base;
    for i := 0 to n
      invariant RelasMoved(m0, mem[..], at, n, i, delta)
    {
      SetOffset(m0, mem, at, n, i, sectionBase, base);
    }
  }

  /** `set_offset` of row `i`. */
  method SetOffset(ghost m0: seq<byte>, mem: array<byte>, at: nat, ghost n: nat, i: nat, sectionBase: nat, base: nat)
    requires base <= sectionBase && i < n && RelasMoved(m0, mem[..], at, n, i, sectionBase - base)
    modifies mem
    ensures RelasMoved(m0, mem[..], at, n, i + 1, sectionBase - base)
  {
    RelaStep(m0, mem[..], at, n, i, sectionBase - base);
    var r := DecodeRela(mem[..][at + 24 * i..at + 24 * i + 24]);
    WriteBytes(mem, at + 24 * i, LittleEndian(Wrap64(sectionBase + r.off - base), 8));
  }

  // ----------------------------------------------------------------------- symbol rows

  /** The section index of a symbol is one of the `n` sections, if it is used at all. */
  predicate ValidSymbol(s: Sym, n: nat) {
    s.stype == STT_FILE || s.IsUndef() || s.shndx < n
  }

  /** A symbol after rebasing: defined symbols become relative to the object base. */
  function RebasedSym(s: Sym, out: seq<Shdr>): Sym
    requires ValidSymbol(s, |out|)
  {
    if s.stype == STT_FILE || s.IsUndef() then s else s.(value := Wrap64(out[s.shndx].sh_addr + s.value))
  }

  ghost predicate SymsMoved(m0: seq<byte>, m: seq<byte>, at: nat, n: nat, k: nat, out: seq<Shdr>) {
    && k <= n && Within(at, 24 * n, |m0|) && OnlyColumn(m0, m, at, k, 8)
    && forall i :: 0 <= i < k ==>
         ValidSymbol(SymAt(m0, at, i), |out|) && SymAt(m, at, i) == RebasedSym(SymAt(m0, at, i), out)
  }

  lemma SymStep(m0: seq<byte>, m: seq<byte>, at: nat, n: nat, k: nat, out: seq<Shdr>)
    requires SymsMoved(m0, m, at, n, k, out) && k < n
    ensures SymAt(m, at, k) == SymAt(m0, at, k)
    ensures var s := SymAt(m, at, k);
            if s.stype == STT_FILE || s.IsUndef() then SymsMoved(m0, m, at, n, k + 1, out)
            else s.shndx < |out| ==>
              SymsMoved(m0, Store(m, at + 24 * k + 8, Wrap64(out[s.shndx].sh_addr + s.value), 8), at, n, k + 1, out)
  {
    LaterRow(m0, m, at, k, 8, k);
    var s := SymAt(m, at, k);
    if s.stype == STT_FILE || s.IsUndef() {
      ColumnGrows(m0, m, at, k, 8);
    } else if s.shndx < |out| {
      SymRowStep(m0, m, at, n, k, out, Wrap64(out[s.shndx].sh_addr + s.value));
    }
  }

  lemma ColumnGrows(m0: seq<byte>, m: seq<byte>, at: nat, k: nat, col: nat)
    requires OnlyColumn(m0, m, at, k, col)
    ensures OnlyColumn(m0, m, at, k + 1, col)
  {
    forall b | 0 <= b < |m| && m[b] != m0[b] ensures InColumn(at, k + 1, col, b) {
      assert InColumn(at, k, col, b);
      var i :| 0 <= i < k && at + 24 * i + col <= b < at + 24 * i + col + 8;
    }
  }

  lemma SymRowStep(m0: seq<byte>, m: seq<byte>, at: nat, n: nat, k: nat, out: seq<Shdr>, v: u64)
    requires SymsMoved(m0, m, at, n, k, out) && k < n && SymAt(m, at, k) == SymAt(m0, at, k)
    requires ValidSymbol(SymAt(m0, at, k), |out|)
    requires RebasedSym(SymAt(m0, at, k), out) == SymAt(m0, at, k).(value := v)
    ensures SymsMoved(m0, Store(m, at + 24 * k + 8, v, 8), at, n, k + 1, out)
  {
    var m' := Store(m, at + 24 * k + 8, v, 8);
    ColumnStep(m0, m, at, k, 8, v);
    SymMoved(m, at + 24 * k, v);
    forall i | 0 <= i < k ensures SymAt(m', at, i) == RebasedSym(SymAt(m0, at, i), out) {
      OtherRow(m, at, k, 8, v, i);
    }
  }

  /** The rebasing of a symbol table; section addresses are absolute by now. A section
      index that is not one of the sections is an index out of range, which panics. */
  method RebaseSymbols(mem: array<byte>, at: nat, n: nat, out: seq<Shdr>, base: nat) returns (ok: bool)
    requires Within(at, 24 * n, mem.Length)
    modifies mem
    ensures ok <==> forall i :: 0 <= i < n ==> ValidSymbol(SymAt(old(mem[..]), at, i), |out|)
    ensures ok ==> SymsMoved(old(mem[..]), mem[..], at, n, n, out)
  {
    ghost var m0 := mem[..];
    for i := 0 to n
      invariant SymsMoved(m0, mem[..], at, n, i, out)
    {
      ok := SetValue(m0, mem, at, n, i, out, base);
      if !ok {
        return;
      }
    }
    ok := true;
  }

  /** One turn of the loop over the symbols. */
  method SetValue(ghost m0: seq<byte>, mem: array<byte>, at: nat, ghost n: nat, i: nat, out: seq<Shdr>, base: nat)
    returns (ok: bool)
    requires i < n && SymsMoved(m0, mem[..], at, n, i, out)
    modifies mem
    ensures ok <==> ValidSymbol(SymAt(m0, at, i), |out|)
    ensures ok ==> SymsMoved(m0, mem[..], at, n, i + 1, out)
  {
    SymStep(m0, mem[..], at, n, i, out);
    var s := DecodeSym(mem[..][at + 24 * i..at + 24 * i + 24]);
    ok := true;
    if s.stype != STT_FILE && !s.IsUndef() {
      ok := s.shndx < |out|;
      if ok {
        var sectionBase := (out[s.shndx].sh_addr + base) - base;
        WriteBytes(mem, at + 24 * i + 8, LittleEndian(Wrap64(sectionBase + s.value), 8));
      }
    }
  }
}
