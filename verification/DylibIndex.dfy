/** The symbol tables as bytes (`Symbol::write`, `create_hashtable`, tools/gen-elf/src/
    dylib/symtab.rs), and the loader's lookup over those bytes (src/elf/hash/sysv.rs):
    it finds exactly the index the writer gave to each name. */
module DylibIndex {
  import opened Words
  import opened Symbols
  import opened GnuIndex
  import opened SysvIndex
  import opened Records
  import opened DylibLayout
  import opened DylibSymbols

  // ------------------------------------------------------------------------- names

  lemma {:induction false} GetStrAt(strtab: seq<byte>, off: nat, name: DylibSymbols.Name)
    requires NameAt(strtab, off, name) && 0 !in name
    ensures GetStr(strtab, off) == name
    decreases |name|
  {
    if name != [] {
      assert strtab[off] == strtab[off..off + |name|][0];
      assert strtab[off + 1..off + 1 + |name[1..]|] == strtab[off..off + |name|][1..];
      GetStrAt(strtab, off + 1, name[1..]);
    }
  }

  /** Names are free of NUL, as strings handed to the loader must be. */
  ghost predicate Printable(t: Tables) {
    forall i :: 0 <= i < |t.symbols| ==> 0 !in t.symbols[i].name
  }

  function TableOf(t: Tables): SymTab {
    SymTab(t.dynsym, t.dynstr)
  }

  lemma NameOfEntry(t: Tables, i: nat)
    requires Names(t) && Printable(t) && 1 <= i < |t.dynsym|
    ensures TableOf(t).Name(i) == t.symbols[i - 1].name && t.symbols[i - 1].name in t.index
    ensures t.index[t.symbols[i - 1].name] == i
  {
    assert NameOk(t, i - 1);
    GetStrAt(t.dynstr, t.dynsym[i].name, t.symbols[i - 1].name);
  }

  /** A name is in the table exactly where the index says. */
  lemma NamedIff(t: Tables, name: DylibSymbols.Name, i: nat)
    requires Names(t) && Printable(t)
    ensures Named(TableOf(t), name, i) <==> name != [] && name in t.index && t.index[name] == i
  {
    if 1 <= i < |t.dynsym| {
      NameOfEntry(t, i);
      assert NameOk(t, i - 1);
      assert t.symbols[i - 1].name != [];
    }
  }

  // ------------------------------------------------------------------- the hash table

  /** One bucket, and a single chain through all the symbols. */
  function Next(n: nat, i: nat): nat {
    if 0 < i && i + 1 < n then i + 1 else 0
  }

  function HashWords(n: nat): (ws: seq<nat>)
    ensures |ws| == 3 + n && forall i :: 0 <= i < n ==> ws[3 + i] == Next(n, i)
  {
    [1, n, if n > 1 then 1 else 0] + seq(n, i requires 0 <= i => Next(n, i))
  }

  function WordRows(ws: seq<nat>): (rows: seq<seq<byte>>)
    ensures |rows| == |ws| && forall i :: 0 <= i < |ws| ==> rows[i] == LittleEndian(ws[i], 4)
  {
    seq(|ws|, i requires 0 <= i < |ws| => LittleEndian(ws[i], 4))
  }

  function WordBytes(ws: seq<nat>): seq<byte> {
    Flatten(WordRows(ws))
  }

  lemma WordsAppend(ws: seq<nat>, w: nat)
    ensures WordBytes(ws + [w]) == WordBytes(ws) + LittleEndian(w, 4)
  {
    assert WordRows(ws + [w]) == WordRows(ws) + [LittleEndian(w, 4)];
    FlattenAppend(WordRows(ws), LittleEndian(w, 4));
  }

  /** `create_hashtable`. */
  method CreateHashtable(n: nat) returns (table: seq<byte>)
    requires n >= 1
    ensures table == WordBytes(HashWords(n))
  {
    var first := if n > 1 then 1 else 0;
    FirstWords(n, first);
    table := [];
    assert table == WordBytes([]);
    table := AppendWord(table, [], 1);
    table := AppendWord(table, [1], n);
    table := AppendWord(table, [1, n], first);
    table := AppendWord(table, [1, n, first], 0);
    for i := 1 to n
      invariant table == WordBytes(HashWords(n)[..3 + i])
    {
      var next := if i + 1 < n then i + 1 else 0;
      assert HashWords(n)[..3 + i] + [next] == HashWords(n)[..3 + i + 1];
      table := AppendWord(table, HashWords(n)[..3 + i], next);
    }
    assert HashWords(n)[..3 + n] == HashWords(n);
  }

  method AppendWord(table: seq<byte>, ghost ws: seq<nat>, w: nat) returns (r: seq<byte>)
    requires table == WordBytes(ws)
    ensures r == WordBytes(ws + [w])
  {
    WordsAppend(ws, w);
    r := table + LittleEndian(w, 4);
  }

  lemma FirstWords(n: nat, first: nat)
    requires n >= 1 && first == if n > 1 then 1 else 0
    ensures [] + [1] == [1] && [1] + [n] == [1, n] && [1, n] + [first] == [1, n, first]
    ensures [1, n, first] + [0] == HashWords(n)[..3 + 1]
  {
    assert HashWords(n)[3 + 0] == Next(n, 0);
  }

  function WordOf(b: seq<byte>, i: nat): nat
    requires 4 * i + 4 <= |b|
  {
    Load(b, 4 * i, 4)
  }

  lemma WordReadBack(ws: seq<nat>, i: nat)
    requires i < |ws| && ws[i] < 0x1_0000_0000
    ensures 4 * i + 4 <= |WordBytes(ws)| && WordOf(WordBytes(ws), i) == ws[i]
  {
    RowAt(WordRows(ws), 4, i);
    LittleEndianDecodes(ws[i], 4);
    Pow256Values();
  }

  /** `ElfHash::parse`, and the words that `lookup` reads through its pointers. */
  function ReadHash(b: seq<byte>): Option<SysvTable> {
    if |b| < 8 then None
    else
      var nbucket, nchain := WordOf(b, 0), WordOf(b, 1);
      if 4 * (2 + nbucket + nchain) > |b| then None
      else Some(SysvTable(nbucket, nchain,
                          seq<nat>(nbucket, i requires 0 <= i < nbucket => WordOf(b, 2 + i)),
                          seq<nat>(nchain, i requires 0 <= i < nchain => WordOf(b, 2 + nbucket + i))))
  }

  function Chained(n: nat): SysvTable {
    SysvTable(1, n, [if n > 1 then 1 else 0], seq(n, i requires 0 <= i => Next(n, i)))
  }

  lemma HashWordBack(n: nat, i: nat)
    requires 1 <= n < 0x1_0000_0000 && i < 3 + n
    ensures 4 * i + 4 <= |WordBytes(HashWords(n))| && WordOf(WordBytes(HashWords(n)), i) == HashWords(n)[i]
  {
    assert i >= 3 ==> HashWords(n)[i] == HashWords(n)[3 + (i - 3)];
    WordReadBack(HashWords(n), i);
  }

  lemma HashReadBack(n: nat)
    requires 1 <= n < 0x1_0000_0000
    ensures ReadHash(WordBytes(HashWords(n))) == Some(Chained(n))
  {
    var ws := HashWords(n);
    forall i | 0 <= i < |ws| ensures 4 * i + 4 <= |WordBytes(ws)| && WordOf(WordBytes(ws), i) == ws[i] {
      HashWordBack(n, i);
    }
    FlattenLength(WordRows(ws), 4);
    var got := ReadHash(WordBytes(ws)).value;
    forall i | 0 <= i < n ensures got.chains[i] == Next(n, i) {
      assert got.chains[i] == WordOf(WordBytes(ws), 3 + i);
    }
    assert got.buckets[0] == WordOf(WordBytes(ws), 2 + 0);
    assert got.buckets == Chained(n).buckets && got.chains == Chained(n).chains;
  }

  /** The chain visits 1, 2, ... in order. */
  function AllFrom(n: nat): (path: seq<nat>)
    requires n >= 1
    ensures |path| == n - 1 && forall k :: 0 <= k < n - 1 ==> path[k] == k + 1
  {
    seq(n - 1, k => k + 1)
  }

  lemma {:induction false} ChainUnique(s: SysvTable, b: nat, p: seq<nat>, q: seq<nat>, k: nat)
    requires b < |s.buckets| && ChainOf(s, b, p) && ChainOf(s, b, q) && k <= |p| && k <= |q|
    ensures p[..k] == q[..k]
    ensures k < |p| <==> k < |q|
    ensures k < |p| ==> p[k] == q[k]
    decreases k
  {
    if k > 0 {
      ChainUnique(s, b, p, q, k - 1);
      assert s.chains[p[k - 1]] == (if k < |p| then p[k] else 0);
      assert s.chains[q[k - 1]] == (if k < |q| then q[k] else 0);
      assert p[..k] == p[..k - 1] + [p[k - 1]] && q[..k] == q[..k - 1] + [q[k - 1]];
    }
  }

  lemma ChainIsAll(n: nat, path: seq<nat>)
    requires n >= 1 && ChainOf(Chained(n), 0, path)
    ensures forall i :: 1 <= i < n ==> i in path
  {
    var s, all := Chained(n), AllFrom(n);
    assert ChainOf(s, 0, all);
    var k := if |path| <= |all| then |path| else |all|;
    ChainUnique(s, 0, path, all, k);
    assert path[..k] == path && all[..k] == all;
    forall i | 1 <= i < n ensures i in path {
      assert all[i - 1] == i;
    }
  }

  /** The emitted hash table is well formed for the emitted symbols, whatever the hash
      function: all names share one bucket. */
  lemma HashWellFormed(t: Tables, hash: seq<byte> -> nat)
    requires Names(t)
    ensures SysvIndex.WellFormed(Chained(|t.dynsym|), TableOf(t), hash)
  {
    var n := |t.dynsym|;
    var s := Chained(n);
    assert ChainOf(s, 0, AllFrom(n));
    forall b, path | 0 <= b < s.nbucket && ChainOf(s, b, path)
      ensures forall i :: 1 <= i < n && hash(TableOf(t).Name(i)) % s.nbucket == b ==> i in path
    {
      ChainIsAll(n, path);
    }
  }

  // ----------------------------------------------------------------- the symbol bytes

  function SymFields(e: Sym): seq<Field> {
    [Field(e.name, 4), Field(e.bind * 16 + e.stype, 1), Field(0, 1), Field(e.shndx, 2), Field(e.value, 8),
     Field(e.size, 8)]
  }

  predicate Encodable(e: Sym) {
    e.name < 0x1_0000_0000 && e.bind < 16 && e.stype < 16 && e.shndx < 0x1_0000 && e.size < 0x1_0000_0000_0000_0000
  }

  lemma SymOffsets(e: Sym)
    ensures var fs := SymFields(e);
            Skip(fs, 0) == 0 && Skip(fs, 1) == 4 && Skip(fs, 3) == 6 && Skip(fs, 4) == 8 &&
            Skip(fs, 5) == 16 && Skip(fs, 6) == 24
  {
    var fs := SymFields(e);
    assert Skip(fs, 1) == 4;
    assert Skip(fs, 2) == 5;
    assert Skip(fs, 3) == 6;
    assert Skip(fs, 4) == 8;
    assert Skip(fs, 5) == 16;
  }

  lemma SymRoundTrip(e: Sym)
    requires Encodable(e)
    ensures |Encode(SymFields(e))| == 24 && DecodeSym(Encode(SymFields(e))) == e
  {
    var fs := SymFields(e);
    Pow256Values();
    assert Pow256(1) == 256;
    SymOffsets(e);
    EncodeLength(fs);
    FieldLoads(fs, 0, 0);
    FieldLoads(fs, 1, 4);
    FieldLoads(fs, 3, 6);
    FieldLoads(fs, 4, 8);
    FieldLoads(fs, 5, 16);
  }

  function SymRows(es: seq<Sym>): (rows: seq<seq<byte>>)
    ensures |rows| == |es| && forall i :: 0 <= i < |es| ==> rows[i] == Encode(SymFields(es[i]))
  {
    seq(|es|, i requires 0 <= i < |es| => Encode(SymFields(es[i])))
  }

  predicate AllEncodable(es: seq<Sym>) {
    forall i :: 0 <= i < |es| ==> Encodable(es[i])
  }

  /** The symbols that the loader sees in `.dynsym`. */
  function ReadSyms(b: seq<byte>, n: nat): (es: seq<Sym>)
    requires 24 * n <= |b|
    ensures |es| == n && forall i :: 0 <= i < n ==> es[i] == DecodeSym(b[24 * i..24 * i + 24])
  {
    seq(n, i requires 0 <= i < n => DecodeSym(b[24 * i..24 * i + 24]))
  }

  lemma SymRowBack(es: seq<Sym>, i: nat)
    requires AllEncodable(es) && i < |es|
    ensures 24 * i + 24 <= |Flatten(SymRows(es))| && DecodeSym(Flatten(SymRows(es))[24 * i..24 * i + 24]) == es[i]
  {
    forall k | 0 <= k < |es| ensures |SymRows(es)[k]| == 24 {
      SymRoundTrip(es[k]);
    }
    RowAt(SymRows(es), 24, i);
    SymRoundTrip(es[i]);
  }

  /** Symbols survive the round trip through bytes, and take 24 bytes each. */
  lemma SymsReadBack(es: seq<Sym>)
    requires AllEncodable(es)
    ensures |Flatten(SymRows(es))| == 24 * |es| && ReadSyms(Flatten(SymRows(es)), |es|) == es
  {
    forall k | 0 <= k < |es| ensures |SymRows(es)[k]| == 24 {
      SymRoundTrip(es[k]);
    }
    FlattenLength(SymRows(es), 24);
    forall i | 0 <= i < |es| ensures ReadSyms(Flatten(SymRows(es)), |es|)[i] == es[i] {
      SymRowBack(es, i);
    }
  }

  // ------------------------------------------------------------------- the round trip

  /** What the loader sees of the three sections. */
  function ReadTables(hashBytes: seq<byte>, symBytes: seq<byte>, strBytes: seq<byte>): Option<(SysvTable, SymTab)> {
    match ReadHash(hashBytes)
    case None => None
    case Some(h) =>
      if 24 * h.nchain > |symBytes| then None else Some((h, SymTab(ReadSyms(symBytes, h.nchain), strBytes)))
  }

  ghost predicate Emitted(t: Tables, hashBytes: seq<byte>, symBytes: seq<byte>, strBytes: seq<byte>) {
    && AllEncodable(t.dynsym) && 1 <= |t.dynsym| < 0x1_0000_0000
    && hashBytes == WordBytes(HashWords(|t.dynsym|)) && symBytes == Flatten(SymRows(t.dynsym)) && strBytes == t.dynstr
  }

  lemma TablesReadBack(t: Tables, hashBytes: seq<byte>, symBytes: seq<byte>, strBytes: seq<byte>)
    requires Emitted(t, hashBytes, symBytes, strBytes)
    ensures ReadTables(hashBytes, symBytes, strBytes) == Some((Chained(|t.dynsym|), TableOf(t)))
  {
    HashReadBack(|t.dynsym|);
    SymsReadBack(t.dynsym);
  }

  method LookupChained(s: SysvTable, syms: SymTab, name: DylibSymbols.Name, hash: seq<byte> -> nat, ghost t: Tables)
    returns (r: Option<nat>)
    requires Names(t) && Printable(t) && s == Chained(|t.dynsym|) && syms == TableOf(t)
    ensures r == if name != [] && name in t.index then Some(t.index[name]) else None
  {
    HashWellFormed(t, hash);
    var pre := PreCompute(0, 0, 1, None);
    r, pre := SysvIndex.Lookup(s, syms, name, pre, hash);
    AnswerIs(t, name, r);
  }

  /** The loader's lookup over the emitted bytes of `.hash`, `.dynsym` and `.dynstr`
      terminates and returns exactly the index the writer recorded for the name, and
      nothing for a name it never recorded. */
  method LookupWritten(hashBytes: seq<byte>, symBytes: seq<byte>, strBytes: seq<byte>, name: DylibSymbols.Name,
                       hash: seq<byte> -> nat, ghost t: Tables) returns (r: Option<nat>)
    requires Names(t) && Printable(t) && Emitted(t, hashBytes, symBytes, strBytes)
    ensures r == if name != [] && name in t.index then Some(t.index[name]) else None
  {
    var s, syms := ParseTables(hashBytes, symBytes, strBytes, t);
    r := LookupChained(s, syms, name, hash, t);
  }

  method ParseTables(hashBytes: seq<byte>, symBytes: seq<byte>, strBytes: seq<byte>, ghost t: Tables)
    returns (s: SysvTable, syms: SymTab)
    requires Emitted(t, hashBytes, symBytes, strBytes)
    ensures s == Chained(|t.dynsym|) && syms == TableOf(t)
  {
    TablesReadBack(t, hashBytes, symBytes, strBytes);
    var tables := ReadTables(hashBytes, symBytes, strBytes);
    s, syms := tables.value.0, tables.value.1;
  }

  lemma AnswerIs(t: Tables, name: DylibSymbols.Name, r: Option<nat>)
    requires Names(t) && Printable(t)
    requires match r case Some(i) => Named(TableOf(t), name, i) case None => forall i :: !Named(TableOf(t), name, i)
    ensures r == if name != [] && name in t.index then Some(t.index[name]) else None
  {
    if r.Some? {
      NamedIff(t, name, r.value);
    } else if name in t.index {
      NamedIff(t, name, t.index[name]);
    }
  }

  // -------------------------------------------------------------------- the contents

  lemma {:induction false} ContentsPrefix(symbols: seq<SymbolDesc>, k: SectionKind, i: nat)
    requires i <= |symbols|
    ensures |Contents(symbols[..i], k)| <= |Contents(symbols, k)|
    ensures Contents(symbols, k)[..|Contents(symbols[..i], k)|] == Contents(symbols[..i], k)
    decreases |symbols|
  {
    if i < |symbols| {
      var n := |symbols| - 1;
      ContentsPrefix(symbols[..n], k, i);
      assert symbols[..n][..i] == symbols[..i];
    } else {
      assert symbols[..i] == symbols;
    }
  }

  /** A defined symbol's value, before the layout, is where its own bytes start in the
      section that collects the contents of its kind. */
  lemma ContentAt(t: Tables, i: nat)
    requires Good(t) && i < |t.symbols| && t.symbols[i].content.Some?
    requires |Contents(t.symbols, t.symbols[i].content.value.kind)| < 0x1_0000_0000_0000_0000
    ensures var c, v := t.symbols[i].content.value, t.dynsym[i + 1].value;
            v + |c.data| <= |Contents(t.symbols, c.kind)| && Contents(t.symbols, c.kind)[v..v + |c.data|] == c.data
  {
    assert ValueOk(t, i);
    var c := t.symbols[i].content.value;
    ContentPiece(t.symbols, i);
    WrapSmall(|Contents(t.symbols[..i], c.kind)|);
  }

  lemma ContentPiece(symbols: seq<SymbolDesc>, i: nat)
    requires i < |symbols| && symbols[i].content.Some?
    ensures var c := symbols[i].content.value;
            var v := |Contents(symbols[..i], c.kind)|;
            v + |c.data| <= |Contents(symbols, c.kind)| && Contents(symbols, c.kind)[v..v + |c.data|] == c.data
  {
    var c := symbols[i].content.value;
    ContentsPrefix(symbols, c.kind, i + 1);
    assert symbols[..i + 1][..i] == symbols[..i];
    var before, upto := Contents(symbols[..i], c.kind), Contents(symbols[..i + 1], c.kind);
    assert upto == before + c.data;
    var all := Contents(symbols, c.kind);
    assert all[|before|..|upto|] == all[..|upto|][|before|..];
  }
}
