/** The bytes of the generated file (`DylibWriter::write` from the headers on,
    tools/gen-elf/src/dylib/mod.rs), and loading them back: reading the headers as
    src/elf/ehdr.rs and src/loader.rs do, then mapping the segments. */
module DylibFile {
  import opened Words
  import opened Segments
  import opened ProgramLoad
  import opened Records
  import opened DylibLayout
  import opened DylibHeaders

  // ----------------------------------------------------------------- header records

  function PhdrFields(p: Phdr, align: nat): seq<Field> {
    [Field(p.p_type, 4), Field(p.p_flags, 4), Field(p.p_offset, 8), Field(p.p_vaddr, 8), Field(p.p_paddr, 8),
     Field(p.p_filesz, 8), Field(p.p_memsz, 8), Field(align, 8)]
  }

  /** The loader reads the header in place. */
  function DecodePhdr(s: seq<byte>): Phdr
    requires |s| == 56
  {
    Phdr(Load(s, 0, 4), Load(s, 4, 4), Word(s, 8), Word(s, 16), Word(s, 24), Word(s, 32), Word(s, 40))
  }

  function Word(s: seq<byte>, off: nat): u64
    requires off + 8 <= |s|
  {
    LittleEndianInverts(s[off..off + 8]);
    Pow256Values();
    Load(s, off, 8)
  }

  predicate Encodable(p: Phdr) {
    p.p_type < 0x1_0000_0000 && p.p_flags < 0x1_0000_0000
  }

  lemma PhdrRoundTrip(p: Phdr, align: nat)
    requires Encodable(p)
    ensures |Encode(PhdrFields(p, align))| == 56 && DecodePhdr(Encode(PhdrFields(p, align))) == p
  {
    var fs := PhdrFields(p, align);
    Pow256Values();
    PhdrOffsets(p, align);
    EncodeLength(fs);
    FieldLoads(fs, 0, 0);
    FieldLoads(fs, 1, 4);
    FieldLoads(fs, 2, 8);
    FieldLoads(fs, 3, 16);
    FieldLoads(fs, 4, 24);
    FieldLoads(fs, 5, 32);
    FieldLoads(fs, 6, 40);
  }

  lemma PhdrOffsets(p: Phdr, align: nat)
    ensures var fs := PhdrFields(p, align);
            && Skip(fs, 0) == 0 && Skip(fs, 1) == 4 && Skip(fs, 2) == 8 && Skip(fs, 3) == 16 && Skip(fs, 4) == 24
            && Skip(fs, 5) == 32 && Skip(fs, 6) == 40 && Skip(fs, 7) == 48 && Skip(fs, 8) == 56
  {
    var fs := PhdrFields(p, align);
    assert Skip(fs, 1) == 4;
    assert Skip(fs, 2) == 8;
    assert Skip(fs, 3) == 16;
    assert Skip(fs, 4) == 24;
    assert Skip(fs, 5) == 32;
    assert Skip(fs, 6) == 40;
    assert Skip(fs, 7) == 48;
  }

  const EM_X86_64 := 62

  /** Magic, 64-bit class, little endian, current version. */
  function Ident(): (s: seq<byte>)
    ensures |s| == 16
  {
    [0x7f, 0x45, 0x4c, 0x46, 2, 1, 1, 0, 0, 0, 0, 0, 0, 0, 0, 0]
  }

  /** A shared library for this machine: type, machine, version, entry, `e_phoff`,
      `e_shoff`, flags, then the sizes and counts. */
  function EhdrFields(shoff: nat, phnum: nat, shnum: nat, shstrndx: nat): seq<Field> {
    [Field(3, 2), Field(62, 2), Field(1, 4), Field(0, 8), Field(64, 8), Field(shoff, 8), Field(0, 4), Field(64, 2),
     Field(56, 2), Field(phnum, 2), Field(64, 2), Field(shnum, 2), Field(shstrndx, 2)]
  }

  function ElfHeader(shoff: nat, phnum: nat, shnum: nat, shstrndx: nat): seq<byte> {
    Ident() + Encode(EhdrFields(shoff, phnum, shnum, shstrndx))
  }

  lemma EhdrOffsets(shoff: nat, phnum: nat, shnum: nat, shstrndx: nat)
    ensures var fs := EhdrFields(shoff, phnum, shnum, shstrndx);
            Skip(fs, 1) == 2 && Skip(fs, 4) == 16 && Skip(fs, 8) == 38 && Skip(fs, 9) == 40 && Skip(fs, 13) == 48
  {
    var fs := EhdrFields(shoff, phnum, shnum, shstrndx);
    assert Skip(fs, 1) == 2;
    assert Skip(fs, 2) == 4;
    assert Skip(fs, 3) == 8;
    assert Skip(fs, 4) == 16;
    assert Skip(fs, 5) == 24;
    assert Skip(fs, 6) == 32;
    assert Skip(fs, 7) == 36;
    assert Skip(fs, 8) == 38;
    assert Skip(fs, 9) == 40;
    assert Skip(fs, 10) == 42;
    assert Skip(fs, 11) == 44;
    assert Skip(fs, 12) == 46;
  }

  lemma LoadBehind(a: seq<byte>, b: seq<byte>, k: nat, n: nat)
    requires k + n <= |b|
    ensures Load(a + b, |a| + k, n) == Load(b, k, n)
  {
    assert (a + b)[|a| + k..|a| + k + n] == b[k..k + n];
  }

  /** The loader's check of the ELF header. */
  predicate ValidEhdr(e: seq<byte>)
    requires |e| >= 64
  {
    e[..4] == [0x7f, 0x45, 0x4c, 0x46] && e[4] == 2 && e[6] == 1 && Load(e, 18, 2) == EM_X86_64
  }

  /** The written header passes the loader's check, and leads it to the program headers
      right behind. */
  lemma EhdrRoundTrip(shoff: nat, phnum: nat, shnum: nat, shstrndx: nat)
    requires phnum < 0x1_0000
    ensures var e := ElfHeader(shoff, phnum, shnum, shstrndx);
            && |e| == 64 && ValidEhdr(e)
            && Load(e, 32, 8) == 64 && Load(e, 54, 2) == 56 && Load(e, 56, 2) == phnum
  {
    var fs := EhdrFields(shoff, phnum, shnum, shstrndx);
    EhdrOffsets(shoff, phnum, shnum, shstrndx);
    EncodeLength(fs);
    EhdrValues(fs, phnum);
    var e := Encode(fs);
    LoadBehind(Ident(), e, 2, 2);
    LoadBehind(Ident(), e, 16, 8);
    LoadBehind(Ident(), e, 38, 2);
    LoadBehind(Ident(), e, 40, 2);
  }

  lemma EhdrValues(fs: seq<Field>, phnum: nat)
    requires |fs| == 13 && fs[1] == Field(62, 2) && fs[4] == Field(64, 8) && fs[8] == Field(56, 2)
    requires fs[9] == Field(phnum, 2)
    requires Skip(fs, 1) == 2 && Skip(fs, 4) == 16 && Skip(fs, 8) == 38 && Skip(fs, 9) == 40 && phnum < 0x1_0000
    requires |Encode(fs)| == 48
    ensures Load(Encode(fs), 2, 2) == 62 && Load(Encode(fs), 16, 8) == 64
    ensures Load(Encode(fs), 38, 2) == 56 && Load(Encode(fs), 40, 2) == phnum
  {
    Pow256Values();
    FieldLoads(fs, 1, 2);
    FieldLoads(fs, 4, 16);
    FieldLoads(fs, 8, 38);
    FieldLoads(fs, 9, 40);
  }

  // ------------------------------------------------------------------------ write_at

  /** `buf` with `data` at `offset`, extended with zeros if it is too short. */
  function WriteAt(buf: seq<byte>, offset: nat, data: seq<byte>): (r: seq<byte>)
    ensures |r| == if |buf| < offset + |data| then offset + |data| else |buf|
    ensures forall i :: 0 <= i < |data| ==> r[offset + i] == data[i]
    ensures forall i :: 0 <= i < |buf| && !(offset <= i < offset + |data|) ==> r[i] == buf[i]
  {
    var end := offset + |data|;
    var grown := if |buf| < end then buf + Zeros(end - |buf|) else buf;
    Put(grown, offset, data)
  }

  /** The bytes at `offset` are `data`. */
  predicate Has(buf: seq<byte>, offset: nat, data: seq<byte>) {
    offset + |data| <= |buf| && buf[offset..offset + |data|] == data
  }

  lemma WriteAtHas(buf: seq<byte>, offset: nat, data: seq<byte>)
    ensures Has(WriteAt(buf, offset, data), offset, data)
  {
  }

  /** Bytes outside the written range survive. */
  lemma WriteAtKeeps(buf: seq<byte>, offset: nat, data: seq<byte>, o: nat, d: seq<byte>)
    requires Has(buf, o, d) && Disjoint(o, |d|, offset, |data|)
    ensures Has(WriteAt(buf, offset, data), o, d)
  {
    var r := WriteAt(buf, offset, data);
    forall i | 0 <= i < |d| ensures r[o + i] == d[i] {
      assert buf[o..o + |d|][i] == d[i];
    }
    assert r[o..o + |d|] == d;
  }

  // ----------------------------------------------------------------------- the file

  /** Every section's bytes have the size it was laid out with. */
  predicate SizesMatch(secs: seq<Section>, alloc: seq<seq<byte>>) {
    forall i :: 0 <= i < |secs| ==> secs[i].data < |alloc| && |alloc[secs[i].data]| == secs[i].size
  }

  /** The headers and the first `k` sections are in the file. */
  ghost predicate Written(buf: seq<byte>, headers: seq<byte>, secs: seq<Section>, alloc: seq<seq<byte>>, k: nat)
    requires SizesMatch(secs, alloc) && k <= |secs|
  {
    Has(buf, 0, headers) && forall i :: 0 <= i < k ==> Has(buf, secs[i].offset, alloc[secs[i].data])
  }

  lemma WrittenStep(buf: seq<byte>, headers: seq<byte>, secs: seq<Section>, alloc: seq<seq<byte>>, k: nat, base: nat,
                    hi: nat)
    requires SizesMatch(secs, alloc) && k < |secs| && LaidOut(secs, base, |headers|, hi)
    requires Written(buf, headers, secs, alloc, k)
    ensures Written(WriteAt(buf, secs[k].offset, alloc[secs[k].data]), headers, secs, alloc, k + 1)
  {
    var o, d := secs[k].offset, alloc[secs[k].data];
    assert Placed(secs[k], base, |headers|, hi);
    WriteAtKeeps(buf, o, d, 0, headers);
    WriteAtHas(buf, o, d);
    forall i | 0 <= i < k ensures Has(WriteAt(buf, o, d), secs[i].offset, alloc[secs[i].data]) {
      assert Apart(secs[i], secs[k]);
      WriteAtKeeps(buf, o, d, secs[i].offset, alloc[secs[i].data]);
    }
  }

  lemma WrittenTail(buf: seq<byte>, headers: seq<byte>, secs: seq<Section>, alloc: seq<seq<byte>>, base: nat,
                    hi: nat, shdrs: seq<byte>)
    requires SizesMatch(secs, alloc) && LaidOut(secs, base, |headers|, hi) && |headers| <= hi
    requires Written(buf, headers, secs, alloc, |secs|)
    ensures Written(WriteAt(buf, hi, shdrs), headers, secs, alloc, |secs|) && Has(WriteAt(buf, hi, shdrs), hi, shdrs)
  {
    WriteAtKeeps(buf, hi, shdrs, 0, headers);
    WriteAtHas(buf, hi, shdrs);
    forall i | 0 <= i < |secs| ensures Has(WriteAt(buf, hi, shdrs), secs[i].offset, alloc[secs[i].data]) {
      assert Placed(secs[i], base, |headers|, hi);
      WriteAtKeeps(buf, hi, shdrs, secs[i].offset, alloc[secs[i].data]);
    }
  }

  /** Writing the sections and the section headers behind the headers: no write destroys
      what an earlier one put in the file. */
  method WriteSections(headers: seq<byte>, secs: seq<Section>, alloc: seq<seq<byte>>, shdrs: seq<byte>,
                       ghost base: nat, fileOff: nat) returns (out: seq<byte>)
    requires SizesMatch(secs, alloc) && LaidOut(secs, base, |headers|, fileOff) && |headers| <= fileOff
    ensures Written(out, headers, secs, alloc, |secs|) && Has(out, fileOff, shdrs)
  {
    out := headers;
    assert headers[0..|headers|] == headers;
    for i := 0 to |secs|
      invariant Written(out, headers, secs, alloc, i)
    {
      WrittenStep(out, headers, secs, alloc, i, base, fileOff);
      out := WriteAt(out, secs[i].offset, alloc[secs[i].data]);
    }
    WrittenTail(out, headers, secs, alloc, base, fileOff, shdrs);
    out := WriteAt(out, fileOff, shdrs);
  }

  // ------------------------------------------------------------ plan, emit, load

  function PhdrRows(ps: seq<Phdr>, page: nat): (rows: seq<seq<byte>>)
    ensures |rows| == |ps|
    ensures forall i :: 0 <= i < |ps| ==>
              rows[i] == Encode(PhdrFields(ps[i], if ps[i].p_type == PT_LOAD then page else 8))
  {
    seq(|ps|, i requires 0 <= i < |ps| => Encode(PhdrFields(ps[i], if ps[i].p_type == PT_LOAD then page else 8)))
  }

  predicate AllEncodable(ps: seq<Phdr>) {
    forall i :: 0 <= i < |ps| ==> Encodable(ps[i])
  }

  /** The ELF header followed by the program headers. */
  function HeaderBytes(ps: seq<Phdr>, page: nat, shoff: nat, shnum: nat, shstrndx: nat): seq<byte> {
    ElfHeader(shoff, |ps|, shnum, shstrndx) + Flatten(PhdrRows(ps, page))
  }

  predicate Rows56(rows: seq<seq<byte>>) {
    forall i :: 0 <= i < |rows| ==> |rows[i]| == 56
  }

  function DecodeRows(rows: seq<seq<byte>>): seq<Phdr>
    requires Rows56(rows)
  {
    seq(|rows|, i requires 0 <= i < |rows| => DecodePhdr(rows[i]))
  }

  lemma RowsRoundTrip(ps: seq<Phdr>, page: nat)
    requires AllEncodable(ps)
    ensures Rows56(PhdrRows(ps, page)) && DecodeRows(PhdrRows(ps, page)) == ps
    ensures |Flatten(PhdrRows(ps, page))| == 56 * |ps|
  {
    var rows := PhdrRows(ps, page);
    forall i | 0 <= i < |ps| ensures |rows[i]| == 56 && DecodePhdr(rows[i]) == ps[i] {
      PhdrRoundTrip(ps[i], if ps[i].p_type == PT_LOAD then page else 8);
    }
    FlattenLength(rows, 56);
  }

  /** `n` rows of 56 bytes from `start`. */
  function RawTable(file: seq<byte>, start: nat, n: nat): (rows: seq<seq<byte>>)
    requires start + 56 * n <= |file|
    ensures |rows| == n && Rows56(rows)
    ensures forall i :: 0 <= i < n ==> rows[i] == file[start + 56 * i..start + 56 * i + 56]
  {
    seq(n, i requires 0 <= i < n => file[start + 56 * i..start + 56 * i + 56])
  }

  /** Where the program headers are, and how many bytes they take. */
  function PhdrRange(file: seq<byte>): (nat, nat)
    requires |file| >= 64
  {
    (Load(file, 32, 8), Load(file, 54, 2) * Load(file, 56, 2))
  }

  /** How the loader reads the program headers of a file. */
  function ReadRows(file: seq<byte>): (r: Option<seq<seq<byte>>>)
    ensures r.Some? ==> Rows56(r.value)
  {
    if |file| < 64 || !ValidEhdr(file) then None
    else
      var (start, size) := PhdrRange(file);
      if start + size > |file| then None else Some(RawTable(file, start, size / 56))
  }

  function ReadPhdrs(file: seq<byte>): Option<seq<Phdr>> {
    if ReadRows(file).Some? then Some(DecodeRows(ReadRows(file).value)) else None
  }

  lemma SliceBehind(file: seq<byte>, e: seq<byte>, rows: seq<byte>, k: nat, n: nat)
    requires Has(file, 0, e + rows) && k + n <= |rows|
    ensures file[|e| + k..|e| + k + n] == rows[k..k + n] && file[..|e|] == e
  {
    var all := e + rows;
    forall i | 0 <= i < |all| ensures file[i] == all[i] {
      assert file[0..|all|][i] == file[i];
    }
    var got, want := file[|e| + k..|e| + k + n], rows[k..k + n];
    forall i | 0 <= i < n ensures got[i] == want[i] {
      assert all[|e| + k + i] == rows[k + i];
    }
  }

  lemma RowReadBack(file: seq<byte>, e: seq<byte>, rows: seq<seq<byte>>, i: nat)
    requires |e| == 64 && Rows56(rows) && Has(file, 0, e + Flatten(rows)) && i < |rows|
    ensures 64 + 56 * i + 56 <= |file| && file[64 + 56 * i..64 + 56 * i + 56] == rows[i]
  {
    FlattenLength(rows, 56);
    RowAt(rows, 56, i);
    SliceBehind(file, e, Flatten(rows), 56 * i, 56);
  }

  lemma TableReadBack(file: seq<byte>, e: seq<byte>, rows: seq<seq<byte>>)
    requires |e| == 64 && Rows56(rows) && Has(file, 0, e + Flatten(rows))
    ensures file[..64] == e && 64 + 56 * |rows| <= |file| && RawTable(file, 64, |rows|) == rows
  {
    FlattenLength(rows, 56);
    SliceBehind(file, e, Flatten(rows), 0, 0);
    var raw := RawTable(file, 64, |rows|);
    forall i | 0 <= i < |rows| ensures raw[i] == rows[i] {
      RowReadBack(file, e, rows, i);
    }
  }

  lemma RangeBehind(file: seq<byte>, e: seq<byte>, n: nat)
    requires |e| == 64 <= |file| && file[..64] == e && ValidEhdr(e)
    requires Load(e, 32, 8) == 64 && Load(e, 54, 2) == 56 && Load(e, 56, 2) == n
    ensures ValidEhdr(file) && PhdrRange(file) == (64, 56 * n)
  {
    HeaderPrefix(file, e);
  }

  lemma ReadBehind(file: seq<byte>, e: seq<byte>, rows: seq<seq<byte>>)
    requires |e| == 64 && Rows56(rows) && Has(file, 0, e + Flatten(rows)) && ValidEhdr(e)
    requires Load(e, 32, 8) == 64 && Load(e, 54, 2) == 56 && Load(e, 56, 2) == |rows|
    ensures ReadRows(file) == Some(rows)
  {
    TableReadBack(file, e, rows);
    RangeBehind(file, e, |rows|);
    ReadAt(file, |rows|);
  }

  lemma ReadAt(file: seq<byte>, n: nat)
    requires |file| >= 64 && ValidEhdr(file) && PhdrRange(file) == (64, 56 * n) && 64 + 56 * n <= |file|
    ensures ReadRows(file) == Some(RawTable(file, 64, n))
  {
    assert 56 * n / 56 == n;
  }

  /** The loader reads back exactly the program headers that were written. */
  lemma HeadersReadBack(file: seq<byte>, ps: seq<Phdr>, page: nat, shoff: nat, shnum: nat, shstrndx: nat)
    requires AllEncodable(ps) && |ps| < 0x1_0000 && Has(file, 0, HeaderBytes(ps, page, shoff, shnum, shstrndx))
    ensures ReadRows(file) == Some(PhdrRows(ps, page)) && ReadPhdrs(file) == Some(ps)
  {
    EhdrRoundTrip(shoff, |ps|, shnum, shstrndx);
    RowsRoundTrip(ps, page);
    ReadBehind(file, ElfHeader(shoff, |ps|, shnum, shstrndx), PhdrRows(ps, page));
  }

  lemma HeaderLength(ps: seq<Phdr>, page: nat, shoff: nat, shnum: nat, shstrndx: nat)
    requires AllEncodable(ps) && |ps| < 0x1_0000
    ensures |HeaderBytes(ps, page, shoff, shnum, shstrndx)| == 64 + 56 * |ps|
  {
    EhdrRoundTrip(shoff, |ps|, shnum, shstrndx);
    RowsRoundTrip(ps, page);
  }

  lemma HeaderPrefix(file: seq<byte>, e: seq<byte>)
    requires |e| == 64 <= |file| && file[..64] == e
    ensures ValidEhdr(file) <==> ValidEhdr(e)
    ensures Load(file, 32, 8) == Load(e, 32, 8) && Load(file, 54, 2) == Load(e, 54, 2)
    ensures Load(file, 56, 2) == Load(e, 56, 2)
  {
    assert file[..4] == e[..4] && file[18..20] == e[18..20] && file[32..40] == e[32..40];
    assert file[54..56] == e[54..56] && file[56..58] == e[56..58];
    assert file[4] == file[..64][4] && file[6] == file[..64][6];
  }

  lemma GroupSame(a: seq<Section>, b: seq<Section>, g: nat)
    requires forall k :: HasKind(a, k) ==> HasKind(b, k)
    ensures HasGroup(a, g) ==> HasGroup(b, g)
  {
    if HasGroup(a, g) {
      var s :| s in a && Group(s.kind) == g;
      assert HasKind(a, s.kind);
      var t :| t in b && t.kind == s.kind;
    }
  }

  lemma PhNumSame(a: seq<Section>, b: seq<Section>)
    requires forall k :: HasKind(a, k) <==> HasKind(b, k)
    ensures PhNum(a) == PhNum(b)
  {
    forall g: nat ensures HasGroup(a, g) <==> HasGroup(b, g) {
      GroupSame(a, b, g);
      GroupSame(b, a, g);
    }
  }

  /** Giving the sorted sections their places changes no kind. */
  lemma KindsKept(secs: seq<Section>, laid: seq<Section>)
    requires |laid| == |SortByGroup(secs)| && forall i :: 0 <= i < |laid| ==> SameSection(SortByGroup(secs)[i], laid[i])
    ensures forall k :: HasKind(secs, k) <==> HasKind(laid, k)
  {
    SortSorts(secs);
    var sorted := SortByGroup(secs);
    forall k ensures HasKind(secs, k) <==> HasKind(laid, k) {
      if HasKind(secs, k) {
        var s :| s in secs && s.kind == k;
        assert s in sorted;
        var i :| 0 <= i < |sorted| && sorted[i] == s;
        assert laid[i] in laid;
      }
      if HasKind(laid, k) {
        var s :| s in laid && s.kind == k;
        var i :| 0 <= i < |laid| && laid[i] == s;
        assert sorted[i] in sorted;
      }
    }
  }

  lemma LowerStart(secs: seq<Section>, base: nat, lo': nat, lo: nat, hi: nat)
    requires LaidOut(secs, base, lo, hi) && lo' <= lo
    ensures LaidOut(secs, base, lo', hi)
  {
    forall i | 0 <= i < |secs| ensures Placed(secs[i], base, lo', hi) {
      assert Placed(secs[i], base, lo, hi);
    }
  }

  /** Where the file's sections end. */
  ghost function FileEnd(secs: seq<Section>, page: nat): nat
    requires page > 0 && forall i :: 0 <= i < |secs| ==> secs[i].addralign > 0
  {
    SortSorts(secs);
    AlignsSorted(secs);
    EndOf(SortByGroup(secs), page, AlignUp(64 + 56 * PhNum(secs), page))
  }

  lemma AlignsSorted(secs: seq<Section>)
    requires forall i :: 0 <= i < |secs| ==> secs[i].addralign > 0
    ensures var sorted := SortByGroup(secs); forall i :: 0 <= i < |sorted| ==> sorted[i].addralign > 0
  {
    SortSorts(secs);
    var sorted := SortByGroup(secs);
    forall i | 0 <= i < |sorted| ensures sorted[i].addralign > 0 {
      assert sorted[i] in sorted;
    }
  }

  /** The places of all sections, decided before their final bytes are known: behind
      exactly as many program headers as will be written. */
  method PlanFile(secs: seq<Section>, base: nat, page: nat) returns (laid: seq<Section>, fileOff: nat)
    requires page > 0 && page % 0x1000 == 0 && forall i :: 0 <= i < |secs| ==> secs[i].addralign > 0
    ensures |laid| == |SortByGroup(secs)| && forall i :: 0 <= i < |laid| ==> SameSection(SortByGroup(secs)[i], laid[i])
    ensures ByGroup(laid) && PhNum(laid) == PhNum(secs)
    ensures 64 + 56 * PhNum(laid) <= fileOff && LaidOut(laid, base, 64 + 56 * PhNum(laid), fileOff)
    ensures fileOff == FileEnd(secs, page)
  {
    SortSorts(secs);
    AlignsSorted(secs);
    var sorted := SortByGroup(secs);
    var layout := new ElfLayout(base, page);
    layout.AddHeader(64, 56 * PhNum(secs));
    ghost var lo := layout.fileOff;
    AlignUpIs(64 + 56 * PhNum(secs), page);
    laid := AssignOffsets(sorted, layout);
    fileOff := layout.fileOff;
    KindsKept(secs, laid);
    PhNumSame(secs, laid);
    LowerStart(laid, base, 64 + 56 * PhNum(laid), lo, fileOff);
  }

  lemma HeadersEncodable(secs: seq<Section>)
    requires AllWords64(secs)
    ensures AllEncodable(ProgramHeaders(secs)) && |ProgramHeaders(secs)| == PhNum(secs)
  {
    CountedHeaders(secs);
    assert AllEncodable(LoadOf(secs, 0)) && AllEncodable(LoadOf(secs, 1)) && AllEncodable(LoadOf(secs, 2));
    EncodableJoin(LoadOf(secs, 0), LoadOf(secs, 1));
    EncodableJoin(LoadOf(secs, 0) + LoadOf(secs, 1), LoadOf(secs, 2));
    EncodableJoin(Special(secs, Dynamic, PT_DYNAMIC, 6), Special(secs, Tls, PT_TLS, 4));
    EncodableJoin([PhdrHeader(secs)], Loads(secs));
    EncodableJoin([PhdrHeader(secs)] + Loads(secs), Specials(secs));
  }

  lemma EncodableJoin(a: seq<Phdr>, b: seq<Phdr>)
    requires AllEncodable(a) && AllEncodable(b)
    ensures AllEncodable(a + b)
  {
  }

  /** The loader reads the program headers of the sections. */
  ghost predicate HeadersOf(file: seq<byte>, laid: seq<Section>, page: nat)
    requires AllWords64(laid)
  {
    ReadRows(file) == Some(PhdrRows(ProgramHeaders(laid), page)) && ReadPhdrs(file) == Some(ProgramHeaders(laid))
  }

  /** The finished file: the headers, every section's bytes and the section headers, all
      of it readable by the loader. */
  ghost predicate FileOf(file: seq<byte>, laid: seq<Section>, alloc: seq<seq<byte>>) {
    && AllWords64(laid) && (exists page :: HeadersOf(file, laid, page))
    && SizesMatch(laid, alloc)
    && forall i :: 0 <= i < |laid| ==> Has(file, laid[i].offset, alloc[laid[i].data])
  }

  /** What the writer puts in front: |laid| sections are followed by their headers. */
  function FileHeaders(laid: seq<Section>, page: nat, fileOff: nat, shstrndx: nat): seq<byte>
    requires AllWords64(laid)
  {
    HeaderBytes(ProgramHeaders(laid), page, fileOff, |laid| + 1, shstrndx)
  }

  lemma FileHeadersGood(laid: seq<Section>, page: nat, fileOff: nat, shstrndx: nat)
    requires AllWords64(laid)
    ensures |FileHeaders(laid, page, fileOff, shstrndx)| == 64 + 56 * PhNum(laid)
    ensures forall file :: Has(file, 0, FileHeaders(laid, page, fileOff, shstrndx)) ==> HeadersOf(file, laid, page)
  {
    var ps := ProgramHeaders(laid);
    HeadersEncodable(laid);
    HeaderLength(ps, page, fileOff, |laid| + 1, shstrndx);
    forall file | Has(file, 0, FileHeaders(laid, page, fileOff, shstrndx)) ensures HeadersOf(file, laid, page) {
      HeadersReadBack(file, ps, page, fileOff, |laid| + 1, shstrndx);
    }
  }

  method EmitFile(laid: seq<Section>, alloc: seq<seq<byte>>, shdrs: seq<byte>, shstrndx: nat,
                  ghost base: nat, page: nat, fileOff: nat) returns (file: seq<byte>)
    requires DylibHeaders.Fits(laid, base, 64 + 56 * PhNum(laid), fileOff) && 64 + 56 * PhNum(laid) <= fileOff
    requires SizesMatch(laid, alloc)
    ensures FileOf(file, laid, alloc) && Has(file, fileOff, shdrs)
  {
    WordsFit(laid, base, 64 + 56 * PhNum(laid), fileOff);
    FileHeadersGood(laid, page, fileOff, shstrndx);
    var headers := FileHeaders(laid, page, fileOff, shstrndx);
    file := WriteSections(headers, laid, alloc, shdrs, base, fileOff);
  }

  // --------------------------------------------------------------------- loading it

  /** The section's bytes are in the reserved space, at its address. */
  ghost predicate InMemory(s: Section, alloc: seq<seq<byte>>, space: ElfSegments, m: seq<byte>) {
    && s.data < |alloc| && |alloc[s.data]| == s.size
    && space.offset <= s.addr && s.addr - space.offset + s.size <= |m|
    && m[s.addr - space.offset..s.addr - space.offset + s.size] == alloc[s.data]
  }

  /** Every allocatable section is at base plus its file offset, with its bytes there. */
  ghost predicate SectionsLoaded(laid: seq<Section>, base: nat, alloc: seq<seq<byte>>, space: ElfSegments,
                                 m: seq<byte>) {
    forall s :: s in laid && s.IsAlloc() ==> s.addr == base + s.offset && InMemory(s, alloc, space, m)
  }

  lemma ShownInMemory(s: Section, p: Phdr, base: nat, alloc: seq<seq<byte>>, space: ElfSegments, file: seq<byte>,
                      os: Os, m: seq<byte>)
    requires s.data < |alloc| && |alloc[s.data]| == s.size && s.addr == base + s.offset
    requires Has(file, s.offset, alloc[s.data]) && Shows(p, base, s.offset, s.size)
    requires space.offset <= p.p_vaddr && p.p_vaddr - space.offset + p.p_memsz <= |m| && p.p_filesz <= p.p_memsz
    requires Image(p, space, file, os, m)
    ensures InMemory(s, alloc, space, m)
  {
    var at := s.addr - space.offset;
    var d := alloc[s.data];
    forall k | 0 <= k < s.size ensures m[at + k] == d[k] {
      assert m[at + k] == ByteAt(file, os, s.offset + k);
      assert file[s.offset..s.offset + |d|][k] == d[k];
    }
    assert m[at..at + s.size] == d;
  }

  lemma LoadIsGroup(laid: seq<Section>, k: nat) returns (g: nat)
    requires AllWords64(laid) && k < |Loads(laid)|
    ensures g < 3 && Of(laid, g) != [] && Loads(laid)[k] == LoadHeader(laid, g)
  {
    var n0, n1 := |LoadOf(laid, 0)|, |LoadOf(laid, 1)|;
    g := if k < n0 then 0 else if k < n0 + n1 then 1 else 2;
  }

  lemma LoadsWithinFile(laid: seq<Section>, base: nat, lo: nat, hi: nat, alloc: seq<seq<byte>>, file: seq<byte>, i: int)
    requires DylibHeaders.Fits(laid, base, lo, hi) && FileOf(file, laid, alloc) && IsLoad(ProgramHeaders(laid), i)
    ensures ProgramHeaders(laid)[i].p_offset + ProgramHeaders(laid)[i].p_filesz <= |file|
  {
    TableShape(laid);
    var ps, loads := ProgramHeaders(laid), Loads(laid);
    assert ps[1..1 + |loads|][i - 1] == ps[i];
    var g := LoadIsGroup(laid, i - 1);
    GroupFacts(laid, base, lo, hi, g);
    var last := Of(laid, g)[|Of(laid, g)| - 1];
    var k :| 0 <= k < |laid| && laid[k] == last;
    assert Has(file, laid[k].offset, alloc[laid[k].data]);
  }

  /** Writer then loader: loading the file puts every allocatable section's bytes at its
      address, which is the load bias plus `base` plus its file offset. */
  method LoadFile(file: seq<byte>, ghost laid: seq<Section>, ghost alloc: seq<seq<byte>>, ghost base: nat,
                  ghost lo: nat,
                  ghost hi: nat, space: ElfSegments, mem: array<byte>, os: Os) returns (ok: bool)
    requires DylibHeaders.Fits(laid, base, lo, hi) && FileOf(file, laid, alloc)
    requires space.Valid() && SpaceOf(ProgramHeaders(laid), space.offset, space.len) && mem.Length == space.len
    modifies mem
    ensures ok && SectionsLoaded(laid, base, alloc, space, mem[..])
  {
    ghost var page :| HeadersOf(file, laid, page);
    var phdrs := ReadPhdrs(file).value;
    HeadersLoadable(laid, base, lo, hi);
    ok := LoadProgram(phdrs, space, mem, file, os);
    forall i | IsLoad(phdrs, i) ensures phdrs[i].p_offset + phdrs[i].p_filesz <= |file| {
      LoadsWithinFile(laid, base, lo, hi, alloc, file, i);
    }
    ghost var m := mem[..];
    forall s | s in laid && s.IsAlloc() ensures s.addr == base + s.offset && InMemory(s, alloc, space, m) {
      var i :| IsLoad(phdrs, i) && Shows(phdrs[i], base, s.offset, s.size);
      var k :| 0 <= k < |laid| && laid[k] == s;
      assert Placed(laid[k], base, lo, hi) && Has(file, laid[k].offset, alloc[laid[k].data]);
      assert HasImage(phdrs, i, space, file, os, m);
      ShownInMemory(s, phdrs[i], base, alloc, space, file, os, m);
    }
  }
}
