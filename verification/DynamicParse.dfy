/** The loader's pass over `.dynamic` (`ElfDynamic::new`, src/elf/dynamic.rs): the last
    entry of each tag wins, and the pass ends at DT_NULL. */
module DynamicParse {
  import opened Words
  import opened Records
  import opened DylibDynamic

  /** The loop's local variables. `None` in a field whose value must not be zero stands
      for an absent or zero entry. */
  datatype Info = Info(symtab: u64, strtab: u64, hash: Option<u64>, gnuHash: Option<u64>, got: Option<u64>,
                       pltrelSize: Option<u64>, pltrel: Option<u64>, rel: Option<u64>, relSize: Option<u64>,
                       relCount: Option<u64>, relr: Option<u64>, relrSize: Option<u64>, init: Option<u64>,
                       fini: Option<u64>, initArray: Option<u64>, initArraySize: Option<u64>, finiArray: Option<u64>,
                       finiArraySize: Option<u64>, flags: u64, flags1: u64, isRela: Option<bool>, needed: seq<u64>)

  function NonZero(v: Option<u64>): Option<u64> {
    if v == Some(0) then None else v
  }

  function OrZero(v: Option<u64>): u64 {
    if v.Some? then v.value else 0
  }

  /** The non-zero values of DT_NEEDED among the first `k` entries, in order. */
  function Needed(es: seq<DynEntry>, k: nat): seq<u64>
    requires k <= |es|
  {
    if k == 0 then []
    else Needed(es, k - 1) + (if es[k - 1].tag == DT_NEEDED && es[k - 1].value != 0 then [es[k - 1].value] else [])
  }

  /** Whether the relocations have addends: DT_PLTREL says it by its value, DT_RELA and
      DT_REL by being there; the last of them decides. */
  function IsRela(es: seq<DynEntry>, k: nat): Option<bool>
    requires k <= |es|
  {
    if k == 0 then None
    else if es[k - 1].tag == DT_PLTREL then Some(es[k - 1].value == 7)
    else if es[k - 1].tag == DT_RELA || es[k - 1].tag == DT_REL then Some(es[k - 1].tag == DT_RELA)
    else IsRela(es, k - 1)
  }

  predicate ReadTables(f: Info, es: seq<DynEntry>, k: nat)
    requires k <= |es|
  {
    && f.symtab == OrZero(Last(es, k, DT_SYMTAB, DT_SYMTAB)) && f.strtab == OrZero(Last(es, k, DT_STRTAB, DT_STRTAB))
    && f.hash == Last(es, k, DT_HASH, DT_HASH) && f.gnuHash == Last(es, k, DT_GNU_HASH, DT_GNU_HASH)
    && f.got == NonZero(Last(es, k, DT_PLTGOT, DT_PLTGOT)) && f.needed == Needed(es, k)
  }

  predicate ReadPlt(f: Info, es: seq<DynEntry>, k: nat)
    requires k <= |es|
  {
    && f.pltrelSize == NonZero(Last(es, k, DT_PLTRELSZ, DT_PLTRELSZ))
    && f.pltrel == NonZero(Last(es, k, DT_JMPREL, DT_JMPREL))
    && f.relr == NonZero(Last(es, k, DT_RELR, DT_RELR)) && f.relrSize == NonZero(Last(es, k, DT_RELRSZ, DT_RELRSZ))
  }

  predicate ReadRel(f: Info, es: seq<DynEntry>, k: nat)
    requires k <= |es|
  {
    && f.rel == NonZero(Last(es, k, DT_RELA, DT_REL)) && f.relSize == NonZero(Last(es, k, DT_RELASZ, DT_RELSZ))
    && f.relCount == NonZero(Last(es, k, DT_RELACOUNT, DT_RELCOUNT)) && f.isRela == IsRela(es, k)
  }

  predicate ReadArrays(f: Info, es: seq<DynEntry>, k: nat)
    requires k <= |es|
  {
    && f.initArray == NonZero(Last(es, k, DT_INIT_ARRAY, DT_INIT_ARRAY))
    && f.initArraySize == NonZero(Last(es, k, DT_INIT_ARRAYSZ, DT_INIT_ARRAYSZ))
    && f.finiArray == NonZero(Last(es, k, DT_FINI_ARRAY, DT_FINI_ARRAY))
    && f.finiArraySize == NonZero(Last(es, k, DT_FINI_ARRAYSZ, DT_FINI_ARRAYSZ))
  }

  predicate ReadFlags(f: Info, es: seq<DynEntry>, k: nat)
    requires k <= |es|
  {
    && f.init == NonZero(Last(es, k, DT_INIT, DT_INIT)) && f.fini == NonZero(Last(es, k, DT_FINI, DT_FINI))
    && f.flags == OrZero(Last(es, k, DT_FLAGS, DT_FLAGS)) && f.flags1 == OrZero(Last(es, k, DT_FLAGS_1, DT_FLAGS_1))
  }

  /** The variables after the first `k` entries. */
  predicate Read(f: Info, es: seq<DynEntry>, k: nat)
    requires k <= |es|
  {
    ReadTables(f, es, k) && ReadPlt(f, es, k) && ReadRel(f, es, k) && ReadArrays(f, es, k) && ReadFlags(f, es, k)
  }

  // The arms of the loop's match, by what they set.

  function NoteTables(f: Info, e: DynEntry): Info {
    var v := e.value;
    if e.tag == DT_PLTGOT then f.(got := NonZero(Some(v)))
    else if e.tag == DT_NEEDED then if v == 0 then f else f.(needed := f.needed + [v])
    else if e.tag == DT_HASH then f.(hash := Some(v))
    else if e.tag == DT_GNU_HASH then f.(gnuHash := Some(v))
    else if e.tag == DT_SYMTAB then f.(symtab := v)
    else if e.tag == DT_STRTAB then f.(strtab := v)
    else f
  }

  function NotePlt(f: Info, e: DynEntry): Info {
    var nz := NonZero(Some(e.value));
    if e.tag == DT_PLTRELSZ then f.(pltrelSize := nz)
    else if e.tag == DT_JMPREL then f.(pltrel := nz)
    else if e.tag == DT_RELR then f.(relr := nz)
    else if e.tag == DT_RELRSZ then f.(relrSize := nz)
    else f
  }

  function NoteRel(f: Info, e: DynEntry): Info {
    var nz := NonZero(Some(e.value));
    if e.tag == DT_PLTREL then f.(isRela := Some(e.value == 7))
    else if e.tag == DT_RELA || e.tag == DT_REL then f.(isRela := Some(e.tag == DT_RELA), rel := nz)
    else if e.tag == DT_RELASZ || e.tag == DT_RELSZ then f.(relSize := nz)
    else if e.tag == DT_RELACOUNT || e.tag == DT_RELCOUNT then f.(relCount := nz)
    else f
  }

  function NoteArrays(f: Info, e: DynEntry): Info {
    var nz := NonZero(Some(e.value));
    if e.tag == DT_INIT_ARRAY then f.(initArray := nz)
    else if e.tag == DT_INIT_ARRAYSZ then f.(initArraySize := nz)
    else if e.tag == DT_FINI_ARRAY then f.(finiArray := nz)
    else if e.tag == DT_FINI_ARRAYSZ then f.(finiArraySize := nz)
    else f
  }

  function NoteFlags(f: Info, e: DynEntry): Info {
    var nz := NonZero(Some(e.value));
    if e.tag == DT_INIT then f.(init := nz)
    else if e.tag == DT_FINI then f.(fini := nz)
    else if e.tag == DT_FLAGS then f.(flags := e.value)
    else if e.tag == DT_FLAGS_1 then f.(flags1 := e.value)
    else f
  }

  /** One turn of the loop. No tag has two arms, so their order does not matter. */
  function Note(f: Info, e: DynEntry): Info {
    NoteFlags(NoteArrays(NoteRel(NotePlt(NoteTables(f, e), e), e), e), e)
  }

  lemma TablesNoted(f: Info, es: seq<DynEntry>, k: nat)
    requires k < |es| && ReadTables(f, es, k)
    ensures ReadTables(NoteTables(f, es[k]), es, k + 1)
  {
  }

  lemma PltNoted(f: Info, es: seq<DynEntry>, k: nat)
    requires k < |es| && ReadPlt(f, es, k)
    ensures ReadPlt(NotePlt(f, es[k]), es, k + 1)
  {
  }

  lemma RelNoted(f: Info, es: seq<DynEntry>, k: nat)
    requires k < |es| && ReadRel(f, es, k)
    ensures ReadRel(NoteRel(f, es[k]), es, k + 1)
  {
  }

  lemma ArraysNoted(f: Info, es: seq<DynEntry>, k: nat)
    requires k < |es| && ReadArrays(f, es, k)
    ensures ReadArrays(NoteArrays(f, es[k]), es, k + 1)
  {
  }

  lemma FlagsNoted(f: Info, es: seq<DynEntry>, k: nat)
    requires k < |es| && ReadFlags(f, es, k)
    ensures ReadFlags(NoteFlags(f, es[k]), es, k + 1)
  {
  }

  /** An arm leaves the variables of the other groups alone. */
  lemma Untouched(f: Info, e: DynEntry, es: seq<DynEntry>, k: nat)
    requires k <= |es|
    ensures ReadPlt(f, es, k) ==> ReadPlt(NoteTables(f, e), es, k)
    ensures ReadRel(f, es, k) ==> ReadRel(NotePlt(NoteTables(f, e), e), es, k)
    ensures ReadArrays(f, es, k) ==> ReadArrays(NoteRel(NotePlt(NoteTables(f, e), e), e), es, k)
    ensures ReadFlags(f, es, k) ==> ReadFlags(NoteArrays(NoteRel(NotePlt(NoteTables(f, e), e), e), e), es, k)
  {
  }

  lemma UntouchedLater(f: Info, e: DynEntry, es: seq<DynEntry>, k: nat)
    requires k <= |es|
    ensures ReadTables(f, es, k) ==> ReadTables(NoteFlags(NoteArrays(NoteRel(NotePlt(f, e), e), e), e), es, k)
    ensures ReadPlt(f, es, k) ==> ReadPlt(NoteFlags(NoteArrays(NoteRel(f, e), e), e), es, k)
    ensures ReadRel(f, es, k) ==> ReadRel(NoteFlags(NoteArrays(f, e), e), es, k)
    ensures ReadArrays(f, es, k) ==> ReadArrays(NoteFlags(f, e), es, k)
  {
  }

  lemma NoteReads(f: Info, es: seq<DynEntry>, k: nat)
    requires k < |es| && Read(f, es, k)
    ensures Read(Note(f, es[k]), es, k + 1)
  {
    var e := es[k];
    var f1 := NoteTables(f, e);
    var f2 := NotePlt(f1, e);
    var f3 := NoteRel(f2, e);
    var f4 := NoteArrays(f3, e);
    Untouched(f, e, es, k);
    TablesNoted(f, es, k);
    PltNoted(f1, es, k);
    RelNoted(f2, es, k);
    ArraysNoted(f3, es, k);
    FlagsNoted(f4, es, k);
    UntouchedLater(f1, e, es, k + 1);
    UntouchedLater(f2, e, es, k + 1);
    UntouchedLater(f3, e, es, k + 1);
    UntouchedLater(f4, e, es, k + 1);
  }

  datatype Outcome = Parsed(info: Info, hashIsGnu: bool) | NoHash | Panic

  /** The pass. Relocations without addends panic; a missing hash table is an error; the
      GNU table is preferred. */
  method ParseDynamic(es: seq<DynEntry>) returns (r: Outcome)
    requires HasTag(es, DT_NULL)
    ensures var end := Find(es, DT_NULL);
            var noHash := Last(es, end, DT_HASH, DT_HASH).None? && Last(es, end, DT_GNU_HASH, DT_GNU_HASH).None?;
            match r
            case Panic => IsRela(es, end) == Some(false)
            case NoHash => IsRela(es, end) != Some(false) && noHash
            case Parsed(info, gnu) =>
              IsRela(es, end) != Some(false) && !noHash && Read(info, es, end) && (gnu <==> info.gnuHash.Some?)
  {
    var info := Info(0, 0, None, None, None, None, None, None, None, None, None, None, None, None, None, None, None,
                     None,
                     0, 0, None, []);
    var i := 0;
    while es[i].tag != DT_NULL
      invariant 0 <= i <= Find(es, DT_NULL) < |es| && Read(info, es, i)
      decreases |es| - i
    {
      NoteReads(info, es, i);
      info := Note(info, es[i]);
      i := i + 1;
    }
    if info.isRela == Some(false) {
      r := Panic;
    } else if info.gnuHash.None? && info.hash.None? {
      r := NoHash;
    } else {
      r := Parsed(info, info.gnuHash.Some?);
    }
  }

  // ------------------------------------------------------------------- the round trip

  lemma {:induction false} LastBeforeEnd(es: seq<DynEntry>, k: nat, tag: nat)
    requires WellFormed(es) && k == |es| - 1 && tag != 0
    ensures Last(es, k, tag, tag) == Get(es, tag) && Find(es, 0) == k
  {
  }

  lemma {:induction false} LastOfTwo(es: seq<DynEntry>, k: nat, tag: nat, other: nat)
    requires k <= |es| && forall i :: 0 <= i < k ==> es[i].tag != other
    ensures Last(es, k, tag, other) == Last(es, k, tag, tag)
  {
    if k > 0 {
      LastOfTwo(es, k - 1, tag, other);
    }
  }

  /** Reading a well-formed list of the writer's tags gives each tag the one value it has. */
  lemma ReadsBack(es: seq<DynEntry>, f: Info)
    requires WellFormed(es) && KnownTags(es) && Read(f, es, |es| - 1)
    ensures f.symtab == OrZero(Get(es, DT_SYMTAB)) && f.strtab == OrZero(Get(es, DT_STRTAB))
    ensures f.hash == Get(es, DT_HASH)
    ensures f.got == NonZero(Get(es, DT_PLTGOT)) && f.pltrel == NonZero(Get(es, DT_JMPREL))
    ensures f.pltrelSize == NonZero(Get(es, DT_PLTRELSZ)) && f.rel == NonZero(Get(es, DT_RELA))
    ensures f.relSize == NonZero(Get(es, DT_RELASZ)) && f.relCount == NonZero(Get(es, DT_RELACOUNT))
    ensures f.gnuHash == None
  {
    var k := |es| - 1;
    forall tag | tag != 0 ensures Last(es, k, tag, tag) == Get(es, tag) {
      LastBeforeEnd(es, k, tag);
    }
    LastOfTwo(es, k, DT_RELA, DT_REL);
    LastOfTwo(es, k, DT_RELASZ, DT_RELSZ);
    LastOfTwo(es, k, DT_RELACOUNT, DT_RELCOUNT);
    LastNone(es, k, DT_GNU_HASH);
  }

  /** The writer's relocations have addends, and `.dynamic` says so. */
  lemma {:induction false} RelaSaid(es: seq<DynEntry>, k: nat)
    requires WellFormed(es) && KnownTags(es) && Get(es, DT_PLTREL) == Some(7) && k <= |es|
    ensures IsRela(es, k) != Some(false)
  {
    if k > 0 {
      RelaSaid(es, k - 1);
      GetIs(es, k - 1);
    }
  }

  // ----------------------------------------------------------------------- as bytes

  function DynFields(e: DynEntry): seq<Field> {
    [Field(e.tag, 8), Field(e.value, 8)]
  }

  function DecodeDyn(s: seq<byte>): DynEntry
    requires |s| == 16
  {
    LittleEndianInverts(s[0..8]);
    LittleEndianInverts(s[8..16]);
    Pow256Values();
    DynEntry(Load(s, 0, 8), Load(s, 8, 8))
  }

  lemma DynRoundTrip(e: DynEntry)
    ensures |Encode(DynFields(e))| == 16 && DecodeDyn(Encode(DynFields(e))) == e
  {
    var fs := DynFields(e);
    Pow256Values();
    assert Skip(fs, 1) == 8;
    EncodeLength(fs);
    FieldLoads(fs, 0, 0);
    FieldLoads(fs, 1, 8);
  }

  function DynRows(es: seq<DynEntry>): (rows: seq<seq<byte>>)
    ensures |rows| == |es| && forall i :: 0 <= i < |es| ==> rows[i] == Encode(DynFields(es[i]))
  {
    seq(|es|, i requires 0 <= i < |es| => Encode(DynFields(es[i])))
  }

  /** The section takes 16 bytes per entry and its entries are read back in place. */
  lemma DynReadBack(es: seq<DynEntry>, i: nat)
    requires i < |es|
    ensures |Flatten(DynRows(es))| == 16 * |es|
    ensures 16 * i + 16 <= |Flatten(DynRows(es))| && DecodeDyn(Flatten(DynRows(es))[16 * i..16 * i + 16]) == es[i]
  {
    forall k | 0 <= k < |es| ensures |DynRows(es)[k]| == 16 {
      DynRoundTrip(es[k]);
    }
    FlattenLength(DynRows(es), 16);
    RowAt(DynRows(es), 16, i);
    DynRoundTrip(es[i]);
  }
}
