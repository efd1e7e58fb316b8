/** Symbol and relocation entries and string tables (src/elf/defs.rs, src/elf/symbol.rs). */
module Symbols {
  import opened Words

  const STB_LOCAL := 0
  const STB_GLOBAL := 1
  const STB_WEAK := 2
  const STB_GNU_UNIQUE := 10
  const STT_FILE := 4
  const STT_GNU_IFUNC := 10
  const SHN_UNDEF := 0

  /** `name` is the offset of the name in the string table. */
  datatype Sym = Sym(name: nat, bind: nat, stype: nat, shndx: nat, value: u64, size: nat) {
    predicate IsUndef() {
      shndx == SHN_UNDEF
    }

    predicate IsLocal() {
      bind == STB_LOCAL
    }

    predicate IsWeak() {
      bind == STB_WEAK
    }

    /** Global, weak and GNU unique bindings may satisfy a reference. */
    predicate IsOkBind() {
      bind == STB_GLOBAL || bind == STB_WEAK || bind == STB_GNU_UNIQUE
    }

    /** Untyped, object, function, common, TLS and IFUNC symbols may. */
    predicate IsOkType() {
      stype in {0, 1, 2, 5, 6, 10}
    }
  }

  /** A relocation entry. */
  datatype Rela = Rela(off: nat, rtype: nat, sym: nat, addend: int)

  /** A 24-byte symbol entry as the loader sees it in place. */
  function DecodeSym(s: seq<byte>): Sym
    requires |s| == 24
  {
    LittleEndianInverts(s[8..16]);
    Pow256Values();
    Sym(Load(s, 0, 4), Load(s, 4, 1) / 16, Load(s, 4, 1) % 16, Load(s, 6, 2), Load(s, 8, 8), Load(s, 16, 8))
  }

  /** A 24-byte relocation entry: the type is the low half of `r_info`, the symbol the
      high half. */
  function DecodeRela(s: seq<byte>): Rela
    requires |s| == 24
  {
    LittleEndianInverts(s[16..24]);
    Pow256Values();
    Rela(Load(s, 0, 8), Load(s, 8, 8) % 0x1_0000_0000, Load(s, 8, 8) / 0x1_0000_0000, Signed64(Load(s, 16, 8)))
  }

  /** The bytes from `off` up to the first NUL. */
  function GetStr(strtab: seq<byte>, off: nat): (s: seq<byte>)
    ensures forall i :: 0 <= i < |s| ==> s[i] != 0
    decreases |strtab| - off
  {
    if off >= |strtab| || strtab[off] == 0 then [] else [strtab[off]] + GetStr(strtab, off + 1)
  }
}
