/** The System V symbol hash, in the two forms the loader carries: the plain loop
    (src/elf/hash/sysv.rs) and the unrolled one that masks late (src/elf/version.rs). */
module ElfHash {
  import opened Words
  import opened Bits

  type u32 = x: int | 0 <= x < 0x1_0000_0000

  /** `(hash << 4) + byte` on `u32`, wrapping. */
  function Shift(h: u32, b: byte): u32 {
    (16 * h + b) % 0x1_0000_0000
  }

  /** `hash & 0xf0000000`. */
  function Top(h: u32): (g: u32)
  {
    BitAnd(h, 0xf000_0000)
  }

  /** `hash ^ (g >> 24)`. */
  function Mixed(h: u32): nat {
    BitXor(h, Top(h) / 0x100_0000)
  }

  /** The body of the plain loop: `if g != 0 { hash ^= g >> 24 } hash &= !g`. */
  function Round(h: u32, b: byte): nat {
    var h1 := Shift(h, b);
    var g := Top(h1);
    BitAnd(if g != 0 then Mixed(h1) else h1, 0xffff_ffff - g)
  }

  /** The body of the late loop: `hash ^= hi >> 24`, with no mask. */
  function LateRound(h: u32, b: byte): nat {
    Mixed(Shift(h, b))
  }

  /** What both forms compute on the low 28 bits. */
  function Low28(h: u32): nat {
    16 * BitXor(h / 16 % 16, h / 0x1000_0000) + h % 16 + 0x100 * (h / 0x100 % 0x10_0000)
  }

  lemma TopIs(h: u32)
    ensures Top(h) == 0x1000_0000 * (h / 0x1000_0000)
  {
    Pow2At32();
    AndHighMask(h, 28, 32);
    LowBitsIsRemainder(h, 28);
  }

  /** The exclusive or reaches only the second nibble. */
  lemma NibbleXor(q: nat, n: nat, r: nat, t: nat)
    requires n < 16 && r < 16 && t < 16
    ensures BitXor(0x100 * q + 16 * n + r, 16 * t) == 0x100 * q + 16 * BitXor(n, t) + r
    ensures BitXor(n, t) < 16
  {
    Pow2At16();
    XorParts(16 * q + n, r, t, 0, 4, 16);
    XorZero(r);
    XorParts(q, n, 0, t, 4, 16);
    XorZero(q);
  }

  lemma Digits(h: u32)
    ensures h == 0x1000_0000 * (h / 0x1000_0000) + 0x100 * (h / 0x100 % 0x10_0000) + 16 * (h / 16 % 16) + h % 16
    ensures h / 0x1000_0000 < 16
  {
    var a, low := h / 0x100, h % 0x100;
    assert h == 0x100 * a + low;
    assert h / 16 == 16 * a + low / 16 && h % 16 == low % 16;
    assert h / 16 % 16 == low / 16;
    assert a == 0x10_0000 * (a / 0x10_0000) + a % 0x10_0000;
    assert h / 0x1000_0000 == a / 0x10_0000;
  }

  lemma MixedIs(h: u32)
    ensures Mixed(h) == Low28(h) + Top(h)
    ensures Low28(h) < 0x1000_0000
  {
    TopIs(h);
    Digits(h);
    var t, m, n, r := h / 0x1000_0000, h / 0x100 % 0x10_0000, h / 16 % 16, h % 16;
    NibbleXor(0x10_0000 * t + m, n, r, t);
    assert Top(h) / 0x100_0000 == 16 * t;
  }

  lemma ClearParts(t: nat, low: nat)
    requires t < 16 && low < 0x1000_0000
    ensures BitAnd(0x1000_0000 * t + low, 0x1000_0000 * (15 - t) + 0xfff_ffff) == low
  {
    NibbleComplement(t);
    LowMask28(low);
    Pow2At32();
    AndParts(t, low, 15 - t, 0xfff_ffff, 28, 0x1000_0000);
  }

  lemma NibbleComplement(t: nat)
    requires t < 16
    ensures BitAnd(t, 15 - t) == 0
  {
    Pow2At16();
    AndComplement(t, 4);
  }

  lemma LowMask28(x: nat)
    ensures BitAnd(x, 0xfff_ffff) == x % 0x1000_0000
  {
    Pow2At32();
    AndLowMask(x, 28);
    LowBitsIsRemainder(x, 28);
  }

  /** Clearing the bits of `g` removes exactly the top nibble. */
  lemma ClearTop(x: u32, g: u32)
    requires g == 0x1000_0000 * (x / 0x1000_0000)
    ensures BitAnd(x, 0xffff_ffff - g) == x % 0x1000_0000
  {
    ClearParts(x / 0x1000_0000, x % 0x1000_0000);
  }

  /** One plain round clears the top nibble; one late round keeps it; below it they agree. */
  lemma RoundsAgree(h: u32, b: byte)
    ensures Round(h, b) == Low28(Shift(h, b)) < 0x1000_0000
    ensures LateRound(h, b) % 0x1000_0000 == Round(h, b) && LateRound(h, b) < 0x1_0000_0000
  {
    var h1 := Shift(h, b);
    TopIs(h1);
    MixedIs(h1);
    var x := Mixed(h1);
    assert x / 0x1000_0000 == h1 / 0x1000_0000 && x % 0x1000_0000 == Low28(h1);
    ClearTop(x, Top(h1));
    if Top(h1) == 0 {
      XorZero(h1);
    }
  }

  function Fold(h: u32, name: seq<byte>): u32
    decreases |name|
  {
    if |name| == 0 then h else RoundsAgree(h, name[0]); Fold(Round(h, name[0]), name[1..])
  }

  /** The "Hash Table" function of chapter 5 of the System V gABI. */
  function SysvHash(name: seq<byte>): u32 {
    Fold(0, name)
  }

  lemma {:induction false} FoldBound(h: u32, name: seq<byte>)
    requires h < 0x1000_0000
    ensures Fold(h, name) < 0x1000_0000
    decreases |name|
  {
    if |name| > 0 {
      RoundsAgree(h, name[0]);
      FoldBound(Round(h, name[0]), name[1..]);
    }
  }

  lemma {:induction false} FoldAppend(h: u32, name: seq<byte>, b: byte)
    ensures Fold(h, name + [b]) == Round(Fold(h, name), b)
    decreases |name|
  {
    RoundsAgree(h, (name + [b])[0]);
    if |name| == 0 {
      assert (name + [b])[1..] == [];
    } else {
      assert (name + [b])[1..] == name[1..] + [b];
      FoldAppend(Round(h, name[0]), name[1..], b);
    }
  }

  lemma FoldPrefix(name: seq<byte>, i: nat)
    requires i < |name|
    ensures Fold(0, name[..i + 1]) == Round(Fold(0, name[..i]), name[i])
  {
    FoldAppend(0, name[..i], name[i]);
    assert name[..i] + [name[i]] == name[..i + 1];
  }

  /** `ElfHash::hash`. */
  method HashLoop(name: seq<byte>) returns (hash: u32)
    ensures hash == SysvHash(name) && hash < 0x1000_0000
  {
    hash := 0;
    for i := 0 to |name|
      invariant hash == Fold(0, name[..i])
    {
      FoldPrefix(name, i);
      RoundsAgree(hash, name[i]);
      hash := Round(hash, name[i]);
    }
    assert name[..|name|] == name;
    FoldBound(0, name);
  }

  // ------------------------------------------------------------- late masking

  /** The next shift forgets the top nibble that the late form still carries. */
  lemma ShiftForgets(late: u32, h: u32, b: byte)
    requires late % 0x1000_0000 == h
    ensures Shift(late, b) == Shift(h, b)
  {
  }

  /** The late form differs from the plain one in the top nibble only. */
  lemma LateAgrees(late: u32, h: u32, b: byte)
    requires late % 0x1000_0000 == h
    ensures LateRound(late, b) < 0x1_0000_0000 && LateRound(late, b) % 0x1000_0000 == Round(h, b)
  {
    ShiftForgets(late, h, b);
    RoundsAgree(late, b);
    RoundsAgree(h, b);
  }

  /** While the hash is short, a round is a shift: there is nothing to mask. */
  lemma ShortRound(h: u32, b: byte)
    requires 16 * h + b < 0x1000_0000
    ensures Round(h, b) == 16 * h + b == Shift(h, b)
  {
    TopIs(Shift(h, b));
    ClearTop(Shift(h, b), 0);
  }

  /** `SymbolVersion::dl_elf_hash`: four unrolled rounds without masking, then rounds
      that mask late. It equals the plain hash on every name whose first byte is not
      zero and is 0 otherwise. (The empty name indexes out of bounds.) */
  method DlElfHash(name: seq<byte>) returns (hash: u32)
    requires |name| > 0
    ensures hash == VersionHash(name) && hash < 0x1000_0000
  {
    hash := name[0];
    FoldPrefix(name, 0);
    ShortRound(0, name[0]);
    if hash != 0 && |name| > 1 {
      hash := Unrolled(name, 1, hash, 0xff);
      if |name| > 2 {
        hash := Unrolled(name, 2, hash, 0x10ef);
        if |name| > 3 {
          hash := Unrolled(name, 3, hash, 0x1_0fef);
          if |name| > 4 {
            hash := Unrolled(name, 4, hash, 0x10_ffef);
            hash := LateLoop(name, hash);
          }
        }
      }
    }
    assert name[..|name|] == name;
    FoldBound(0, name);
  }

  method Unrolled(name: seq<byte>, k: nat, h: u32, ghost cap: nat) returns (hash: u32)
    requires k < |name| && h == Fold(0, name[..k]) && h <= cap <= 0x10_ffef
    ensures hash == Fold(0, name[..k + 1]) && hash <= 16 * cap + 255
  {
    FoldPrefix(name, k);
    ShortRound(h, name[k]);
    hash := Shift(h, name[k]);
  }

  method LateStep(late: u32, ghost h: u32, b: byte) returns (hash: u32)
    requires late % 0x1000_0000 == h
    ensures hash % 0x1000_0000 == Round(h, b)
  {
    LateAgrees(late, h, b);
    hash := LateRound(late, b);
  }

  method LateNext(name: seq<byte>, k: nat, late: u32) returns (hash: u32)
    requires k < |name| && late % 0x1000_0000 == Fold(0, name[..k])
    ensures hash % 0x1000_0000 == Fold(0, name[..k + 1])
  {
    FoldPrefix(name, k);
    hash := LateStep(late, Fold(0, name[..k]), name[k]);
  }

  method LateLoop(name: seq<byte>, h: u32) returns (hash: u32)
    requires |name| > 4 && h == Fold(0, name[..5]) && h < 0x1000_0000
    ensures hash == SysvHash(name)
  {
    hash := h;
    for k := 5 to |name|
      invariant hash % 0x1000_0000 == Fold(0, name[..k])
    {
      hash := LateNext(name, k, hash);
    }
    assert name[..|name|] == name;
    hash := MaskLow28(hash);
  }

  method MaskLow28(late: u32) returns (hash: u32)
    ensures hash == late % 0x1000_0000
  {
    LowMask28(late);
    hash := BitAnd(late, 0x0fff_ffff);
  }

  /** A leading zero byte does not count in the plain hash. */
  lemma LeadingZero(name: seq<byte>)
    requires |name| > 0 && name[0] == 0
    ensures SysvHash(name) == SysvHash(name[1..])
  {
    ShortRound(0, name[0]);
  }

  /** What `DlElfHash` computes. */
  function VersionHash(name: seq<byte>): u32
    requires |name| > 0
  {
    if name[0] == 0 then 0 else SysvHash(name)
  }

  /** The two hashes differ exactly on the names that start with a zero byte and whose rest
      does not hash to zero. */
  lemma HashesDifferIff(name: seq<byte>)
    requires |name| > 0
    ensures VersionHash(name) != SysvHash(name) <==> name[0] == 0 && SysvHash(name[1..]) != 0
  {
    if name[0] == 0 {
      LeadingZero(name);
    }
  }

  /** They differ on a zero byte followed by any other one, and agree on it alone. */
  lemma LeadingZeroDiffers(b: byte)
    requires b > 0
    ensures SysvHash([0, b]) == b && VersionHash([0, b]) != SysvHash([0, b])
    ensures VersionHash([0]) == SysvHash([0])
  {
    var name := [0, b];
    LeadingZero(name);
    assert name[1..] == [b];
    FoldAppend(0, [], b);
    assert [] + [b] == [b];
    ShortRound(0, b);
    LeadingZero([0]);
  }
}
