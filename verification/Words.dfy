/** Machine words, little-endian encoding and byte memory.

    Memory contents are `seq<byte>` in specifications and `array<byte>` in the
    methods that write them; the file on disk is a `seq<byte>`. Words are
    integers, and every place where the loader wraps says so with `Wrap64`. */
module Words {

  datatype Option<+T> = None | Some(value: T)

  type byte = x: int | 0 <= x < 256

  const U32 := 0x1_0000_0000
  const U64 := 0x1_0000_0000_0000_0000
  const I32_MAX := 0x7fff_ffff
  const I64_MAX := 0x7fff_ffff_ffff_ffff

  type u64 = x: int | 0 <= x < 0x1_0000_0000_0000_0000

  function Wrap64(x: int): u64 {
    x % 0x1_0000_0000_0000_0000
  }

  /** Reads a `usize` as an `isize`. */
  function Signed64(x: u64): int {
    if x <= I64_MAX then x else x - U64
  }

  function Signed32(x: int): int {
    if x <= I32_MAX then x else x - U32
  }

  /** The ranges `[a, a + n)` and `[b, b + m)` have no element in common. */
  predicate Disjoint(a: int, n: int, b: int, m: int) {
    n <= 0 || m <= 0 || a + n <= b || b + m <= a
  }

  predicate PairwiseDistinct<T(==)>(s: seq<T>) {
    forall i, j :: 0 <= i < j < |s| ==> s[i] != s[j]
  }

  // ---------------------------------------------------------------- arithmetic

  lemma ModUnique(x: int, m: int, q: int, r: int)
    requires 0 <= r < m
    requires x == m * q + r
    ensures x % m == r
    ensures x / m == q
  {
    var d := x / m - q;
    assert m * d == r - x % m by {
      assert x == m * (x / m) + x % m;
    }
    assert d >= 1 ==> m * d >= m;
    assert d <= -1 ==> m * d <= -m;
  }

  lemma WrapSmall(x: int)
    requires 0 <= x < 0x1_0000_0000_0000_0000
    ensures Wrap64(x) == x
  {
  }

  /** Wrapping at each step of a sum is the same as wrapping once at the end. */
  lemma WrapAdd(x: int, y: int)
    ensures Wrap64(Wrap64(x) + y) == Wrap64(x + y)
    ensures Wrap64(Wrap64(x) - y) == Wrap64(x - y)
  {
    ModUnique(Wrap64(x) + y, U64, (x + y) / U64 - x / U64, (x + y) % U64);
    ModUnique(Wrap64(x) - y, U64, (x - y) / U64 - x / U64, (x - y) % U64);
  }

  /** Adding `y` changes nothing modulo 2^64 exactly when `y` is 0 there. */
  lemma WrapCancels(x: int, y: int)
    ensures Wrap64(x + y) == Wrap64(x) <==> Wrap64(y) == 0
  {
    WrapAdd(y, x);
    if Wrap64(x + y) == Wrap64(x) {
      WrapAdd(x + y, x);
      WrapAdd(x, x);
    }
  }

  // ------------------------------------------------------------- little endian

  function Pow256(n: nat): (p: nat)
    ensures p > 0
  {
    if n == 0 then 1 else 256 * Pow256(n - 1)
  }

  /** The low `n` bytes of `v` in two's complement, least significant first. */
  function LittleEndian(v: int, n: nat): (s: seq<byte>)
    ensures |s| == n
    decreases n, v
  {
    if n == 0 then [] else [v % 256] + LittleEndian(v / 256, n - 1)
  }

  function FromLittleEndian(s: seq<byte>): nat {
    if |s| == 0 then 0 else s[0] + 256 * FromLittleEndian(s[1..])
  }

  lemma {:induction false} LittleEndianDecodes(v: int, n: nat)
    ensures FromLittleEndian(LittleEndian(v, n)) == v % Pow256(n)
    decreases n
  {
    if n == 0 {
    } else {
      LittleEndianDecodes(v / 256, n - 1);
      var p := Pow256(n - 1);
      var r := v / 256 % p;
      assert LittleEndian(v, n)[1..] == LittleEndian(v / 256, n - 1);
      assert v == 256 * p * (v / 256 / p) + (256 * r + v % 256) by {
        assert v / 256 == p * (v / 256 / p) + r;
      }
      ModUnique(v, 256 * p, v / 256 / p, 256 * r + v % 256);
    }
  }

  lemma {:induction false} LittleEndianInverts(s: seq<byte>)
    ensures LittleEndian(FromLittleEndian(s), |s|) == s
    ensures FromLittleEndian(s) < Pow256(|s|)
  {
    if |s| == 0 {
    } else {
      LittleEndianInverts(s[1..]);
      ModUnique(FromLittleEndian(s), 256, FromLittleEndian(s[1..]), s[0]);
    }
  }

  lemma Pow256Values()
    ensures Pow256(2) == 0x1_0000 && Pow256(4) == U32 && Pow256(8) == U64
  {
    assert Pow256(2) == 0x1_0000;
    assert Pow256(3) == 0x100_0000;
    assert Pow256(4) == U32;
    assert Pow256(6) == 0x1_0000_0000_0000;
    assert Pow256(8) == U64;
  }

  // -------------------------------------------------------------------- memory

  /** `m` with the bytes `s` stored from offset `off`. */
  function Put(m: seq<byte>, off: nat, s: seq<byte>): (r: seq<byte>)
    requires off + |s| <= |m|
    ensures |r| == |m|
    ensures forall i :: 0 <= i < |m| ==> r[i] == if off <= i < off + |s| then s[i - off] else m[i]
  {
    m[..off] + s + m[off + |s|..]
  }

  function Load(m: seq<byte>, off: nat, n: nat): (v: nat)
    requires off + n <= |m|
  {
    FromLittleEndian(m[off..off + n])
  }

  function Store(m: seq<byte>, off: nat, v: int, n: nat): (r: seq<byte>)
    requires off + n <= |m|
  {
    Put(m, off, LittleEndian(v, n))
  }

  /** A slice of a slice. */
  lemma SubSlice(m: seq<byte>, at: nat, n: nat, i: nat, j: nat)
    requires at + n <= |m| && i <= j <= n
    ensures m[at..at + n][i..j] == m[at + i..at + j]
  {
    var u, v := m[at..at + n][i..j], m[at + i..at + j];
    forall k | 0 <= k < j - i ensures u[k] == v[k] {
      assert m[at..at + n][i + k] == m[at + i + k];
    }
  }

  lemma LoadStored(m: seq<byte>, off: nat, v: int, n: nat)
    requires off + n <= |m|
    ensures Load(Store(m, off, v, n), off, n) == v % Pow256(n)
  {
    assert Store(m, off, v, n)[off..off + n] == LittleEndian(v, n);
    LittleEndianDecodes(v, n);
  }

  lemma LoadPutElsewhere(m: seq<byte>, off: nat, s: seq<byte>, at: nat, n: nat)
    requires off + |s| <= |m| && at + n <= |m|
    requires Disjoint(off, |s|, at, n)
    ensures Put(m, off, s)[at..at + n] == m[at..at + n]
    ensures Load(Put(m, off, s), at, n) == Load(m, at, n)
  {
    assert Put(m, off, s)[at..at + n] == m[at..at + n];
  }

  method WriteBytes(a: array<byte>, off: nat, s: seq<byte>)
    requires off + |s| <= a.Length
    modifies a
    ensures a[..] == Put(old(a[..]), off, s)
  {
    for k := 0 to |s|
      invariant a[..] == Put(old(a[..]), off, s[..k])
    {
      a[off + k] := s[k];
    }
    assert s[..|s|] == s;
  }

  function Zeros(n: nat): (s: seq<byte>)
    ensures |s| == n
    ensures forall i :: 0 <= i < n ==> s[i] == 0
  {
    seq(n, _ => 0)
  }
}
