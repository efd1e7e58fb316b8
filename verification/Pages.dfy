/** Page and alignment arithmetic.

    The loader rounds with masks, `(x + a - 1) & !(a - 1)` and `x & !(a - 1)`.
    `BitAnd` is conjunction bit by bit on naturals; the lemmas show that on a
    power of two the masks are ceiling and floor to a multiple. */
module Pages {
  import opened Words
  import opened Bits

  const PAGE_SIZE := 0x1000

  // ------------------------------------------------------------ loader rounding

  /** The mask form of `roundup`. */
  function MaskUp(x: nat, align: u64): (r: u64) {
    if align == 0 then Wrap64(x) else BitAnd(Wrap64(x + align - 1), Not64(align - 1))
  }

  /** The mask form of `rounddown`. */
  function MaskDown(x: u64, align: u64): (r: u64)
    requires align > 0
  {
    BitAnd(x, Not64(align - 1))
  }

  /** The multiple of `align` at or before `x`. */
  function Floor(x: int, align: int): int
    requires align > 0
  {
    x - x % align
  }

  /** The multiple of `align` at or after `x`. */
  function Ceil(x: int, align: int): int
    requires align > 0
  {
    Floor(x + align - 1, align)
  }

  /** `roundup`: alignment 0 asks for nothing. */
  function RoundUp(x: int, align: int): int
    requires align >= 0
  {
    if align == 0 then x else Ceil(x, align)
  }

  /** Ceiling and floor are what their names say: the nearest multiples. */
  lemma NearestMultiples(x: int, align: int)
    requires align > 0
    ensures Floor(x, align) % align == 0 && Floor(x, align) <= x < Floor(x, align) + align
    ensures Ceil(x, align) % align == 0 && x <= Ceil(x, align) < x + align
    ensures x % align == 0 ==> Ceil(x, align) == x == Floor(x, align)
    ensures x >= 0 ==> Floor(x, align) >= 0
  {
    ModUnique(Floor(x, align), align, x / align, 0);
    var y := x + align - 1;
    ModUnique(Floor(y, align), align, y / align, 0);
    if x % align == 0 {
      ModUnique(y, align, x / align, align - 1);
    }
    if x >= 0 {
      assert x / align >= 0;
      assert Floor(x, align) == align * (x / align);
    }
  }

  lemma MaskFloor(x: u64, k: nat, n: nat)
    requires Pow2(k) < Pow2(n) == U64
    ensures MaskDown(x, Pow2(k)) == Floor(x, Pow2(k))
  {
    if n <= k {
      Pow2Monotone(n, k);
    }
    AndHighMask(x, k, n);
    LowBitsIsRemainder(x, k);
  }

  /** The masks compute `RoundUp` and `Floor` for alignment 0 and every power of two. */
  lemma MaskRounding(x: nat, align: u64)
    requires align == 0 || PowerOfTwo(align)
    requires x + align < 0x1_0000_0000_0000_0000
    ensures MaskUp(x, align) == RoundUp(x, align)
    ensures align > 0 ==> MaskDown(x, align) == Floor(x, align)
  {
    if align == 0 {
      WrapSmall(x);
    } else {
      var k: nat :| align == Pow2(k);
      WrapSmall(x + align - 1);
      MaskBoth(x, k);
    }
  }

  lemma MaskBoth(x: nat, k: nat)
    requires x + Pow2(k) < U64
    ensures MaskDown(x + Pow2(k) - 1, Pow2(k)) == Ceil(x, Pow2(k))
    ensures MaskDown(x, Pow2(k)) == Floor(x, Pow2(k))
  {
    Pow2At64();
    MaskFloor(x + Pow2(k) - 1, k, 64);
    MaskFloor(x, k, 64);
  }

  // ---------------------------------------------------------------------- pages

  function PageDown(x: int): int {
    x / 0x1000 * 0x1000
  }

  function PageUp(x: int): int {
    (x + 0xfff) / 0x1000 * 0x1000
  }

  predicate PageAligned(x: int) {
    x % 0x1000 == 0
  }

  /** Page rounding is the mask rounding with `PAGE_SIZE`. */
  lemma PageRounding(x: nat)
    requires x + PAGE_SIZE < U64
    ensures PageUp(x) == MaskUp(x, PAGE_SIZE)
    ensures PageDown(x) == MaskDown(x, PAGE_SIZE)
  {
    Pow2At16();
    assert PowerOfTwo(PAGE_SIZE);
    MaskRounding(x, PAGE_SIZE);
  }

  lemma PageMonotone(x: int, y: int)
    requires x <= y
    ensures PageDown(x) <= PageDown(y) && PageUp(x) <= PageUp(y) && PageDown(x) <= PageUp(y)
  {
  }

  lemma PageBounds(x: int)
    ensures PageAligned(PageDown(x)) && PageDown(x) <= x < PageDown(x) + 0x1000
    ensures PageAligned(PageUp(x)) && x <= PageUp(x) < x + 0x1000
  {
  }
}
