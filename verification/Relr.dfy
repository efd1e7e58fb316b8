/** Compact relative relocations (the RELR branch of `relocate_relative`,
    src/relocation/dynamic.rs; "Relative Relocation Table" in the Relocation chapter of
    the System V gABI).

    An even word is an address; an odd word is a bitmap for the 63 words that follow
    the last position. */
module Relr {
  import opened Words
  import opened Bits
  import opened Symbols
  import opened GnuIndex
  import opened RelocPass

  // --------------------------------------------------------------- what it encodes

  /** The words that bits `k..63` of bitmap `v` mark, bit 1 standing for `at`. */
  function Marked(v: nat, at: nat, k: nat): (offs: seq<nat>)
    requires 1 <= k
    decreases 64 - k, v
  {
    if k >= 64 then [] else (if Bit(v, k) == 1 then [at + 8 * (k - 1)] else []) + Marked(v, at, k + 1)
  }

  /** The offsets that a stream stands for, when the next position is `at`. */
  function Decode(relr: seq<u64>, at: nat): (offs: seq<nat>) {
    if relr == [] then []
    else
      var v: nat := relr[0];
      if v % 2 == 0 then [v] + Decode(relr[1..], v + 8) else Marked(v, at, 1) + Decode(relr[1..], at + 8 * 63)
  }

  /** Where the position is after the stream. */
  function Position(relr: seq<u64>, at: nat): nat {
    if relr == [] then at
    else
      var v: nat := relr[0];
      Position(relr[1..], if v % 2 == 0 then v + 8 else at + 8 * 63)
  }

  /** An ascending stream: no address lies below the position reached before it. */
  predicate Ascending(relr: seq<u64>, at: nat) {
    relr == [] ||
    var v: nat := relr[0];
    (v % 2 == 0 ==> at <= v) && Ascending(relr[1..], if v % 2 == 0 then v + 8 else at + 8 * 63)
  }

  /** A stream a link editor may write: it starts with an address and ascends. */
  predicate WellFormed(relr: seq<u64>) {
    (relr != [] ==> relr[0] % 2 == 0) && Ascending(relr, 0)
  }

  /** Each word starts at or after the end of the word before it, from `lo` on and
      below `hi`. */
  predicate Spaced(offs: seq<nat>, lo: int, hi: int) {
    && (forall i :: 0 <= i < |offs| ==> lo <= offs[i] && offs[i] + 8 <= hi)
    && (forall i, j :: 0 <= i < j < |offs| ==> offs[i] + 8 <= offs[j])
  }

  lemma SpacedJoin(a: seq<nat>, b: seq<nat>, lo: int, mid: int, hi: int)
    requires lo <= mid <= hi && Spaced(a, lo, mid) && Spaced(b, mid, hi)
    ensures Spaced(a + b, lo, hi)
  {
  }

  lemma {:induction false} MarkedSpaced(v: nat, at: nat, k: nat)
    requires 1 <= k <= 64
    ensures Spaced(Marked(v, at, k), at + 8 * (k - 1), at + 8 * 63)
    decreases 64 - k
  {
    if k < 64 {
      MarkedSpaced(v, at, k + 1);
      var first := if Bit(v, k) == 1 then [at + 8 * (k - 1)] else [];
      SpacedJoin(first, Marked(v, at, k + 1), at + 8 * (k - 1), at + 8 * k, at + 8 * 63);
    }
  }

  lemma {:induction false} PositionAhead(relr: seq<u64>, at: nat)
    requires Ascending(relr, at)
    ensures at <= Position(relr, at)
  {
    if relr != [] {
      var v: nat := relr[0];
      PositionAhead(relr[1..], if v % 2 == 0 then v + 8 else at + 8 * 63);
    }
  }

  /** The offsets of an ascending stream are strictly increasing and never overlap. */
  lemma {:induction false} DecodeSpaced(relr: seq<u64>, at: nat)
    requires Ascending(relr, at)
    ensures Spaced(Decode(relr, at), at, Position(relr, at))
  {
    if relr != [] {
      var v: nat := relr[0];
      var next := if v % 2 == 0 then v + 8 else at + 8 * 63;
      var first := if v % 2 == 0 then [v] else Marked(v, at, 1);
      DecodeSpaced(relr[1..], next);
      PositionAhead(relr[1..], next);
      MarkedSpaced(relr[0], at, 1);
      SpacedJoin(first, Decode(relr[1..], next), at, next, Position(relr, at));
    }
  }

  /** An offset is decoded from a bitmap exactly when its bit is set. */
  lemma {:induction false} MarkedExactly(v: nat, at: nat, k: nat, j: nat)
    requires 1 <= k <= 64 && 1 <= j < 64
    ensures at + 8 * (j - 1) in Marked(v, at, k) <==> k <= j && Bit(v, j) == 1
    decreases 64 - k
  {
    if k < 64 {
      MarkedExactly(v, at, k + 1, j);
    }
  }

  // ------------------------------------------------------------------- the work list

  function Adds(offs: seq<nat>): (work: seq<Work>)
    ensures |work| == |offs|
    ensures forall i :: 0 <= i < |offs| ==> work[i] == Work(offs[i], AddBase)
  {
    seq(|offs|, i requires 0 <= i < |offs| => Work(offs[i], AddBase))
  }

  lemma AddsSeparate(relr: seq<u64>)
    requires WellFormed(relr)
    ensures Separate(Adds(Decode(relr, 0)))
  {
    DecodeSpaced(relr, 0);
  }

  // ------------------------------------------------------------- the expanded list

  predicate Inside(offs: seq<nat>, size: nat) {
    forall i :: 0 <= i < |offs| ==> offs[i] + 8 <= size
  }

  /** The expanded list: one relative entry per word, its addend the word in place. */
  function Expanded(m: seq<byte>, offs: seq<nat>): (relas: seq<Rela>)
    requires Inside(offs, |m|)
    ensures |relas| == |offs|
    ensures forall i :: 0 <= i < |offs| ==> relas[i] == Rela(offs[i], 8, 0, Load(m, offs[i], 8))
  {
    seq(|offs|, i requires 0 <= i < |offs| => Rela(offs[i], 8, 0, Load(m, offs[i], 8)))
  }

  /** Carrying out relative entries one after the other: base plus addend. */
  function ApplyRelative(base: u64, m: seq<byte>, relas: seq<Rela>): (r: seq<byte>)
    requires forall i :: 0 <= i < |relas| ==> relas[i].off + 8 <= |m|
    ensures |r| == |m|
  {
    if relas == [] then m
    else
      var k := |relas| - 1;
      Store(ApplyRelative(base, m, relas[..k]), relas[k].off, Wrap64(base + relas[k].addend), 8)
  }

  function Value(base: u64, m: seq<byte>, off: nat): seq<byte>
    requires off + 8 <= |m|
  {
    LittleEndian(Wrap64(Load(m, off, 8) + base), 8)
  }

  /** The words at `offs` are `m0`'s plus the base, and nothing else has changed. */
  ghost predicate Biased(base: u64, m0: seq<byte>, m: seq<byte>, offs: seq<nat>) {
    && |m| == |m0| && Inside(offs, |m0|)
    && (forall i :: 0 <= i < |offs| ==> m[offs[i]..offs[i] + 8] == Value(base, m0, offs[i]))
    && (forall b :: 0 <= b < |m| && m[b] != m0[b] ==> exists i :: 0 <= i < |offs| && offs[i] <= b < offs[i] + 8)
  }

  lemma BiasedUnique(base: u64, m0: seq<byte>, m: seq<byte>, m': seq<byte>, offs: seq<nat>)
    requires Biased(base, m0, m, offs) && Biased(base, m0, m', offs)
    ensures m == m'
  {
    forall b | 0 <= b < |m| ensures m[b] == m'[b] {
      if i :| 0 <= i < |offs| && offs[i] <= b < offs[i] + 8 {
        assert m[b] == m[offs[i]..offs[i] + 8][b - offs[i]];
        assert m'[b] == m'[offs[i]..offs[i] + 8][b - offs[i]];
      }
    }
  }

  lemma BiasedStep(base: u64, m0: seq<byte>, m: seq<byte>, offs: seq<nat>, off: nat)
    requires Biased(base, m0, m, offs) && off + 8 <= |m0|
    requires forall i :: 0 <= i < |offs| ==> Disjoint(offs[i], 8, off, 8)
    ensures Biased(base, m0, Put(m, off, Value(base, m0, off)), offs + [off])
  {
    var m' := Put(m, off, Value(base, m0, off));
    var offs' := offs + [off];
    forall i | 0 <= i < |offs'| ensures m'[offs'[i]..offs'[i] + 8] == Value(base, m0, offs'[i]) {
      if i < |offs| {
        LoadPutElsewhere(m, off, Value(base, m0, off), offs[i], 8);
      } else {
        assert m'[off..off + 8] == Value(base, m0, off);
      }
    }
    forall b | 0 <= b < |m'| && m'[b] != m0[b] ensures exists i :: 0 <= i < |offs'| && offs'[i] <= b < offs'[i] + 8 {
      if off <= b < off + 8 {
        assert offs'[|offs|] == off;
      } else {
        var i :| 0 <= i < |offs| && offs[i] <= b < offs[i] + 8;
        assert offs'[i] == offs[i];
      }
    }
  }

  lemma ApplyLast(base: u64, m: seq<byte>, offs: seq<nat>)
    requires Inside(offs, |m|) && offs != []
    ensures var k := |offs| - 1;
            ApplyRelative(base, m, Expanded(m, offs)) ==
            Put(ApplyRelative(base, m, Expanded(m, offs[..k])), offs[k], Value(base, m, offs[k]))
  {
    var k := |offs| - 1;
    assert Expanded(m, offs)[..k] == Expanded(m, offs[..k]);
  }

  lemma {:induction false} ExpandedBiased(base: u64, m: seq<byte>, offs: seq<nat>)
    requires Inside(offs, |m|)
    requires forall i, j :: 0 <= i < j < |offs| ==> offs[i] + 8 <= offs[j]
    ensures Biased(base, m, ApplyRelative(base, m, Expanded(m, offs)), offs)
  {
    if offs != [] {
      var k := |offs| - 1;
      var before := offs[..k];
      ExpandedBiased(base, m, before);
      ApplyLast(base, m, offs);
      BiasedLast(base, m, ApplyRelative(base, m, Expanded(m, before)), offs);
    }
  }

  lemma BiasedLast(base: u64, m0: seq<byte>, m: seq<byte>, offs: seq<nat>)
    requires offs != [] && Biased(base, m0, m, offs[..|offs| - 1]) && Inside(offs, |m0|)
    requires forall i, j :: 0 <= i < j < |offs| ==> offs[i] + 8 <= offs[j]
    ensures var off := offs[|offs| - 1]; Biased(base, m0, Put(m, off, Value(base, m0, off)), offs)
  {
    var k := |offs| - 1;
    BiasedStep(base, m0, m, offs[..k], offs[k]);
    assert offs[..k] + [offs[k]] == offs;
  }

  lemma AppliedValue(base: u64, m0: seq<byte>, img: Image, off: nat)
    requires Applied(base, m0, img, Work(off, AddBase))
    ensures off + 8 <= |m0| == |img.m| && img.m[off..off + 8] == Value(base, m0, off)
  {
    LittleEndianInverts(img.m[off..off + 8]);
  }

  /** A finished run over the words leaves them biased. */
  lemma DoneBiased(base: u64, img0: Image, img: Image, offs: seq<nat>)
    requires Done(base, img0, img, Adds(offs), |offs|)
    ensures Biased(base, img0.m, img.m, offs)
  {
    var work := Adds(offs);
    forall i | 0 <= i < |offs|
      ensures offs[i] + 8 <= |img0.m| == |img.m| && img.m[offs[i]..offs[i] + 8] == Value(base, img0.m, offs[i])
    {
      assert Applied(base, img0.m, img, work[i]);
      AppliedValue(base, img0.m, img, offs[i]);
    }
    forall b | 0 <= b < |img.m| && img.m[b] != img0.m[b]
      ensures exists i :: 0 <= i < |offs| && offs[i] <= b < offs[i] + 8 {
      var i :| 0 <= i < |work| && InField(work[i], b);
    }
  }

  // --------------------------------------------------------------------- the loops

  lemma {:induction false} NoMoreMarks(v: nat, at: nat, k: nat)
    requires 1 <= k && v / Pow2(k) == 0
    ensures Marked(v, at, k) == []
    decreases 64 - k
  {
    if k < 64 {
      ShiftOnce(v, k);
      NoMoreMarks(v, at, k + 1);
    }
  }

  lemma ShiftOnce(v: nat, k: nat)
    ensures v / Pow2(k + 1) == v / Pow2(k) / 2
  {
    var p := Pow2(k);
    var q := v / p;
    assert v == 2 * p * (q / 2) + (p * (q % 2) + v % p) by {
      assert v == p * q + v % p;
      assert q == 2 * (q / 2) + q % 2;
      assert p * q == p * (2 * (q / 2)) + p * (q % 2);
    }
    assert p * (q % 2) <= p;
    ModUnique(v, 2 * p, q / 2, p * (q % 2) + v % p);
  }

  lemma ShiftedOut(v: u64)
    ensures v / Pow2(64) == 0
  {
    Pow2At64();
  }

  /** The first `k` entries of the run are done, and the ones that follow are the words
      of `offs`. */
  ghost predicate Running(base: u64, img0: Image, img: Image, work: seq<Work>, k: nat, offs: seq<nat>) {
    && Separate(work) && AllRoom(img0, work) && Done(base, img0, img, work, k)
    && k + |offs| <= |work| && (forall i :: 0 <= i < |offs| ==> work[k + i] == Work(offs[i], AddBase))
  }

  lemma RunningNext(base: u64, img0: Image, img: Image, img': Image, work: seq<Work>, k: nat, offs: seq<nat>)
    requires Running(base, img0, img, work, k, offs) && offs != []
    requires Done(base, img0, img', work, k + 1)
    ensures Running(base, img0, img', work, k + 1, offs[1..])
  {
    forall i | 0 <= i < |offs| - 1 ensures work[k + 1 + i] == Work(offs[1..][i], AddBase) {
      assert offs[1..][i] == offs[1 + i];
    }
  }

  /** Adds the base to the next word of the run. */
  method AddBaseAt(base: u64, off: nat, ghost img0: Image, ghost work: seq<Work>, ghost k: nat, ghost offs: seq<nat>,
                   mem: array<byte>, flags: array<bool>)
    requires offs != [] && off == offs[0] && Running(base, img0, Now(mem, flags), work, k, offs)
    modifies mem, flags
    ensures Running(base, img0, Now(mem, flags), work, k + 1, offs[1..])
  {
    ghost var before := Now(mem, flags);
    var s := PerformNext(base, img0, work, k, Work(off, AddBase), mem, flags);
    RunningNext(base, img0, before, Now(mem, flags), work, k, offs);
  }

  /** One shift of the bitmap tests the next bit. */
  lemma BitmapStep(v: u64, at: nat, idx: nat, rest: seq<nat>)
    requires v / Pow2(idx) != 0 && idx <= 64
    ensures idx < 64 && v / Pow2(idx + 1) == v / Pow2(idx) / 2
    ensures var offs, next := Marked(v, at, idx + 1) + rest, Marked(v, at, idx + 2);
            if v / Pow2(idx) / 2 % 2 != 0 then
              offs != [] && offs[0] == at + 8 * idx && offs[1..] == next + rest &&
              |Marked(v, at, idx + 1)| == |next| + 1
            else offs == next + rest && |Marked(v, at, idx + 1)| == |next|
  {
    ShiftOnce(v, idx);
    ShiftedOut(v);
    if idx == 63 {
      ShiftOnce(v, 63);
    }
    var here := if v / Pow2(idx) / 2 % 2 != 0 then [at + 8 * idx] else [];
    assert Marked(v, at, idx + 1) == here + Marked(v, at, idx + 2);
    assert here + Marked(v, at, idx + 2) + rest == here + (Marked(v, at, idx + 2) + rest);
  }

  /** One bitmap word: shifts the bitmap right and adds the base at every set bit. */
  method RelocateBitmap(base: u64, value: u64, at: nat, ghost img0: Image, ghost work: seq<Work>, ghost start: nat,
                        ghost rest: seq<nat>, mem: array<byte>, flags: array<bool>) returns (ghost k: nat)
    requires Running(base, img0, Now(mem, flags), work, start, Marked(value, at, 1) + rest)
    modifies mem, flags
    ensures k == start + |Marked(value, at, 1)|
    ensures Running(base, img0, Now(mem, flags), work, k, rest)
  {
    var bitmap: nat, idx: nat := value, 0;
    k := start;
    while bitmap != 0
      invariant 0 <= idx <= 64 && bitmap == value / Pow2(idx)
      invariant k + |Marked(value, at, idx + 1)| == start + |Marked(value, at, 1)|
      invariant Running(base, img0, Now(mem, flags), work, k, Marked(value, at, idx + 1) + rest)
      decreases 64 - idx
    {
      BitmapStep(value, at, idx, rest);
      bitmap := bitmap / 2;
      ghost var offs := Marked(value, at, idx + 1) + rest;
      if bitmap % 2 != 0 {
        AddBaseAt(base, at + 8 * idx, img0, work, k, offs, mem, flags);
        k := k + 1;
      }
      idx := idx + 1;
    }
    ShiftOnce(value, idx);
    NoMoreMarks(value, at, idx + 1);
    assert [] + rest == rest;
  }

  lemma DecodeNext(relr: seq<u64>, i: nat, at: nat)
    requires i < |relr|
    ensures var v: nat := relr[i];
            Decode(relr[i..], at) == if v % 2 == 0 then [v] + Decode(relr[i + 1..], v + 8)
                                     else Marked(v, at, 1) + Decode(relr[i + 1..], at + 8 * 63)
  {
    assert relr[i..][1..] == relr[i + 1..];
  }

  /** The whole stream. Every word it stands for is done, in order, whatever else is in
      the run. (The first word is an address: the position starts out null.) */
  method RelocateRelr(base: u64, relr: seq<u64>, ghost img0: Image, ghost work: seq<Work>,
                      mem: array<byte>, flags: array<bool>)
    requires relr != [] ==> relr[0] % 2 == 0
    requires Running(base, img0, Now(mem, flags), work, 0, Decode(relr, 0))
    modifies mem, flags
    ensures Done(base, img0, Now(mem, flags), work, |Decode(relr, 0)|)
  {
    var at: nat := 0;
    ghost var k: nat := 0;
    assert relr[0..] == relr;
    for i := 0 to |relr|
      invariant k + |Decode(relr[i..], at)| == |Decode(relr, 0)|
      invariant Running(base, img0, Now(mem, flags), work, k, Decode(relr[i..], at))
    {
      var value := relr[i];
      DecodeNext(relr, i, at);
      ghost var offs := Decode(relr[i..], at);
      if value % 2 == 0 {
        at := value;
        AddBaseAt(base, at, img0, work, k, offs, mem, flags);
        k := k + 1;
        at := at + 8;
        assert offs[1..] == Decode(relr[i + 1..], at);
      } else {
        k := RelocateBitmap(base, value, at, img0, work, k, Decode(relr[i + 1..], at + 8 * 63), mem, flags);
        at := at + 8 * 63;
      }
    }
  }

  /** A RELR table by itself: the base is added exactly once to every word the stream
      stands for, and no other byte changes; this is what the expanded list of relative
      relocations would have done. */
  method ApplyRelr(base: u64, relr: seq<u64>, mem: array<byte>)
    requires WellFormed(relr) && Inside(Decode(relr, 0), mem.Length)
    modifies mem
    ensures Spaced(Decode(relr, 0), 0, Position(relr, 0))
    ensures Biased(base, old(mem[..]), mem[..], Decode(relr, 0))
    ensures mem[..] == ApplyRelative(base, old(mem[..]), Expanded(old(mem[..]), Decode(relr, 0)))
  {
    var flags := new bool[0];
    ghost var offs, img0 := Decode(relr, 0), Now(mem, flags);
    RunningStart(base, img0, relr);
    RelocateRelr(base, relr, img0, Adds(offs), mem, flags);
    DoneBiased(base, img0, Now(mem, flags), offs);
    DecodeSpaced(relr, 0);
    ExpandedBiased(base, img0.m, offs);
    BiasedUnique(base, img0.m, mem[..], ApplyRelative(base, img0.m, Expanded(img0.m, offs)), offs);
  }

  lemma RunningStart(base: u64, img: Image, relr: seq<u64>)
    requires WellFormed(relr) && Inside(Decode(relr, 0), |img.m|)
    ensures Running(base, img, img, Adds(Decode(relr, 0)), 0, Decode(relr, 0))
  {
    AddsSeparate(relr);
    EmptyDone(base, img, Adds(Decode(relr, 0)));
  }
}
