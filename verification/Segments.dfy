/** Mapping one segment, and loading a list of them (src/segment/mod.rs).

    `mem` holds the bytes of the reserved range that starts at address
    `space.memory`. `Os` is the part of the `Mmap` contract that matters: whether
    the reader has a file descriptor to map, whether an anonymous mapping zeroes
    whole pages, and what a file mapping shows past the end of the file. */
module Segments {
  import opened Words
  import opened Pages

  datatype Os = Os(fd: bool, wholePages: bool, pastEnd: nat -> byte)

  datatype Prot = Prot(read: bool, write: bool, exec: bool)

  datatype Address = Relative(addr: nat) | Absolute(addr: nat)

  /** A piece of the file placed `start` bytes into the segment. */
  datatype FileMap = FileMap(start: nat, filesz: nat, offset: nat)

  datatype Layout = Layout(prot: Prot, len: nat, contentSize: nat, zeroSize: nat, maps: seq<FileMap>)

  /** The reserved address space of one image. */
  datatype ElfSegments = ElfSegments(memory: u64, offset: u64, len: u64) {
    /** The load bias: what is added to a virtual address of the image. */
    function Base(): u64 {
      Wrap64(memory - offset)
    }

    predicate Valid() {
      PageAligned(memory) && memory + len + PAGE_SIZE <= U64
    }
  }

  function ByteAt(file: seq<byte>, os: Os, i: nat): byte {
    if i < |file| then file[i] else os.pastEnd(i)
  }

  /** What a mapping of `len` bytes of the file from `offset` shows. */
  function FileView(file: seq<byte>, os: Os, offset: nat, len: nat): (v: seq<byte>)
    ensures |v| == len
    ensures forall k :: 0 <= k < len ==> v[k] == ByteAt(file, os, offset + k)
  {
    seq<byte>(len, k requires 0 <= k => ByteAt(file, os, offset + k))
  }

  predicate ValidMaps(maps: seq<FileMap>, contentSize: nat) {
    && (forall j :: 0 <= j < |maps| ==> maps[j].start + maps[j].filesz <= contentSize)
    && (forall j, k :: 0 <= j < k < |maps| ==>
          Disjoint(maps[j].start, maps[j].filesz, maps[k].start, maps[k].filesz))
    && (|maps| == 1 ==> maps[0].start == 0)
  }

  /** What the loader needs of a segment before it maps it. */
  predicate ValidLayout(l: Layout) {
    && PageAligned(l.len)
    && l.contentSize + l.zeroSize <= l.len
    && ValidMaps(l.maps, l.contentSize)
  }

  predicate MapLoaded(f: FileMap, file: seq<byte>, os: Os, m: seq<byte>, at: int)
    requires 0 <= at && at + f.start + f.filesz <= |m|
  {
    forall i :: at + f.start <= i < at + f.start + f.filesz ==>
                  m[i] == ByteAt(file, os, f.offset + (i - at - f.start))
  }

  predicate ZeroRange(m: seq<byte>, lo: int, hi: int)
    requires 0 <= lo && hi <= |m|
  {
    forall k :: lo <= k < hi ==> m[k] == 0
  }

  /** The segment at `at` shows its file pieces and its zero tail. */
  predicate Loaded(l: Layout, file: seq<byte>, os: Os, m: seq<byte>, at: int)
    requires ValidLayout(l) && 0 <= at && at + l.len <= |m|
  {
    && PiecesLoaded(l, file, os, m, at)
    && ZeroRange(m, at + l.contentSize, at + l.contentSize + l.zeroSize)
  }

  predicate PiecesLoaded(l: Layout, file: seq<byte>, os: Os, m: seq<byte>, at: int)
    requires ValidLayout(l) && 0 <= at && at + l.len <= |m|
  {
    forall j :: 0 <= j < |l.maps| ==> MapLoaded(l.maps[j], file, os, m, at)
  }

  predicate SameOutside(m: seq<byte>, m': seq<byte>, lo: int, hi: int) {
    |m| == |m'| && forall k :: 0 <= k < |m| && !(lo <= k < hi) ==> m'[k] == m[k]
  }

  predicate FirstPieces(l: Layout, n: nat, file: seq<byte>, os: Os, m: seq<byte>, at: int)
    requires ValidLayout(l) && n <= |l.maps| && 0 <= at && at + l.len <= |m|
  {
    forall j :: 0 <= j < n ==> MapLoaded(l.maps[j], file, os, m, at)
  }

  /** Copying one more piece leaves the earlier ones alone. */
  lemma PieceCopied(l: Layout, j: nat, file: seq<byte>, os: Os, m: seq<byte>, m': seq<byte>, at: int)
    requires ValidLayout(l) && j < |l.maps| && 0 <= at && at + l.len <= |m|
    requires FirstPieces(l, j, file, os, m, at)
    requires l.maps[j].offset + l.maps[j].filesz <= |file|
    requires m' == Put(m, at + l.maps[j].start, file[l.maps[j].offset..l.maps[j].offset + l.maps[j].filesz])
    ensures FirstPieces(l, j + 1, file, os, m', at)
  {
    forall i | 0 <= i < j ensures MapLoaded(l.maps[i], file, os, m', at) {
      assert MapLoaded(l.maps[i], file, os, m, at);
      assert Disjoint(l.maps[i].start, l.maps[i].filesz, l.maps[j].start, l.maps[j].filesz);
    }
  }

  /** Writes after the content leave the file pieces alone. */
  lemma PiecesStable(l: Layout, file: seq<byte>, os: Os, m: seq<byte>, m': seq<byte>, at: int)
    requires ValidLayout(l) && 0 <= at && at + l.len <= |m|
    requires PiecesLoaded(l, file, os, m, at)
    requires SameOutside(m, m', at + l.contentSize, at + l.len)
    ensures PiecesLoaded(l, file, os, m', at)
  {
    forall j | 0 <= j < |l.maps|
      ensures MapLoaded(l.maps[j], file, os, m', at)
    {
      assert MapLoaded(l.maps[j], file, os, m, at);
    }
  }

  /** Later writes outside the segment do not disturb it. */
  lemma LoadedStable(l: Layout, file: seq<byte>, os: Os, m: seq<byte>, m': seq<byte>, at: int, lo: int, hi: int)
    requires ValidLayout(l) && 0 <= at && at + l.len <= |m|
    requires Loaded(l, file, os, m, at)
    requires SameOutside(m, m', lo, hi)
    requires Disjoint(at, l.len, lo, hi - lo)
    ensures Loaded(l, file, os, m', at)
  {
    forall j | 0 <= j < |l.maps|
      ensures MapLoaded(l.maps[j], file, os, m', at)
    {
      assert MapLoaded(l.maps[j], file, os, m, at);
    }
  }

  /** The partial page and the pages after it stay inside the segment. */
  lemma ZeroPlan(addr: nat, l: Layout)
    requires PageAligned(addr) && ValidLayout(l) && addr + l.len + PAGE_SIZE <= U64
    ensures var start := addr + l.contentSize;
            var end := PageUp(start);
            && start <= end <= addr + l.len
            && (end - start < l.zeroSize ==>
                  var rest := l.zeroSize - (end - start);
                  rest <= PageUp(rest) <= addr + l.len - end)
  {
  }

  class ElfSegment {
    var addr: Address
    var needCopy: bool
    const layout: Layout

    constructor (rel: nat, layout: Layout)
      ensures addr == Relative(rel) && this.layout == layout && !needCopy
    {
      addr := Relative(rel);
      needCopy := false;
      this.layout := layout;
    }

    /** The index in `mem` at which the segment starts once it is rebased. */
    ghost function At(space: ElfSegments): int
      reads this
    {
      addr.addr - space.memory
    }

    ghost predicate Placed(space: ElfSegments, mem: array<byte>)
      reads this
    {
      && space.Valid() && mem.Length == space.len
      && addr.Absolute? && PageAligned(addr.addr)
      && ValidLayout(layout)
      && 0 <= At(space) && At(space) + layout.len <= space.len
    }

    method Rebase(base: u64)
      requires addr.Relative?
      modifies this`addr
      ensures addr == Absolute(Wrap64(base + old(addr.addr)))
    {
      addr := Absolute(Wrap64(base + addr.addr));
    }

    method MmapSegment(space: ElfSegments, mem: array<byte>, file: seq<byte>, os: Os)
      requires Placed(space, mem)
      modifies this`needCopy, mem
      ensures needCopy == !(os.fd && |layout.maps| == 1)
      ensures needCopy ==> mem[..] == old(mem[..])
      ensures !needCopy ==> forall i :: At(space) <= i < At(space) + layout.len ==>
                mem[i] == ByteAt(file, os, layout.maps[0].offset + (i - At(space)))
      ensures SameOutside(old(mem[..]), mem[..], At(space), At(space) + layout.len)
    {
      needCopy := true;
      if |layout.maps| == 1 && os.fd {
        var offset := layout.maps[0].offset;
        WriteBytes(mem, addr.addr - space.memory, FileView(file, os, offset, layout.len));
        needCopy := false;
      }
    }

    /** Copies every file piece; fails when the file is shorter than a piece says. */
    method CopyData(space: ElfSegments, mem: array<byte>, file: seq<byte>, os: Os) returns (ok: bool)
      requires Placed(space, mem)
      modifies mem
      ensures !needCopy ==> ok && mem[..] == old(mem[..])
      ensures needCopy ==> ok == forall j :: 0 <= j < |layout.maps| ==>
                layout.maps[j].offset + layout.maps[j].filesz <= |file|
      ensures needCopy && ok ==> PiecesLoaded(layout, file, os, mem[..], At(space))
      ensures SameOutside(old(mem[..]), mem[..], At(space), At(space) + layout.contentSize)
    {
      ok := true;
      if needCopy {
        var at := addr.addr - space.memory;
        for j := 0 to |layout.maps|
          invariant forall i :: 0 <= i < j ==> layout.maps[i].offset + layout.maps[i].filesz <= |file|
          invariant FirstPieces(layout, j, file, os, mem[..], at)
          invariant SameOutside(old(mem[..]), mem[..], at, at + layout.contentSize)
        {
          var f := layout.maps[j];
          if f.offset + f.filesz > |file| {
            ok := false;
            return;
          }
          ghost var before := mem[..];
          WriteBytes(mem, at + f.start, file[f.offset..f.offset + f.filesz]);
          PieceCopied(layout, j, file, os, before, mem[..], at);
        }
      }
    }

    method FillZero(space: ElfSegments, mem: array<byte>, os: Os)
      requires Placed(space, mem)
      modifies mem
      ensures ZeroRange(mem[..], At(space) + layout.contentSize, At(space) + layout.contentSize + layout.zeroSize)
      ensures SameOutside(old(mem[..]), mem[..], At(space) + layout.contentSize, At(space) + layout.len)
    {
      if layout.zeroSize > 0 {
        var zeroStart := addr.addr + layout.contentSize;
        var zeroEnd := PageUp(zeroStart);
        ZeroPlan(addr.addr, layout);
        var writeLen := zeroEnd - zeroStart;
        ZeroBytes(mem, zeroStart - space.memory, writeLen);
        if writeLen < layout.zeroSize {
          var n := layout.zeroSize - writeLen;
          var mapped := if os.wholePages then PageUp(n) else n;
          ZeroBytes(mem, zeroEnd - space.memory, mapped);
        }
      }
    }
  }

  method ZeroBytes(mem: array<byte>, at: nat, n: nat)
    requires at + n <= mem.Length
    modifies mem
    ensures forall i :: 0 <= i < mem.Length ==> mem[i] == if at <= i < at + n then 0 else old(mem[i])
  {
    WriteBytes(mem, at, Zeros(n));
    assert forall i :: 0 <= i < mem.Length ==> mem[i] == mem[..][i];
    assert forall i :: 0 <= i < mem.Length ==> old(mem[i]) == old(mem[..])[i];
  }

  // ------------------------------------------------------------- load_segments

  /** A segment together with its address relative to the load bias. */
  datatype Placement = Placement(rel: nat, layout: Layout)

  predicate Fits(p: Placement, space: ElfSegments) {
    && ValidLayout(p.layout)
    && PageAligned(p.rel)
    && space.offset <= p.rel
    && p.rel - space.offset + p.layout.len <= space.len
  }

  /** Segments that lie in the reserved space and share no page. */
  predicate ValidPlan(plan: seq<Placement>, space: ElfSegments) {
    && space.Valid() && PageAligned(space.offset)
    && (forall i :: 0 <= i < |plan| ==> Fits(plan[i], space))
    && (forall i, j :: 0 <= i < j < |plan| ==>
          Disjoint(plan[i].rel, plan[i].layout.len, plan[j].rel, plan[j].layout.len))
  }

  predicate LoadedAt(p: Placement, space: ElfSegments, file: seq<byte>, os: Os, m: seq<byte>)
    requires Fits(p, space) && |m| == space.len
  {
    Loaded(p.layout, file, os, m, p.rel - space.offset)
  }

  predicate Covers(p: Placement, space: ElfSegments, k: int) {
    p.rel - space.offset <= k < p.rel - space.offset + p.layout.len
  }

  /** No byte outside the placed segments has changed. */
  predicate OnlySegments(plan: seq<Placement>, space: ElfSegments, m: seq<byte>, m': seq<byte>) {
    && |m| == |m'|
    && forall k :: 0 <= k < |m| && m'[k] != m[k] ==> exists i :: 0 <= i < |plan| && Covers(plan[i], space, k)
  }

  /** The only way a load fails: a piece that must be copied is not in the file. */
  predicate Readable(l: Layout, file: seq<byte>, os: Os) {
    (os.fd && |l.maps| == 1) ||
    forall j :: 0 <= j < |l.maps| ==> l.maps[j].offset + l.maps[j].filesz <= |file|
  }

  ghost predicate Matches(segments: seq<ElfSegment>, plan: seq<Placement>)
    reads segments
  {
    && |segments| == |plan|
    && PairwiseDistinct(segments)
    && forall i :: 0 <= i < |plan| ==>
         segments[i].layout == plan[i].layout && segments[i].addr == Relative(plan[i].rel)
  }

  lemma RebasedIndex(space: ElfSegments, p: Placement)
    requires space.Valid() && Fits(p, space) && PageAligned(space.offset)
    ensures var a := Wrap64(space.Base() + p.rel);
            a == space.memory + (p.rel - space.offset) && PageAligned(a)
  {
    WrapAdd(space.memory - space.offset, p.rel);
  }

  /** A virtual address `v` of the image lives at index `v - offset` of the space. */
  lemma BiasedAddress(space: ElfSegments, v: u64)
    requires space.Valid() && space.offset <= v < space.offset + space.len
    ensures Wrap64(space.Base() + v) == space.memory + (v - space.offset)
  {
    WrapAdd(space.memory - space.offset, v);
  }

  method LoadSegment(seg: ElfSegment, ghost p: Placement, space: ElfSegments, mem: array<byte>, file: seq<byte>, os: Os)
    returns (ok: bool)
    requires space.Valid() && PageAligned(space.offset) && Fits(p, space) && mem.Length == space.len
    requires seg.layout == p.layout && seg.addr == Relative(p.rel)
    modifies seg, mem
    ensures ok == Readable(p.layout, file, os)
    ensures ok ==> LoadedAt(p, space, file, os, mem[..])
    ensures var at := p.rel - space.offset; SameOutside(old(mem[..]), mem[..], at, at + p.layout.len)
  {
    RebasedIndex(space, p);
    seg.Rebase(space.Base());
    seg.MmapSegment(space, mem, file, os);
    ok := seg.CopyData(space, mem, file, os);
    if !ok {
      return;
    }
    ghost var at := p.rel - space.offset;
    ghost var copied := mem[..];
    assert PiecesLoaded(p.layout, file, os, copied, at);
    seg.FillZero(space, mem, os);
    PiecesStable(p.layout, file, os, copied, mem[..], at);
  }

  /** Loads the segments in order. On success every one of them shows its file
      bytes and zeros, and nothing else was touched. */
  method LoadSegments(segments: seq<ElfSegment>, ghost plan: seq<Placement>, space: ElfSegments, mem: array<byte>,
                      file: seq<byte>, os: Os)
    returns (ok: bool)
    requires Matches(segments, plan)
    requires ValidPlan(plan, space) && mem.Length == space.len
    modifies segments, mem
    ensures ok == forall i :: 0 <= i < |plan| ==> Readable(plan[i].layout, file, os)
    ensures ok ==> forall i :: 0 <= i < |plan| ==> LoadedAt(plan[i], space, file, os, mem[..])
    ensures OnlySegments(plan, space, old(mem[..]), mem[..])
  {
    ok := true;
    for i := 0 to |segments|
      invariant forall j :: i <= j < |plan| ==>
                  segments[j].layout == plan[j].layout && segments[j].addr == Relative(plan[j].rel)
      invariant forall j :: 0 <= j < i ==> Readable(plan[j].layout, file, os)
      invariant forall j :: 0 <= j < i ==> LoadedAt(plan[j], space, file, os, mem[..])
      invariant OnlySegments(plan, space, old(mem[..]), mem[..])
    {
      ghost var before := mem[..];
      ghost var at := plan[i].rel - space.offset;
      ok := LoadSegment(segments[i], plan[i], space, mem, file, os);
      if !ok {
        return;
      }
      forall j | 0 <= j < i ensures LoadedAt(plan[j], space, file, os, mem[..]) {
        assert LoadedAt(plan[j], space, file, os, before);
        LoadedStable(plan[j].layout, file, os, before, mem[..], plan[j].rel - space.offset, at,
                     at + plan[i].layout.len);
      }
    }
  }
}
