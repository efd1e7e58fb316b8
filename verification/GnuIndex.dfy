/** Symbol lookup through the GNU hash table (src/elf/hash/gnu.rs, src/elf/hash/mod.rs).

    The proofs never look inside the hash function: it is a parameter `hash`, and
    `GnuHash` is the one the loader uses. */
module GnuIndex {
  import opened Words
  import opened Bits
  import opened Symbols

  /** The djb2 variant of the loader, in wrapping 32-bit arithmetic. */
  function GnuHash(name: seq<byte>): (h: nat)
    ensures h < 0x1_0000_0000
  {
    if |name| == 0 then 5381
    else (GnuHash(name[..|name| - 1]) * 33 + name[|name| - 1]) % 0x1_0000_0000
  }

  method HashLoop(name: seq<byte>) returns (hash: nat)
    ensures hash == GnuHash(name)
  {
    hash := 5381;
    for i := 0 to |name|
      invariant hash == GnuHash(name[..i])
    {
      assert name[..i + 1][..i] == name[..i];
      hash := (hash * 33 + name[i]) % 0x1_0000_0000;
    }
    assert name[..|name|] == name;
  }

  datatype SymTab = SymTab(symbols: seq<Sym>, strtab: seq<byte>) {
    function Name(i: nat): seq<byte>
      requires i < |symbols|
    {
      GetStr(strtab, symbols[i].name)
    }
  }

  datatype GnuTable = GnuTable(nbucket: nat, symbias: nat, nbloom: nat, nshift: nat,
                               blooms: seq<u64>, buckets: seq<nat>, chains: seq<nat>)

  function Bit(x: nat, k: nat): nat {
    x / Pow2(k) % 2
  }

  /** The filter word for hash `h`, in a filter of `2^k` words. */
  function BloomWord(g: GnuTable, h: nat): nat
    requires g.nbloom > 0
  {
    h / 64 % g.nbloom
  }

  /** Both filter bits of `h` are set. */
  predicate InFilter(g: GnuTable, h: nat)
    requires g.nbloom > 0 && |g.blooms| == g.nbloom
  {
    && Bit(g.blooms[BloomWord(g, h)], h % 64) == 1
    && Bit(g.blooms[BloomWord(g, h)], h / Pow2(g.nshift) % 64) == 1
  }

  function Bucket(g: GnuTable, t: SymTab, hash: seq<byte> -> nat, i: nat): nat
    requires i < |t.symbols| && g.nbucket > 0
  {
    hash(t.Name(i)) % g.nbucket
  }

  predicate Shape(g: GnuTable, t: SymTab) {
    && g.nbucket > 0 && |g.buckets| == g.nbucket
    && g.nbloom > 0 && |g.blooms| == g.nbloom && g.nshift < 32
    && 1 <= g.symbias <= |t.symbols| && |g.chains| == |t.symbols| - g.symbias
  }

  /** A table as a link editor writes it: symbols from `symbias` on are grouped by
      bucket, each bucket names the first symbol of its group (0 when it has none),
      each chain word is the hash with its low bit replaced by "last of the group",
      and the filter contains every hashed name. */
  ghost predicate WellFormed(g: GnuTable, t: SymTab, hash: seq<byte> -> nat) {
    && Shape(g, t)
    && (exists k: nat :: g.nbloom == Pow2(k))
    && (forall i :: g.symbias <= i < |t.symbols| ==> SymbolEntry(g, t, hash, i))
    && (forall b :: 0 <= b < g.nbucket && g.buckets[b] != 0 ==>
          g.symbias <= g.buckets[b] < |t.symbols| && Bucket(g, t, hash, g.buckets[b]) == b)
  }

  ghost predicate SymbolEntry(g: GnuTable, t: SymTab, hash: seq<byte> -> nat, i: nat)
    requires Shape(g, t) && g.symbias <= i < |t.symbols|
  {
    var h, b := hash(t.Name(i)), Bucket(g, t, hash, i);
    && g.chains[i - g.symbias] / 2 == h / 2
    && (g.chains[i - g.symbias] % 2 == 1 <==> i + 1 == |t.symbols| || Bucket(g, t, hash, i + 1) != b)
    && InFilter(g, h)
    && g.symbias <= g.buckets[b] <= i
    && (forall j :: g.buckets[b] <= j <= i ==> Bucket(g, t, hash, j) == b)
  }

  /** The first symbol at or after `symbias` with the name. */
  ghost predicate FirstNamed(g: GnuTable, t: SymTab, name: seq<byte>, i: nat) {
    && g.symbias <= i < |t.symbols| && t.Name(i) == name
    && forall j :: g.symbias <= j < i ==> t.Name(j) != name
  }

  ghost predicate NotNamed(g: GnuTable, t: SymTab, name: seq<byte>) {
    forall j :: g.symbias <= j < |t.symbols| ==> t.Name(j) != name
  }

  /** The plain scan that the lookup refines. */
  function Scan(t: SymTab, i: nat, name: seq<byte>): (r: Option<nat>)
    ensures r.Some? ==> r.value < |t.symbols|
    decreases |t.symbols| - i
  {
    if i >= |t.symbols| then None else if t.Name(i) == name then Some(i) else Scan(t, i + 1, name)
  }

  lemma {:induction false} ScanFinds(g: GnuTable, t: SymTab, name: seq<byte>, i: nat)
    requires g.symbias <= i && forall j :: g.symbias <= j < i && j < |t.symbols| ==> t.Name(j) != name
    ensures match Scan(t, i, name) case Some(k) => FirstNamed(g, t, name, k) case None => NotNamed(g, t, name)
    decreases |t.symbols| - i
  {
    if i < |t.symbols| && t.Name(i) != name {
      ScanFinds(g, t, name, i + 1);
    }
  }

  /** Only one symbol can be the first with a name, so scan and lookup agree. */
  lemma ScanIs(g: GnuTable, t: SymTab, name: seq<byte>, r: Option<nat>)
    requires match r case Some(i) => FirstNamed(g, t, name, i) case None => NotNamed(g, t, name)
    ensures r == Scan(t, g.symbias, name)
  {
    ScanFinds(g, t, name, g.symbias);
    if r.Some? && Scan(t, g.symbias, name).Some? {
      var i, j := r.value, Scan(t, g.symbias, name).value;
      assert i >= j && j >= i;
    }
  }

  /** What the lookup precomputes from the hash. */
  datatype PreCompute = PreCompute(gnuhash: nat, fofs: nat, fmask: nat, sysv: Option<nat>)

  function Precompute(h: nat): PreCompute {
    PreCompute(h, h / 64, Pow2(h % 64), None)
  }

  /** The two filter tests, as masks and shifts, pass for every name in the filter. */
  lemma FilterPasses(g: GnuTable, h: nat, k: nat)
    requires g.nbloom == Pow2(k) && |g.blooms| == g.nbloom
    ensures BitAnd(h / 64, g.nbloom - 1) == BloomWord(g, h)
    ensures BitAnd(g.blooms[BloomWord(g, h)], Pow2(h % 64)) == 0 <==> Bit(g.blooms[BloomWord(g, h)], h % 64) == 0
  {
    AndLowMask(h / 64, k);
    LowBitsIsRemainder(h / 64, k);
    AndBit(g.blooms[BloomWord(g, h)], h % 64);
  }

  /** `ElfGnuHash::lookup`: filter, bucket, then the chain up to the entry whose low
      bit is set. It refines a scan of the symbols from `symbias` on. */
  method Lookup(g: GnuTable, t: SymTab, name: seq<byte>, pre: PreCompute, ghost hash: seq<byte> -> nat)
    returns (r: Option<nat>)
    requires WellFormed(g, t, hash)
    requires pre.gnuhash == hash(name) && pre.fofs == hash(name) / 64 && pre.fmask == Pow2(hash(name) % 64)
    ensures match r case Some(i) => FirstNamed(g, t, name, i) case None => NotNamed(g, t, name)
  {
    var h := pre.gnuhash;
    ghost var k: nat :| g.nbloom == Pow2(k);
    FilterPasses(g, h, k);
    Present(g, t, hash, name);
    var filter := g.blooms[BitAnd(pre.fofs, g.nbloom - 1)];
    if BitAnd(filter, pre.fmask) == 0 {
      return None;
    }
    if filter / Pow2(h / Pow2(g.nshift) % 64) % 2 == 0 {
      return None;
    }
    var start := g.buckets[h % g.nbucket];
    if start == 0 {
      return None;
    }
    r := Walk(g, t, name, h, start, hash);
  }

  /** A symbol with the name would be in the filter and in the chain of its bucket. */
  lemma Present(g: GnuTable, t: SymTab, hash: seq<byte> -> nat, name: seq<byte>)
    requires WellFormed(g, t, hash)
    ensures NotNamed(g, t, name) || (InFilter(g, hash(name)) && g.buckets[hash(name) % g.nbucket] != 0)
  {
    if !NotNamed(g, t, name) {
      var i :| g.symbias <= i < |t.symbols| && t.Name(i) == name;
      assert SymbolEntry(g, t, hash, i);
    }
  }

  /** The chain walk from the first symbol of the bucket. */
  method Walk(g: GnuTable, t: SymTab, name: seq<byte>, h: nat, start: nat, ghost hash: seq<byte> -> nat)
    returns (r: Option<nat>)
    requires WellFormed(g, t, hash) && h == hash(name) && start == g.buckets[h % g.nbucket] != 0
    ensures match r case Some(i) => FirstNamed(g, t, name, i) case None => NotNamed(g, t, name)
  {
    var idx := start;
    while true
      invariant g.symbias <= start <= idx < |t.symbols|
      invariant forall j :: start <= j <= idx ==> Bucket(g, t, hash, j) == h % g.nbucket
      invariant forall j :: start <= j < idx ==> t.Name(j) != name
      decreases |t.symbols| - idx
    {
      assert SymbolEntry(g, t, hash, idx);
      var c := g.chains[idx - g.symbias];
      if h / 2 == c / 2 {
        if t.Name(idx) == name {
          FirstInChain(g, t, hash, name, start, idx);
          return Some(idx);
        }
      }
      if c % 2 == 1 {
        break;
      }
      idx := idx + 1;
    }
    NoneInChain(g, t, hash, name, start, idx);
    r := None;
  }

  lemma FirstInChain(g: GnuTable, t: SymTab, hash: seq<byte> -> nat, name: seq<byte>, start: nat, idx: nat)
    requires WellFormed(g, t, hash) && start == g.buckets[hash(name) % g.nbucket]
    requires g.symbias <= start <= idx < |t.symbols| && t.Name(idx) == name
    requires forall j :: start <= j < idx ==> t.Name(j) != name
    ensures FirstNamed(g, t, name, idx)
  {
    forall j | g.symbias <= j < idx ensures t.Name(j) != name {
      assert SymbolEntry(g, t, hash, j);
    }
  }

  /** The group ends at `idx`, so no symbol outside `start..idx` has the name. */
  lemma NoneInChain(g: GnuTable, t: SymTab, hash: seq<byte> -> nat, name: seq<byte>, start: nat, idx: nat)
    requires WellFormed(g, t, hash) && start == g.buckets[hash(name) % g.nbucket]
    requires g.symbias <= start <= idx < |t.symbols| && Bucket(g, t, hash, idx) == hash(name) % g.nbucket
    requires forall j :: start <= j <= idx ==> t.Name(j) != name
    requires g.chains[idx - g.symbias] % 2 == 1
    ensures NotNamed(g, t, name)
  {
    assert SymbolEntry(g, t, hash, idx);
    forall j | g.symbias <= j < |t.symbols| ensures t.Name(j) != name {
      assert SymbolEntry(g, t, hash, j);
      assert t.Name(j) == name && j > idx ==> Bucket(g, t, hash, idx + 1) == hash(name) % g.nbucket;
    }
  }

  /** `count_syms`: the largest bucket entry, then along its chain to the end. It is the
      size of the symbol table unless nothing is hashed, when it is 1. */
  method CountSyms(g: GnuTable, ghost t: SymTab, ghost hash: seq<byte> -> nat) returns (n: nat)
    requires WellFormed(g, t, hash)
    ensures n == if g.symbias < |t.symbols| then |t.symbols| else 1
  {
    var nsym := 0;
    for b := 0 to g.nbucket
      invariant forall c :: 0 <= c < b ==> g.buckets[c] <= nsym
      invariant nsym == 0 || exists c :: 0 <= c < b && g.buckets[c] == nsym
    {
      if g.buckets[b] > nsym {
        nsym := g.buckets[b];
      }
    }
    if g.symbias < |t.symbols| {
      assert SymbolEntry(g, t, hash, |t.symbols| - 1);
    }
    if nsym > 0 {
      ghost var first := nsym;
      while g.chains[nsym - g.symbias] % 2 == 0
        invariant g.symbias <= first <= nsym < |t.symbols|
        invariant Bucket(g, t, hash, nsym) == Bucket(g, t, hash, first)
        invariant forall c :: 0 <= c < g.nbucket ==> g.buckets[c] <= first
        decreases |t.symbols| - nsym
      {
        assert SymbolEntry(g, t, hash, nsym);
        nsym := nsym + 1;
      }
      LastGroup(g, t, hash, first, nsym);
    }
    n := nsym + 1;
  }

  /** The group of the largest bucket entry is the last one. */
  lemma LastGroup(g: GnuTable, t: SymTab, hash: seq<byte> -> nat, first: nat, last: nat)
    requires WellFormed(g, t, hash) && g.symbias <= first <= last < |t.symbols|
    requires forall b :: 0 <= b < g.nbucket ==> g.buckets[b] <= first
    requires Bucket(g, t, hash, last) == Bucket(g, t, hash, first) && g.chains[last - g.symbias] % 2 == 1
    ensures last + 1 == |t.symbols|
  {
    assert SymbolEntry(g, t, hash, last);
    var n := last + 1;
    assert n < |t.symbols| ==> SymbolEntry(g, t, hash, n);
  }
}
