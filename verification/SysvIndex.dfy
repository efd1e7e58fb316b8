/** Symbol lookup through the System V hash table (src/elf/hash/sysv.rs), and its
    agreement with the GNU table (src/elf/symbol.rs). */
module SysvIndex {
  import opened Words
  import opened Symbols
  import opened GnuIndex

  datatype SysvTable = SysvTable(nbucket: nat, nchain: nat, buckets: seq<nat>, chains: seq<nat>)

  predicate Shape(s: SysvTable, t: SymTab) {
    && s.nbucket > 0 && |s.buckets| == s.nbucket
    && s.nchain == |s.chains| == |t.symbols|
  }

  /** `path` is the chain of bucket `b`: it starts at the bucket's entry, follows the
      chain words, and ends where they say 0. */
  ghost predicate ChainOf(s: SysvTable, b: nat, path: seq<nat>)
    requires b < |s.buckets|
  {
    && (forall k :: 0 <= k < |path| ==> 0 < path[k] < |s.chains|)
    && s.buckets[b] == (if |path| == 0 then 0 else path[0])
    && (forall k :: 0 <= k < |path| ==> s.chains[path[k]] == if k + 1 < |path| then path[k + 1] else 0)
  }

  ghost predicate HasChain(s: SysvTable, b: nat)
    requires b < |s.buckets|
  {
    exists path :: ChainOf(s, b, path)
  }

  /** Every bucket has a chain, and the chain of a symbol's bucket contains the symbol.
      Entry 0 is the reserved null symbol and is never chained. */
  ghost predicate WellFormed(s: SysvTable, t: SymTab, hash: seq<byte> -> nat) {
    && Shape(s, t)
    && (forall b :: 0 <= b < s.nbucket ==> HasChain(s, b))
    && (forall b, path :: 0 <= b < s.nbucket && ChainOf(s, b, path) ==>
          forall i :: 1 <= i < |t.symbols| && hash(t.Name(i)) % s.nbucket == b ==> i in path)
  }

  ghost function PathOf(s: SysvTable, b: nat): (path: seq<nat>)
    requires b < |s.buckets| && HasChain(s, b)
    ensures ChainOf(s, b, path)
  {
    var path :| ChainOf(s, b, path); path
  }

  /** The first symbol along a chain with the name. */
  function FirstIn(t: SymTab, path: seq<nat>, name: seq<byte>): (r: Option<nat>)
    requires forall k :: 0 <= k < |path| ==> path[k] < |t.symbols|
    ensures r.Some? ==> r.value < |t.symbols|
  {
    if |path| == 0 then None else if t.Name(path[0]) == name then Some(path[0]) else FirstIn(t, path[1..], name)
  }

  lemma {:induction false} FirstInAt(t: SymTab, path: seq<nat>, name: seq<byte>, k: nat)
    requires forall j :: 0 <= j < |path| ==> path[j] < |t.symbols|
    requires k <= |path| && forall j :: 0 <= j < k ==> t.Name(path[j]) != name
    ensures k == |path| ==> FirstIn(t, path, name) == None
    ensures k < |path| && t.Name(path[k]) == name ==> FirstIn(t, path, name) == Some(path[k])
  {
    if |path| > 0 && k > 0 {
      FirstInAt(t, path[1..], name, k - 1);
    }
  }

  ghost predicate Named(t: SymTab, name: seq<byte>, i: nat) {
    1 <= i < |t.symbols| && t.Name(i) == name
  }

  /** `ElfHash::lookup`: fills in the hash once, then follows the chain. Finds a symbol
      with the name if there is one; the precomputed part it leaves behind is still
      right for this name. */
  method Lookup(s: SysvTable, t: SymTab, name: seq<byte>, pre: PreCompute, hash: seq<byte> -> nat)
    returns (r: Option<nat>, pre': PreCompute)
    requires WellFormed(s, t, hash)
    requires pre.sysv.Some? ==> pre.sysv.value == hash(name)
    ensures match r case Some(i) => Named(t, name, i) case None => forall i :: !Named(t, name, i)
    ensures r == FirstIn(t, PathOf(s, hash(name) % s.nbucket), name)
    ensures pre' == pre.(sysv := Some(hash(name)))
  {
    var h;
    if pre.sysv.Some? {
      h, pre' := pre.sysv.value, pre;
    } else {
      h := hash(name);
      pre' := pre.(sysv := Some(h));
    }
    var b := h % s.nbucket;
    assert HasChain(s, b);
    ghost var path := PathOf(s, b);
    var idx := s.buckets[b];
    ghost var k := 0;
    while idx != 0
      invariant 0 <= k <= |path| && idx == if k < |path| then path[k] else 0
      invariant forall j :: 0 <= j < k ==> t.Name(path[j]) != name
      decreases |path| - k
    {
      if t.Name(idx) == name {
        FirstInAt(t, path, name, k);
        return Some(idx), pre';
      }
      assert s.chains[path[k]] == if k + 1 < |path| then path[k + 1] else 0;
      idx := s.chains[idx];
      k := k + 1;
    }
    FirstInAt(t, path, name, k);
    forall i | 1 <= i < |t.symbols| ensures t.Name(i) != name {
      assert hash(t.Name(i)) % s.nbucket == b ==> i in path;
    }
    r := None;
  }

  // ------------------------------------------------------------------- agreement

  /** `lookup_filter`: only a defined symbol of a usable binding and type counts. */
  function Filter(t: SymTab, r: Option<nat>): Option<nat>
    requires r.Some? ==> r.value < |t.symbols|
  {
    if r.Some? && !t.symbols[r.value].IsUndef() && t.symbols[r.value].IsOkBind() && t.symbols[r.value].IsOkType()
    then r else None
  }

  ghost predicate UniqueNames(t: SymTab) {
    forall i, j :: 1 <= i < j < |t.symbols| ==> t.Name(i) != t.Name(j)
  }

  /** The symbols the GNU table leaves out cannot satisfy a reference anyway. */
  predicate LowUnusable(g: GnuTable, t: SymTab) {
    g.symbias <= |t.symbols| &&
    forall i :: 0 <= i < g.symbias ==> t.symbols[i].IsUndef() || t.symbols[i].IsLocal()
  }

  /** Looking a name up through either index of the same symbol table gives the same
      usable symbol. */
  method LookupBoth(g: GnuTable, s: SysvTable, t: SymTab, name: seq<byte>,
                    gnuHash: seq<byte> -> nat, sysvHash: seq<byte> -> nat)
    returns (viaGnu: Option<nat>, viaSysv: Option<nat>)
    requires GnuIndex.WellFormed(g, t, gnuHash) && WellFormed(s, t, sysvHash)
    requires UniqueNames(t) && LowUnusable(g, t)
    ensures viaGnu == viaSysv
    ensures viaGnu.Some? ==> Named(t, name, viaGnu.value)
  {
    var pre := Precompute(gnuHash(name));
    var a := GnuIndex.Lookup(g, t, name, pre, gnuHash);
    var b, _ := Lookup(s, t, name, pre, sysvHash);
    viaGnu, viaSysv := Filter(t, a), Filter(t, b);
    IndexesAgree(g, t, name, a, b);
  }

  lemma IndexesAgree(g: GnuTable, t: SymTab, name: seq<byte>, a: Option<nat>, b: Option<nat>)
    requires 1 <= g.symbias <= |t.symbols| && UniqueNames(t) && LowUnusable(g, t)
    requires match a case Some(i) => FirstNamed(g, t, name, i) case None => NotNamed(g, t, name)
    requires match b case Some(i) => Named(t, name, i) case None => forall i :: !Named(t, name, i)
    ensures Filter(t, a) == Filter(t, b)
  {
    if a.Some? {
      assert Named(t, name, a.value);
      assert b.value == a.value;
    } else if b.Some? {
      assert b.value < g.symbias;
    }
  }
}
