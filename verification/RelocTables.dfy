/** Splitting an image's relocation tables into passes (`DynamicRelocation::new`,
    src/relocation/dynamic.rs).

    A table is a slice of the image: an address and a number of 24-byte entries. Two
    entries are the same entry when they are at the same address. */
module RelocTables {
  import opened Words

  datatype Slice = Slice(addr: nat, len: nat) {
    function End(): nat {
      addr + 24 * len
    }

    function Addr(i: nat): nat {
      addr + 24 * i
    }

    /** `[..n]` and `[n..]`. */
    function Take(n: nat): Slice
      requires n <= len
    {
      Slice(addr, n)
    }

    function Drop(n: nat): Slice
      requires n <= len
    {
      Slice(addr + 24 * n, len - n)
    }
  }

  datatype Relative = Rel(table: Slice) | Relr(words: seq<u64>)

  datatype Parts = Parts(relative: Relative, dynrel: Slice, pltrel: Slice)

  /** A missing table is an empty slice at the dangling address `nowhere`. */
  function OrEmpty(t: Option<Slice>, nowhere: nat): Slice {
    if t.Some? then t.value else Slice(nowhere, 0)
  }

  /** The split once the tables are known. */
  function SplitAt(plt: Slice, dyn: Slice, relCount: nat): Option<Parts>
    requires relCount <= dyn.len
  {
    var rest := dyn.Drop(relCount);
    if dyn.End() == plt.End() then
      if plt.len > rest.len then None else Some(Parts(Rel(dyn.Take(relCount)), rest.Take(rest.len - plt.len), plt))
    else Some(Parts(Rel(dyn.Take(relCount)), rest, plt))
  }

  /** `None` is a slice index out of range, which panics. */
  function Split(pltrel: Option<Slice>, dynrel: Option<Slice>, relr: Option<seq<u64>>, relCount: nat, nowhere: nat)
    : Option<Parts>
  {
    var plt, dyn := OrEmpty(pltrel, nowhere), OrEmpty(dynrel, nowhere);
    if relr.Some? then Some(Parts(Relr(relr.value), dyn, plt))
    else if relCount > dyn.len then None
    else SplitAt(plt, dyn, relCount)
  }

  function Addrs(t: Slice): (s: seq<nat>)
    ensures |s| == t.len && forall i :: 0 <= i < t.len ==> s[i] == t.Addr(i)
  {
    seq(t.len, i requires 0 <= i => t.Addr(i))
  }

  /** Every entry the three passes visit, in the order they visit it. */
  function Visited(p: Parts): seq<nat> {
    (if p.relative.Rel? then Addrs(p.relative.table) else []) + Addrs(p.dynrel) + Addrs(p.pltrel)
  }

  /** No entry is in both tables. */
  ghost predicate Apart(a: Slice, b: Slice) {
    forall i, j :: 0 <= i < a.len && 0 <= j < b.len ==> a.Addr(i) != b.Addr(j)
  }

  lemma AddrsJoin(t: Slice, n: nat)
    requires n <= t.len
    ensures Addrs(t) == Addrs(t.Take(n)) + Addrs(t.Drop(n))
  {
    var joined := Addrs(t.Take(n)) + Addrs(t.Drop(n));
    forall i | 0 <= i < t.len ensures Addrs(t)[i] == joined[i] {
      if i >= n {
        assert joined[i] == t.Drop(n).Addr(i - n);
      }
    }
  }

  lemma DistinctJoin(a: Slice, b: Slice)
    ensures PairwiseDistinct(Addrs(a) + Addrs(b)) <==> Apart(a, b)
  {
    var both := Addrs(a) + Addrs(b);
    if PairwiseDistinct(both) {
      forall i, j | 0 <= i < a.len && 0 <= j < b.len ensures a.Addr(i) != b.Addr(j) {
        assert both[i] == a.Addr(i) && both[a.len + j] == b.Addr(j);
      }
    }
    if Apart(a, b) {
      forall i, j | 0 <= i < j < |both| ensures both[i] != both[j] {
        if i < a.len <= j {
          assert a.Addr(i) != b.Addr(j - a.len);
        }
      }
    }
  }

  /** PLT entries that end where the dynamic table ends are its suffix. */
  lemma SuffixIs(dyn: Slice, plt: Slice)
    requires dyn.End() == plt.End() && plt.len <= dyn.len
    ensures dyn.Drop(dyn.len - plt.len) == plt
  {
  }

  /** Without RELR the passes visit exactly the entries of the two tables, in table
      order; and each exactly once precisely when the PLT entries are a suffix of the
      dynamic table or lie outside it. It panics exactly when the counts do not fit. */
  lemma ExactlyOnce(pltrel: Option<Slice>, dynrel: Option<Slice>, relCount: nat, nowhere: nat)
    ensures var plt, dyn := OrEmpty(pltrel, nowhere), OrEmpty(dynrel, nowhere);
            var suffix := dyn.End() == plt.End();
            match Split(pltrel, dynrel, None, relCount, nowhere)
            case None => relCount + (if suffix then plt.len else 0) > dyn.len
            case Some(p) =>
              && relCount + (if suffix then plt.len else 0) <= dyn.len
              && p.relative.Rel? && p.relative.table.len == relCount && p.pltrel == plt
              && Visited(p) == (if suffix then Addrs(dyn) else Addrs(dyn) + Addrs(plt))
              && (forall a :: a in Visited(p) <==> a in Addrs(dyn) || a in Addrs(plt))
              && (PairwiseDistinct(Visited(p)) <==> suffix || Apart(dyn, plt))
  {
    var plt, dyn := OrEmpty(pltrel, nowhere), OrEmpty(dynrel, nowhere);
    var split := Split(pltrel, dynrel, None, relCount, nowhere);
    if split.Some? {
      var p := split.value;
      AddrsJoin(dyn, relCount);
      if dyn.End() == plt.End() {
        var rest := dyn.Drop(relCount);
        AddrsJoin(rest, rest.len - plt.len);
        SuffixIs(rest, plt);
        assert Visited(p) == Addrs(dyn.Take(relCount)) + (Addrs(p.dynrel) + Addrs(plt));
      } else {
        DistinctJoin(dyn, plt);
      }
    }
  }

  lemma TakeAll(t: Slice)
    ensures t.Take(t.len) == t
  {
  }

  lemma SplitAtApart(plt: Slice, dyn: Slice, relCount: nat)
    requires relCount <= dyn.len && (plt.len > 0 ==> plt.End() != dyn.End())
    ensures SplitAt(plt, dyn, relCount) == Some(Parts(Rel(dyn.Take(relCount)), dyn.Drop(relCount), plt))
  {
    TakeAll(dyn.Drop(relCount));
  }

  /** Without RELR, and with tables that do not end at the same address, the dynamic table is
      split at the count and the PLT table is taken as it is. */
  lemma SplitApart(pltrel: Option<Slice>, dynrel: Option<Slice>, relCount: nat, nowhere: nat, plt: Slice, dyn: Slice)
    requires plt == OrEmpty(pltrel, nowhere) && dyn == OrEmpty(dynrel, nowhere)
    requires relCount <= dyn.len && (plt.len > 0 ==> plt.End() != dyn.End())
    ensures Split(pltrel, dynrel, None, relCount, nowhere) ==
            Some(Parts(Rel(dyn.Take(relCount)), dyn.Drop(relCount), plt))
  {
    SplitAtApart(plt, dyn, relCount);
  }

  /** With RELR the dynamic table is taken whole: each entry is visited once precisely
      when no entry is in both tables. */
  lemma WithRelr(pltrel: Option<Slice>, dynrel: Option<Slice>, words: seq<u64>, relCount: nat, nowhere: nat)
    ensures var plt, dyn := OrEmpty(pltrel, nowhere), OrEmpty(dynrel, nowhere);
            Split(pltrel, dynrel, Some(words), relCount, nowhere) == Some(Parts(Relr(words), dyn, plt)) &&
            (PairwiseDistinct(Visited(Parts(Relr(words), dyn, plt))) <==> Apart(dyn, plt))
  {
    var plt, dyn := OrEmpty(pltrel, nowhere), OrEmpty(dynrel, nowhere);
    assert [] + Addrs(dyn) == Addrs(dyn);
    DistinctJoin(dyn, plt);
  }

  /** So with RELR a suffix of PLT entries is visited twice. */
  lemma RelrSuffixTwice(dyn: Slice, plt: Slice, words: seq<u64>, relCount: nat, nowhere: nat)
    requires dyn.End() == plt.End() && 0 < plt.len && 0 < dyn.len
    ensures !PairwiseDistinct(Visited(Split(Some(plt), Some(dyn), Some(words), relCount, nowhere).value))
  {
    WithRelr(Some(plt), Some(dyn), words, relCount, nowhere);
    assert dyn.Addr(dyn.len - 1) == plt.Addr(plt.len - 1);
  }
}
