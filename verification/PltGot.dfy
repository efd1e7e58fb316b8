/** The GOT and PLT that the loader builds for a relocatable object
    (src/segment/section.rs, `PltGotSection`).

    A slot belongs to a symbol used through the GOT directly, or to the stub of a
    symbol. `Tables` is the history of allocations; the section keeps counters and
    two hash maps, and `Valid` ties them to that history. */
module PltGot {
  import opened Words

  datatype Owner = Direct(sym: nat) | Stub(sym: nat)

  datatype Tables = Tables(owners: seq<Owner>, stubs: seq<nat>) {
    /** No two owners share a slot, no two symbols share a stub, and each stub has
        exactly one slot. */
    ghost predicate Consistent() {
      && PairwiseDistinct(owners)
      && PairwiseDistinct(stubs)
      && (forall s :: s in stubs <==> Stub(s) in owners)
    }

    predicate Extends(t: Tables) {
      t.owners <= owners && t.stubs <= stubs
    }

    function AddGot(s: nat): Tables {
      if Direct(s) in owners then this else Tables(owners + [Direct(s)], stubs)
    }

    function AddPlt(s: nat): Tables {
      if s in stubs then this else Tables(owners + [Stub(s)], stubs + [s])
    }

    lemma AddKeeps(s: nat)
      requires Consistent()
      ensures AddGot(s).Consistent() && AddGot(s).Extends(this) && Direct(s) in AddGot(s).owners
      ensures AddPlt(s).Consistent() && AddPlt(s).Extends(this) && s in AddPlt(s).stubs
    {
      assert Stub(s) in (owners + [Stub(s)]) && s in (stubs + [s]);
      assert forall o :: o in (owners + [Stub(s)]) <==> o in owners || o == Stub(s);
      assert forall o :: o in (owners + [Direct(s)]) <==> o in owners || o == Direct(s);
      if Direct(s) !in owners {
        assert (owners + [Direct(s)])[|owners|] == Direct(s);
      }
    }
  }

  /** The place of an element of a list without repetitions. */
  ghost function IndexOf<T>(l: seq<T>, x: T): (i: nat)
    requires x in l
    ensures i < |l| && l[i] == x
  {
    var i :| 0 <= i < |l| && l[i] == x; i
  }

  lemma IndexStable<T>(l: seq<T>, l': seq<T>, x: T)
    requires x in l && l <= l' && PairwiseDistinct(l')
    ensures x in l' && IndexOf(l', x) == IndexOf(l, x)
  {
    assert l'[IndexOf(l, x)] == x;
    assert IndexOf(l', x) == IndexOf(l, x);
  }

  /** Only the counted symbols own slots and stubs. */
  ghost predicate DrawnFrom(t: Tables, got: set<nat>, plt: set<nat>) {
    && (forall i :: 0 <= i < |t.owners| ==>
          match t.owners[i] case Direct(s) => s in got case Stub(s) => s in plt)
    && (forall i :: 0 <= i < |t.stubs| ==> t.stubs[i] in plt)
  }

  lemma {:induction false} DistinctBound<T>(l: seq<T>, all: set<T>)
    requires PairwiseDistinct(l) && forall i :: 0 <= i < |l| ==> l[i] in all
    ensures |l| <= |all|
  {
    if |l| > 0 {
      var x := l[0];
      assert forall i :: 0 <= i < |l[1..]| ==> l[1..][i] == l[i + 1];
      DistinctBound(l[1..], all - {x});
    }
  }

  function Directs(syms: set<nat>): set<Owner> {
    set s | s in syms :: Direct(s)
  }

  function Stubs(syms: set<nat>): set<Owner> {
    set s | s in syms :: Stub(s)
  }

  lemma {:induction false} DirectsCount(syms: set<nat>)
    ensures |Directs(syms)| == |syms|
  {
    if syms != {} {
      var s :| s in syms;
      DirectsCount(syms - {s});
      assert Directs(syms) == Directs(syms - {s}) + {Direct(s)};
    }
  }

  lemma {:induction false} StubsCount(syms: set<nat>)
    ensures |Stubs(syms)| == |syms|
  {
    if syms != {} {
      var s :| s in syms;
      StubsCount(syms - {s});
      assert Stubs(syms) == Stubs(syms - {s}) + {Stub(s)};
    }
  }

  /** The counts made before layout are enough for whatever is allocated later. */
  lemma Capacity(t: Tables, got: set<nat>, plt: set<nat>)
    requires t.Consistent() && DrawnFrom(t, got, plt)
    ensures |t.owners| <= |got| + |plt| && |t.stubs| <= |plt|
  {
    DistinctBound(t.stubs, plt);
    DirectsCount(got);
    StubsCount(plt);
    assert |Directs(got) + Stubs(plt)| <= |got| + |plt|;
    forall i | 0 <= i < |t.owners| ensures t.owners[i] in Directs(got) + Stubs(plt) {
      match t.owners[i] {
        case Direct(s) =>
        case Stub(s) =>
      }
    }
    DistinctBound(t.owners, Directs(got) + Stubs(plt));
  }

  lemma DrawnAfterAdd(t: Tables, s: nat, got: set<nat>, plt: set<nat>)
    requires DrawnFrom(t, got, plt)
    ensures s in got ==> DrawnFrom(t.AddGot(s), got, plt)
    ensures s in plt ==> DrawnFrom(t.AddPlt(s), got, plt)
  {
  }

  /** What `add_got_entry` and `add_plt_entry` hand back: the slot index of an entry
      made earlier, or of one to be filled now. */
  datatype Entry = Occupied(idx: nat) | Vacant(idx: nat, got: nat)

  class PltGotSection {
    var gotBase: nat
    var pltBase: nat
    var gotIdx: nat
    var pltIdx: nat
    var gotMap: map<nat, nat>
    var pltMap: map<nat, nat>
    ghost var tables: Tables

    ghost predicate Valid()
      reads this
    {
      && tables.Consistent()
      && gotIdx == |tables.owners| && pltIdx == |tables.stubs|
      && (forall s :: s in gotMap <==> Direct(s) in tables.owners)
      && (forall s :: s in gotMap ==> gotMap[s] == IndexOf(tables.owners, Direct(s)))
      && (forall s :: s in pltMap <==> s in tables.stubs)
      && (forall s :: s in pltMap ==> pltMap[s] == IndexOf(tables.stubs, s))
    }

    constructor (got: nat, plt: nat)
      ensures Valid() && tables == Tables([], []) && gotBase == got && pltBase == plt
    {
      gotBase, pltBase, gotIdx, pltIdx := got, plt, 0, 0;
      gotMap, pltMap := map[], map[];
      tables := Tables([], []);
    }

    /** Moves both tables by the load bias. */
    method Rebase(base: nat)
      requires Valid()
      modifies this`gotBase, this`pltBase
      ensures Valid() && tables == old(tables)
      ensures gotBase == old(gotBase) + base && pltBase == old(pltBase) + base
    {
      gotBase := gotBase + base;
      pltBase := pltBase + base;
    }

    method AddGotEntry(sym: nat) returns (e: Entry)
      requires Valid()
      modifies this`gotIdx, this`gotMap, this`tables
      ensures Valid() && tables == old(tables).AddGot(sym)
      ensures Direct(sym) in tables.owners && e.idx == IndexOf(tables.owners, Direct(sym))
      ensures e.Occupied? <==> Direct(sym) in old(tables).owners
    {
      tables.AddKeeps(sym);
      if sym in gotMap {
        e := Occupied(gotMap[sym]);
      } else {
        ghost var before := tables;
        tables := tables.AddGot(sym);
        IndexesKept(before, tables);
        FreshIndex(before.owners, Direct(sym));
        e := Vacant(gotIdx, gotIdx);
        gotMap := gotMap[sym := gotIdx];
        gotIdx := gotIdx + 1;
      }
    }

    method AddPltEntry(sym: nat) returns (e: Entry)
      requires Valid()
      modifies this`gotIdx, this`pltIdx, this`pltMap, this`tables
      ensures Valid() && tables == old(tables).AddPlt(sym)
      ensures sym in tables.stubs && e.idx == IndexOf(tables.stubs, sym)
      ensures e.Occupied? <==> sym in old(tables).stubs
      ensures e.Vacant? ==> Stub(sym) in tables.owners && e.got == IndexOf(tables.owners, Stub(sym))
    {
      tables.AddKeeps(sym);
      if sym in pltMap {
        e := Occupied(pltMap[sym]);
      } else {
        ghost var before := tables;
        tables := tables.AddPlt(sym);
        IndexesKept(before, tables);
        FreshIndex(before.owners, Stub(sym));
        FreshIndex(before.stubs, sym);
        e := Vacant(pltIdx, gotIdx);
        pltMap := pltMap[sym := pltIdx];
        pltIdx := pltIdx + 1;
        gotIdx := gotIdx + 1;
      }
    }
  }

  lemma FreshIndex<T>(l: seq<T>, x: T)
    requires x !in l
    ensures x in l + [x] && IndexOf(l + [x], x) == |l|
  {
    assert (l + [x])[|l|] == x;
    assert forall i :: 0 <= i < |l| ==> (l + [x])[i] == l[i];
  }

  /** Growing the tables never moves a slot or a stub. */
  lemma IndexesKept(t: Tables, t': Tables)
    requires t'.Extends(t) && t'.Consistent()
    ensures forall o :: o in t.owners ==> o in t'.owners && IndexOf(t'.owners, o) == IndexOf(t.owners, o)
    ensures forall s :: s in t.stubs ==> s in t'.stubs && IndexOf(t'.stubs, s) == IndexOf(t.stubs, s)
  {
    forall o | o in t.owners ensures o in t'.owners && IndexOf(t'.owners, o) == IndexOf(t.owners, o) {
      IndexStable(t.owners, t'.owners, o);
    }
    forall s | s in t.stubs ensures s in t'.stubs && IndexOf(t'.stubs, s) == IndexOf(t.stubs, s) {
      IndexStable(t.stubs, t'.stubs, s);
    }
  }
}
