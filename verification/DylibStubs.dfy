/** The PLT of the written library: which stub the slots of `.got.plt` point to
    (tools/gen-elf/src/dylib/symtab.rs and reloc.rs).

    Slots are filled by number, stubs are placed by name; the two agree only if no stub
    was left out. */
module DylibStubs {
  import opened Words
  import opened DylibLayout
  import opened DylibSymbols
  import opened DylibPatch

  // ------------------------------------------------------------- first descriptions

  /** No description before `p` has the name of the one at `p`. */
  predicate FirstAt(all: seq<SymbolDesc>, p: nat)
    requires p < |all|
  {
    all[p].name != [] && !Listed(all[..p], all[p].name)
  }

  lemma {:induction false} DedupPrefix(all: seq<SymbolDesc>, p: nat)
    requires p <= |all|
    ensures Dedup(all[..p]) <= Dedup(all)
  {
    if p == |all| {
      assert all[..p] == all;
    } else {
      DedupPrefix(all[..|all| - 1], p);
      assert all[..|all| - 1][..p] == all[..p];
    }
  }

  lemma DedupLast(all: seq<SymbolDesc>, p: nat)
    requires p < |all|
    ensures Dedup(all[..p + 1]) == if FirstAt(all, p) then Dedup(all[..p]) + [all[p]] else Dedup(all[..p])
  {
    assert all[..p + 1][..p] == all[..p];
    DedupNames(all[..p]);
  }

  /** The first description of a name is the symbol that gets the name. */
  lemma FirstIsSymbol(t: Tables, all: seq<SymbolDesc>, p: nat)
    requires Names(t) && t.symbols == Dedup(all) && p < |all| && FirstAt(all, p)
    ensures var i := |Dedup(all[..p])|;
            && i < |t.symbols| && t.symbols[i] == all[p] && t.symbols[..i] == Dedup(all[..p])
            && all[p].name in t.index && t.index[all[p].name] == i + 1
  {
    DedupLast(all, p);
    DedupPrefix(all, p + 1);
    var i := |Dedup(all[..p])|;
    assert t.symbols[i] == Dedup(all[..p + 1])[i];
    assert NameOk(t, i);
  }

  // ------------------------------------------------------------- the place of a stub

  /** How many bytes of stubs these descriptions bring along. */
  function StubBytes(all: seq<SymbolDesc>): nat {
    |Contents(Dedup(all), Plt)|
  }

  predicate IsPlt(d: SymbolDesc) {
    d.content.Some? && d.content.value.kind == Plt
  }

  lemma StubBytesNext(all: seq<SymbolDesc>, p: nat)
    requires p < |all|
    ensures StubBytes(all[..p + 1]) ==
            StubBytes(all[..p]) + if FirstAt(all, p) && IsPlt(all[p]) then |all[p].content.value.data| else 0
  {
    DedupLast(all, p);
    var front := Dedup(all[..p]);
    if FirstAt(all, p) {
      assert (front + [all[p]])[..|front|] == front;
    }
  }

  lemma {:induction false} NoStubs(all: seq<SymbolDesc>, p: nat)
    requires p <= |all| && forall i :: 0 <= i < p ==> !IsPlt(all[i])
    ensures StubBytes(all[..p]) == 0
  {
    if p == 0 {
      assert all[..0] == [];
    } else {
      NoStubs(all, p - 1);
      StubBytesNext(all, p - 1);
    }
  }

  /** The symbol of a PLT relocation's stub. */
  function StubName(names: seq<Name>, j: nat): Name
    requires j < |names|
  {
    names[j] + PltSuffix()
  }

  /** Stub `j` stands where slot `j` points: behind the first entry and `j` stubs of 16 bytes. */
  ghost predicate OwnStub(t: Tables, names: seq<Name>, j: nat)
    requires Names(t) && j < |names|
  {
    var n := StubName(names, j);
    && n in t.index && n != []
    && var i := t.index[n] - 1;
       IsPlt(t.symbols[i]) && |Contents(t.symbols[..i], Plt)| == 16 + 16 * j
  }

  /** The first value of slot `j` is six bytes into the stub of symbol `i`, behind its first
      jump, if and only if that stub stands where the slot points. */
  lemma SlotInStub(t: Tables, p: SymPlaces, places: Places, i: nat, j: nat)
    requires Good(t) && i < |t.symbols| && IsPlt(t.symbols[i]) && Plt in p.shndx && places.plt == p.plt
    requires |Contents(t.symbols, Plt)| < 0x1_0000_0000_0000_0000 && 16 + 16 * j < 0x1_0000_0000_0000_0000
    ensures |Contents(t.symbols[..i], Plt)| == 16 + 16 * j <==>
            StubValue(places, j) == Wrap64(Moved(t, p)[i + 1].value + 6)
  {
    ContentsPrefix(t.symbols, i);
    StubMoved(t, p, i);
    SixInto(places, |Contents(t.symbols[..i], Plt)|, p.plt, Moved(t, p)[i + 1].value, j);
  }

  lemma SixInto(places: Places, off: nat, plt: nat, v: u64, j: nat)
    requires off < 0x1_0000_0000_0000_0000 && 16 + 16 * j < 0x1_0000_0000_0000_0000
    requires plt == places.plt && v == Wrap64(off + plt)
    ensures off == 16 + 16 * j <==> StubValue(places, j) == Wrap64(v + 6)
  {
    WrapAdd(off + plt, 6);
    WrapCancels(off + plt + 6, 16 + 16 * j - off);
  }

  /** A stub's final value: the PLT's address and its offset. */
  lemma StubMoved(t: Tables, p: SymPlaces, i: nat)
    requires Good(t) && i < |t.symbols| && IsPlt(t.symbols[i]) && Plt in p.shndx
    ensures Moved(t, p)[i + 1].value == Wrap64(|Contents(t.symbols[..i], Plt)| + p.plt)
  {
    assert ValueOk(t, i) && t.kinds[i + 1] == Plt;
    WrapAdd(|Contents(t.symbols[..i], Plt)|, p.plt);
  }

  lemma {:induction false} ContentsPrefix(symbols: seq<SymbolDesc>, i: nat)
    requires i <= |symbols|
    ensures |Contents(symbols[..i], Plt)| <= |Contents(symbols, Plt)|
  {
    if i == |symbols| {
      assert symbols[..i] == symbols;
    } else {
      ContentsPrefix(symbols[..|symbols| - 1], i);
      assert symbols[..|symbols| - 1][..i] == symbols[..i];
    }
  }

  // ----------------------------------------------------------------- when they agree

  /** Stubs of 16 bytes, as on x86-64. */
  ghost predicate Stubs16(plt0: seq<byte>, code: (nat, nat) -> seq<byte>) {
    |plt0| == 16 && forall i, off :: |code(i, off)| == 16
  }

  /** The PLT's descriptions, behind `n` others. */
  ghost predicate PltList(all: seq<SymbolDesc>, n: nat, names: seq<Name>, plt0: seq<byte>,
                          code: (nat, nat) -> seq<byte>, helper: seq<byte>)
  {
    n <= |all| && PltAdded(all[n..], names, plt0, code, helper) && Stubs16(plt0, code)
  }

  /** What the list has at the places of the PLT. */
  lemma PltListAt(all: seq<SymbolDesc>, n: nat, names: seq<Name>, plt0: seq<byte>, code: (nat, nat) -> seq<byte>,
                  helper: seq<byte>, j: nat)
    requires PltList(all, n, names, plt0, code, helper) && j < |names|
    ensures n + 2 + 2 * j < |all| && all[n] == PltDesc(Plt0Name(), plt0)
    ensures all[n + 1 + 2 * j].name == StubName(names, j) && IsPlt(all[n + 1 + 2 * j])
    ensures |all[n + 1 + 2 * j].content.value.data| == 16
    ensures all[n + 2 + 2 * j].name == names[j] + HelperSuffix() && !IsPlt(all[n + 2 + 2 * j])
  {
    var added := all[n..];
    assert added[0] == all[n] && added[1 + 2 * j] == all[n + 1 + 2 * j] && added[2 + 2 * j] == all[n + 2 + 2 * j];
    assert IsStub(added[1 + 2 * j], names[j], j, code);
  }

  /** The suffixes keep the three kinds of names apart. */
  lemma SuffixesApart(a: Name, b: Name)
    ensures a + PltSuffix() != b + HelperSuffix() && a + PltSuffix() != Plt0Name() && a + HelperSuffix() != Plt0Name()
    ensures a + PltSuffix() == b + PltSuffix() ==> a == b
  {
    var x, y := a + PltSuffix(), b + HelperSuffix();
    assert x[|x| - 1] == 0x74 && y[|y| - 1] == 0x72;
    assert |a + HelperSuffix()| >= 7;
    if x == b + PltSuffix() {
      assert a == x[..|x| - 4] && b == (b + PltSuffix())[..|x| - 4];
    }
  }

  /** The place of the first description of a name. */
  function FirstPos(descs: seq<SymbolDesc>, n: Name): (p: nat)
    requires Listed(descs, n)
    ensures p < |descs| && descs[p].name == n && forall i :: 0 <= i < p ==> descs[i].name != n
  {
    if descs[0].name == n then 0 else 1 + FirstPos(descs[1..], n)
  }

  /** Of the first `j` stubs, how many the caller did not describe. */
  function NewStubs(front: seq<SymbolDesc>, names: seq<Name>, j: nat): nat
    requires j <= |names|
  {
    if j == 0 then 0 else NewStubs(front, names, j - 1) + if Listed(front, StubName(names, j - 1)) then 0 else 1
  }

  /** The bytes in front of stub `j`, if it is new. */
  function Ahead(front: seq<SymbolDesc>, names: seq<Name>, j: nat): nat
    requires j <= |names|
  {
    StubBytes(front) + (if Listed(front, Plt0Name()) then 0 else 16) + 16 * NewStubs(front, names, j)
  }

  /** Stub `j` comes to stand where slot `j` points, given the caller's descriptions: a stub
      that the caller described is code for the PLT behind `16 + 16 * j` bytes of such code; any
      other stands behind all of the caller's, the first entry and the new stubs before it. */
  predicate StubInPlace(front: seq<SymbolDesc>, names: seq<Name>, j: nat)
    requires j < |names|
  {
    var n := StubName(names, j);
    if Listed(front, n) then
      IsPlt(front[FirstPos(front, n)]) && StubBytes(front[..FirstPos(front, n)]) == 16 + 16 * j
    else Ahead(front, names, j) == 16 + 16 * j
  }

  predicate StubsInPlace(front: seq<SymbolDesc>, names: seq<Name>) {
    PairwiseDistinct(names) && forall j :: 0 <= j < |names| ==> StubInPlace(front, names, j)
  }

  /** With distinct names, the PLT's description of a stub is the first exactly if the caller has
      none. */
  lemma StubFirstIff(all: seq<SymbolDesc>, n: nat, names: seq<Name>, plt0: seq<byte>, code: (nat, nat) -> seq<byte>,
                     helper: seq<byte>, j: nat)
    requires PltList(all, n, names, plt0, code, helper) && j < |names| && PairwiseDistinct(names)
    ensures n + 1 + 2 * j < |all| && (FirstAt(all, n + 1 + 2 * j) <==> !Listed(all[..n], StubName(names, j)))
  {
    PltListAt(all, n, names, plt0, code, helper, j);
    var p := n + 1 + 2 * j;
    if Listed(all[..n], StubName(names, j)) {
      var i :| 0 <= i < n && all[..n][i].name == StubName(names, j);
      assert all[..p][i].name == StubName(names, j);
    } else {
      forall i | 0 <= i < p ensures all[i].name != StubName(names, j) {
        OtherName(all, n, names, plt0, code, helper, j, i);
      }
    }
  }

  lemma OtherName(all: seq<SymbolDesc>, n: nat, names: seq<Name>, plt0: seq<byte>, code: (nat, nat) -> seq<byte>,
                  helper: seq<byte>, j: nat, i: nat)
    requires PltList(all, n, names, plt0, code, helper) && j < |names| && PairwiseDistinct(names)
    requires i < n + 1 + 2 * j && n + 1 + 2 * j < |all| && !Listed(all[..n], StubName(names, j))
    ensures all[i].name != StubName(names, j)
  {
    if i < n {
      assert all[..n][i] == all[i];
    } else {
      PltListAt(all, n, names, plt0, code, helper, j);
      SuffixesApart(names[j], []);
      if i > n {
        var k := (i - n - 1) / 2;
        PltListAt(all, n, names, plt0, code, helper, k);
        SuffixesApart(names[j], names[k]);
      }
    }
  }

  lemma FirstEntryBytes(all: seq<SymbolDesc>, n: nat, plt0: seq<byte>)
    requires n < |all| && all[n] == PltDesc(Plt0Name(), plt0) && |plt0| == 16
    ensures StubBytes(all[..n + 1]) == StubBytes(all[..n]) + if Listed(all[..n], Plt0Name()) then 0 else 16
  {
    StubBytesNext(all, n);
  }

  /** Stub `j` and its helper add 16 bytes of stubs, unless the caller described the stub. */
  ghost predicate PairAdds(all: seq<SymbolDesc>, n: nat, names: seq<Name>, j: nat)
    requires j < |names|
  {
    && n + 1 + 2 * (j + 1) <= |all|
    && StubBytes(all[..n + 1 + 2 * (j + 1)]) ==
       StubBytes(all[..n + 1 + 2 * j]) + if Listed(all[..n], StubName(names, j)) then 0 else 16
  }

  lemma {:induction false} BytesAhead(all: seq<SymbolDesc>, n: nat, names: seq<Name>, j: nat)
    requires j <= |names| && forall i :: 0 <= i < j ==> PairAdds(all, n, names, i)
    requires n + 1 <= |all| && StubBytes(all[..n + 1]) == Ahead(all[..n], names, 0)
    ensures n + 1 + 2 * j <= |all| && StubBytes(all[..n + 1 + 2 * j]) == Ahead(all[..n], names, j)
  {
    if j > 0 {
      BytesAhead(all, n, names, j - 1);
      assert PairAdds(all, n, names, j - 1);
      AheadNext(all[..n], names, j - 1);
    }
  }

  /** The bytes in front of stub `j`. */
  lemma BytesBefore(all: seq<SymbolDesc>, n: nat, names: seq<Name>, plt0: seq<byte>, code: (nat, nat) -> seq<byte>,
                    helper: seq<byte>, j: nat)
    requires PltList(all, n, names, plt0, code, helper) && j < |names| && PairwiseDistinct(names)
    ensures n + 1 + 2 * j <= |all| && StubBytes(all[..n + 1 + 2 * j]) == Ahead(all[..n], names, j)
  {
    BytesFirst(all, n, names, plt0, code, helper);
    forall i | 0 <= i < j ensures PairAdds(all, n, names, i) {
      PairAt(all, n, names, plt0, code, helper, i, n + 1 + 2 * i);
    }
    BytesAhead(all, n, names, j);
  }

  lemma BytesFirst(all: seq<SymbolDesc>, n: nat, names: seq<Name>, plt0: seq<byte>, code: (nat, nat) -> seq<byte>,
                   helper: seq<byte>)
    requires PltList(all, n, names, plt0, code, helper) && 0 < |names|
    ensures n + 1 <= |all| && StubBytes(all[..n + 1]) == Ahead(all[..n], names, 0)
  {
    PltListAt(all, n, names, plt0, code, helper, 0);
    FirstEntryBytes(all, n, plt0);
  }

  lemma PairAt(all: seq<SymbolDesc>, n: nat, names: seq<Name>, plt0: seq<byte>, code: (nat, nat) -> seq<byte>,
               helper: seq<byte>, j: nat, p: nat)
    requires PltList(all, n, names, plt0, code, helper) && j < |names| && PairwiseDistinct(names) && p == n + 1 + 2 * j
    ensures p + 2 <= |all|
    ensures StubBytes(all[..p + 2]) == StubBytes(all[..p]) + if Listed(all[..n], StubName(names, j)) then 0 else 16
  {
    StubFirstIff(all, n, names, plt0, code, helper, j);
    PltListAt(all, n, names, plt0, code, helper, j);
    StubStep(all, p);
  }

  lemma AheadNext(front: seq<SymbolDesc>, names: seq<Name>, j: nat)
    requires j < |names|
    ensures Ahead(front, names, j + 1) == Ahead(front, names, j) + if Listed(front, StubName(names, j)) then 0 else 16
  {
  }

  /** A stub of 16 bytes and its helper. */
  lemma StubStep(all: seq<SymbolDesc>, p: nat)
    requires p + 1 < |all| && IsPlt(all[p]) && |all[p].content.value.data| == 16 && !IsPlt(all[p + 1])
    ensures StubBytes(all[..p + 2]) == StubBytes(all[..p]) + if FirstAt(all, p) then 16 else 0
  {
    StubBytesNext(all, p);
    StubBytesNext(all, p + 1);
  }

  /** The stub of a symbol that is first described at `p`. */
  lemma OwnStubAt(t: Tables, all: seq<SymbolDesc>, names: seq<Name>, j: nat, p: nat)
    requires Names(t) && t.symbols == Dedup(all) && j < |names| && p < |all|
    requires all[p].name == StubName(names, j) && FirstAt(all, p)
    ensures OwnStub(t, names, j) <==> IsPlt(all[p]) && StubBytes(all[..p]) == 16 + 16 * j
  {
    FirstIsSymbol(t, all, p);
  }

  /** With distinct names, a slot points to its own stub exactly if the stub comes to stand
      there. */
  lemma OwnIffInPlace(t: Tables, all: seq<SymbolDesc>, n: nat, names: seq<Name>, plt0: seq<byte>,
                      code: (nat, nat) -> seq<byte>, helper: seq<byte>, j: nat)
    requires Names(t) && t.symbols == Dedup(all) && PltList(all, n, names, plt0, code, helper)
    requires PairwiseDistinct(names) && j < |names|
    ensures OwnStub(t, names, j) <==> StubInPlace(all[..n], names, j)
  {
    var front, s := all[..n], StubName(names, j);
    assert |s| >= 4;
    PltListAt(all, n, names, plt0, code, helper, j);
    if Listed(front, s) {
      var p := FirstPos(front, s);
      assert front[p] == all[p] && front[..p] == all[..p];
      OwnStubAt(t, all, names, j, p);
    } else {
      StubFirstIff(all, n, names, plt0, code, helper, j);
      BytesBefore(all, n, names, plt0, code, helper, j);
      OwnStubAt(t, all, names, j, n + 1 + 2 * j);
    }
  }

  /** Every slot points to its own stub if and only if the names are distinct and every stub
      comes to stand in its place. */
  lemma OwnStubsIff(t: Tables, all: seq<SymbolDesc>, n: nat, names: seq<Name>, plt0: seq<byte>,
                    code: (nat, nat) -> seq<byte>, helper: seq<byte>)
    requires Names(t) && t.symbols == Dedup(all) && PltList(all, n, names, plt0, code, helper)
    ensures (forall j :: 0 <= j < |names| ==> OwnStub(t, names, j)) <==> StubsInPlace(all[..n], names)
  {
    if PairwiseDistinct(names) {
      forall j | 0 <= j < |names| ensures OwnStub(t, names, j) <==> StubInPlace(all[..n], names, j) {
        OwnIffInPlace(t, all, n, names, plt0, code, helper, j);
      }
    } else {
      var i, j :| 0 <= i < j < |names| && names[i] == names[j];
      assert StubName(names, i) == StubName(names, j);
      assert !OwnStub(t, names, i) || !OwnStub(t, names, j);
    }
  }

  // ------------------------------------------------------------------- what that means

  predicate NoPlt(descs: seq<SymbolDesc>) {
    forall i :: 0 <= i < |descs| ==> !IsPlt(descs[i])
  }

  /** The names are new: distinct, and neither their stubs nor the first entry was
      described before. */
  predicate NewNames(front: seq<SymbolDesc>, names: seq<Name>) {
    && PairwiseDistinct(names) && !Listed(front, Plt0Name())
    && forall j :: 0 <= j < |names| ==> !Listed(front, StubName(names, j))
  }

  lemma {:induction false} AllNew(front: seq<SymbolDesc>, names: seq<Name>, j: nat)
    requires j <= |names| && forall i :: 0 <= i < |names| ==> !Listed(front, StubName(names, i))
    ensures NewStubs(front, names, j) == j
  {
    if j > 0 {
      AllNew(front, names, j - 1);
    }
  }

  /** A caller that brings no code for the PLT: stubs are in place if and only if there are none,
      or the names are new. */
  lemma NoStubsBrought(front: seq<SymbolDesc>, names: seq<Name>)
    requires NoPlt(front)
    ensures StubsInPlace(front, names) <==> names == [] || NewNames(front, names)
  {
    NoStubs(front, |front|);
    assert front[..|front|] == front;
    if names != [] && StubsInPlace(front, names) {
      forall j | 0 <= j < |names| ensures !Listed(front, StubName(names, j)) {
        assert StubInPlace(front, names, j);
      }
      assert StubInPlace(front, names, 0);
    }
    if NewNames(front, names) {
      forall j | 0 <= j < |names| ensures StubInPlace(front, names, j) {
        AllNew(front, names, j);
      }
    }
  }

  /** A caller that brings the first entry, 16 bytes, and no stubs: distinct names are enough. */
  lemma FirstEntryBrought(front: seq<SymbolDesc>, names: seq<Name>)
    requires StubBytes(front) == 16 && Listed(front, Plt0Name()) && PairwiseDistinct(names)
    requires forall j :: 0 <= j < |names| ==> !Listed(front, StubName(names, j))
    ensures StubsInPlace(front, names)
  {
    forall j | 0 <= j < |names| ensures StubInPlace(front, names, j) {
      AllNew(front, names, j);
    }
  }

  /** Two slots for one function: the PLT has the first entry and one stub, and the second
      slot points behind both. */
  lemma SharedFunction(t: Tables, all: seq<SymbolDesc>, n: nat, f: Name, plt0: seq<byte>,
                       code: (nat, nat) -> seq<byte>, helper: seq<byte>)
    requires Names(t) && t.symbols == Dedup(all) && PltList(all, n, [f, f], plt0, code, helper) && NoPlt(all[..n])
    requires !Listed(all[..n], Plt0Name()) && !Listed(all[..n], f + PltSuffix())
    ensures OwnStub(t, [f, f], 0) && !OwnStub(t, [f, f], 1) && |Contents(t.symbols, Plt)| == 32
    ensures forall p: Places :: StubValue(p, 1) == Wrap64(p.plt + 32 + 6)
  {
    var names := [f, f];
    PltListAt(all, n, names, plt0, code, helper, 0);
    PltListAt(all, n, names, plt0, code, helper, 1);
    assert forall i :: 0 <= i < n ==> all[..n][i] == all[i];
    NoStubs(all, n);
    FirstEntryBytes(all, n, plt0);
    SharedFirst(all, n, f);
    StubStep(all, n + 1);
    StubStep(all, n + 3);
    assert all[..n + 5] == all;
    FirstIsSymbol(t, all, n + 1);
    assert StubName(names, 0) == StubName(names, 1);
  }

  lemma SharedFirst(all: seq<SymbolDesc>, n: nat, f: Name)
    requires n + 3 < |all| && all[n].name == Plt0Name() && !Listed(all[..n], f + PltSuffix())
    requires all[n + 1].name == all[n + 3].name == f + PltSuffix()
    ensures FirstAt(all, n + 1) && !FirstAt(all, n + 3)
  {
    SuffixesApart(f, f);
    forall i | 0 <= i < n + 1 ensures all[i].name != f + PltSuffix() {
      assert i < n ==> all[..n][i] == all[i];
    }
    assert all[..n + 3][n + 1] == all[n + 1];
  }
}
