/** Patching the code sections once the layout is known (`patch_text`,
    tools/gen-elf/src/dylib/text.rs; `patch_ifunc_resolver`, `patch_helpers` and `patch_plt`,
    tools/gen-elf/src/dylib/symtab.rs; tools/gen-elf/src/arch/x86_64.rs).

    Instruction bytes are opaque, but where they are patched and with what is not. Offsets are
    differences of addresses and wrap, as in a release build; a slice that leaves its section
    panics. */
module DylibCode {
  import opened Words
  import opened Symbols
  import opened DylibSymbols

  // ------------------------------------------------------------------------ one patch

  /** The `n` bytes from `lo` on behind the offset `off` of a section become `value`. */
  datatype Cut = Cut(off: u64, lo: nat, n: nat, value: int) {
    function At(): u64 {
      Wrap64(off + lo)
    }
  }

  /** The range of the slice lies in a section of `len` bytes. */
  predicate CutOk(c: Cut, len: nat) {
    c.n < 0x1_0000 && c.At() <= Wrap64(c.off + c.lo + c.n) <= len
  }

  predicate AllOk(cuts: seq<Cut>, len: nat) {
    forall i :: 0 <= i < |cuts| ==> CutOk(cuts[i], len)
  }

  lemma CutInside(c: Cut, len: nat)
    requires CutOk(c, len)
    ensures c.At() + c.n <= len
  {
    WrapAdd(c.off + c.lo, c.n);
    if c.At() + c.n < 0x1_0000_0000_0000_0000 {
      WrapSmall(c.At() + c.n);
    } else {
      WrapOnce(c.At() + c.n);
    }
  }

  lemma WrapOnce(x: int)
    requires 0x1_0000_0000_0000_0000 <= x < 0x2_0000_0000_0000_0000
    ensures Wrap64(x) == x - 0x1_0000_0000_0000_0000
  {
    WrapCancels(x - 0x1_0000_0000_0000_0000, 0x1_0000_0000_0000_0000);
    WrapSmall(x - 0x1_0000_0000_0000_0000);
  }

  /** A patch at an offset that is no difference below zero is in the section exactly if it
      ends there. */
  lemma CutAtOffset(c: Cut, len: nat)
    requires c.off + c.lo + c.n < 0x1_0000_0000_0000_0000 && c.n < 0x1_0000
    ensures CutOk(c, len) <==> c.off + c.lo + c.n <= len
    ensures c.At() == c.off + c.lo
  {
    WrapSmall(c.off + c.lo);
    WrapSmall(c.off + c.lo + c.n);
  }

  /** A section after a list of patches. */
  function Made(data: seq<byte>, cuts: seq<Cut>): (r: seq<byte>)
    requires AllOk(cuts, |data|)
    ensures |r| == |data|
  {
    if cuts == [] then data
    else
      var k := |cuts| - 1;
      CutInside(cuts[k], |data|);
      Put(Made(data, cuts[..k]), cuts[k].At(), LittleEndian(cuts[k].value, cuts[k].n))
  }

  /** Bytes that later patches leave alone. */
  lemma {:induction false} MadeKeeps(data: seq<byte>, cuts: seq<Cut>, k: nat, at: nat, n: nat)
    requires AllOk(cuts, |data|) && k <= |cuts| && at + n <= |data|
    requires forall i :: k <= i < |cuts| ==> Disjoint(cuts[i].At(), cuts[i].n, at, n)
    ensures AllOk(cuts[..k], |data|)
    ensures Made(data, cuts)[at..at + n] == Made(data, cuts[..k])[at..at + n]
  {
    if k == |cuts| {
      assert cuts[..k] == cuts;
    } else {
      var e := |cuts| - 1;
      MadeKeeps(data, cuts[..e], k, at, n);
      assert cuts[..e][..k] == cuts[..k];
      CutInside(cuts[e], |data|);
      LoadPutElsewhere(Made(data, cuts[..e]), cuts[e].At(), LittleEndian(cuts[e].value, cuts[e].n), at, n);
    }
  }

  /** A patch that no later one touches holds its value. */
  lemma MadeHolds(data: seq<byte>, cuts: seq<Cut>, k: nat)
    requires AllOk(cuts, |data|) && k < |cuts|
    requires forall i :: k < i < |cuts| ==> Disjoint(cuts[i].At(), cuts[i].n, cuts[k].At(), cuts[k].n)
    ensures cuts[k].At() + cuts[k].n <= |data|
    ensures Made(data, cuts)[cuts[k].At()..cuts[k].At() + cuts[k].n] == LittleEndian(cuts[k].value, cuts[k].n)
  {
    CutInside(cuts[k], |data|);
    MadeKeeps(data, cuts, k + 1, cuts[k].At(), cuts[k].n);
    var now := cuts[..k + 1];
    assert now[..k] == cuts[..k] && now[k] == cuts[k];
  }

  lemma MadeNext(data: seq<byte>, cuts: seq<Cut>, c: Cut)
    requires AllOk(cuts, |data|) && CutOk(c, |data|)
    ensures AllOk(cuts + [c], |data|) && c.At() + c.n <= |data|
    ensures Made(data, cuts + [c]) == Put(Made(data, cuts), c.At(), LittleEndian(c.value, c.n))
  {
    CutInside(c, |data|);
    assert (cuts + [c])[..|cuts|] == cuts;
  }

  // ------------------------------------------------------------------- the patches

  /** `patch_ifunc_resolver`: the displacement of the address that the resolver returns. */
  function ResolverCuts(v: u64, text: nat, target: u64): seq<Cut> {
    [Cut(Wrap64(v - text), 3, 4, target - (v + 7))]
  }

  /** `patch_helper`: a jump to the stub at `stub`. */
  function HelperCuts(v: u64, text: nat, stub: u64): seq<Cut> {
    [Cut(Wrap64(v - text), 0, 1, 0xe9), Cut(Wrap64(v - text), 1, 4, stub - (v + 5))]
  }

  /** `patch_plt0`: words 1 and 2 of `.got.plt`. */
  function Plt0Cuts(v: u64, plt: nat, gotPlt: nat): seq<Cut> {
    [Cut(Wrap64(v - plt), 2, 4, gotPlt + 8 - (v + 6)), Cut(Wrap64(v - plt), 8, 4, gotPlt + 16 - (v + 12))]
  }

  /** `patch_plt_entry`: the slot that the stub jumps through. */
  function EntryCut(v: u64, plt: nat, slot: nat): Cut {
    Cut(Wrap64(v - plt), 2, 4, slot - (v + 6))
  }

  /** The marked symbols are symbols of the table. */
  predicate Indexed(m: Marks, n: nat) {
    && (m.plt0.Some? ==> m.plt0.value < n) && (forall j :: 0 <= j < |m.entries| ==> m.entries[j].0 < n)
    && (forall k :: k in m.helpers ==> k < n && m.helpers[k] < n)
  }

  /** The stubs, each with its slot. */
  function EntryList(es: seq<Sym>, m: Marks, plt: nat, gotPlt: nat): (cuts: seq<Cut>)
    requires Indexed(m, |es|)
    ensures |cuts| == |m.entries|
    ensures forall j :: 0 <= j < |cuts| ==>
              cuts[j] == EntryCut(es[m.entries[j].0].value, plt, gotPlt + m.entries[j].1 * 8)
  {
    seq(|m.entries|, j requires 0 <= j < |m.entries| =>
      EntryCut(es[m.entries[j].0].value, plt, gotPlt + m.entries[j].1 * 8))
  }

  /** The symbol that is marked as the first entry. */
  function FirstList(es: seq<Sym>, m: Marks, plt: nat, gotPlt: nat): (cuts: seq<Cut>)
    requires Indexed(m, |es|)
    ensures forall i :: 0 <= i < |cuts| ==> cuts[i].n == 4
  {
    if m.plt0.Some? then Plt0Cuts(es[m.plt0.value].value, plt, gotPlt) else []
  }

  /** `patch_plt`: the first entry, then every stub. */
  function PltCuts(es: seq<Sym>, m: Marks, plt: nat, gotPlt: nat): (cuts: seq<Cut>)
    requires Indexed(m, |es|)
    ensures forall i :: 0 <= i < |cuts| ==> cuts[i].n == 4
  {
    FirstList(es, m, plt, gotPlt) + EntryList(es, m, plt, gotPlt)
  }

  /** The helpers of these stubs, in this order. */
  function HelperList(es: seq<Sym>, m: Marks, order: seq<nat>, text: nat): seq<Cut>
    requires Indexed(m, |es|) && forall i :: 0 <= i < |order| ==> order[i] in m.helpers
  {
    if order == [] then []
    else
      var k := order[|order| - 1];
      HelperList(es, m, order[..|order| - 1], text) + HelperCuts(es[m.helpers[k]].value, text, es[k].value)
  }

  /** An order in which the hash map of helpers may be visited. */
  ghost predicate OrderOf(m: Marks, order: seq<nat>) {
    && PairwiseDistinct(order) && (forall i :: 0 <= i < |order| ==> order[i] in m.helpers)
    && (forall k :: k in m.helpers ==> k in order)
  }

  /** The resolver's patch, if there is a resolver. */
  function ResolverList(es: seq<Sym>, resolver: Option<nat>, text: nat, target: u64): (cuts: seq<Cut>)
    requires resolver.Some? ==> resolver.value < |es|
    ensures forall i :: 0 <= i < |cuts| ==> cuts[i].n == 4
  {
    if resolver.Some? then ResolverCuts(es[resolver.value].value, text, target) else []
  }

  /** `patch_text` on `.text`: the resolver, then the helpers. */
  function TextCuts(es: seq<Sym>, m: Marks, order: seq<nat>, resolver: Option<nat>, text: nat, target: u64): seq<Cut>
    requires Indexed(m, |es|) && (resolver.Some? ==> resolver.value < |es|)
    requires forall i :: 0 <= i < |order| ==> order[i] in m.helpers
  {
    ResolverList(es, resolver, text, target) + HelperList(es, m, order, text)
  }

  // ---------------------------------------------------------------------- in place

  /** `copy_from_slice` of one patch. */
  method MakeCut(data: array<byte>, c: Cut) returns (ok: bool)
    requires c.n < 0x1_0000
    modifies data
    ensures ok <==> CutOk(c, data.Length)
    ensures ok ==> c.At() + c.n <= data.Length && data[..] == Put(old(data[..]), c.At(), LittleEndian(c.value, c.n))
    ensures !ok ==> data[..] == old(data[..])
  {
    var lo, hi := Wrap64(c.off + c.lo), Wrap64(c.off + c.lo + c.n);
    ok := lo <= hi <= data.Length;
    if ok {
      CutInside(c, data.Length);
      WriteBytes(data, lo, LittleEndian(c.value, c.n));
    }
  }

  /** The section `data` is `data0` after the patches `done`. */
  ghost predicate IsMade(data0: seq<byte>, data: seq<byte>, done: seq<Cut>) {
    AllOk(done, |data0|) && data == Made(data0, done)
  }

  /** Patches one after the other, up to one that panics. */
  method MakeCuts(data: array<byte>, cuts: seq<Cut>, ghost data0: seq<byte>, ghost done: seq<Cut>) returns (ok: bool)
    requires |data0| == data.Length && IsMade(data0, data[..], done)
    requires forall i :: 0 <= i < |cuts| ==> cuts[i].n < 0x1_0000
    modifies data
    ensures ok <==> AllOk(cuts, data.Length)
    ensures ok ==> IsMade(data0, data[..], done + cuts)
  {
    assert done + cuts[..0] == done;
    for i := 0 to |cuts|
      invariant AllOk(cuts[..i], |data0|) && IsMade(data0, data[..], done + cuts[..i])
    {
      ok := MakeNext(data, cuts[i], data0, done + cuts[..i]);
      if !ok {
        return;
      }
      assert done + cuts[..i] + [cuts[i]] == done + cuts[..i + 1];
    }
    assert cuts[..|cuts|] == cuts;
    ok := true;
  }

  method MakeNext(data: array<byte>, c: Cut, ghost data0: seq<byte>, ghost done: seq<Cut>) returns (ok: bool)
    requires |data0| == data.Length && IsMade(data0, data[..], done) && c.n < 0x1_0000
    modifies data
    ensures ok <==> CutOk(c, data.Length)
    ensures ok ==> IsMade(data0, data[..], done + [c])
  {
    ok := MakeCut(data, c);
    if ok {
      MadeNext(data0, done, c);
    }
  }

  method PatchPlt(data: array<byte>, es: seq<Sym>, m: Marks, plt: nat, gotPlt: nat) returns (ok: bool)
    requires Indexed(m, |es|)
    modifies data
    ensures ok <==> AllOk(PltCuts(es, m, plt, gotPlt), data.Length)
    ensures ok ==> data[..] == Made(old(data[..]), PltCuts(es, m, plt, gotPlt))
  {
    var cuts := PltCuts(es, m, plt, gotPlt);
    assert [] + cuts == cuts;
    ok := MakeCuts(data, cuts, data[..], []);
  }

  /** The helper of stub `k` can be patched. */
  ghost predicate HelperOk(es: seq<Sym>, m: Marks, k: nat, text: nat, len: nat)
    requires Indexed(m, |es|) && k in m.helpers
  {
    AllOk(HelperCuts(es[m.helpers[k]].value, text, es[k].value), len)
  }

  lemma HelperListNext(es: seq<Sym>, m: Marks, order: seq<nat>, text: nat, k: nat)
    requires Indexed(m, |es|) && k in m.helpers && forall i :: 0 <= i < |order| ==> order[i] in m.helpers
    ensures HelperList(es, m, order + [k], text) ==
            HelperList(es, m, order, text) + HelperCuts(es[m.helpers[k]].value, text, es[k].value)
  {
    assert (order + [k])[..|order|] == order;
  }

  /** The helpers in `order` are patched, those in `todo` are not yet. */
  ghost predicate HelpersSoFar(es: seq<Sym>, m: Marks, order: seq<nat>, todo: set<nat>, text: nat, len: nat)
    requires Indexed(m, |es|)
  {
    && todo <= m.helpers.Keys && PairwiseDistinct(order)
    && (forall i :: 0 <= i < |order| ==> order[i] in m.helpers && order[i] !in todo)
    && (forall k :: k in m.helpers && k !in todo ==> k in order && HelperOk(es, m, k, text, len))
  }

  lemma HelpersNext(es: seq<Sym>, m: Marks, order: seq<nat>, todo: set<nat>, text: nat, len: nat, k: nat)
    requires Indexed(m, |es|) && HelpersSoFar(es, m, order, todo, text, len) && k in todo
    requires HelperOk(es, m, k, text, len)
    ensures HelpersSoFar(es, m, order + [k], todo - {k}, text, len)
  {
    var order' := order + [k];
    assert order'[|order|] == k && forall i :: 0 <= i < |order| ==> order'[i] == order[i];
    forall h | h in m.helpers && h !in todo - {k} ensures h in order' {
      assert h != k ==> h in order;
    }
  }

  /** `patch_helpers`: in whatever order the hash map gives. */
  method PatchHelpers(data: array<byte>, es: seq<Sym>, m: Marks, text: nat, ghost data0: seq<byte>,
                      ghost done: seq<Cut>) returns (ok: bool, order: seq<nat>)
    requires Indexed(m, |es|) && |data0| == data.Length && IsMade(data0, data[..], done)
    modifies data
    ensures ok <==> forall k :: k in m.helpers ==> HelperOk(es, m, k, text, data.Length)
    ensures ok ==> OrderOf(m, order) && IsMade(data0, data[..], done + HelperList(es, m, order, text))
  {
    order := [];
    var todo := m.helpers.Keys;
    assert done + [] == done;
    while todo != {}
      invariant HelpersSoFar(es, m, order, todo, text, data.Length)
      invariant IsMade(data0, data[..], done + HelperList(es, m, order, text))
      decreases |todo|
    {
      var k :| k in todo;
      ok := PatchHelper(data, es, m, text, data0, done, order, k);
      if !ok {
        return;
      }
      HelpersNext(es, m, order, todo, text, data.Length, k);
      order, todo := order + [k], todo - {k};
    }
    ok := true;
  }

  method PatchHelper(data: array<byte>, es: seq<Sym>, m: Marks, text: nat, ghost data0: seq<byte>, ghost done: seq<Cut>,
                     ghost order: seq<nat>, k: nat) returns (ok: bool)
    requires Indexed(m, |es|) && k in m.helpers && (forall i :: 0 <= i < |order| ==> order[i] in m.helpers)
    requires |data0| == data.Length && IsMade(data0, data[..], done + HelperList(es, m, order, text))
    modifies data
    ensures ok <==> HelperOk(es, m, k, text, data.Length)
    ensures ok ==> IsMade(data0, data[..], done + HelperList(es, m, order + [k], text))
  {
    var cuts := HelperCuts(es[m.helpers[k]].value, text, es[k].value);
    HelperListNext(es, m, order, text, k);
    assert done + HelperList(es, m, order, text) + cuts == done + HelperList(es, m, order + [k], text);
    ok := MakeCuts(data, cuts, data0, done + HelperList(es, m, order, text));
  }

  /** Every patch of the two sections stays inside its section. */
  ghost predicate PatchesFit(es: seq<Sym>, m: Marks, resolver: Option<nat>, text: nat, plt: nat, gotPlt: nat,
                             target: u64, textLen: nat, pltLen: nat)
    requires Indexed(m, |es|) && (resolver.Some? ==> resolver.value < |es|)
  {
    && AllOk(ResolverList(es, resolver, text, target), textLen)
    && (forall k :: k in m.helpers ==> HelperOk(es, m, k, text, textLen))
    && AllOk(PltCuts(es, m, plt, gotPlt), pltLen)
  }

  /** `.text` after the resolver and the helpers. */
  method PatchCode(data: array<byte>, es: seq<Sym>, m: Marks, resolver: Option<nat>, text: nat, target: u64)
    returns (ok: bool, order: seq<nat>)
    requires Indexed(m, |es|) && (resolver.Some? ==> resolver.value < |es|)
    modifies data
    ensures ok <==> && AllOk(ResolverList(es, resolver, text, target), data.Length)
                    && (forall k :: k in m.helpers ==> HelperOk(es, m, k, text, data.Length))
    ensures ok ==> OrderOf(m, order) && AllOk(TextCuts(es, m, order, resolver, text, target), data.Length)
    ensures ok ==> data[..] == Made(old(data[..]), TextCuts(es, m, order, resolver, text, target))
  {
    ghost var data0 := data[..];
    order := [];
    var first := ResolverList(es, resolver, text, target);
    assert [] + first == first;
    ok := MakeCuts(data, first, data0, []);
    if ok {
      ok, order := PatchHelpers(data, es, m, text, data0, first);
    }
  }
}
