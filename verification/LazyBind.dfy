/** Lazy binding (`dl_fixup` and `LazyScope::lookup`, src/relocation/dynamic.rs): what
    the memory of an image is after any sequence of first calls through its PLT. */
module LazyBind {
  import opened Words
  import opened Symbols
  import opened GnuIndex
  import opened SymbolSearch
  import opened DynamicRun
  import DynamicLink

  const REL_JUMP_SLOT := DynamicLink.REL_JUMP_SLOT

  /** What a fixup consults. `alive` says which libraries the weak references of the
      lazy scope can still be upgraded to. */
  datatype Binder = Binder(hs: Hashes, ifunc: u64 -> u64, symtab: SymTab, pltrel: seq<Rela>,
                           scope: Option<LazyScope>, alive: Lib -> bool)

  ghost predicate Valid(b: Binder) {
    && (forall i :: 0 <= i < |b.pltrel| ==> b.pltrel[i].sym < |b.symtab.symbols|)
    && (b.scope.Some? ==> ValidScope(b.hs, b.scope.value.libs))
  }

  predicate IsSlot(b: Binder, i: int) {
    0 <= i < |b.pltrel| && b.pltrel[i].rtype == REL_JUMP_SLOT
  }

  // ---------------------------------------------------------------------- the lookup

  /** The first live library from `i` on that defines the name. */
  ghost function LazyLookup(b: Binder, libs: seq<Lib>, name: Name, i: nat): Option<u64>
    requires ValidScope(b.hs, libs)
    decreases |libs| - i
  {
    if i >= |libs| then None
    else if b.alive(libs[i]) && Defines(b.hs, libs[i], name).Some? then
      var sym := libs[i].symtab.symbols[Defines(b.hs, libs[i], name).value];
      Some(Convert(SymDef(Some(sym), libs[i]), b.ifunc))
    else LazyLookup(b, libs, name, i + 1)
  }

  /** The caller's lookup first, then the libraries. */
  ghost function ScopeLookup(b: Binder, name: Name): Option<u64>
    requires Valid(b) && b.scope.Some?
  {
    var s := b.scope.value;
    if s.custom.Some? && s.custom.value(name).Some? then s.custom.value(name)
    else LazyLookup(b, s.libs, name, 0)
  }

  method LookupInScope(b: Binder, name: Name) returns (r: Option<u64>)
    requires Valid(b) && b.scope.Some?
    ensures r == ScopeLookup(b, name)
  {
    var s := b.scope.value;
    if s.custom.Some? {
      r := s.custom.value(name);
      if r.Some? {
        return;
      }
    }
    for i := 0 to |s.libs|
      invariant LazyLookup(b, s.libs, name, 0) == LazyLookup(b, s.libs, name, i)
    {
      if b.alive(s.libs[i]) {
        var found, _ := LookupFilter(b.hs, s.libs[i], name, Precompute(b.hs.gnu(name)));
        if found.Some? {
          return Some(Convert(SymDef(Some(s.libs[i].symtab.symbols[found.value]), s.libs[i]), b.ifunc));
        }
      }
    }
    r := None;
  }

  // ---------------------------------------------------------------------- one fixup

  /** What entry `i` is bound to; `None` is one of the assertions of `dl_fixup` failing. */
  ghost function Target(b: Binder, i: nat): Option<u64>
    requires Valid(b) && i < |b.pltrel|
  {
    if !IsSlot(b, i) || b.pltrel[i].sym == 0 || b.scope.None? then None
    else ScopeLookup(b, b.symtab.Name(b.pltrel[i].sym))
  }

  /** The slots are inside the image and do not overlap. */
  ghost predicate SlotsApart(b: Binder, size: nat) {
    && (forall i :: IsSlot(b, i) ==> b.pltrel[i].off + 8 <= size)
    && (forall i, j :: IsSlot(b, i) && IsSlot(b, j) && i < j ==> Disjoint(b.pltrel[i].off, 8, b.pltrel[j].off, 8))
  }

  /** `dl_fixup`: resolves the entry, writes its slot, and returns where to go. */
  method DlFixup(b: Binder, i: nat, mem: array<byte>) returns (r: Option<u64>)
    requires Valid(b) && i < |b.pltrel| && SlotsApart(b, mem.Length)
    modifies mem
    ensures r == Target(b, i)
    ensures r.Some? ==> IsSlot(b, i) && mem[..] == Store(old(mem[..]), b.pltrel[i].off, r.value, 8)
    ensures r.None? ==> mem[..] == old(mem[..])
  {
    var rela := b.pltrel[i];
    if rela.rtype != REL_JUMP_SLOT || rela.sym == 0 || b.scope.None? {
      return None;
    }
    assert IsSlot(b, i);
    r := LookupInScope(b, b.symtab.Name(rela.sym));
    if r.Some? {
      WriteBytes(mem, rela.off, LittleEndian(r.value, 8));
    }
  }

  // ------------------------------------------------------------------ runs of fixups

  ghost predicate AllBind(b: Binder, calls: seq<nat>)
    requires Valid(b)
  {
    forall k :: 0 <= k < |calls| ==> calls[k] < |b.pltrel| && Target(b, calls[k]).Some?
  }

  predicate InSlot(b: Binder, i: int, k: int) {
    IsSlot(b, i) && b.pltrel[i].off <= k < b.pltrel[i].off + 8
  }

  /** The memory `m` after the `calls` in any order, with repeats, starting from `m1`:
      each slot is bound if it was called and untouched if not, and nothing else has
      changed. */
  ghost predicate Bound(b: Binder, m1: seq<byte>, m: seq<byte>, calls: seq<nat>)
    requires Valid(b)
  {
    && |m| == |m1| && SlotsApart(b, |m|) && AllBind(b, calls)
    && (forall i :: IsSlot(b, i) ==>
          Load(m, b.pltrel[i].off, 8) == if i in calls then Target(b, i).value else Load(m1, b.pltrel[i].off, 8))
    && (forall k :: 0 <= k < |m| && m[k] != m1[k] ==> exists i :: i in calls && InSlot(b, i, k))
  }

  lemma BoundStart(b: Binder, m: seq<byte>)
    requires Valid(b) && SlotsApart(b, |m|)
    ensures Bound(b, m, m, [])
  {
  }

  lemma BoundStep(b: Binder, m1: seq<byte>, m: seq<byte>, calls: seq<nat>, c: nat)
    requires Valid(b) && Bound(b, m1, m, calls) && c < |b.pltrel| && Target(b, c).Some?
    ensures b.pltrel[c].off + 8 <= |m|
    ensures Bound(b, m1, Store(m, b.pltrel[c].off, Target(b, c).value, 8), calls + [c])
  {
    assert IsSlot(b, c);
    var m' := Store(m, b.pltrel[c].off, Target(b, c).value, 8);
    var calls' := calls + [c];
    forall i | IsSlot(b, i)
      ensures Load(m', b.pltrel[i].off, 8) == if i in calls' then Target(b, i).value else Load(m1, b.pltrel[i].off, 8)
    {
      if i == c {
        LoadStored(m, b.pltrel[c].off, Target(b, c).value, 8);
        Pow256Values();
      } else {
        LoadPutElsewhere(m, b.pltrel[c].off, LittleEndian(Target(b, c).value, 8), b.pltrel[i].off, 8);
      }
    }
    forall k | 0 <= k < |m| && m'[k] != m1[k] ensures exists i :: i in calls' && InSlot(b, i, k) {
      if InSlot(b, c, k) {
        assert c in calls';
      } else {
        var i :| i in calls && InSlot(b, i, k);
        assert i in calls';
      }
    }
  }

  /** Any sequence of calls: it stops at the first one that cannot be resolved. */
  method RunCalls(b: Binder, calls: seq<nat>, mem: array<byte>) returns (done: nat)
    requires Valid(b) && SlotsApart(b, mem.Length)
    requires forall k :: 0 <= k < |calls| ==> calls[k] < |b.pltrel|
    modifies mem
    ensures done <= |calls| && (done < |calls| ==> Target(b, calls[done]).None?)
    ensures Bound(b, old(mem[..]), mem[..], calls[..done])
  {
    ghost var m1 := mem[..];
    BoundStart(b, m1);
    done := 0;
    while done < |calls|
      invariant done <= |calls| && Bound(b, m1, mem[..], calls[..done])
    {
      ghost var m := mem[..];
      var r := DlFixup(b, calls[done], mem);
      if r.None? {
        return;
      }
      BoundStep(b, m1, m, calls[..done], calls[done]);
      assert calls[..done] + [calls[done]] == calls[..done + 1];
      done := done + 1;
    }
  }
}
