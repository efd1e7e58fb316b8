/** Finding the definition a relocation refers to (src/relocation/utils.rs,
    src/elf/hash/mod.rs, src/elf/symbol.rs).

    Symbol callbacks and IFUNC resolvers are opaque pure functions. */
module SymbolSearch {
  import opened Words
  import opened Bits
  import opened Symbols
  import opened GnuIndex
  import opened SysvIndex

  type Name = seq<byte>

  /** The two hash functions of the loader. */
  datatype Hashes = Hashes(gnu: Name -> nat, sysv: Name -> nat)

  /** The index of a library. Object files have a hash table of their own making, of
      which only the answers matter here. */
  datatype Index = Gnu(g: GnuTable) | Sysv(s: SysvTable) | Custom(find: Name -> Option<nat>)

  /** A loaded library. `id` is the identity of its allocation; `mem` is its memory from the
      load bias on, so that an index is a virtual address of the library. */
  datatype Lib = Lib(id: nat, name: Name, base: u64, symtab: SymTab, index: Index, mem: seq<byte>)

  ghost predicate ValidLib(hs: Hashes, l: Lib) {
    match l.index
    case Gnu(g) => GnuIndex.WellFormed(g, l.symtab, hs.gnu)
    case Sysv(s) => SysvIndex.WellFormed(s, l.symtab, hs.sysv)
    case Custom(find) => forall name :: FindsNamed(l.symtab, name, find(name))
  }

  /** An answer names a symbol with the name, and there is one unless no symbol but file
      symbols has it. */
  ghost predicate FindsNamed(t: SymTab, name: Name, r: Option<nat>) {
    match r
    case Some(i) => i < |t.symbols| && t.symbols[i].stype != STT_FILE && t.Name(i) == name
    case None => forall i :: 0 <= i < |t.symbols| && t.symbols[i].stype != STT_FILE ==> t.Name(i) != name
  }

  /** What looking `name` up in `l` gives, whatever has been precomputed. */
  ghost function Defines(hs: Hashes, l: Lib, name: Name): (r: Option<nat>)
    requires ValidLib(hs, l)
    ensures r.Some? ==> r.value < |l.symtab.symbols|
  {
    match l.index
    case Gnu(g) => Filter(l.symtab, Scan(l.symtab, g.symbias, name))
    case Sysv(s) => Filter(l.symtab, FirstIn(l.symtab, PathOf(s, hs.sysv(name) % s.nbucket), name))
    case Custom(find) =>
      assert FindsNamed(l.symtab, name, find(name));
      Filter(l.symtab, find(name))
  }

  /** A precomputed part that is right for `name`: the cached System V hash is
      missing or correct. */
  predicate PreFor(hs: Hashes, name: Name, pre: PreCompute) {
    && pre.gnuhash == hs.gnu(name) && pre.fofs == hs.gnu(name) / 64 && pre.fmask == Pow2(hs.gnu(name) % 64)
    && (pre.sysv.Some? ==> pre.sysv.value == hs.sysv(name))
  }

  /** `lookup_filter` through whichever index the library has. */
  method LookupFilter(hs: Hashes, l: Lib, name: Name, pre: PreCompute) returns (r: Option<nat>, pre': PreCompute)
    requires ValidLib(hs, l) && PreFor(hs, name, pre)
    ensures r == Defines(hs, l, name) && PreFor(hs, name, pre')
  {
    match l.index
    case Gnu(g) =>
      r := GnuIndex.Lookup(g, l.symtab, name, pre, hs.gnu);
      ScanIs(g, l.symtab, name, r);
      pre' := pre;
      r := Filter(l.symtab, r);
    case Sysv(s) =>
      r, pre' := SysvIndex.Lookup(s, l.symtab, name, pre, hs.sysv);
      r := Filter(l.symtab, r);
    case Custom(find) =>
      assert FindsNamed(l.symtab, name, find(name));
      r, pre' := Filter(l.symtab, find(name)), pre;
  }

  // ------------------------------------------------------------------ definitions

  /** A definition: a symbol of a library, or none for an undefined weak symbol. */
  datatype SymDef = SymDef(sym: Option<Sym>, lib: Lib)

  /** A definition together with the scope library it came from, if that is another
      library than the one being relocated. */
  datatype Found = Found(def: SymDef, dep: Option<nat>)

  /** `find_weak`. A weak undefined symbol with a value trips an assertion. */
  datatype Weak = Missing | Own(def: SymDef) | Abort

  function FindWeak(core: Lib, sym: Sym): Weak {
    if sym.IsWeak() && sym.IsUndef() then
      if sym.value == 0 then Own(SymDef(None, core)) else Abort
    else if sym.value != 0 then Own(SymDef(Some(sym), core))
    else Missing
  }

  /** The first library from `i` on that defines the name. */
  ghost function FirstDefining(hs: Hashes, scope: seq<Lib>, name: Name, i: nat): (r: Option<nat>)
    requires forall k :: 0 <= k < |scope| ==> ValidLib(hs, scope[k])
    ensures r.Some? ==> i <= r.value < |scope| && Defines(hs, scope[r.value], name).Some?
    ensures forall k :: i <= k < (if r.Some? then r.value else |scope|) ==> Defines(hs, scope[k], name).None?
    decreases |scope| - i
  {
    if i >= |scope| then None
    else if Defines(hs, scope[i], name).Some? then Some(i)
    else FirstDefining(hs, scope, name, i + 1)
  }

  datatype Search = NotFound | Hit(found: Found) | Aborted

  ghost predicate ValidScope(hs: Hashes, scope: seq<Lib>) {
    forall k :: 0 <= k < |scope| ==> ValidLib(hs, scope[k])
  }

  /** `find_symdef_impl`: a local symbol is its own definition; otherwise the first
      library of the scope that defines the name; otherwise the weak or own definition. */
  ghost function Symdef(hs: Hashes, core: Lib, scope: seq<Lib>, r_sym: nat): Search
    requires r_sym < |core.symtab.symbols| && ValidScope(hs, scope)
  {
    var sym, name := core.symtab.symbols[r_sym], core.symtab.Name(r_sym);
    if sym.IsLocal() then Hit(Found(SymDef(Some(sym), core), None))
    else
      match FirstDefining(hs, scope, name, 0)
      case Some(i) =>
        var lib := scope[i];
        Hit(Found(SymDef(Some(lib.symtab.symbols[Defines(hs, lib, name).value]), lib),
                  if lib.id == core.id then None else Some(i)))
      case None =>
        match FindWeak(core, sym)
        case Missing => NotFound
        case Own(d) => Hit(Found(d, None))
        case Abort => Aborted
  }

  /** The search as the loader does it, with one precomputed hash shared by all the
      libraries. Sharing it never changes the answer. */
  method FindSymdef(hs: Hashes, core: Lib, scope: seq<Lib>, r_sym: nat) returns (r: Search)
    requires r_sym < |core.symtab.symbols| && ValidScope(hs, scope)
    ensures r == Symdef(hs, core, scope, r_sym)
  {
    var sym, name := core.symtab.symbols[r_sym], core.symtab.Name(r_sym);
    if sym.IsLocal() {
      return Hit(Found(SymDef(Some(sym), core), None));
    }
    var pre := Precompute(hs.gnu(name));
    for i := 0 to |scope|
      invariant PreFor(hs, name, pre)
      invariant FirstDefining(hs, scope, name, 0) == FirstDefining(hs, scope, name, i)
    {
      var found;
      found, pre := LookupFilter(hs, scope[i], name, pre);
      if found.Some? {
        var def := SymDef(Some(scope[i].symtab.symbols[found.value]), scope[i]);
        return Hit(Found(def, if scope[i].id == core.id then None else Some(i)));
      }
    }
    match FindWeak(core, sym)
    case Missing => r := NotFound;
    case Own(d) => r := Hit(Found(d, None));
    case Abort => r := Aborted;
  }

  // -------------------------------------------------------------------- addresses

  /** `SymDef::convert`: the address, through the resolver for an IFUNC, and null for
      an undefined weak symbol. */
  function Convert(d: SymDef, ifunc: u64 -> u64): u64 {
    match d.sym
    case None => 0
    case Some(s) =>
      var addr := Wrap64(d.lib.base + s.value);
      if s.stype == STT_GNU_IFUNC then ifunc(addr) else addr
  }

  /** The callbacks a relocation may consult. */
  datatype Callbacks = Callbacks(preFind: Name -> Option<u64>, postFind: Name -> Option<u64>, ifunc: u64 -> u64)

  datatype Resolved = Unresolved | At(addr: u64, dep: Option<nat>) | Broken

  /** `find_symbol_addr`: `pre_find`, then the search, then `post_find`. */
  ghost function SymbolAddr(hs: Hashes, cb: Callbacks, core: Lib, scope: seq<Lib>, r_sym: nat): Resolved
    requires r_sym < |core.symtab.symbols| && ValidScope(hs, scope)
  {
    var name := core.symtab.Name(r_sym);
    match cb.preFind(name)
    case Some(a) => At(a, None)
    case None =>
      match Symdef(hs, core, scope, r_sym)
      case Hit(f) => At(Convert(f.def, cb.ifunc), f.dep)
      case Aborted => Broken
      case NotFound =>
        match cb.postFind(name)
        case Some(a) => At(a, None)
        case None => Unresolved
  }

  method FindSymbolAddr(hs: Hashes, cb: Callbacks, core: Lib, scope: seq<Lib>, r_sym: nat) returns (r: Resolved)
    requires r_sym < |core.symtab.symbols| && ValidScope(hs, scope)
    ensures r == SymbolAddr(hs, cb, core, scope, r_sym)
  {
    var name := core.symtab.Name(r_sym);
    var a := cb.preFind(name);
    if a.Some? {
      return At(a.value, None);
    }
    var d := FindSymdef(hs, core, scope, r_sym);
    match d
    case Hit(f) => r := At(Convert(f.def, cb.ifunc), f.dep);
    case Aborted => r := Broken;
    case NotFound =>
      a := cb.postFind(name);
      r := if a.Some? then At(a.value, None) else Unresolved;
  }

  /** A reported dependency is another library of the scope, and the lowest one that
      defines the name. */
  lemma DependencyIsFirst(hs: Hashes, core: Lib, scope: seq<Lib>, r_sym: nat)
    requires r_sym < |core.symtab.symbols| && ValidScope(hs, scope)
    ensures match Symdef(hs, core, scope, r_sym)
            case Hit(Found(d, Some(i))) =>
              && i < |scope| && scope[i].id != core.id && d.lib == scope[i]
              && Defines(hs, scope[i], core.symtab.Name(r_sym)).Some?
              && (forall k :: 0 <= k < i ==> Defines(hs, scope[k], core.symtab.Name(r_sym)).None?)
            case _ => true
  {
  }
}
