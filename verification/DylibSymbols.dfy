/** The dynamic symbol table that the writer builds (tools/gen-elf/src/dylib/symtab.rs):
    names, indexes and content offsets.

    Instruction bytes are opaque blocks. */
module DylibSymbols {
  import opened Words
  import opened Symbols
  import opened DylibLayout

  type Name = seq<byte>

  datatype Content = Content(data: seq<byte>, kind: SectionKind)

  datatype SymbolType = Func | Object | TlsObject

  datatype SymbolScope = Global | Local | Weak

  datatype SymbolDesc = SymbolDesc(name: Name, stype: SymbolType, scope: SymbolScope,
                                   content: Option<Content>, size: Option<nat>)

  /** The kinds of content that a symbol may bring along. */
  predicate Supported(s: SymbolDesc) {
    (s.content.Some? ==> s.content.value.kind in {Text, Data, Tls, Plt}) && SizeOf(s) < 0x1_0000_0000_0000_0000
  }

  /** The writer's tables. `kinds` and `symbols` run beside `dynsym`, the latter without
      the null symbol; the offsets are where the next content of each kind goes. */
  datatype Tables = Tables(dynstr: seq<byte>, dynsym: seq<Sym>, kinds: seq<SectionKind>, index: map<Name, nat>,
                           symbols: seq<SymbolDesc>, text: nat, data: nat, tls: nat, plt: nat)
  {
    function Offset(k: SectionKind): nat {
      match k
      case Text => text
      case Data => data
      case Tls => tls
      case _ => plt
    }

    function Advance(k: SectionKind, n: nat): Tables {
      match k
      case Text => this.(text := text + n)
      case Data => this.(data := data + n)
      case Tls => this.(tls := tls + n)
      case _ => this.(plt := plt + n)
    }
  }

  // ------------------------------------------------------------------ one symbol

  function Bind(s: SymbolScope): nat {
    match s
    case Global => STB_GLOBAL
    case Local => STB_LOCAL
    case Weak => STB_WEAK
  }

  function Type(t: SymbolType): nat {
    match t
    case Func => 2
    case Object => 1
    case TlsObject => 6
  }

  function KindOf(s: SymbolDesc): SectionKind {
    if s.content.Some? then s.content.value.kind
    else match s.stype case Func => Text case Object => Data case TlsObject => Tls
  }

  function SizeOf(s: SymbolDesc): nat {
    if s.size.Some? then s.size.value else if s.content.Some? then |s.content.value.data| else 0
  }

  /** `StringTable::add`: the string and a NUL. */
  function AddString(table: seq<byte>, name: Name): seq<byte> {
    table + name + [0]
  }

  /** `add_symbol`. */
  function Push(t: Tables, name: Name, sym: Sym, kind: SectionKind): Tables {
    t.(dynsym := t.dynsym + [sym], kinds := t.kinds + [kind], dynstr := AddString(t.dynstr, name),
       index := t.index[name := |t.dynsym|])
  }

  function Empty(): Tables {
    Push(Tables([0], [], [], map[], [], 0, 0, 0, 0), [], Sym(0, 0, 0, 0, 0, 0), Null)
  }

  /** The symbol's entry, before the layout is known: its value is its offset among the
      contents of its kind. */
  function Entry(t: Tables, s: SymbolDesc): Sym
    requires |t.dynstr| < 0x1_0000_0000
  {
    Sym(|t.dynstr|, Bind(s.scope), Type(s.stype), 0,
        if s.content.Some? then Wrap64(t.Offset(s.content.value.kind)) else 0, SizeOf(s))
  }

  /** A name that is new. */
  function AddNew(t: Tables, s: SymbolDesc): Tables
    requires |t.dynstr| < 0x1_0000_0000
  {
    var t1 := Push(t, s.name, Entry(t, s), KindOf(s));
    var t2 := if s.content.Some? then t1.Advance(s.content.value.kind, |s.content.value.data|) else t1;
    t2.(symbols := t.symbols + [s])
  }

  /** A known name changes nothing. */
  function AddOne(t: Tables, s: SymbolDesc): Tables
    requires |t.dynstr| < 0x1_0000_0000
  {
    if s.name in t.index then t else AddNew(t, s)
  }

  /** What the writer remembers of its PLT for the patches after the layout: the symbol it
      takes for the first entry, the symbol and the slot of each entry, and the helper of
      each entry's symbol. */
  datatype Marks = Marks(plt0: Option<nat>, entries: seq<(nat, nat)>, helpers: map<nat, nat>)

  class SymTabWriter {
    var dynstr: seq<byte>
    var dynsym: seq<Sym>
    var kinds: seq<SectionKind>
    var symIndex: map<Name, nat>
    var symbols: seq<SymbolDesc>
    var textOffset: nat
    var dataOffset: nat
    var tlsOffset: nat
    var pltOffset: nat
    var marks: Marks

    function View(): Tables
      reads this
    {
      Tables(dynstr, dynsym, kinds, symIndex, symbols, textOffset, dataOffset, tlsOffset, pltOffset)
    }

    /** The tables start with the null symbol, which has the empty name. */
    constructor ()
      ensures View() == Empty() && marks == Marks(None, [], map[])
    {
      marks := Marks(None, [], map[]);
      dynstr, dynsym, kinds, symIndex, symbols := [0] + [] + [0], [Sym(0, 0, 0, 0, 0, 0)], [Null], map[[] := 0], [];
      textOffset, dataOffset, tlsOffset, pltOffset := 0, 0, 0, 0;
    }

    method AddSymbol(name: Name, sym: Sym, kind: SectionKind) returns (idx: nat)
      modifies this
      ensures idx == old(|dynsym|) && View() == Push(old(View()), name, sym, kind) && marks == old(marks)
    {
      idx := |dynsym|;
      dynsym := dynsym + [sym];
      kinds := kinds + [kind];
      dynstr := dynstr + name + [0];
      symIndex := symIndex[name := idx];
    }

    /** The next offset among the contents of a kind. */
    method TakeOffset(kind: SectionKind, n: nat) returns (value: nat)
      requires kind in {Text, Data, Tls, Plt}
      modifies this`textOffset, this`dataOffset, this`tlsOffset, this`pltOffset
      ensures value == old(View()).Offset(kind) && View() == old(View()).Advance(kind, n)
    {
      if kind == Text {
        value, textOffset := textOffset, textOffset + n;
      } else if kind == Data {
        value, dataOffset := dataOffset, dataOffset + n;
      } else if kind == Tls {
        value, tlsOffset := tlsOffset, tlsOffset + n;
      } else {
        value, pltOffset := pltOffset, pltOffset + n;
      }
    }

    /** A known name keeps its index; a new one is added. */
    method AddSingleSymbol(s: SymbolDesc) returns (idx: nat)
      requires Supported(s) && |dynstr| < 0x1_0000_0000
      modifies this
      ensures View() == AddOne(old(View()), s) && s.name in symIndex && idx == symIndex[s.name] && marks == old(marks)
    {
      if s.name in symIndex {
        return symIndex[s.name];
      }
      var nameIdx := |dynstr|;
      var value: nat := 0;
      if s.content.Some? {
        value := TakeOffset(s.content.value.kind, |s.content.value.data|);
      }
      var sym := Sym(nameIdx, Bind(s.scope), Type(s.stype), 0, Wrap64(value), SizeOf(s));
      idx := AddSymbol(s.name, sym, KindOf(s));
      symbols := symbols + [s];
    }

    /** Adds a description, keeping the tables good; the first description of a name is
        the one that counts. Fails if the string table outgrows 32-bit offsets. */
    method AddChecked(s: SymbolDesc, ghost all: seq<SymbolDesc>) returns (ok: bool, idx: nat)
      requires Supported(s) && TablesFor(View(), all)
      modifies this
      ensures ok ==> TablesFor(View(), all + [s]) && s.name in symIndex && idx == symIndex[s.name]
      ensures ok ==> IndexGrows(old(symIndex), symIndex)
      ensures marks == old(marks)
      ensures ok <==> StrSize(DescNames(all)) < 0x1_0000_0000
    {
      if |dynstr| >= 0x1_0000_0000 {
        return false, 0;
      }
      AddOneGood(View(), s, all);
      AddOneIndex(View(), s);
      idx := AddSingleSymbol(s);
      ok := true;
    }

    method AddAll(descs: seq<SymbolDesc>, ghost before: seq<SymbolDesc>) returns (ok: bool)
      requires TablesFor(View(), before) && forall i :: 0 <= i < |descs| ==> Supported(descs[i])
      modifies this
      ensures marks == old(marks)
      ensures ok ==> TablesFor(View(), before + descs)
      ensures !ok ==> StrSize(DescNames(before + descs)) >= 0x1_0000_0000
    {
      ok := true;
      Grown(before, descs, 0);
      for i := 0 to |descs|
        invariant TablesFor(View(), before + descs[..i]) && marks == old(marks)
      {
        var idx;
        Grown(before, descs, i);
        ok, idx := AddChecked(descs[i], before + descs[..i]);
        if !ok {
          SizeGrows(before, descs, i);
          return;
        }
      }
    }

    /** `add_symbols`: the IFUNC resolver, then the caller's symbols. It fails only if the
        names outgrow the string table. */
    method AddSymbols(descs: seq<SymbolDesc>, resolver: SymbolDesc) returns (ok: bool)
      requires View() == Empty() && Supported(resolver) && forall i :: 0 <= i < |descs| ==> Supported(descs[i])
      modifies this
      ensures marks == old(marks)
      ensures ok ==> TablesFor(View(), [resolver] + descs)
      ensures !ok ==> StrSize(DescNames([resolver] + descs)) >= 0x1_0000_0000
    {
      EmptyGood();
      var idx;
      ok, idx := AddChecked(resolver, []);
      assert [] + [resolver] == [resolver];
      ok := AddAll(descs, [resolver]);
    }

    /** The PLT entry and the helper of one PLT relocation. */
    method AddPltPair(entry: SymbolDesc, help: SymbolDesc, ghost all: seq<SymbolDesc>)
      returns (ok: bool, pltIdx: nat, helperIdx: nat)
      requires TablesFor(View(), all) && Supported(entry) && Supported(help)
      modifies this
      ensures marks == old(marks)
      ensures ok ==> TablesFor(View(), all + [entry] + [help]) && IndexGrows(old(symIndex), symIndex)
      ensures ok ==> entry.name in symIndex && pltIdx == symIndex[entry.name]
      ensures ok ==> help.name in symIndex && helperIdx == symIndex[help.name]
      ensures !ok ==> StrSize(DescNames(all + [entry])) >= 0x1_0000_0000
    {
      helperIdx := 0;
      ok, pltIdx := AddChecked(entry, all);
      if !ok {
        assert all + [entry][..0] == all;
        SizeGrows(all, [entry], 0);
        return;
      }
      ok, helperIdx := AddChecked(help, all + [entry]);
    }

    /** `add_plt_symbols`: the first PLT entry, then an entry and a helper for each PLT
        relocation. `code` gives the stub bytes for an index and a PLT offset. It fails only
        if the names outgrow the string table. The entry that is remembered as the first one is
        whatever symbol is last when it has been added. */
    method AddPltSymbols(names: seq<Name>, plt0: seq<byte>, code: (nat, nat) -> seq<byte>, helper: seq<byte>,
                         ghost before: seq<SymbolDesc>) returns (ok: bool, ghost added: seq<SymbolDesc>)
      requires TablesFor(View(), before) && marks == Marks(None, [], map[])
      requires |plt0| < 0x1000 && |helper| < 0x1000 && forall i, off :: |code(i, off)| < 0x1000
      modifies this
      ensures ok ==> TablesFor(View(), before + added) && DescNames(added) == PltNames(names)
      ensures ok ==> PltAdded(added, names, plt0, code, helper)
      ensures ok ==> marks.plt0 == Some(|Dedup(before + [PltDesc(Plt0Name(), plt0)])|)
      ensures ok ==> MarksFor(marks, symIndex, names)
      ensures !ok ==> StrSize(DescNames(before) + PltNames(names)) >= 0x1_0000_0000
    {
      FirstEntry(plt0);
      added := [PltDesc(Plt0Name(), plt0)];
      ok := AddPlt0(PltDesc(Plt0Name(), plt0), PltNames(names), before);
      if !ok {
        return;
      }
      assert names[..0] == [];
      ghost var first := marks.plt0;
      for i := 0 to |names|
        invariant ok && marks.plt0 == first
        invariant PltSoFar(View(), marks, before, added, names[..i], plt0, code, helper)
      {
        ok, added := AddPltNext(names, i, plt0, code, helper, before, added);
        if !ok {
          return;
        }
      }
      assert names[..|names|] == names;
    }

    /** One turn of the loop over the PLT relocations. */
    method AddPltNext(names: seq<Name>, i: nat, ghost plt0: seq<byte>, code: (nat, nat) -> seq<byte>, helper: seq<byte>,
                      ghost before: seq<SymbolDesc>, ghost added0: seq<SymbolDesc>)
      returns (ok: bool, ghost added: seq<SymbolDesc>)
      requires i < |names| && PltSoFar(View(), marks, before, added0, names[..i], plt0, code, helper)
      requires |helper| < 0x1000 && forall i, off :: |code(i, off)| < 0x1000
      modifies this
      ensures ok ==> PltSoFar(View(), marks, before, added, names[..i + 1], plt0, code, helper)
      ensures ok ==> marks.plt0 == old(marks.plt0)
      ensures !ok ==> StrSize(DescNames(before) + PltNames(names)) >= 0x1_0000_0000
    {
      ghost var off, index0 := pltOffset, symIndex;
      var pltIdx, helperIdx;
      ok, pltIdx, helperIdx, added := AddPltOf(names, i, code(i, pltOffset), helper, before, added0);
      if ok {
        MarkPlt(i, pltIdx, helperIdx, index0, names);
        PltAddedNext(added0, added, names, i, plt0, code, helper, off);
      }
    }

    /** Adds the first entry `d`, and remembers whatever symbol is last then. */
    method AddPlt0(d: SymbolDesc, ghost all: seq<Name>, ghost before: seq<SymbolDesc>) returns (ok: bool)
      requires TablesFor(View(), before) && Supported(d) && marks == Marks(None, [], map[])
      modifies this
      ensures ok ==> TablesFor(View(), before + [d]) && marks == Marks(Some(|Dedup(before + [d])|), [], map[])
      ensures !ok ==> StrSize(DescNames(before) + all) >= 0x1_0000_0000
    {
      SizeMonotone(DescNames(before), all);
      var idx;
      ok, idx := AddChecked(d, before);
      if ok {
        marks := marks.(plt0 := Some(|dynsym| - 1));
      }
    }

    /** The two symbols of PLT relocation `i`. */
    method AddPltOf(names: seq<Name>, i: nat, stub: seq<byte>, helper: seq<byte>, ghost before: seq<SymbolDesc>,
                    ghost added0: seq<SymbolDesc>)
      returns (ok: bool, pltIdx: nat, helperIdx: nat, ghost added: seq<SymbolDesc>)
      requires i < |names| && TablesFor(View(), before + added0) && DescNames(added0) == PltNames(names[..i])
      requires |stub| < 0x1000 && |helper| < 0x1000
      modifies this
      ensures marks == old(marks)
      ensures ok ==> TablesFor(View(), before + added) && DescNames(added) == PltNames(names[..i + 1])
      ensures ok ==> IndexGrows(old(symIndex), symIndex)
      ensures ok ==> names[i] + PltSuffix() in symIndex && pltIdx == symIndex[names[i] + PltSuffix()]
      ensures ok ==> names[i] + HelperSuffix() in symIndex && helperIdx == symIndex[names[i] + HelperSuffix()]
      ensures !ok ==> StrSize(DescNames(before) + PltNames(names)) >= 0x1_0000_0000
      ensures added == added0 + [PltDesc(names[i] + PltSuffix(), stub), FuncDesc(names[i] + HelperSuffix(), helper)]
    {
      var entry, help := PltDesc(names[i] + PltSuffix(), stub), FuncDesc(names[i] + HelperSuffix(), helper);
      PltNamesNext(names, i, added0, entry, help);
      PltPrefix(names, i + 1);
      PltSize(before, added0, entry, help, PltNames(names));
      ok, pltIdx, helperIdx := AddPltPair(entry, help, before + added0);
      added := added0 + [entry, help];
      assert before + added0 + [entry] + [help] == before + added;
    }

    /** Remembers the symbols of PLT relocation `i`. */
    method MarkPlt(i: nat, pltIdx: nat, helperIdx: nat, ghost index0: map<Name, nat>, ghost names: seq<Name>)
      requires i < |names| && Names(View()) && MarksFor(marks, index0, names[..i]) && IndexGrows(index0, symIndex)
      requires names[i] + PltSuffix() in symIndex && pltIdx == symIndex[names[i] + PltSuffix()]
      requires names[i] + HelperSuffix() in symIndex && helperIdx == symIndex[names[i] + HelperSuffix()]
      modifies this`marks
      ensures MarksFor(marks, symIndex, names[..i + 1]) && marks.plt0 == old(marks.plt0)
    {
      MarksNext(marks, index0, View(), names, i);
      marks := Mark(marks, pltIdx, 3 + i, helperIdx);
    }

    /** `update_symbol_values`: a defined symbol gets its section's index and address. */
    method UpdateSymbolValues(p: SymPlaces)
      requires Good(View())
      modifies this`dynsym
      ensures View() == old(View()).(dynsym := Moved(old(View()), p))
    {
      ghost var t := View();
      var out := [dynsym[0]];
      for i := 1 to |dynsym|
        invariant out == Moved(t, p)[..i]
      {
        out := out + [Moves(dynsym[i], symbols[i - 1], kinds[i], p)];
      }
      dynsym := out;
    }
  }

  // ------------------------------------------------------------------- what is marked

  function Mark(m: Marks, pltIdx: nat, slot: nat, helperIdx: nat): Marks {
    m.(entries := m.entries + [(pltIdx, slot)], helpers := m.helpers[pltIdx := helperIdx])
  }

  /** Known names keep their index. */
  predicate IndexGrows(a: map<Name, nat>, b: map<Name, nat>) {
    forall n :: n in a ==> n in b && b[n] == a[n]
  }

  /** The symbols of PLT relocation `j` are known, and marked. */
  predicate Marked(m: Marks, index: map<Name, nat>, names: seq<Name>, j: nat)
    requires j < |names| == |m.entries|
  {
    var n, h := names[j] + PltSuffix(), names[j] + HelperSuffix();
    && n in index && h in index && m.entries[j] == (index[n], 3 + j)
    && index[n] in m.helpers && m.helpers[index[n]] == index[h]
  }

  /** Each PLT relocation has its entry and its helper marked, and nothing else is. */
  ghost predicate MarksFor(m: Marks, index: map<Name, nat>, names: seq<Name>) {
    && |m.entries| == |names| && (forall j :: 0 <= j < |names| ==> Marked(m, index, names, j))
    && (forall k {:trigger IsEntry(m, k)} :: k in m.helpers ==> IsEntry(m, k))
  }

  predicate IsEntry(m: Marks, k: nat) {
    exists j :: 0 <= j < |m.entries| && m.entries[j].0 == k
  }

  /** The tables after the PLT relocations of these names. */
  ghost predicate PltSoFar(t: Tables, m: Marks, before: seq<SymbolDesc>, added: seq<SymbolDesc>, names: seq<Name>,
                           plt0: seq<byte>, code: (nat, nat) -> seq<byte>, helper: seq<byte>)
  {
    && TablesFor(t, before + added) && DescNames(added) == PltNames(names)
    && PltAdded(added, names, plt0, code, helper) && MarksFor(m, t.index, names)
  }

  lemma MarksNext(m: Marks, index0: map<Name, nat>, t: Tables, names: seq<Name>, i: nat)
    requires i < |names| && MarksFor(m, index0, names[..i]) && IndexGrows(index0, t.index) && Names(t)
    requires names[i] + PltSuffix() in t.index && names[i] + HelperSuffix() in t.index
    ensures MarksFor(Mark(m, t.index[names[i] + PltSuffix()], 3 + i, t.index[names[i] + HelperSuffix()]), t.index,
                     names[..i + 1])
  {
    var n, h := names[i] + PltSuffix(), names[i] + HelperSuffix();
    var m', now := Mark(m, t.index[n], 3 + i, t.index[h]), names[..i + 1];
    forall j | 0 <= j < i + 1 ensures Marked(m', t.index, now, j) {
      if j < i {
        assert names[..i][j] == names[j] && Marked(m, index0, names[..i], j);
        if t.index[names[j] + PltSuffix()] == t.index[n] {
          SameName(t, names[j], names[i]);
        }
      }
    }
    forall k | k in m'.helpers ensures IsEntry(m', k) {
      if k == t.index[n] {
        assert m'.entries[i].0 == k;
      } else {
        assert IsEntry(m, k);
        var j :| 0 <= j < i && m.entries[j].0 == k;
        assert m'.entries[j] == m.entries[j];
      }
    }
  }

  /** Two stubs of one symbol are the stubs of one function. */
  lemma SameName(t: Tables, a: Name, b: Name)
    requires Names(t) && a + PltSuffix() in t.index && b + PltSuffix() in t.index
    requires t.index[a + PltSuffix()] == t.index[b + PltSuffix()]
    ensures a == b
  {
    var x, y := a + PltSuffix(), b + PltSuffix();
    assert |x| >= 4 && |y| >= 4;
    assert x == y;
    assert a == x[..|x| - 4] && b == y[..|y| - 4];
  }

  // ----------------------------------------------------------------- descriptions

  /** The list that has been handed over, one step later and at the end. */
  lemma Grown(before: seq<SymbolDesc>, descs: seq<SymbolDesc>, i: nat)
    requires i <= |descs|
    ensures before + descs[..0] == before && before + descs[..|descs|] == before + descs
    ensures i < |descs| ==> before + descs[..i] + [descs[i]] == before + descs[..i + 1]
  {
    assert descs[..|descs|] == descs;
    assert i < |descs| ==> descs[..i] + [descs[i]] == descs[..i + 1];
  }

  function FuncDesc(name: Name, code: seq<byte>): SymbolDesc {
    SymbolDesc(name, Func, Global, Some(Content(code, Text)), Some(|code|))
  }

  function PltDesc(name: Name, code: seq<byte>): SymbolDesc {
    SymbolDesc(name, Func, Global, Some(Content(code, Plt)), Some(|code|))
  }

  /** "__ifunc_resolver" */
  function ResolverName(): Name {
    [0x5f, 0x5f, 0x69, 0x66, 0x75, 0x6e, 0x63, 0x5f, 0x72, 0x65, 0x73, 0x6f, 0x6c, 0x76, 0x65, 0x72]
  }

  function ResolverDesc(code: seq<byte>): SymbolDesc {
    FuncDesc(ResolverName(), code)
  }

  /** "PLT0" */
  function Plt0Name(): Name {
    [0x50, 0x4c, 0x54, 0x30]
  }

  /** "@plt" */
  function PltSuffix(): Name {
    [0x40, 0x70, 0x6c, 0x74]
  }

  /** "@helper" */
  function HelperSuffix(): Name {
    [0x40, 0x68, 0x65, 0x6c, 0x70, 0x65, 0x72]
  }

  /** A name that the PLT adds. */
  ghost predicate PltName(n: Name, names: seq<Name>) {
    n == Plt0Name() || exists i :: 0 <= i < |names| && (n == names[i] + PltSuffix() || n == names[i] + HelperSuffix())
  }

  /** All the names that the PLT adds, in order. */
  function PltNames(names: seq<Name>): seq<Name> {
    if names == [] then [Plt0Name()]
    else
      var n := names[|names| - 1];
      PltNames(names[..|names| - 1]) + [n + PltSuffix(), n + HelperSuffix()]
  }

  predicate Listed(descs: seq<SymbolDesc>, n: Name) {
    exists i :: 0 <= i < |descs| && descs[i].name == n
  }

  /** The first description of each non-empty name, in order. */
  function Dedup(descs: seq<SymbolDesc>): seq<SymbolDesc> {
    if descs == [] then []
    else
      var front, s := Dedup(descs[..|descs| - 1]), descs[|descs| - 1];
      if s.name == [] || Listed(front, s.name) then front else front + [s]
  }

  lemma {:induction false} DedupNames(descs: seq<SymbolDesc>)
    ensures forall i :: 0 <= i < |Dedup(descs)| ==> Dedup(descs)[i] in descs
    ensures forall i :: 0 <= i < |descs| && descs[i].name != [] ==> Listed(Dedup(descs), descs[i].name)
  {
    if descs != [] {
      var n := |descs| - 1;
      DedupNames(descs[..n]);
      var front, out := Dedup(descs[..n]), Dedup(descs);
      forall i | 0 <= i < |descs| && descs[i].name != [] ensures Listed(out, descs[i].name) {
        if i < n {
          assert descs[..n][i] == descs[i] && Listed(front, descs[i].name);
          var k :| 0 <= k < |front| && front[k].name == descs[i].name;
          assert out[k] == front[k];
        } else if |out| > |front| {
          assert out[|front|].name == descs[n].name;
        }
      }
    }
  }

  lemma KnownIff(t: Tables, n: Name)
    requires Names(t)
    ensures n in t.index <==> n == [] || Listed(t.symbols, n)
  {
    if Listed(t.symbols, n) {
      var i :| 0 <= i < |t.symbols| && t.symbols[i].name == n;
      assert NameOk(t, i);
    }
  }

  // ------------------------------------------------------------- the string table's size

  function DescNames(descs: seq<SymbolDesc>): (ns: seq<Name>)
    ensures |ns| == |descs| && forall i :: 0 <= i < |descs| ==> ns[i] == descs[i].name
  {
    seq(|descs|, i requires 0 <= i < |descs| => descs[i].name)
  }

  /** The size of a string table of these names: two NULs, and each distinct name with one
      more. */
  function StrSize(ns: seq<Name>): nat {
    if ns == [] then 2
    else
      var front, n := ns[..|ns| - 1], ns[|ns| - 1];
      StrSize(front) + if n == [] || n in front then 0 else |n| + 1
  }

  lemma {:induction false} SizeMonotone(a: seq<Name>, b: seq<Name>)
    ensures StrSize(a) <= StrSize(a + b)
  {
    if b == [] {
      assert a + b == a;
    } else {
      SizeMonotone(a, b[..|b| - 1]);
      assert (a + b)[..|a + b| - 1] == a + b[..|b| - 1];
    }
  }

  /** More descriptions, no smaller table. */
  lemma SizeGrows(before: seq<SymbolDesc>, descs: seq<SymbolDesc>, i: nat)
    requires i <= |descs|
    ensures StrSize(DescNames(before + descs[..i])) <= StrSize(DescNames(before + descs))
  {
    SizeMonotone(DescNames(before + descs[..i]), DescNames(descs[i..]));
    assert DescNames(before + descs) == DescNames(before + descs[..i]) + DescNames(descs[i..]);
  }

  lemma {:induction false} PltPrefix(names: seq<Name>, i: nat)
    requires i <= |names|
    ensures PltNames(names[..i]) <= PltNames(names)
  {
    if i == |names| {
      assert names[..i] == names;
    } else {
      PltPrefix(names[..|names| - 1], i);
      assert names[..|names| - 1][..i] == names[..i];
    }
  }

  /** The descriptions that the PLT adds: the first entry, then an entry and a helper for
      each relocation. */
  ghost predicate PltAdded(added: seq<SymbolDesc>, names: seq<Name>, plt0: seq<byte>, code: (nat, nat) -> seq<byte>,
                           helper: seq<byte>)
  {
    && |added| == 1 + 2 * |names| && added[0] == PltDesc(Plt0Name(), plt0)
    && forall i :: 0 <= i < |names| ==> IsStub(added[1 + 2 * i], names[i], i, code) &&
                                        added[2 + 2 * i] == FuncDesc(names[i] + HelperSuffix(), helper)
  }

  ghost predicate IsStub(d: SymbolDesc, name: Name, i: nat, code: (nat, nat) -> seq<byte>) {
    exists off :: d == PltDesc(name + PltSuffix(), code(i, off))
  }

  lemma PltAddedNext(added0: seq<SymbolDesc>, added: seq<SymbolDesc>, names: seq<Name>, i: nat, plt0: seq<byte>,
                     code: (nat, nat) -> seq<byte>, helper: seq<byte>, off: nat)
    requires i < |names| && PltAdded(added0, names[..i], plt0, code, helper)
    requires added == added0 +
             [PltDesc(names[i] + PltSuffix(), code(i, off)), FuncDesc(names[i] + HelperSuffix(), helper)]
    ensures PltAdded(added, names[..i + 1], plt0, code, helper)
  {
    forall k | 0 <= k < i + 1
      ensures IsStub(added[1 + 2 * k], names[k], k, code)
      ensures added[2 + 2 * k] == FuncDesc(names[k] + HelperSuffix(), helper)
    {
      if k < i {
        assert names[..i][k] == names[k];
        assert IsStub(added0[1 + 2 * k], names[k], k, code);
      }
    }
  }

  /** Every added name is a PLT name. */
  lemma AddedNames(added: seq<SymbolDesc>, names: seq<Name>, plt0: seq<byte>, code: (nat, nat) -> seq<byte>,
                   helper: seq<byte>)
    requires PltAdded(added, names, plt0, code, helper)
    ensures forall k :: 0 <= k < |added| ==> PltName(added[k].name, names)
  {
    forall k | 0 <= k < |added| ensures PltName(added[k].name, names) {
      if k > 0 {
        var i := (k - 1) / 2;
        assert IsStub(added[1 + 2 * i], names[i], i, code);
      }
    }
  }

  lemma FirstEntry(plt0: seq<byte>)
    requires |plt0| < 0x1000
    ensures Supported(PltDesc(Plt0Name(), plt0)) && DescNames([PltDesc(Plt0Name(), plt0)]) == PltNames([])
  {
  }

  /** One PLT relocation's two names. */
  lemma PltNamesNext(names: seq<Name>, i: nat, added: seq<SymbolDesc>, entry: SymbolDesc, help: SymbolDesc)
    requires i < |names| && DescNames(added) == PltNames(names[..i])
    requires entry.name == names[i] + PltSuffix() && help.name == names[i] + HelperSuffix()
    ensures DescNames(added + [entry, help]) == PltNames(names[..i + 1])
  {
    assert names[..i + 1][..i] == names[..i];
    assert DescNames(added + [entry, help]) == DescNames(added) + [entry.name, help.name];
  }

  lemma PrefixSize(a: seq<Name>, b: seq<Name>, c: seq<Name>)
    requires b <= c
    ensures StrSize(a + b) <= StrSize(a + c)
  {
    SizeMonotone(a + b, c[|b|..]);
    assert a + b + c[|b|..] == a + c;
  }

  lemma DescNamesJoin(a: seq<SymbolDesc>, b: seq<SymbolDesc>)
    ensures DescNames(a + b) == DescNames(a) + DescNames(b)
  {
  }

  /** If the first of the two has no room, all the names together have none. */
  lemma PltSize(before: seq<SymbolDesc>, added: seq<SymbolDesc>, entry: SymbolDesc, help: SymbolDesc, all: seq<Name>)
    requires DescNames(added + [entry, help]) <= all
    ensures StrSize(DescNames(before + added + [entry])) <= StrSize(DescNames(before) + all)
  {
    assert added + [entry, help] == added + [entry] + [help];
    DescNamesJoin(added + [entry], [help]);
    PrefixSize(DescNames(before), DescNames(added + [entry]), all);
    DescNamesJoin(before, added + [entry]);
    assert before + (added + [entry]) == before + added + [entry];
  }

  /** The tables hold these descriptions, and their names. */
  ghost predicate TablesFor(t: Tables, all: seq<SymbolDesc>) {
    Good(t) && t.symbols == Dedup(all) && |t.dynstr| == StrSize(DescNames(all))
  }

  // ---------------------------------------------------------------- final values

  /** Section numbers and addresses after the layout. */
  datatype SymPlaces = SymPlaces(shndx: map<SectionKind, nat>, text: nat, data: nat, plt: nat) {
    function BaseOf(k: SectionKind): nat {
      match k
      case Text => text
      case Data => data
      case Plt => plt
      case _ => 0
    }
  }

  function Moves(e: Sym, s: SymbolDesc, k: SectionKind, p: SymPlaces): Sym {
    if s.content.None? || k !in p.shndx then e
    else e.(shndx := p.shndx[k] % 0x1_0000, value := Wrap64(e.value + p.BaseOf(k)))
  }

  function Moved(t: Tables, p: SymPlaces): (es: seq<Sym>)
    requires |t.dynsym| == |t.symbols| + 1 && |t.kinds| == |t.dynsym|
    ensures |es| == |t.dynsym| && es[0] == t.dynsym[0]
    ensures forall i :: 1 <= i < |es| ==> es[i] == Moves(t.dynsym[i], t.symbols[i - 1], t.kinds[i], p)
  {
    seq(|t.dynsym|, i requires 0 <= i < |t.dynsym| =>
      if i == 0 then t.dynsym[0] else Moves(t.dynsym[i], t.symbols[i - 1], t.kinds[i], p))
  }

  /** Moving the symbols changes no name, binding, type or size. */
  lemma MovedNames(t: Tables, p: SymPlaces)
    requires Good(t)
    ensures Names(t.(dynsym := Moved(t, p)))
  {
    var t' := t.(dynsym := Moved(t, p));
    forall i | 0 <= i < |t'.symbols| ensures NameOk(t', i) {
      assert NameOk(t, i);
    }
  }

  // -------------------------------------------------------------------- what holds

  /** The contents of one kind, in the order of the symbols (`get_text_content` and its
      siblings). */
  function Contents(symbols: seq<SymbolDesc>, k: SectionKind): seq<byte> {
    if symbols == [] then []
    else
      var last := symbols[|symbols| - 1];
      Contents(symbols[..|symbols| - 1], k)
      + (if last.content.Some? && last.content.value.kind == k then last.content.value.data else [])
  }

  method GetContent(symbols: seq<SymbolDesc>, k: SectionKind) returns (content: seq<byte>)
    ensures content == Contents(symbols, k)
  {
    content := [];
    for i := 0 to |symbols|
      invariant content == Contents(symbols[..i], k)
    {
      assert symbols[..i + 1][..i] == symbols[..i];
      if symbols[i].content.Some? && symbols[i].content.value.kind == k {
        content := content + symbols[i].content.value.data;
      }
    }
    assert symbols[..|symbols|] == symbols;
  }

  /** The string at `off` is `name`. */
  predicate NameAt(strtab: seq<byte>, off: nat, name: Name) {
    off + |name| < |strtab| && strtab[off..off + |name|] == name && strtab[off + |name|] == 0
  }

  /** Symbol `i`, which is entry `i + 1` of the table: its name and its index. */
  ghost predicate NameOk(t: Tables, i: nat)
    requires i < |t.symbols| && |t.dynsym| == |t.symbols| + 1
  {
    var s, e := t.symbols[i], t.dynsym[i + 1];
    && NameAt(t.dynstr, e.name, s.name) && e.name < 0x1_0000_0000 && e.shndx < 0x1_0000
    && s.name in t.index && t.index[s.name] == i + 1
    && e.bind == Bind(s.scope) && e.stype == Type(s.stype) && e.size == SizeOf(s)
  }

  /** The place of its content, before the layout is known; 0 for an undefined symbol. */
  ghost predicate ValueOk(t: Tables, i: nat)
    requires i < |t.symbols| && |t.dynsym| == |t.symbols| + 1
  {
    var s := t.symbols[i];
    && Supported(s) && (s.content.None? ==> t.dynsym[i + 1].value == 0)
    && (s.content.Some? ==> t.dynsym[i + 1].value == Wrap64(|Contents(t.symbols[..i], s.content.value.kind)|))
  }

  /** The reserved first entry: every field is zero. */
  predicate IsNull(e: Sym) {
    e.name < 1 && e.bind < 1 && e.stype < 1 && e.shndx < 1 && e.value < 1 && e.size < 1
  }

  /** Names and indexes agree, in both directions. */
  ghost predicate Names(t: Tables) {
    && |t.dynsym| == |t.symbols| + 1 && |t.kinds| == |t.dynsym|
    && IsNull(t.dynsym[0]) && |t.dynsym| < |t.dynstr|
    && (forall i :: 0 <= i < |t.symbols| ==> NameOk(t, i))
    && [] in t.index && t.index[[]] == 0
    && (forall n :: n in t.index && n != [] ==> 1 <= t.index[n] <= |t.symbols| && t.symbols[t.index[n] - 1].name == n)
  }

  ghost predicate Good(t: Tables) {
    && Names(t)
    && (forall i :: 0 <= i < |t.symbols| ==> ValueOk(t, i))
    && (forall i :: 0 <= i < |t.symbols| ==> t.kinds[i + 1] == KindOf(t.symbols[i]))
    && (forall k :: k in {Text, Data, Tls, Plt} ==> t.Offset(k) == |Contents(t.symbols, k)|)
  }

  lemma EmptyGood()
    ensures TablesFor(Empty(), [])
  {
    assert DescNames([]) == [];
  }

  lemma NameStays(strtab: seq<byte>, off: nat, name: Name, more: Name)
    requires NameAt(strtab, off, name)
    ensures NameAt(AddString(strtab, more), off, name)
  {
    assert AddString(strtab, more)[off..off + |name|] == strtab[off..off + |name|];
  }

  lemma NewName(strtab: seq<byte>, name: Name)
    ensures NameAt(AddString(strtab, name), |strtab|, name)
  {
    assert AddString(strtab, name)[|strtab|..|strtab| + |name|] == name;
  }

  lemma SymbolStays(t: Tables, s: SymbolDesc, i: nat)
    requires Good(t) && Supported(s) && s.name !in t.index && |t.dynstr| < 0x1_0000_0000 && i < |t.symbols|
    ensures NameOk(AddNew(t, s), i) && ValueOk(AddNew(t, s), i)
  {
    var t' := AddNew(t, s);
    assert NameOk(t, i) && ValueOk(t, i);
    NameStays(t.dynstr, t.dynsym[i + 1].name, t.symbols[i].name, s.name);
    assert t'.symbols[..i] == t.symbols[..i] && t'.dynsym[i + 1] == t.dynsym[i + 1];
  }

  lemma SymbolNew(t: Tables, s: SymbolDesc)
    requires Good(t) && Supported(s) && s.name !in t.index && |t.dynstr| < 0x1_0000_0000
    ensures NameOk(AddNew(t, s), |t.symbols|) && ValueOk(AddNew(t, s), |t.symbols|)
  {
    NewName(t.dynstr, s.name);
    assert AddNew(t, s).symbols[..|t.symbols|] == t.symbols;
  }

  lemma OffsetsNew(t: Tables, s: SymbolDesc, k: SectionKind)
    requires Good(t) && Supported(s) && |t.dynstr| < 0x1_0000_0000 && k in {Text, Data, Tls, Plt}
    ensures AddNew(t, s).Offset(k) == |Contents(AddNew(t, s).symbols, k)|
  {
    assert AddNew(t, s).symbols[..|t.symbols|] == t.symbols;
  }

  lemma NamesNew(t: Tables, s: SymbolDesc)
    requires Good(t) && Supported(s) && s.name !in t.index && |t.dynstr| < 0x1_0000_0000
    ensures Names(AddNew(t, s))
  {
    var t' := AddNew(t, s);
    forall i | 0 <= i < |t'.symbols| ensures NameOk(t', i) {
      if i < |t.symbols| {
        SymbolStays(t, s, i);
      } else {
        SymbolNew(t, s);
      }
    }
    IndexNew(t, s);
  }

  lemma IndexNew(t: Tables, s: SymbolDesc)
    requires Names(t) && s.name !in t.index && |t.dynstr| < 0x1_0000_0000
    ensures var t' := AddNew(t, s);
            forall n :: n in t'.index && n != [] ==>
              1 <= t'.index[n] <= |t'.symbols| && t'.symbols[t'.index[n] - 1].name == n
  {
    var t' := AddNew(t, s);
    forall n | n in t'.index && n != []
      ensures 1 <= t'.index[n] <= |t'.symbols| && t'.symbols[t'.index[n] - 1].name == n
    {
      assert n != s.name ==> n in t.index;
    }
  }

  /** Adding a symbol keeps the tables good. */
  lemma AddGood(t: Tables, s: SymbolDesc)
    requires Good(t) && Supported(s) && s.name !in t.index && |t.dynstr| < 0x1_0000_0000
    ensures Good(AddNew(t, s))
  {
    var t' := AddNew(t, s);
    NamesNew(t, s);
    forall i | 0 <= i < |t'.symbols| ensures ValueOk(t', i) {
      if i < |t.symbols| {
        SymbolStays(t, s, i);
      } else {
        SymbolNew(t, s);
      }
    }
    forall k | k in {Text, Data, Tls, Plt} ensures t'.Offset(k) == |Contents(t'.symbols, k)| {
      OffsetsNew(t, s, k);
    }
  }

  lemma AddedDesc(t: Tables, s: SymbolDesc, all: seq<SymbolDesc>)
    requires Names(t) && t.symbols == Dedup(all)
    ensures Dedup(all + [s]) == if s.name in t.index then t.symbols else t.symbols + [s]
  {
    assert (all + [s])[..|all|] == all;
    KnownIff(t, s.name);
  }

  lemma AddedSize(t: Tables, s: SymbolDesc, all: seq<SymbolDesc>)
    requires Names(t) && t.symbols == Dedup(all)
    ensures StrSize(DescNames(all + [s])) == StrSize(DescNames(all)) + if s.name in t.index then 0 else |s.name| + 1
  {
    var ns := DescNames(all + [s]);
    assert ns[..|ns| - 1] == DescNames(all);
    KnownIff(t, s.name);
    DedupNames(all);
    assert s.name != [] ==> (s.name in DescNames(all) <==> Listed(Dedup(all), s.name));
  }

  lemma AddOneSize(t: Tables, s: SymbolDesc)
    requires |t.dynstr| < 0x1_0000_0000
    ensures |AddOne(t, s).dynstr| == |t.dynstr| + if s.name in t.index then 0 else |s.name| + 1
    ensures AddOne(t, s).symbols == if s.name in t.index then t.symbols else t.symbols + [s]
  {
  }

  lemma AddOneIndex(t: Tables, s: SymbolDesc)
    requires |t.dynstr| < 0x1_0000_0000
    ensures IndexGrows(t.index, AddOne(t, s).index)
  {
  }

  lemma AddOneGood(t: Tables, s: SymbolDesc, all: seq<SymbolDesc>)
    requires Supported(s) && |t.dynstr| < 0x1_0000_0000 && TablesFor(t, all)
    ensures TablesFor(AddOne(t, s), all + [s])
  {
    AddedDesc(t, s, all);
    AddedSize(t, s, all);
    AddOneSize(t, s);
    assert Good(AddOne(t, s)) by {
      if s.name !in t.index {
        AddGood(t, s);
      }
    }
  }
}
