/**
 Printing the table as macro statements (tool/iopmod-symc.c), and the rows the
 macros of tool/symtab.c make of them.
 */
module SymcPrint {
  import opened Common
  import opened SymcRead
  import opened SymtabIndex

  /** The arguments every statement of a library repeats. */
  datatype Scope = Scope(m: string, mv: string, l: string, lv: string)

  datatype Stmt =
    | MP(m: string, mv: string) | ME(m: string, mv: string)
    | LP(s: Scope) | LE(s: Scope)
    | FP(s: Scope, index: nat, name: string)
    | FA(s: Scope, index: nat, name: string)
    | FE(s: Scope, index: nat, name: string)
    | FU(s: Scope, index: nat)

  function AliasStmts(s: Scope, index: nat, aliases: seq<string>): seq<Stmt> {
    if aliases == [] then [] else [FA(s, index, aliases[0])] + AliasStmts(s, index, aliases[1..])
  }

  function FunctionStmts(s: Scope, f: Function): seq<Stmt> {
    if f.name == "" then [FU(s, f.index)]
    else [FP(s, f.index, f.name)] + AliasStmts(s, f.index, f.aliases) + [FE(s, f.index, f.name)]
  }

  function FunctionsStmts(s: Scope, fs: seq<Function>): seq<Stmt> {
    if fs == [] then [] else FunctionStmts(s, fs[0]) + FunctionsStmts(s, fs[1..])
  }

  function ScopeOf(m: Module, l: Library): Scope {
    Scope(m.name, m.version, l.name, l.version)
  }

  function LibraryStmts(m: Module, l: Library): seq<Stmt> {
    [LP(ScopeOf(m, l))] + FunctionsStmts(ScopeOf(m, l), l.functions) + [LE(ScopeOf(m, l))]
  }

  function LibrariesStmts(m: Module, ls: seq<Library>): seq<Stmt> {
    if ls == [] then [] else LibraryStmts(m, ls[0]) + LibrariesStmts(m, ls[1..])
  }

  function ModuleStmts(m: Module): seq<Stmt> {
    [MP(m.name, m.version)] + LibrariesStmts(m, m.libraries) + [ME(m.name, m.version)]
  }

  function TableStmts(ms: seq<Module>): seq<Stmt> {
    if ms == [] then [] else ModuleStmts(ms[0]) + TableStmts(ms[1..])
  }

  lemma {:induction false} AliasStmtsLast(s: Scope, index: nat, aliases: seq<string>, a: string)
    ensures AliasStmts(s, index, aliases + [a]) == AliasStmts(s, index, aliases) + [FA(s, index, a)]
  {
    var t := aliases + [a];
    if aliases == [] {
      assert t[1..] == [];
    } else {
      assert t[1..] == aliases[1..] + [a];
      AliasStmtsLast(s, index, aliases[1..], a);
    }
  }

  lemma {:induction false} NoStmts(s: Scope)
    ensures FunctionsStmts(s, []) == []
  {
  }

  lemma {:induction false} FunctionsStmtsLast(s: Scope, fs: seq<Function>, f: Function)
    ensures FunctionsStmts(s, fs + [f]) == FunctionsStmts(s, fs) + FunctionStmts(s, f)
  {
    var t := fs + [f];
    if fs == [] {
      assert t[1..] == [] && FunctionsStmts(s, []) == [];
      assert FunctionStmts(s, f) + [] == [] + FunctionStmts(s, f);
    } else {
      assert t[1..] == fs[1..] + [f];
      FunctionsStmtsLast(s, fs[1..], f);
      assert FunctionStmts(s, fs[0]) + (FunctionsStmts(s, fs[1..]) + FunctionStmts(s, f))
          == FunctionsStmts(s, fs) + FunctionStmts(s, f);
    }
  }

  lemma {:induction false} LibrariesStmtsLast(m: Module, ls: seq<Library>, l: Library)
    ensures LibrariesStmts(m, ls + [l]) == LibrariesStmts(m, ls) + LibraryStmts(m, l)
  {
    var t := ls + [l];
    if ls == [] {
      assert t[1..] == [] && LibrariesStmts(m, []) == [];
      assert LibraryStmts(m, l) + [] == [] + LibraryStmts(m, l);
    } else {
      assert t[1..] == ls[1..] + [l];
      LibrariesStmtsLast(m, ls[1..], l);
      assert LibraryStmts(m, ls[0]) + (LibrariesStmts(m, ls[1..]) + LibraryStmts(m, l))
          == LibrariesStmts(m, ls) + LibraryStmts(m, l);
    }
  }

  lemma {:induction false} TableStmtsLast(ms: seq<Module>, m: Module)
    ensures TableStmts(ms + [m]) == TableStmts(ms) + ModuleStmts(m)
  {
    var t := ms + [m];
    if ms == [] {
      assert t[1..] == [] && TableStmts([]) == [];
      assert ModuleStmts(m) + [] == [] + ModuleStmts(m);
    } else {
      assert t[1..] == ms[1..] + [m];
      TableStmtsLast(ms[1..], m);
      assert ModuleStmts(ms[0]) + (TableStmts(ms[1..]) + ModuleStmts(m))
          == TableStmts(ms) + ModuleStmts(m);
    }
  }

  method PrintFunction(s: Scope, f: Function) returns (out: seq<Stmt>)
    ensures out == FunctionStmts(s, f)
  {
    if f.name == "" {
      return [FU(s, f.index)];
    }
    out := [FP(s, f.index, f.name)];
    for i := 0 to |f.aliases|
      invariant out == [FP(s, f.index, f.name)] + AliasStmts(s, f.index, f.aliases[..i])
    {
      AliasStmtsLast(s, f.index, f.aliases[..i], f.aliases[i]);
      assert f.aliases[..i] + [f.aliases[i]] == f.aliases[..i + 1];
      out := out + [FA(s, f.index, f.aliases[i])];
    }
    assert f.aliases[..|f.aliases|] == f.aliases;
    out := out + [FE(s, f.index, f.name)];
  }

  method PrintLibrary(m: Module, l: Library) returns (out: seq<Stmt>)
    ensures out == LibraryStmts(m, l)
  {
    hide FunctionsStmts, FunctionStmts;
    var s := ScopeOf(m, l);
    NoStmts(s);
    out := [LP(s)];
    for i := 0 to |l.functions|
      invariant out == [LP(s)] + FunctionsStmts(s, l.functions[..i])
    {
      FunctionsStmtsLast(s, l.functions[..i], l.functions[i]);
      assert l.functions[..i] + [l.functions[i]] == l.functions[..i + 1];
      var more := PrintFunction(s, l.functions[i]);
      out := out + more;
    }
    assert l.functions[..|l.functions|] == l.functions;
    out := out + [LE(s)];
  }

  method PrintModule(m: Module) returns (out: seq<Stmt>)
    ensures out == ModuleStmts(m)
  {
    hide LibraryStmts;
    out := [MP(m.name, m.version)];
    for i := 0 to |m.libraries|
      invariant out == [MP(m.name, m.version)] + LibrariesStmts(m, m.libraries[..i])
    {
      LibrariesStmtsLast(m, m.libraries[..i], m.libraries[i]);
      assert m.libraries[..i] + [m.libraries[i]] == m.libraries[..i + 1];
      var more := PrintLibrary(m, m.libraries[i]);
      out := out + more;
    }
    assert m.libraries[..|m.libraries|] == m.libraries;
    out := out + [ME(m.name, m.version)];
  }

  method PrintSymtab(t: Symtab) returns (out: seq<Stmt>)
    ensures out == TableStmts(t.modules)
  {
    hide ModuleStmts;
    out := [];
    for i := 0 to |t.modules|
      invariant out == TableStmts(t.modules[..i])
    {
      TableStmtsLast(t.modules[..i], t.modules[i]);
      assert t.modules[..i] + [t.modules[i]] == t.modules[..i + 1];
      var more := PrintModule(t.modules[i]);
      out := out + more;
    }
    assert t.modules[..|t.modules|] == t.modules;
  }

  // ----- Macro expansion -----

  function ModuleRow(m: string, mv: string): Row {
    Row(Some(m), mv, None, "", None, 0, false)
  }

  function LibraryRow(s: Scope): Row {
    Row(Some(s.m), s.mv, Some(s.l), s.lv, None, 0, false)
  }

  function FunctionRow(s: Scope, index: nat, name: string, alias: bool): Row {
    Row(Some(s.m), s.mv, Some(s.l), s.lv, Some(name), index, alias)
  }

  /** The initialisers a statement expands to. */
  function Expansion(st: Stmt): seq<Row> {
    match st
    case MP(m, mv) => [ModuleRow(m, mv)]
    case LP(s) => [LibraryRow(s)]
    case FP(s, index, name) => [FunctionRow(s, index, name, false)]
    case FA(s, index, name) => [FunctionRow(s, index, name, true)]
    case _ => []
  }

  function Expanded(sts: seq<Stmt>): seq<Row> {
    if sts == [] then [] else Expansion(sts[0]) + Expanded(sts[1..])
  }

  /** The array: the expansion, and the sentinel. */
  function Table(sts: seq<Stmt>): seq<Row> {
    Expanded(sts) + [SENTINEL]
  }

  // ----- The rows, nested like the table -----

  function AliasRows(s: Scope, index: nat, aliases: seq<string>): seq<Row> {
    if aliases == [] then [] else [FunctionRow(s, index, aliases[0], true)] + AliasRows(s, index, aliases[1..])
  }

  function FunctionRows(s: Scope, f: Function): seq<Row> {
    if f.name == "" then []
    else [FunctionRow(s, f.index, f.name, false)] + AliasRows(s, f.index, f.aliases)
  }

  function FunctionsRows(s: Scope, fs: seq<Function>): seq<Row> {
    if fs == [] then [] else FunctionRows(s, fs[0]) + FunctionsRows(s, fs[1..])
  }

  function LibraryRows(m: Module, l: Library): seq<Row> {
    [LibraryRow(ScopeOf(m, l))] + FunctionsRows(ScopeOf(m, l), l.functions)
  }

  function LibrariesRows(m: Module, ls: seq<Library>): seq<Row> {
    if ls == [] then [] else LibraryRows(m, ls[0]) + LibrariesRows(m, ls[1..])
  }

  function ModuleRows(m: Module): seq<Row> {
    [ModuleRow(m.name, m.version)] + LibrariesRows(m, m.libraries)
  }

  function TableRows(ms: seq<Module>): seq<Row> {
    if ms == [] then [] else ModuleRows(ms[0]) + TableRows(ms[1..])
  }

  lemma {:induction false} ExpandedJoin(a: seq<Stmt>, b: seq<Stmt>)
    ensures Expanded(a + b) == Expanded(a) + Expanded(b)
    decreases |a|
  {
    if a == [] {
      assert a + b == b && [] + Expanded(b) == Expanded(b);
    } else {
      assert (a + b)[1..] == a[1..] + b;
      ExpandedJoin(a[1..], b);
      assert Expansion(a[0]) + (Expanded(a[1..]) + Expanded(b)) == Expanded(a) + Expanded(b);
    }
  }

  lemma {:induction false} ExpandedOne(st: Stmt)
    ensures Expanded([st]) == Expansion(st)
  {
    assert [st][1..] == [] && Expansion(st) + [] == Expansion(st);
  }

  lemma {:induction false} AliasesExpand(s: Scope, index: nat, aliases: seq<string>)
    ensures Expanded(AliasStmts(s, index, aliases)) == AliasRows(s, index, aliases)
  {
    if aliases != [] {
      AliasesExpand(s, index, aliases[1..]);
      ExpandedJoin([FA(s, index, aliases[0])], AliasStmts(s, index, aliases[1..]));
      ExpandedOne(FA(s, index, aliases[0]));
    }
  }

  lemma {:induction false} FunctionExpands(s: Scope, f: Function)
    ensures Expanded(FunctionStmts(s, f)) == FunctionRows(s, f)
  {
    if f.name == "" {
      ExpandedOne(FU(s, f.index));
    } else {
      var p, e := FP(s, f.index, f.name), FE(s, f.index, f.name);
      AliasesExpand(s, f.index, f.aliases);
      ExpandedOne(p);
      ExpandedOne(e);
      ExpandedJoin([p], AliasStmts(s, f.index, f.aliases));
      ExpandedJoin([p] + AliasStmts(s, f.index, f.aliases), [e]);
    }
  }

  lemma {:induction false} FunctionsExpand(s: Scope, fs: seq<Function>)
    ensures Expanded(FunctionsStmts(s, fs)) == FunctionsRows(s, fs)
  {
    if fs != [] {
      FunctionExpands(s, fs[0]);
      FunctionsExpand(s, fs[1..]);
      ExpandedJoin(FunctionStmts(s, fs[0]), FunctionsStmts(s, fs[1..]));
    }
  }

  lemma {:induction false} LibraryExpands(m: Module, l: Library)
    ensures Expanded(LibraryStmts(m, l)) == LibraryRows(m, l)
  {
    var s := ScopeOf(m, l);
    FunctionsExpand(s, l.functions);
    ExpandedOne(LP(s));
    ExpandedOne(LE(s));
    ExpandedJoin([LP(s)], FunctionsStmts(s, l.functions));
    ExpandedJoin([LP(s)] + FunctionsStmts(s, l.functions), [LE(s)]);
  }

  lemma {:induction false} LibrariesExpand(m: Module, ls: seq<Library>)
    ensures Expanded(LibrariesStmts(m, ls)) == LibrariesRows(m, ls)
  {
    if ls != [] {
      LibraryExpands(m, ls[0]);
      LibrariesExpand(m, ls[1..]);
      ExpandedJoin(LibraryStmts(m, ls[0]), LibrariesStmts(m, ls[1..]));
    }
  }

  lemma {:induction false} ModuleExpands(m: Module)
    ensures Expanded(ModuleStmts(m)) == ModuleRows(m)
  {
    var p, e := MP(m.name, m.version), ME(m.name, m.version);
    LibrariesExpand(m, m.libraries);
    ExpandedOne(p);
    ExpandedOne(e);
    ExpandedJoin([p], LibrariesStmts(m, m.libraries));
    ExpandedJoin([p] + LibrariesStmts(m, m.libraries), [e]);
  }

  /** The array is the table's rows in nesting order, undefined functions left out. */
  lemma {:induction false} TableExpands(ms: seq<Module>)
    ensures Expanded(TableStmts(ms)) == TableRows(ms)
  {
    if ms != [] {
      ModuleExpands(ms[0]);
      TableExpands(ms[1..]);
      ExpandedJoin(ModuleStmts(ms[0]), TableStmts(ms[1..]));
    }
  }
}
