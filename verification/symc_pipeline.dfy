/**
 The whole pipeline of iopmod-symc and the lookups of its output: what the headers
 declare is what the flat array answers.
 */
module SymcPipeline {
  import opened Common
  import opened LexerLaws
  import opened SymcRead
  import opened SymcHeaders
  import opened SymcTable
  import opened SymtabIndex
  import opened SymcPrint
  import opened SymtabNesting
  import opened SymcMeaning

  /** Filled and ordered. */
  function Compiled(ms: seq<Module>, qsort: seq<Function> -> seq<Function>): seq<Module> {
    Ordered(Filled(ms), qsort)
  }

  function CompiledLibrary(l: Library, qsort: seq<Function> -> seq<Function>): Library {
    OrderedLibrary(FilledLibrary(l), qsort)
  }

  function CompiledModule(m: Module, qsort: seq<Function> -> seq<Function>): Module {
    OrderedModule(FilledModule(m), qsort)
  }

  /** main: reads the headers' tokens, compiles the table, expands it to the array. */
  method Compile(files: seq<seq<Lexed>>, qsort: seq<Function> -> seq<Function>)
    returns (fatal: bool, rows: seq<Row>)
    ensures fatal <==> ReadFilesOf([], files) == None
    ensures !fatal ==> rows == Table(TableStmts(Compiled(ReadFilesOf([], files).value, qsort)))
  {
    fatal, rows := false, [];
    var t := new Symtab();
    assert files[0..] == files;
    for i := 0 to |files|
      invariant ReadFilesOf(t.modules, files[i..]) == ReadFilesOf([], files)
    {
      assert files[i..][0] == files[i] && files[i..][1..] == files[i + 1..];
      fatal := t.ReadSymtab(files[i]);
      if fatal {
        return;
      }
    }
    FillSymtab(t);
    OrderSymtab(t, qsort);
    var sts := PrintSymtab(t);
    rows := Table(sts);
  }

  lemma {:induction false} LibraryCompiles(ls: seq<Library>, cs: seq<Library>, name: string,
                                           qsort: seq<Function> -> seq<Function>)
    requires |cs| == |ls| && forall j :: 0 <= j < |ls| ==> cs[j] == CompiledLibrary(ls[j], qsort)
    ensures LibraryIn(cs, name) == if LibraryIn(ls, name) == None then None
                                   else Some(CompiledLibrary(LibraryIn(ls, name).value, qsort))
    decreases |ls|
  {
    if ls != [] {
      LibraryCompiles(ls[1..], cs[1..], name, qsort);
    }
  }

  lemma {:induction false} FirstLibraryCompiles(ms: seq<Module>, name: string,
                                                qsort: seq<Function> -> seq<Function>)
    ensures FirstLibrary(Compiled(ms, qsort), name) ==
            var found := FirstLibrary(ms, name);
            if found == None then None
            else Some((CompiledModule(found.value.0, qsort), CompiledLibrary(found.value.1, qsort)))
    decreases |ms|
  {
    if ms != [] {
      var cs := Compiled(ms, qsort);
      assert cs[0] == CompiledModule(ms[0], qsort);
      LibraryCompiles(ms[0].libraries, cs[0].libraries, name, qsort);
      FirstLibraryCompiles(ms[1..], name, qsort);
      assert cs[1..] == Compiled(ms[1..], qsort);
    }
  }

  // ----- Functions by index -----

  ghost predicate AllNamed(fs: seq<Function>) {
    forall k :: 0 <= k < |fs| ==> fs[k].name != ""
  }

  lemma {:induction false} FunctionAt(fs: seq<Function>, k: nat)
    requires DistinctIndices(fs) && k < |fs| && fs[k].name != ""
    ensures FunctionWith(fs, fs[k].index) == Some(fs[k])
    ensures AliasWith(fs, fs[k].index) == if fs[k].aliases == [] then None else Some(fs[k].aliases[0])
    decreases |fs|
  {
    if k > 0 {
      FunctionAt(fs[1..], k - 1);
    } else {
      NoFunctionAt(fs[1..], fs[0].index);
    }
  }

  lemma {:induction false} NoFunctionAt(fs: seq<Function>, index: nat)
    requires forall k :: 0 <= k < |fs| ==> fs[k].index != index || fs[k].name == ""
    ensures FunctionWith(fs, index) == None && AliasWith(fs, index) == None
    decreases |fs|
  {
    if fs != [] {
      NoFunctionAt(fs[1..], index);
    }
  }

  /** Compiling a library changes no answer about its functions. */
  lemma {:induction false} FunctionsCompile(l: Library, qsort: seq<Function> -> seq<Function>, index: nat)
    requires IsQsort(qsort) && DistinctIndices(l.functions) && AllNamed(l.functions)
    ensures var gs := CompiledLibrary(l, qsort).functions;
            && FunctionWith(gs, index) == FunctionWith(l.functions, index)
            && AliasWith(gs, index) == AliasWith(l.functions, index)
  {
    var fs, gs := l.functions, CompiledLibrary(l, qsort).functions;
    if fs == [] {
      assert gs == [];
    } else {
      var hs := FillFrom(fs, 0, MaxIndex(fs));
      FillGaps(fs, 0, MaxIndex(fs));
      assert hs != [] by {
        assert hs[0] == fs[0];
      }
      assert Qsorted(hs, qsort(hs));
      DenseTable(fs, gs);
      assert DistinctIndices(gs);
      if HasIndex(fs, index) {
        var k :| 0 <= k < |fs| && fs[k].index == index;
        FunctionAt(fs, k);
        FunctionAt(gs, index);
      } else {
        NoFunctionAt(fs, index);
        NoFunctionAt(gs, index);
      }
    }
  }

  // ----- What headers declare is named -----

  ghost predicate NamedTable(ms: seq<Module>) {
    forall i, j :: 0 <= i < |ms| && 0 <= j < |ms[i].libraries| ==> AllNamed(ms[i].libraries[j].functions)
  }

  lemma {:induction false} AddNamed(ms: seq<Module>, f: Function)
    requires NamedTable(ms) && HasLibrary(ms) && f.name != ""
    ensures NamedTable(AddFunction(ms, f))
  {
  }

  lemma {:induction false} DeclaredNamed(ms: seq<Module>, ds: seq<Declaration>)
    requires NamedTable(ms) && forall i :: 0 <= i < |ds| ==> WellShaped(ds[i])
    ensures DeclareAll(ms, ds).Some? ==> NamedTable(DeclareAll(ms, ds).value)
    decreases |ds|
  {
    if ds != [] {
      var r := Declare(ms, ds[0]);
      if r.Some? {
        assert NamedTable(r.value) by {
          DeclareNamed(ms, ds[0]);
        }
        DeclaredNamed(r.value, ds[1..]);
      }
    }
  }

  lemma {:induction false} DeclareNamed(ms: seq<Module>, d: Declaration)
    requires NamedTable(ms) && WellShaped(d)
    ensures Declare(ms, d).Some? ==> NamedTable(Declare(ms, d).value)
  {
    if d.FunctionId? && HasLibrary(ms) && TokenInteger(d.index).Some? {
      AddNamed(ms, Function(d.name.text, TokenInteger(d.index).value, TailAliases(d.tail)));
    }
  }

  lemma {:induction false} DeclarationsShaped(hs: seq<Header>)
    requires forall i :: 0 <= i < |hs| ==> WellShapedHeader(hs[i].ds, hs[i].trailer)
    ensures forall i :: 0 <= i < |AllDeclarations(hs)| ==> WellShaped(AllDeclarations(hs)[i])
    decreases |hs|
  {
    hide WellShaped, Heard;
    if hs != [] {
      HeardShaped(hs[0].ds);
      DeclarationsShaped(hs[1..]);
    }
  }

  lemma {:induction false} HeardShaped(ds: seq<Declaration>)
    requires forall i :: 0 <= i < |ds| ==> WellShaped(ds[i])
    ensures forall i :: 0 <= i < |Heard(ds)| ==> WellShaped(Heard(ds)[i])
    decreases |ds|
  {
    hide WellShaped;
    if ds != [] {
      if ds[0].Blank? {
        if |ds| > 1 {
          HeardShaped(ds[2..]);
        }
      } else {
        HeardShaped(ds[1..]);
      }
    }
  }

  // ----- The theorem -----

  lemma {:induction false} FoundIsInTable(ms: seq<Module>, name: string)
    ensures var found := FirstLibrary(ms, name);
            found.Some? ==> exists i, j :: 0 <= i < |ms| && 0 <= j < |ms[i].libraries|
                              && ms[i] == found.value.0 && ms[i].libraries[j] == found.value.1
    decreases |ms|
  {
    if ms != [] {
      var l := LibraryIn(ms[0].libraries, name);
      if l.Some? {
        var j := InLibraries(ms[0].libraries, name);
        assert ms[0].libraries[j] == l.value;
      } else {
        FoundIsInTable(ms[1..], name);
        var found := FirstLibrary(ms, name);
        if found.Some? {
          var i, j :| 0 <= i < |ms[1..]| && 0 <= j < |ms[1..][i].libraries|
                      && ms[1..][i] == found.value.0 && ms[1..][i].libraries[j] == found.value.1;
          assert ms[i + 1] == ms[1..][i];
        }
      }
    }
  }

  lemma {:induction false} InLibraries(ls: seq<Library>, name: string) returns (j: nat)
    requires LibraryIn(ls, name).Some?
    ensures j < |ls| && ls[j] == LibraryIn(ls, name).value && ls[j].name == name
  {
    j := 0;
    if ls[0].name != name {
      var k := InLibraries(ls[1..], name);
      j := k + 1;
    }
  }

  /** Every library's indices are distinct. */
  ghost predicate DistinctTable(ms: seq<Module>) {
    forall i, j :: 0 <= i < |ms| && 0 <= j < |ms[i].libraries| ==> DistinctIndices(ms[i].libraries[j].functions)
  }

  /**
   The array answers with the function the first library of that name declares, and
   with its first alias; with nothing when nothing is declared.
   */
  ghost predicate Answers(rows: seq<Row>, ms: seq<Module>, library: string, index: nat)
    requires Closed(rows)
  {
    match FirstLibrary(ms, library)
    case None => Lookup(rows, library, index) == None && LookupAlias(rows, library, index) == None
    case Some(found) =>
      var s, fs := ScopeOf(found.0, found.1), found.1.functions;
      && (!HasIndex(fs, index) ==>
            Lookup(rows, library, index) == None && LookupAlias(rows, library, index) == None)
      && forall k :: 0 <= k < |fs| && fs[k].index == index ==>
           && Lookup(rows, library, index) == Some(FunctionRow(s, index, fs[k].name, false))
           && LookupAlias(rows, library, index) == FirstAliasRowOf(s, fs[k])
  }

  function FirstAliasRowOf(s: Scope, f: Function): Option<Row> {
    if f.aliases == [] then None else Some(FunctionRow(s, f.index, f.aliases[0], true))
  }

  /**
   For all headers of the described shape whose libraries have distinct indices,
   the array answers every library name and index as the headers declare.
   */
  lemma {:induction false} CompilationPreservesMeaning(
      hs: seq<Header>, ms: seq<Module>, qsort: seq<Function> -> seq<Function>, library: string, index: nat)
    requires forall i :: 0 <= i < |hs| ==> WellShapedHeader(hs[i].ds, hs[i].trailer)
    requires DeclareAll([], AllDeclarations(hs)) == Some(ms) && DistinctTable(ms) && IsQsort(qsort)
    ensures ReadFilesOf([], Streams(hs)) == Some(ms)
    ensures var rows := Table(TableStmts(Compiled(ms, qsort)));
            Closed(rows) && Answers(rows, ms, library, index)
  {
    hide Closed, DeclareAll, Compiled, CompiledLibrary, CompiledModule, Lookup, LookupAlias, WellShaped, IsQsort;
    HeadersRead([], hs);
    DeclarationsShaped(hs);
    DeclaredNamed([], AllDeclarations(hs));
    TableAnswers(ms, qsort, library, index);
  }

  lemma {:induction false} CompiledScope(m: Module, l: Library, qsort: seq<Function> -> seq<Function>)
    ensures ScopeOf(CompiledModule(m, qsort), CompiledLibrary(l, qsort)) == ScopeOf(m, l)
  {
  }

  lemma {:induction false} TableAnswers(ms: seq<Module>, qsort: seq<Function> -> seq<Function>,
                                        library: string, index: nat)
    requires NamedTable(ms) && DistinctTable(ms) && IsQsort(qsort)
    ensures var rows := Table(TableStmts(Compiled(ms, qsort)));
            Closed(rows) && Answers(rows, ms, library, index)
  {
    hide Closed, Compiled, CompiledLibrary, CompiledModule, Lookup, LookupAlias, IsQsort, DistinctIndices, AllNamed;
    var cs := Compiled(ms, qsort);
    TableExpands(cs);
    assert Table(TableStmts(cs)) == TableEnd(cs);
    LookupMeaning(cs, library, index);
    FirstLibraryCompiles(ms, library, qsort);
    FoundIsInTable(ms, library);
    var found := FirstLibrary(ms, library);
    if found.Some? {
      var (m, l) := found.value;
      CompiledScope(m, l, qsort);
      FunctionsCompile(l, qsort, index);
      if HasIndex(l.functions, index) {
        forall k | 0 <= k < |l.functions| && l.functions[k].index == index
          ensures FunctionWith(l.functions, index) == Some(l.functions[k])
          ensures AliasWith(l.functions, index) ==
                  if l.functions[k].aliases == [] then None else Some(l.functions[k].aliases[0])
        {
          NamedAt(l.functions, k);
          FunctionAt(l.functions, k);
        }
      } else {
        NoFunctionAt(l.functions, index);
      }
    }
  }

  lemma {:induction false} NamedAt(fs: seq<Function>, k: nat)
    requires AllNamed(fs) && k < |fs|
    ensures fs[k].name != ""
  {
  }

  /** No two libraries, of one module or of two, have the same name. */
  ghost predicate DistinctLibraries(ms: seq<Module>) {
    forall i, j, i', j' |
      && 0 <= i < |ms| && 0 <= j < |ms[i].libraries|
      && 0 <= i' < |ms| && 0 <= j' < |ms[i'].libraries|
      && ms[i].libraries[j].name == ms[i'].libraries[j'].name ::
      i == i' && j == j'
  }

  /** With distinct names the first library of a name is the library of that name. */
  lemma {:induction false} OnlyLibrary(ms: seq<Module>, i: nat, j: nat)
    requires DistinctLibraries(ms) && i < |ms| && j < |ms[i].libraries|
    ensures FirstLibrary(ms, ms[i].libraries[j].name) == Some((ms[i], ms[i].libraries[j]))
    decreases |ms|
  {
    var name := ms[i].libraries[j].name;
    var first := LibraryIn(ms[0].libraries, name);
    if first.Some? {
      var k := InLibraries(ms[0].libraries, name);
      assert ms[0].libraries[k].name == name;
    } else if i == 0 {
      LibraryInFinds(ms[0].libraries, j);
    } else {
      assert DistinctLibraries(ms[1..]) by {
        assert forall a :: 0 <= a < |ms| - 1 ==> ms[1..][a] == ms[a + 1];
      }
      OnlyLibrary(ms[1..], i - 1, j);
    }
  }

  lemma {:induction false} LibraryInFinds(ls: seq<Library>, j: nat)
    requires j < |ls|
    ensures LibraryIn(ls, ls[j].name).Some?
  {
    if j > 0 {
      LibraryInFinds(ls[1..], j - 1);
    }
  }
}
