/**
 The module iterator, and lookups in the flat array as lookups in the nested table
 it was made from.
 */
module SymcMeaning {
  import opened Common
  import opened SymcRead
  import opened SymtabIndex
  import opened SymcPrint
  import opened SymtabNesting

  // ----- Modules -----

  /** Modules visited when the next one is reached at its header. */
  function ByHeader(ms: seq<Module>): seq<Module>
    decreases |ms|
  {
    if ms == [] then [] else [ms[0]] + BehindHeader(ms[1..])
  }

  /** The step lands one row behind a header: the module counts only if it has a library. */
  function BehindHeader(ms: seq<Module>): seq<Module>
    decreases |ms|
  {
    if ms == [] then []
    else if ms[0].libraries != [] then [ms[0]] + BehindHeader(ms[1..])
    else ByHeader(ms[1..])
  }

  /** The rows stand for the modules. */
  ghost predicate Shows(rows: seq<Row>, ms: seq<Module>) {
    && |rows| == |ms|
    && forall i :: 0 <= i < |ms| ==>
         rows[i].moduleName == Some(ms[i].name) && rows[i].moduleVersion == ms[i].version
  }

  lemma {:induction false} ShowsStep(r: Row, rows: seq<Row>, m: Module, ms: seq<Module>)
    requires r.moduleName == Some(m.name) && r.moduleVersion == m.version && Shows(rows, ms)
    ensures Shows([r] + rows, [m] + ms)
  {
  }

  lemma {:induction false} SkipInLibraries(x: seq<Row>, rest: seq<Row>)
    requires Closed(rest) && AllGood(x) && forall i :: 0 <= i < |x| ==> x[i].libraryName.Some?
    ensures Closed(x + rest) && SkipLibraryRows(x + rest) == SkipLibraryRows(rest)
    decreases |x|
  {
    JoinClosed(x, rest);
    if x == [] {
      assert x + rest == rest;
    } else {
      assert (x + rest)[1..] == x[1..] + rest;
      SkipInLibraries(x[1..], rest);
    }
  }

  lemma {:induction false} LibrariesRowsNamed(m: Module, ls: seq<Library>)
    ensures forall i :: 0 <= i < |LibrariesRows(m, ls)| ==> LibrariesRows(m, ls)[i].libraryName.Some?
  {
    if ls != [] {
      FunctionsRowsKind(ScopeOf(m, ls[0]), ls[0].functions);
      LibrariesRowsNamed(m, ls[1..]);
    }
  }

  lemma {:induction false} SkipRest(m: Module, ls: seq<Library>, ms: seq<Module>)
    ensures SkipLibraryRows(Rest(m, ls, ms)) == TableEnd(ms)
    ensures ls != [] ==> SkipLibraryRows(Rest(m, ls, ms)[1..]) == TableEnd(ms)
  {
    hide TableEnd;
    LibrariesRowsNamed(m, ls);
    LibrariesRowsGood(m, ls);
    SkipInLibraries(LibrariesRows(m, ls), TableEnd(ms));
    if ls != [] {
      SkipInLibraries(LibrariesRows(m, ls)[1..], TableEnd(ms));
      assert Rest(m, ls, ms)[1..] == LibrariesRows(m, ls)[1..] + TableEnd(ms);
    }
  }

  lemma {:induction false} ModulesByHeader(ms: seq<Module>)
    ensures Shows(Modules(TableEnd(ms)), ByHeader(ms))
    decreases |ms|, 1
  {
    hide Rest, TableEnd;
    TableEndEmpty();
    if ms != [] {
      TableEndStep(ms);
      var u := TableEnd(ms);
      assert u[1..] == Rest(ms[0], ms[0].libraries, ms[1..]);
      SkipRest(ms[0], ms[0].libraries, ms[1..]);
      ModulesBehindHeader(ms[1..]);
      ShowsStep(u[0], Modules(NextModule(u)), ms[0], BehindHeader(ms[1..]));
    }
  }

  lemma {:induction false} ModulesBehindHeader(ms: seq<Module>)
    ensures Shows(Modules(NextSymbol(TableEnd(ms))), BehindHeader(ms))
    decreases |ms|, 0
  {
    hide Rest, TableEnd;
    TableEndEmpty();
    if ms != [] {
      var m := ms[0];
      TableEndStep(ms);
      var u := Rest(m, m.libraries, ms[1..]);
      assert NextSymbol(TableEnd(ms)) == u;
      if m.libraries == [] {
        RestEnd(m, ms[1..]);
        ModulesByHeader(ms[1..]);
      } else {
        RestStep(m, m.libraries, ms[1..]);
        SkipRest(m, m.libraries, ms[1..]);
        ModulesBehindHeader(ms[1..]);
        ShowsStep(u[0], Modules(NextModule(u)), m, BehindHeader(ms[1..]));
      }
    }
  }

  lemma {:induction false} BehindHeaderLength(ms: seq<Module>)
    ensures |BehindHeader(ms)| <= |ms| && |ByHeader(ms)| <= |ms|
    ensures |BehindHeader(ms)| == |ms| <==> forall i :: 0 <= i < |ms| ==> ms[i].libraries != []
    ensures |BehindHeader(ms)| == |ms| ==> BehindHeader(ms) == ms
    decreases |ms|
  {
    if ms != [] {
      BehindHeaderLength(ms[1..]);
      if |ms| > 1 {
        BehindHeaderLength(ms[1..][1..]);
      }
      assert ms == [ms[0]] + ms[1..];
    }
  }

  /**
   The module iterator shows what `ByHeader` says: it visits each module once, in
   order, if and only if every module after the first has a library.
   */
  lemma {:induction false} ModulesVisited(ms: seq<Module>)
    ensures Shows(Modules(TableEnd(ms)), ByHeader(ms))
    ensures ByHeader(ms) == ms <==> forall i :: 1 <= i < |ms| ==> ms[i].libraries != []
  {
    ModulesByHeader(ms);
    if ms != [] {
      BehindHeaderLength(ms[1..]);
      assert ms == [ms[0]] + ms[1..];
      assert forall i :: 1 <= i < |ms| ==> ms[i] == ms[1..][i - 1];
      assert forall i :: 0 <= i < |ms[1..]| ==> ms[1..][i] == ms[i + 1];
    }
  }

  // ----- Lookups on the nested table -----

  function LibraryIn(ls: seq<Library>, name: string): Option<Library> {
    if ls == [] then None else if ls[0].name == name then Some(ls[0]) else LibraryIn(ls[1..], name)
  }

  /** The first library of a name, with its module. */
  function FirstLibrary(ms: seq<Module>, name: string): Option<(Module, Library)>
    decreases |ms|
  {
    if ms == [] then None
    else
      var l := LibraryIn(ms[0].libraries, name);
      if l.Some? then Some((ms[0], l.value)) else FirstLibrary(ms[1..], name)
  }

  function FunctionWith(fs: seq<Function>, index: nat): Option<Function> {
    if fs == [] then None
    else if fs[0].name != "" && fs[0].index == index then Some(fs[0])
    else FunctionWith(fs[1..], index)
  }

  function AliasWith(fs: seq<Function>, index: nat): Option<string> {
    if fs == [] then None
    else if fs[0].name != "" && fs[0].index == index && fs[0].aliases != [] then Some(fs[0].aliases[0])
    else AliasWith(fs[1..], index)
  }

  ghost predicate LibraryAt(u: seq<Row>, m: Module, l: Library, rest: seq<Row>) {
    && Closed(rest) && rest[0].functionName.None? && Closed(u)
    && u == [LibraryRow(ScopeOf(m, l))] + (FunctionsRows(ScopeOf(m, l), l.functions) + rest)
  }

  lemma {:induction false} FindInRest(m: Module, ls: seq<Library>, ms: seq<Module>, name: string)
    returns (rest: seq<Row>)
    ensures var r := FindLibrary(SkipToHeader(Rest(m, ls, ms)), name);
            var found := if LibraryIn(ls, name).Some? then Some((m, LibraryIn(ls, name).value))
                         else FirstLibrary(ms, name);
            if found == None then r == None
            else r.Some? && LibraryAt(r.value, found.value.0, found.value.1, rest)
    decreases |ms|, |ls|
  {
    hide Closed, Rest, TableEnd, FunctionsRows;
    if ls != [] {
      var s := ScopeOf(m, ls[0]);
      var more := Rest(m, ls[1..], ms);
      RestStep(m, ls, ms);
      FunctionsRowsKind(s, ls[0].functions);
      SkipFunctionRows(FunctionsRows(s, ls[0].functions), more);
      var u := Rest(m, ls, ms);
      assert u[1..] == FunctionsRows(s, ls[0].functions) + more;
      assert SkipToHeader(u) == u;
      assert NextLibrary(u) == SkipToHeader(more);
      if ls[0].name == name {
        rest := more;
      } else {
        rest := FindInRest(m, ls[1..], ms, name);
      }
    } else {
      RestEnd(m, ms);
      TableEndEmpty();
      if ms != [] {
        TableEndStep(ms);
        assert TableEnd(ms)[1..] == Rest(ms[0], ms[0].libraries, ms[1..]);
        rest := FindInRest(ms[0], ms[0].libraries, ms[1..], name);
      } else {
        rest := [];
      }
    }
  }

  lemma {:induction false} FindInFunctions(s: Scope, fs: seq<Function>, rest: seq<Row>, index: nat)
    requires Closed(rest) && rest[0].functionName.None?
    ensures var u := FunctionsRows(s, fs) + rest;
            && Closed(u)
            && var r := FindFunction(u, index);
               var f := FunctionWith(fs, index);
               if f == None then r == None
               else r.Some? && r.value[0] == FunctionRow(s, f.value.index, f.value.name, false)
    decreases |fs|
  {
    hide Closed, FunctionsRows, NextFunction;
    FunctionsClosed(s, fs, rest);
    if fs == [] {
      NoFunctionsRows(s, rest);
    } else {
      FindInFunctions(s, fs[1..], rest, index);
      if fs[0].name == "" {
        UnnamedFunction(s, fs, rest);
      } else {
        NamedFunction(s, fs, rest);
      }
    }
  }

  lemma {:induction false} NoFunctionsRows(s: Scope, rest: seq<Row>)
    ensures FunctionsRows(s, []) + rest == rest
  {
  }

  lemma {:induction false} FindAliasInFunctions(s: Scope, fs: seq<Function>, rest: seq<Row>, index: nat)
    requires Closed(rest) && rest[0].functionName.None?
    ensures var u := FunctionsRows(s, fs) + rest;
            && Closed(u)
            && var r := FindAlias(u, index);
               var a := AliasWith(fs, index);
               if a == None then r == None
               else r.Some? && r.value[0] == FunctionRow(s, index, a.value, true)
    decreases |fs|
  {
    hide Closed, FunctionsRows, NextFunction;
    FunctionsClosed(s, fs, rest);
    if fs == [] {
      NoFunctionsRows(s, rest);
    } else {
      FindAliasInFunctions(s, fs[1..], rest, index);
      if fs[0].name == "" {
        UnnamedFunction(s, fs, rest);
      } else {
        NamedFunction(s, fs, rest);
        var v := FunctionsRows(s, fs[1..]) + rest;
        FunctionsClosed(s, fs[1..], rest);
        FirstAliasRow(s, fs[0], v, FunctionsRows(s, fs) + rest);
      }
    }
  }

  /** The first alias is the row behind the function's, if that is an alias. */
  lemma {:induction false} FirstAliasRow(s: Scope, f: Function, v: seq<Row>, u: seq<Row>)
    requires Closed(u) && Closed(v) && !v[0].alias
    requires u[0] == FunctionRow(s, f.index, f.name, false)
    requires u[1..] == AliasRows(s, f.index, f.aliases) + v
    ensures FirstAlias(u)[0].alias <==> f.aliases != []
    ensures f.aliases != [] ==> FirstAlias(u)[0] == FunctionRow(s, f.index, f.aliases[0], true)
  {
    assert u[1] == u[1..][0];
  }

  /** Looking up in the array is looking up in the table it was made from. */
  lemma {:induction false} LookupMeaning(ms: seq<Module>, library: string, index: nat)
    ensures Lookup(TableEnd(ms), library, index) ==
            var l := FirstLibrary(ms, library);
            if l == None then None
            else
              var f := FunctionWith(l.value.1.functions, index);
              if f == None then None
              else Some(FunctionRow(ScopeOf(l.value.0, l.value.1), index, f.value.name, false))
    ensures LookupAlias(TableEnd(ms), library, index) ==
            var l := FirstLibrary(ms, library);
            if l == None then None
            else
              var a := AliasWith(l.value.1.functions, index);
              if a == None then None
              else Some(FunctionRow(ScopeOf(l.value.0, l.value.1), index, a.value, true))
  {
    hide Closed, Rest, TableEnd, FunctionsRows;
    var none := Module("", "", []);
    TableSkip(ms);
    RestEnd(none, ms);
    var rest := FindInRest(none, [], ms, library);
    var found := FirstLibrary(ms, library);
    if found.Some? {
      var (m, l) := found.value;
      FunctionWithIndex(l.functions, index);
      FindInFunctions(ScopeOf(m, l), l.functions, rest, index);
      FindAliasInFunctions(ScopeOf(m, l), l.functions, rest, index);
      var u := FindLibrary(SkipToLibrary(TableEnd(ms)), library).value;
      assert u[1..] == FunctionsRows(ScopeOf(m, l), l.functions) + rest;
    }
  }

  lemma {:induction false} FunctionWithIndex(fs: seq<Function>, index: nat)
    ensures FunctionWith(fs, index).Some? ==> FunctionWith(fs, index).value.index == index
  {
    if fs != [] {
      FunctionWithIndex(fs[1..], index);
    }
  }
}
