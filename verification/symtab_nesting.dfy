/**
 The iterators of tool/symtab.c over a generated array recover the nesting of the
 table it was made from: libraries, functions, aliases.
 */
module SymtabNesting {
  import opened Common
  import opened SymcRead
  import opened SymtabIndex
  import opened SymcPrint

  // ----- Rows of the nested table -----

  predicate IsFunctionRow(r: Row) {
    r.moduleName.Some? && r.libraryName.Some? && r.functionName.Some?
  }

  ghost predicate AllFunctionRows(x: seq<Row>) {
    forall i :: 0 <= i < |x| ==> IsFunctionRow(x[i])
  }

  ghost predicate AllGood(x: seq<Row>) {
    forall i :: 0 <= i < |x| ==> GoodRow(x[i])
  }

  lemma {:induction false} AliasRowsKind(s: Scope, index: nat, aliases: seq<string>)
    ensures var x := AliasRows(s, index, aliases);
            AllFunctionRows(x) && forall i :: 0 <= i < |x| ==> x[i].alias
  {
    if aliases != [] {
      AliasRowsKind(s, index, aliases[1..]);
    }
  }

  lemma {:induction false} FunctionsRowsKind(s: Scope, fs: seq<Function>)
    ensures AllFunctionRows(FunctionsRows(s, fs))
  {
    if fs != [] {
      AliasRowsKind(s, fs[0].index, fs[0].aliases);
      FunctionsRowsKind(s, fs[1..]);
    }
  }

  lemma {:induction false} LibrariesRowsGood(m: Module, ls: seq<Library>)
    ensures AllGood(LibrariesRows(m, ls))
  {
    if ls != [] {
      FunctionsRowsKind(ScopeOf(m, ls[0]), ls[0].functions);
      LibrariesRowsGood(m, ls[1..]);
    }
  }

  lemma {:induction false} TableRowsGood(ms: seq<Module>)
    ensures AllGood(TableRows(ms))
  {
    if ms != [] {
      LibrariesRowsGood(ms[0], ms[0].libraries);
      TableRowsGood(ms[1..]);
    }
  }

  lemma {:induction false} JoinClosed(x: seq<Row>, rest: seq<Row>)
    requires AllGood(x) && Closed(rest)
    ensures Closed(x + rest)
  {
  }

  /** The rows of the libraries `ls` of `m`, of the modules `ms`, and the sentinel. */
  ghost function Rest(m: Module, ls: seq<Library>, ms: seq<Module>): (u: seq<Row>)
    ensures Closed(u) && u[0].functionName.None?
  {
    LibrariesRowsGood(m, ls);
    var more := TableEnd(ms);
    JoinClosed(LibrariesRows(m, ls), more);
    LibrariesRows(m, ls) + more
  }

  /** The rows of the modules `ms`, and the sentinel. */
  ghost function TableEnd(ms: seq<Module>): (u: seq<Row>)
    ensures Closed(u) && u[0].libraryName.None? && u[0].functionName.None?
  {
    TableRowsGood(ms);
    assert Closed([SENTINEL]);
    JoinClosed(TableRows(ms), [SENTINEL]);
    TableRows(ms) + [SENTINEL]
  }

  lemma {:induction false} TableEndStep(ms: seq<Module>)
    requires ms != []
    ensures TableEnd(ms) == [ModuleRow(ms[0].name, ms[0].version)] + Rest(ms[0], ms[0].libraries, ms[1..])
  {
  }

  lemma {:induction false} TableEndEmpty()
    ensures TableEnd([]) == [SENTINEL]
  {
  }

  lemma {:induction false} RestStep(m: Module, ls: seq<Library>, ms: seq<Module>)
    requires ls != []
    ensures var s := ScopeOf(m, ls[0]);
            Rest(m, ls, ms) == [LibraryRow(s)] + (FunctionsRows(s, ls[0].functions) + Rest(m, ls[1..], ms))
  {
  }

  lemma {:induction false} RestEnd(m: Module, ms: seq<Module>)
    ensures Rest(m, [], ms) == TableEnd(ms)
  {
    assert [] + TableEnd(ms) == TableEnd(ms);
  }

  // ----- Skipping -----

  lemma {:induction false} SkipFunctionRows(x: seq<Row>, rest: seq<Row>)
    requires AllFunctionRows(x) && Closed(rest)
    ensures Closed(x + rest) && SkipToHeader(x + rest) == SkipToHeader(rest)
    decreases |x|
  {
    JoinClosed(x, rest);
    if x == [] {
      assert x + rest == rest;
    } else {
      assert (x + rest)[1..] == x[1..] + rest;
      SkipFunctionRows(x[1..], rest);
    }
  }

  lemma {:induction false} SkipAliasRows(x: seq<Row>, rest: seq<Row>)
    requires AllFunctionRows(x) && (forall i :: 0 <= i < |x| ==> x[i].alias) && Closed(rest)
    ensures Closed(x + rest) && SkipAliases(x + rest) == SkipAliases(rest)
    decreases |x|
  {
    JoinClosed(x, rest);
    if x == [] {
      assert x + rest == rest;
    } else {
      assert (x + rest)[1..] == x[1..] + rest;
      SkipAliasRows(x[1..], rest);
    }
  }

  // ----- The iterators recover the nesting -----

  /** A row for each library, with the names and versions of library and module. */
  function LibraryHeaders(m: Module, ls: seq<Library>): seq<Row> {
    if ls == [] then []
    else [Row(moduleName := Some(m.name), moduleVersion := m.version,
              libraryName := Some(ls[0].name), libraryVersion := ls[0].version,
              functionName := None, index := 0, alias := false)] + LibraryHeaders(m, ls[1..])
  }

  function AllLibraryHeaders(ms: seq<Module>): seq<Row> {
    if ms == [] then [] else LibraryHeaders(ms[0], ms[0].libraries) + AllLibraryHeaders(ms[1..])
  }

  /** A library's header, with rows behind it that the iterator skips up to `more`. */
  lemma {:induction false} LibrariesFromHeader(u: seq<Row>, more: seq<Row>, headers: seq<Row>)
    requires Closed(u) && Closed(more) && !LibraryEnd(u[0]) && u[0].functionName.None?
    requires Closed(u[1..]) && SkipToHeader(u[1..]) == SkipToHeader(more)
    requires Libraries(SkipToHeader(more)) == headers
    ensures Libraries(SkipToHeader(u)) == [u[0]] + headers
  {
    hide Closed;
    assert NextLibrary(u) == SkipToHeader(more);
  }

  lemma {:induction false} LibrariesOfRest(m: Module, ls: seq<Library>, ms: seq<Module>)
    ensures Libraries(SkipToHeader(Rest(m, ls, ms))) == LibraryHeaders(m, ls) + AllLibraryHeaders(ms)
    decreases |ms|, |ls|
  {
    hide Closed, Rest, TableEnd, FunctionsRows, SkipAliases;
    if ls != [] {
      var s := ScopeOf(m, ls[0]);
      var more := Rest(m, ls[1..], ms);
      RestStep(m, ls, ms);
      FunctionsRowsKind(s, ls[0].functions);
      SkipFunctionRows(FunctionsRows(s, ls[0].functions), more);
      LibrariesOfRest(m, ls[1..], ms);
      var u := Rest(m, ls, ms);
      assert u[1..] == FunctionsRows(s, ls[0].functions) + more;
      LibrariesFromHeader(u, more, LibraryHeaders(m, ls[1..]) + AllLibraryHeaders(ms));
      assert [u[0]] + (LibraryHeaders(m, ls[1..]) + AllLibraryHeaders(ms))
          == LibraryHeaders(m, ls) + AllLibraryHeaders(ms);
    } else {
      RestEnd(m, ms);
      TableEndEmpty();
      if ms != [] {
        TableEndStep(ms);
        LibrariesOfRest(ms[0], ms[0].libraries, ms[1..]);
        var u := TableEnd(ms);
        assert u[1..] == Rest(ms[0], ms[0].libraries, ms[1..]);
      }
    }
  }

  /** The first library with a name is found the same way from the first module on. */
  lemma {:induction false} FirstLibrarySkip(m: Module, ls: seq<Library>, ms: seq<Module>)
    ensures SkipToLibrary(Rest(m, ls, ms)) == SkipToHeader(Rest(m, ls, ms))
    decreases |ms|, |ls|
  {
    hide Closed, Rest, TableEnd, FunctionsRows;
    if ls != [] {
      RestStep(m, ls, ms);
    } else {
      RestEnd(m, ms);
      TableEndEmpty();
      if ms != [] {
        TableEndStep(ms);
        FirstLibrarySkip(ms[0], ms[0].libraries, ms[1..]);
        assert TableEnd(ms)[1..] == Rest(ms[0], ms[0].libraries, ms[1..]);
      }
    }
  }

  lemma {:induction false} TableSkip(ms: seq<Module>)
    ensures SkipToLibrary(TableEnd(ms)) == SkipToHeader(TableEnd(ms))
  {
    var none := Module("", "", []);
    RestEnd(none, ms);
    FirstLibrarySkip(none, [], ms);
  }

  /** The library iterator visits each library once, in order, with its own module. */
  lemma {:induction false} LibrariesVisited(ms: seq<Module>)
    ensures Libraries(SkipToLibrary(TableEnd(ms))) == AllLibraryHeaders(ms)
  {
    var none := Module("", "", []);
    TableSkip(ms);
    RestEnd(none, ms);
    LibrariesOfRest(none, [], ms);
    assert [] + AllLibraryHeaders(ms) == AllLibraryHeaders(ms);
  }

  /** A row for each named function, with what the statements repeat. */
  function NamedFunctionRows(s: Scope, fs: seq<Function>): seq<Row> {
    if fs == [] then []
    else (if fs[0].name == "" then []
          else [Row(moduleName := Some(s.m), moduleVersion := s.mv,
                    libraryName := Some(s.l), libraryVersion := s.lv,
                    functionName := Some(fs[0].name), index := fs[0].index, alias := false)])
         + NamedFunctionRows(s, fs[1..])
  }

  /** Functions, then a header or the sentinel: no row an alias iteration would skip. */
  lemma {:induction false} FunctionsClosed(s: Scope, fs: seq<Function>, rest: seq<Row>)
    requires Closed(rest) && rest[0].functionName.None?
    ensures var u := FunctionsRows(s, fs) + rest;
            Closed(u) && SkipAliases(u) == u && !u[0].alias
  {
    FunctionsRowsKind(s, fs);
    JoinClosed(FunctionsRows(s, fs), rest);
    FirstRowIsFunction(s, fs);
  }

  lemma {:induction false} FirstRowIsFunction(s: Scope, fs: seq<Function>)
    ensures FunctionsRows(s, fs) != [] ==> !FunctionsRows(s, fs)[0].alias
  {
    if fs != [] && fs[0].name == "" {
      FirstRowIsFunction(s, fs[1..]);
    }
  }

  lemma {:induction false} NamedRows(s: Scope, fs: seq<Function>, rest: seq<Row>)
    requires fs != [] && fs[0].name != ""
    ensures var u := FunctionsRows(s, fs) + rest;
            && u == [FunctionRow(s, fs[0].index, fs[0].name, false)] + u[1..]
            && u[1..] == AliasRows(s, fs[0].index, fs[0].aliases) + (FunctionsRows(s, fs[1..]) + rest)
  {
    hide FunctionRow, AliasRows;
    var a, b := AliasRows(s, fs[0].index, fs[0].aliases), FunctionsRows(s, fs[1..]);
    var first := [FunctionRow(s, fs[0].index, fs[0].name, false)];
    assert FunctionsRows(s, fs) == first + a + b;
    assert first + a + b + rest == first + (a + (b + rest));
  }

  /** A named function's rows, and how the iterators leave them. */
  lemma {:induction false} NamedFunction(s: Scope, fs: seq<Function>, rest: seq<Row>)
    requires fs != [] && fs[0].name != "" && Closed(rest) && rest[0].functionName.None?
    ensures var u := FunctionsRows(s, fs) + rest;
            var v := FunctionsRows(s, fs[1..]) + rest;
            && Closed(u) && Closed(v) && u[0] == FunctionRow(s, fs[0].index, fs[0].name, false)
            && u[1..] == AliasRows(s, fs[0].index, fs[0].aliases) + v
            && NextFunction(u) == v
  {
    hide Closed, SkipAliases, AliasRows, AllFunctionRows, FunctionsRows;
    NamedRows(s, fs, rest);
    FunctionsClosed(s, fs, rest);
    FunctionsClosed(s, fs[1..], rest);
    AliasRowsKind(s, fs[0].index, fs[0].aliases);
    SkipAliasRows(AliasRows(s, fs[0].index, fs[0].aliases), FunctionsRows(s, fs[1..]) + rest);
  }

  lemma {:induction false} UnnamedFunction(s: Scope, fs: seq<Function>, rest: seq<Row>)
    requires fs != [] && fs[0].name == ""
    ensures FunctionsRows(s, fs) + rest == FunctionsRows(s, fs[1..]) + rest
  {
    assert [] + FunctionsRows(s, fs[1..]) == FunctionsRows(s, fs[1..]);
  }

  /** The function iterator visits exactly the library's named functions, in order. */
  lemma {:induction false} FunctionsVisited(s: Scope, fs: seq<Function>, rest: seq<Row>)
    requires Closed(rest) && rest[0].functionName.None?
    ensures Closed(FunctionsRows(s, fs) + rest)
    ensures Functions(FunctionsRows(s, fs) + rest) == NamedFunctionRows(s, fs)
    decreases |fs|
  {
    FunctionsClosed(s, fs, rest);
    if fs == [] {
      assert FunctionsRows(s, fs) + rest == rest;
    } else {
      FunctionsVisited(s, fs[1..], rest);
      if fs[0].name == "" {
        UnnamedFunction(s, fs, rest);
        assert [] + NamedFunctionRows(s, fs[1..]) == NamedFunctionRows(s, fs[1..]);
      } else {
        NamedFunction(s, fs, rest);
      }
    }
  }

  lemma {:induction false} AliasesOf(x: seq<Row>, rest: seq<Row>)
    requires AllFunctionRows(x) && (forall i :: 0 <= i < |x| ==> x[i].alias)
    requires Closed(rest) && !rest[0].alias
    ensures Closed(x + rest) && Aliases(x + rest) == x
    decreases |x|
  {
    JoinClosed(x, rest);
    if x == [] {
      assert x + rest == rest;
    } else {
      assert (x + rest)[1..] == x[1..] + rest;
      AliasesOf(x[1..], rest);
    }
  }

  ghost predicate AreAliases(rows: seq<Row>, s: Scope, index: nat, aliases: seq<string>) {
    && |rows| == |aliases|
    && forall n :: 0 <= n < |rows| ==>
         rows[n] == Row(moduleName := Some(s.m), moduleVersion := s.mv,
                        libraryName := Some(s.l), libraryVersion := s.lv,
                        functionName := Some(aliases[n]), index := index, alias := true)
  }

  lemma {:induction false} AliasRowsNamed(s: Scope, index: nat, aliases: seq<string>)
    ensures AreAliases(AliasRows(s, index, aliases), s, index, aliases)
  {
    if aliases != [] {
      AliasRowsNamed(s, index, aliases[1..]);
    }
  }

  /** The alias iterator visits exactly the function's aliases, in order. */
  lemma {:induction false} AliasesVisited(s: Scope, fs: seq<Function>, rest: seq<Row>)
    requires fs != [] && fs[0].name != "" && Closed(rest) && rest[0].functionName.None?
    ensures var u := FunctionsRows(s, fs) + rest;
            Closed(u) && AreAliases(Aliases(FirstAlias(u)), s, fs[0].index, fs[0].aliases)
  {
    AliasRowsNamed(s, fs[0].index, fs[0].aliases);
    var x := AliasRows(s, fs[0].index, fs[0].aliases);
    var v := FunctionsRows(s, fs[1..]) + rest;
    NamedFunction(s, fs, rest);
    FunctionsClosed(s, fs[1..], rest);
    AliasRowsKind(s, fs[0].index, fs[0].aliases);
    AliasesOf(x, v);
    var u := FunctionsRows(s, fs) + rest;
    assert u[1] == (x + v)[0];
  }
}
