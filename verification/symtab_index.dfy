/**
 The flat symbol table and its iterators and lookups (tool/symtab.c). A pointer
 into the array is the rest of the array from there on; the methods move an index.
 */
module SymtabIndex {
  import opened Common

  /** One row: a module header, a library header, a function or an alias. */
  datatype Row = Row(
    moduleName: Option<string>, moduleVersion: string,
    libraryName: Option<string>, libraryVersion: string,
    functionName: Option<string>, index: nat, alias: bool)

  const SENTINEL := Row(None, "", None, "", None, 0, false)

  predicate SymbolEnd(r: Row) {
    r.moduleName.None?
  }

  predicate LibraryEnd(r: Row) {
    SymbolEnd(r) || r.libraryName.None?
  }

  predicate FunctionEnd(r: Row) {
    SymbolEnd(r) || r.functionName.None?
  }

  predicate GoodRow(r: Row) {
    && (r.alias ==> r.functionName.Some?)
    && (r.functionName.Some? ==> r.libraryName.Some?)
    && (r.libraryName.Some? ==> r.moduleName.Some?)
  }

  /** A pointer into a table that a sentinel terminates. */
  ghost predicate Closed(u: seq<Row>) {
    u != [] && SymbolEnd(u[|u| - 1]) && forall i :: 0 <= i < |u| ==> GoodRow(u[i])
  }

  // ----- Iterators -----

  ghost function SkipToLibrary(u: seq<Row>): (v: seq<Row>)
    requires Closed(u)
    ensures Closed(v) && |v| <= |u| && (SymbolEnd(v[0]) || v[0].libraryName.Some?)
  {
    if !SymbolEnd(u[0]) && u[0].libraryName.None? then SkipToLibrary(u[1..]) else u
  }

  ghost function SkipToHeader(u: seq<Row>): (v: seq<Row>)
    requires Closed(u)
    ensures Closed(v) && |v| <= |u|
  {
    if !SymbolEnd(u[0]) && (u[0].libraryName.None? || u[0].functionName.Some?) then SkipToHeader(u[1..]) else u
  }

  ghost function SkipAliases(u: seq<Row>): (v: seq<Row>)
    requires Closed(u)
    ensures Closed(v) && |v| <= |u|
  {
    if !FunctionEnd(u[0]) && u[0].alias then SkipAliases(u[1..]) else u
  }

  ghost function SkipLibraryRows(u: seq<Row>): (v: seq<Row>)
    requires Closed(u)
    ensures Closed(v) && |v| <= |u|
  {
    if !SymbolEnd(u[0]) && u[0].libraryName.Some? then SkipLibraryRows(u[1..]) else u
  }

  /** symtab_next_symbol. */
  ghost function NextSymbol(u: seq<Row>): (v: seq<Row>)
    requires Closed(u)
    ensures Closed(v) && |v| <= |u|
  {
    if SymbolEnd(u[0]) then u else u[1..]
  }

  ghost function NextModule(u: seq<Row>): (v: seq<Row>)
    requires Closed(u) && !SymbolEnd(u[0])
    ensures Closed(v) && |v| < |u|
  {
    NextSymbol(SkipLibraryRows(u[1..]))
  }

  ghost function NextLibrary(u: seq<Row>): (v: seq<Row>)
    requires Closed(u)
    ensures Closed(v) && |v| <= |u| && (!LibraryEnd(u[0]) ==> |v| < |u|)
  {
    SkipToHeader(if LibraryEnd(u[0]) then u else u[1..])
  }

  ghost function NextFunction(u: seq<Row>): (v: seq<Row>)
    requires Closed(u)
    ensures Closed(v) && |v| <= |u| && (!FunctionEnd(u[0]) ==> |v| < |u|)
  {
    SkipAliases(if FunctionEnd(u[0]) then u else u[1..])
  }

  ghost function FirstAlias(u: seq<Row>): (v: seq<Row>)
    requires Closed(u)
    ensures Closed(v) && |v| <= |u|
  {
    if FunctionEnd(u[0]) then u else if u[1].alias then u[1..] else u
  }

  ghost function NextAlias(u: seq<Row>): (v: seq<Row>)
    requires Closed(u)
    ensures Closed(v) && |v| <= |u| && (!FunctionEnd(u[0]) ==> |v| < |u|)
  {
    if FunctionEnd(u[0]) then u else u[1..]
  }

  // ----- What the loops over the iterators visit -----

  ghost function Modules(u: seq<Row>): seq<Row>
    requires Closed(u)
    decreases |u|
  {
    if SymbolEnd(u[0]) then [] else [u[0]] + Modules(NextModule(u))
  }

  ghost function Libraries(u: seq<Row>): seq<Row>
    requires Closed(u)
    decreases |u|
  {
    if u[0].libraryName.None? then [] else [u[0]] + Libraries(NextLibrary(u))
  }

  ghost function Functions(u: seq<Row>): seq<Row>
    requires Closed(u)
    decreases |u|
  {
    if u[0].functionName.None? then [] else [u[0]] + Functions(NextFunction(u))
  }

  /** Rows of aliases are rows of functions. */
  ghost function Aliases(u: seq<Row>): seq<Row>
    requires Closed(u)
    decreases |u|
  {
    if !u[0].alias then [] else [u[0]] + Aliases(NextAlias(u))
  }

  // ----- Lookups -----

  ghost function FindLibrary(u: seq<Row>, name: string): (r: Option<seq<Row>>)
    requires Closed(u)
    ensures r.Some? ==> Closed(r.value) && r.value[0].libraryName == Some(name)
    decreases |u|
  {
    if u[0].libraryName.None? then None
    else if u[0].libraryName == Some(name) then Some(u)
    else FindLibrary(NextLibrary(u), name)
  }

  ghost function FindFunction(u: seq<Row>, index: nat): (r: Option<seq<Row>>)
    requires Closed(u)
    ensures r.Some? ==> Closed(r.value)
    decreases |u|
  {
    if u[0].functionName.None? then None
    else if u[0].index == index then Some(u)
    else FindFunction(NextFunction(u), index)
  }

  ghost function FindAlias(u: seq<Row>, index: nat): (r: Option<seq<Row>>)
    requires Closed(u)
    ensures r.Some? ==> Closed(r.value)
    decreases |u|
  {
    if u[0].functionName.None? then None
    else if u[0].index == index && FirstAlias(u)[0].alias then Some(FirstAlias(u))
    else FindAlias(NextFunction(u), index)
  }

  /** func_symbol_from_index. */
  ghost function Lookup(rows: seq<Row>, library: string, index: nat): Option<Row>
    requires Closed(rows)
  {
    var l := FindLibrary(SkipToLibrary(rows), library);
    if l == None then None
    else
      var f := FindFunction(l.value[1..], index);
      if f == None then None else Some(f.value[0])
  }

  /** func_first_alias_from_index. */
  ghost function LookupAlias(rows: seq<Row>, library: string, index: nat): Option<Row>
    requires Closed(rows)
  {
    var l := FindLibrary(SkipToLibrary(rows), library);
    if l == None then None
    else
      var f := FindAlias(l.value[1..], index);
      if f == None then None else Some(f.value[0])
  }

  // ----- The loops that move a row pointer -----

  lemma {:induction false} Pointer(rows: seq<Row>, p: nat)
    requires Closed(rows) && p < |rows|
    ensures Closed(rows[p..]) && rows[p..][0] == rows[p]
    ensures !SymbolEnd(rows[p]) ==> p + 1 < |rows| && rows[p..][1..] == rows[p + 1..]
  {
    var u := rows[p..];
    assert u[|u| - 1] == rows[|rows| - 1];
    assert forall i :: 0 <= i < |u| ==> u[i] == rows[p + i];
  }

  method NextModuleAt(rows: seq<Row>, p: nat) returns (q: nat)
    requires Closed(rows) && p < |rows| && !SymbolEnd(rows[p])
    ensures p < q < |rows| && Closed(rows[p..]) && rows[q..] == NextModule(rows[p..])
  {
    hide Closed;
    Pointer(rows, p);
    q := p + 1;
    Pointer(rows, q);
    while !SymbolEnd(rows[q]) && rows[q].libraryName.Some?
      invariant p < q < |rows| && Closed(rows[q..])
      invariant SkipLibraryRows(rows[q..]) == SkipLibraryRows(rows[p + 1..])
      decreases |rows| - q
    {
      Pointer(rows, q);
      q := q + 1;
      Pointer(rows, q);
    }
    Pointer(rows, q);
    if !SymbolEnd(rows[q]) {
      q := q + 1;
    }
  }

  method FirstLibraryAt(rows: seq<Row>) returns (q: nat)
    requires Closed(rows)
    ensures q < |rows| && rows[q..] == SkipToLibrary(rows)
  {
    q := 0;
    assert rows[0..] == rows;
    while !SymbolEnd(rows[q]) && rows[q].libraryName.None?
      invariant q < |rows| && Closed(rows[q..]) && SkipToLibrary(rows[q..]) == SkipToLibrary(rows)
      decreases |rows| - q
    {
      Pointer(rows, q);
      q := q + 1;
      Pointer(rows, q);
    }
    Pointer(rows, q);
  }

  method NextLibraryAt(rows: seq<Row>, p: nat) returns (q: nat)
    requires Closed(rows) && p < |rows|
    ensures p <= q < |rows| && Closed(rows[p..]) && rows[q..] == NextLibrary(rows[p..])
    ensures !LibraryEnd(rows[p]) ==> p < q
  {
    hide Closed;
    Pointer(rows, p);
    q := p;
    if !LibraryEnd(rows[q]) {
      q := q + 1;
    }
    Pointer(rows, q);
    ghost var first := q;
    while !SymbolEnd(rows[q]) && (rows[q].libraryName.None? || rows[q].functionName.Some?)
      invariant first <= q < |rows| && Closed(rows[q..])
      invariant SkipToHeader(rows[q..]) == SkipToHeader(rows[first..])
      decreases |rows| - q
    {
      Pointer(rows, q);
      q := q + 1;
      Pointer(rows, q);
    }
    Pointer(rows, q);
  }

  method NextFunctionAt(rows: seq<Row>, p: nat) returns (q: nat)
    requires Closed(rows) && p < |rows|
    ensures p <= q < |rows| && Closed(rows[p..]) && rows[q..] == NextFunction(rows[p..])
    ensures !FunctionEnd(rows[p]) ==> p < q
  {
    hide Closed;
    Pointer(rows, p);
    q := p;
    if !FunctionEnd(rows[q]) {
      q := q + 1;
    }
    Pointer(rows, q);
    ghost var first := q;
    while !FunctionEnd(rows[q]) && rows[q].alias
      invariant first <= q < |rows| && Closed(rows[q..])
      invariant SkipAliases(rows[q..]) == SkipAliases(rows[first..])
      decreases |rows| - q
    {
      Pointer(rows, q);
      q := q + 1;
      Pointer(rows, q);
    }
    Pointer(rows, q);
  }

  method ModuleCount(rows: seq<Row>) returns (n: nat)
    requires Closed(rows)
    ensures n == |Modules(rows)|
  {
    n := 0;
    var p := 0;
    assert rows[0..] == rows;
    while rows[p].moduleName.Some?
      invariant p < |rows| && Closed(rows[p..])
      invariant n + |Modules(rows[p..])| == |Modules(rows)|
      decreases |rows| - p
    {
      Pointer(rows, p);
      p := NextModuleAt(rows, p);
      n := n + 1;
      Pointer(rows, p);
    }
    Pointer(rows, p);
  }

  method LibraryCount(rows: seq<Row>) returns (n: nat)
    requires Closed(rows)
    ensures n == |Libraries(SkipToLibrary(rows))|
  {
    n := 0;
    var p := FirstLibraryAt(rows);
    Pointer(rows, p);
    while rows[p].libraryName.Some?
      invariant p < |rows| && Closed(rows[p..])
      invariant n + |Libraries(rows[p..])| == |Libraries(SkipToLibrary(rows))|
      decreases |rows| - p
    {
      Pointer(rows, p);
      p := NextLibraryAt(rows, p);
      n := n + 1;
      Pointer(rows, p);
    }
    Pointer(rows, p);
  }

  method LibraryForName(rows: seq<Row>, name: string) returns (found: bool, p: nat)
    requires Closed(rows)
    ensures found <==> FindLibrary(SkipToLibrary(rows), name).Some?
    ensures found ==> p < |rows| && Some(rows[p..]) == FindLibrary(SkipToLibrary(rows), name)
  {
    p := FirstLibraryAt(rows);
    Pointer(rows, p);
    while rows[p].libraryName.Some?
      invariant p < |rows| && Closed(rows[p..])
      invariant FindLibrary(rows[p..], name) == FindLibrary(SkipToLibrary(rows), name)
      decreases |rows| - p
    {
      Pointer(rows, p);
      if rows[p].libraryName.value == name {
        return true, p;
      }
      p := NextLibraryAt(rows, p);
      Pointer(rows, p);
    }
    Pointer(rows, p);
    found := false;
  }

  method FuncSymbolFromIndex(rows: seq<Row>, library: string, index: nat) returns (r: Option<Row>)
    requires Closed(rows)
    ensures r == Lookup(rows, library, index)
  {
    var found, l := LibraryForName(rows, library);
    if found {
      Pointer(rows, l);
      var p := l + 1;
      Pointer(rows, p);
      while rows[p].functionName.Some?
        invariant p < |rows| && Closed(rows[p..])
        invariant FindFunction(rows[p..], index) == FindFunction(rows[l + 1..], index)
        decreases |rows| - p
      {
        Pointer(rows, p);
        if rows[p].index == index {
          return Some(rows[p]);
        }
        p := NextFunctionAt(rows, p);
        Pointer(rows, p);
      }
      Pointer(rows, p);
    }
    r := None;
  }

  method FuncFirstAliasFromIndex(rows: seq<Row>, library: string, index: nat) returns (r: Option<Row>)
    requires Closed(rows)
    ensures r == LookupAlias(rows, library, index)
  {
    var found, l := LibraryForName(rows, library);
    if found {
      Pointer(rows, l);
      var p := l + 1;
      Pointer(rows, p);
      while rows[p].functionName.Some?
        invariant p < |rows| && Closed(rows[p..])
        invariant FindAlias(rows[p..], index) == FindAlias(rows[l + 1..], index)
        decreases |rows| - p
      {
        Pointer(rows, p);
        assert !FunctionEnd(rows[p]);
        if rows[p].index == index {
          var a := if rows[p + 1].alias then p + 1 else p;
          if rows[a].alias {
            return Some(rows[a]);
          }
        }
        p := NextFunctionAt(rows, p);
        Pointer(rows, p);
      }
      Pointer(rows, p);
    }
    r := None;
  }
}
