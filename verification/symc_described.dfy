/**
 The table that declarations describe, told by where they stand: a library belongs to
 the last `MODULE_ID` before it, a function to the last `LIBRARY_ID` before it. Nothing
 here is made by the functions with which the reader grows its table.
 */
module SymcDescribed {
  import opened Common
  import opened SymcRead
  import opened SymcHeaders
  import opened SymcTable
  import opened SymtabIndex
  import opened SymcPrint
  import opened SymcMeaning
  import opened SymcPipeline

  // ----- Which declaration belongs to which -----

  predicate Opens(d: Declaration) {
    d.ModuleId? || d.LibraryId?
  }

  /** The module that place `p` is in is declared at `i`. */
  ghost predicate ModuleOf(ds: seq<Declaration>, i: nat, p: nat) {
    i < p <= |ds| && ds[i].ModuleId? && forall q :: i < q < p ==> !ds[q].ModuleId?
  }

  ghost predicate InModule(ds: seq<Declaration>, p: nat) {
    exists i: nat :: i < p <= |ds| && ds[i].ModuleId?
  }

  /** The library that place `p` is in is declared at `j`, inside a module. */
  ghost predicate LibraryOf(ds: seq<Declaration>, j: nat, p: nat) {
    j < p <= |ds| && ds[j].LibraryId? && InModule(ds, j) && forall q :: j < q < p ==> !Opens(ds[q])
  }

  /** The function declared at `k` is in the library declared at `j` and has this index. */
  ghost predicate Declares(ds: seq<Declaration>, j: nat, k: nat, index: nat) {
    LibraryOf(ds, j, k) && k < |ds| && ds[k].FunctionId? && TokenInteger(ds[k].index) == Some(index)
  }

  /** A library of this name is declared at `j`, inside a module. */
  ghost predicate Names(ds: seq<Declaration>, j: nat, library: string) {
    j < |ds| && ds[j].LibraryId? && InModule(ds, j) && ds[j].name.text == library
  }

  ghost predicate FirstNames(ds: seq<Declaration>, j: nat, library: string) {
    Names(ds, j, library) && forall j': nat :: j' < j ==> !Names(ds, j', library)
  }

  /** Some function in a library has a malformed index. */
  ghost predicate Malformed(ds: seq<Declaration>) {
    exists j: nat, k: nat :: LibraryOf(ds, j, k) && k < |ds| && ds[k].FunctionId? && TokenInteger(ds[k].index) == None
  }

  /** No two functions of a library have the same index. */
  ghost predicate DistinctlyDeclared(ds: seq<Declaration>) {
    forall j: nat, k: nat, k': nat, index: nat :: Declares(ds, j, k, index) && Declares(ds, j, k', index) ==> k == k'
  }

  // ----- The table from a place on -----

  /** The functions up to the next library or module. */
  function FunctionsFrom(ds: seq<Declaration>, p: nat): seq<Function>
    requires p <= |ds|
    decreases |ds| - p
  {
    if p == |ds| || Opens(ds[p]) then []
    else
      var d := ds[p];
      (if d.FunctionId? && TokenInteger(d.index).Some? then
         [Function(name := d.name.text, index := TokenInteger(d.index).value, aliases := TailAliases(d.tail))]
       else [])
      + FunctionsFrom(ds, p + 1)
  }

  /** The libraries up to the next module. */
  function LibrariesFrom(ds: seq<Declaration>, p: nat): seq<Library>
    requires p <= |ds|
    decreases |ds| - p
  {
    if p == |ds| || ds[p].ModuleId? then []
    else
      (if ds[p].LibraryId? then [LibraryFrom(ds, p)] else []) + LibrariesFrom(ds, p + 1)
  }

  function LibraryFrom(ds: seq<Declaration>, j: nat): Library
    requires j < |ds| && ds[j].LibraryId?
  {
    Library(name := ds[j].name.text, version := ds[j].version.text, functions := FunctionsFrom(ds, j + 1))
  }

  function ModulesFrom(ds: seq<Declaration>, p: nat): seq<Module>
    requires p <= |ds|
    decreases |ds| - p
  {
    if p == |ds| then []
    else (if ds[p].ModuleId? then [ModuleFrom(ds, p)] else []) + ModulesFrom(ds, p + 1)
  }

  function ModuleFrom(ds: seq<Declaration>, i: nat): Module
    requires i < |ds| && ds[i].ModuleId?
  {
    Module(name := ds[i].name.text, version := ds[i].version.text, libraries := LibrariesFrom(ds, i + 1))
  }

  // ----- The reader's table is the one described -----

  /** A library, table of libraries and table of modules that goes on with what stands from `p` on. */
  function LibraryOn(l: Library, ds: seq<Declaration>, p: nat): Library
    requires p <= |ds|
  {
    l.(functions := l.functions + FunctionsFrom(ds, p))
  }

  function LibrariesOn(ls: seq<Library>, ds: seq<Declaration>, p: nat): seq<Library>
    requires p <= |ds|
  {
    (if ls == [] then [] else ls[..|ls| - 1] + [LibraryOn(ls[|ls| - 1], ds, p)]) + LibrariesFrom(ds, p)
  }

  function ModulesOn(ms: seq<Module>, ds: seq<Declaration>, p: nat): seq<Module>
    requires p <= |ds|
  {
    (if ms == [] then []
     else
       var m := ms[|ms| - 1];
       ms[..|ms| - 1] + [m.(libraries := LibrariesOn(m.libraries, ds, p))])
    + ModulesFrom(ds, p)
  }

  ghost predicate InLibrary(ds: seq<Declaration>, p: nat) {
    exists j: nat :: LibraryOf(ds, j, p)
  }

  /** A malformed index inside a library from `p` on, where `p` is in a module, or in a library. */
  predicate FatalFrom(inModule: bool, inLibrary: bool, ds: seq<Declaration>, p: nat)
    requires p <= |ds|
    decreases |ds| - p
  {
    p < |ds| &&
    match ds[p]
    case ModuleId(_, _, _, _) => FatalFrom(true, false, ds, p + 1)
    case LibraryId(_, _, _, _) => FatalFrom(inModule, inModule, ds, p + 1)
    case FunctionId(index, _, _, _) =>
      (inLibrary && TokenInteger(index) == None) || FatalFrom(inModule, inLibrary, ds, p + 1)
    case _ => FatalFrom(inModule, inLibrary, ds, p + 1)
  }

  lemma {:induction false} OnStep(ms: seq<Module>, ds: seq<Declaration>, p: nat)
    requires p < |ds| && Declare(ms, ds[p]).Some?
    ensures ModulesOn(ms, ds, p) == ModulesOn(Declare(ms, ds[p]).value, ds, p + 1)
  {
    hide TokenInteger, TailAliases;
    var ms' := Declare(ms, ds[p]).value;
    match ds[p]
    case ModuleId(_, _, _, _) => ModuleStep(ms, ds, p);
    case LibraryId(_, _, _, _) => LibraryStep(ms, ds, p);
    case FunctionId(_, _, _, _) => FunctionStep(ms, ds, p);
    case _ => NothingStep(ms, ds, p);
  }

  lemma {:induction false} NoMoreFunctions(l: Library, ds: seq<Declaration>, p: nat)
    requires p <= |ds| && FunctionsFrom(ds, p) == []
    ensures LibraryOn(l, ds, p) == l
  {
  }

  lemma {:induction false} NothingStep(ms: seq<Module>, ds: seq<Declaration>, p: nat)
    requires p < |ds| && !Opens(ds[p])
    requires !ds[p].FunctionId? || !HasLibrary(ms)
    ensures ModulesOn(ms, ds, p) == ModulesOn(ms, ds, p + 1)
  {
    hide TokenInteger, TailAliases;
    assert [] + ModulesFrom(ds, p + 1) == ModulesFrom(ds, p + 1);
    assert [] + LibrariesFrom(ds, p + 1) == LibrariesFrom(ds, p + 1);
    assert [] + FunctionsFrom(ds, p + 1) == FunctionsFrom(ds, p + 1);
    if ms != [] {
      var ls := ms[|ms| - 1].libraries;
      assert LibrariesOn(ls, ds, p) == LibrariesOn(ls, ds, p + 1);
    }
  }

  lemma {:induction false} ModuleStep(ms: seq<Module>, ds: seq<Declaration>, p: nat)
    requires p < |ds| && ds[p].ModuleId?
    ensures ModulesOn(ms, ds, p) == ModulesOn(Declare(ms, ds[p]).value, ds, p + 1)
  {
    hide TokenInteger, TailAliases;
    var ms' := Declare(ms, ds[p]).value;
    var last := ms'[|ms|];
    assert last.libraries == [];
    assert ms'[..|ms'| - 1] == ms;
    assert [] + LibrariesFrom(ds, p + 1) == LibrariesFrom(ds, p + 1);
    assert ModuleFrom(ds, p) == last.(libraries := LibrariesOn([], ds, p + 1));
    assert ModulesFrom(ds, p) == [ModuleFrom(ds, p)] + ModulesFrom(ds, p + 1);
    if ms != [] {
      var m := ms[|ms| - 1];
      assert LibrariesFrom(ds, p) == [] && FunctionsFrom(ds, p) == [];
      if m.libraries != [] {
        NoMoreFunctions(m.libraries[|m.libraries| - 1], ds, p);
      }
      assert LibrariesOn(m.libraries, ds, p) == m.libraries;
    }
  }

  lemma {:induction false} LibraryStep(ms: seq<Module>, ds: seq<Declaration>, p: nat)
    requires p < |ds| && ds[p].LibraryId?
    ensures ModulesOn(ms, ds, p) == ModulesOn(Declare(ms, ds[p]).value, ds, p + 1)
  {
    hide TokenInteger, TailAliases;
    assert [] + ModulesFrom(ds, p + 1) == ModulesFrom(ds, p + 1);
    if ms != [] {
      var ls := ms[|ms| - 1].libraries;
      var l := Library(name := ds[p].name.text, version := ds[p].version.text, functions := []);
      assert LibraryFrom(ds, p) == LibraryOn(l, ds, p + 1) by {
        assert [] + FunctionsFrom(ds, p + 1) == FunctionsFrom(ds, p + 1);
      }
      assert FunctionsFrom(ds, p) == [];
      if ls != [] {
        NoMoreFunctions(ls[|ls| - 1], ds, p);
      }
      assert (ls + [l])[..|ls|] == ls;
      assert LibrariesOn(ls, ds, p) == LibrariesOn(ls + [l], ds, p + 1);
    }
  }

  lemma {:induction false} FunctionStep(ms: seq<Module>, ds: seq<Declaration>, p: nat)
    requires p < |ds| && ds[p].FunctionId? && Declare(ms, ds[p]).Some?
    ensures ModulesOn(ms, ds, p) == ModulesOn(Declare(ms, ds[p]).value, ds, p + 1)
  {
    hide TokenInteger, TailAliases;
    if HasLibrary(ms) {
      var d := ds[p];
      var f := Function(name := d.name.text, index := TokenInteger(d.index).value, aliases := TailAliases(d.tail));
      var ls := ms[|ms| - 1].libraries;
      var l := ls[|ls| - 1];
      var l' := l.(functions := l.functions + [f]);
      var ls' := ls[|ls| - 1 := l'];
      assert ls'[..|ls'| - 1] == ls[..|ls| - 1];
      assert LibraryOn(l, ds, p) == LibraryOn(l', ds, p + 1);
      assert [] + LibrariesFrom(ds, p + 1) == LibrariesFrom(ds, p + 1);
      assert LibrariesOn(ls, ds, p) == LibrariesOn(ls', ds, p + 1);
      assert [] + ModulesFrom(ds, p + 1) == ModulesFrom(ds, p + 1);
    } else {
      NothingStep(ms, ds, p);
    }
  }

  lemma {:induction false} Goes(ms: seq<Module>, ds: seq<Declaration>, p: nat)
    requires p <= |ds|
    ensures DeclareAll(ms, ds[p..]) ==
            if FatalFrom(ms != [], HasLibrary(ms), ds, p) then None else Some(ModulesOn(ms, ds, p))
    decreases |ds| - p
  {
    hide TokenInteger, TailAliases, AddFunction, ModulesOn;
    if p == |ds| {
      OnEnd(ms, ds);
    } else {
      assert ds[p..][0] == ds[p] && ds[p..][1..] == ds[p + 1..];
      if Declare(ms, ds[p]).Some? {
        DeclareKeeps(ms, ds[p]);
        OnStep(ms, ds, p);
        Goes(Declare(ms, ds[p]).value, ds, p + 1);
      }
    }
  }

  lemma {:induction false} OnEnd(ms: seq<Module>, ds: seq<Declaration>)
    ensures ModulesOn(ms, ds, |ds|) == ms
  {
    if ms != [] {
      var m := ms[|ms| - 1];
      assert LibrariesOn(m.libraries, ds, |ds|) == m.libraries by {
        if m.libraries != [] {
          NoMoreFunctions(m.libraries[|m.libraries| - 1], ds, |ds|);
        }
      }
    }
  }

  lemma {:induction false} DeclareKeeps(ms: seq<Module>, d: Declaration)
    requires Declare(ms, d).Some?
    ensures var ms' := Declare(ms, d).value;
            && (ms' != [] <==> ms != [] || d.ModuleId?)
            && (HasLibrary(ms') <==>
                if d.ModuleId? then false else if d.LibraryId? then ms != [] else HasLibrary(ms))
  {
  }

  // ----- Fatal errors, by places -----

  lemma {:induction false} FatalPlaces(inModule: bool, inLibrary: bool, ds: seq<Declaration>, p: nat)
    requires p <= |ds|
    requires inModule <==> InModule(ds, p)
    requires inLibrary <==> InLibrary(ds, p)
    ensures FatalFrom(inModule, inLibrary, ds, p) <==>
            exists j: nat, k: nat :: LibraryOf(ds, j, k) && p <= k < |ds| && ds[k].FunctionId?
                           && TokenInteger(ds[k].index) == None
    decreases |ds| - p
  {
    hide TokenInteger, LibraryOf, InModule;
    if p < |ds| {
      PlaceStep(ds, p);
      match ds[p]
      case ModuleId(_, _, _, _) => FatalPlaces(true, false, ds, p + 1);
      case LibraryId(_, _, _, _) => FatalPlaces(inModule, inModule, ds, p + 1);
      case _ => FatalPlaces(inModule, inLibrary, ds, p + 1);
    }
  }

  lemma {:induction false} PlaceStep(ds: seq<Declaration>, p: nat)
    requires p < |ds|
    ensures InModule(ds, p + 1) <==> InModule(ds, p) || ds[p].ModuleId?
    ensures InLibrary(ds, p + 1) <==> if Opens(ds[p]) then ds[p].LibraryId? && InModule(ds, p) else InLibrary(ds, p)
  {
    if InModule(ds, p) {
      var i :| 0 <= i < p && ds[i].ModuleId?;
      assert InModule(ds, p + 1);
    }
    if Opens(ds[p]) {
      if ds[p].LibraryId? && InModule(ds, p) {
        assert LibraryOf(ds, p, p + 1);
      }
    }
    if InLibrary(ds, p + 1) {
      var j: nat :| LibraryOf(ds, j, p + 1);
      assert j == p || (!Opens(ds[p]) && LibraryOf(ds, j, p));
    }
    if !Opens(ds[p]) && InLibrary(ds, p) {
      var j: nat :| LibraryOf(ds, j, p);
      assert LibraryOf(ds, j, p + 1);
    }
  }

  /**
   Reading fails if and only if a function inside a library has a malformed index;
   otherwise the table is the one described.
   */
  lemma {:induction false} TableDescribed(ds: seq<Declaration>)
    ensures DeclareAll([], ds) == if Malformed(ds) then None else Some(ModulesFrom(ds, 0))
  {
    hide TokenInteger;
    assert ds[0..] == ds;
    Goes([], ds, 0);
    FatalPlaces(false, false, ds, 0);
    assert [] + ModulesFrom(ds, 0) == ModulesFrom(ds, 0);
  }

  // ----- Functions, by places -----

  /** What the declaration at `k` says of its function. */
  ghost predicate IsDeclared(f: Function, ds: seq<Declaration>, k: nat) {
    && k < |ds| && ds[k].FunctionId? && f.name == ds[k].name.text
    && TokenInteger(ds[k].index) == Some(f.index) && f.aliases == TailAliases(ds[k].tail)
  }

  lemma {:induction false} FunctionPlace(ds: seq<Declaration>, j: nat, p: nat, n: nat) returns (k: nat)
    requires LibraryOf(ds, j, p) && n < |FunctionsFrom(ds, p)|
    ensures p <= k && LibraryOf(ds, j, k) && IsDeclared(FunctionsFrom(ds, p)[n], ds, k)
    decreases |ds| - p
  {
    hide TokenInteger;
    var d := ds[p];
    if d.FunctionId? && TokenInteger(d.index).Some? {
      if n == 0 {
        k := p;
      } else {
        k := FunctionPlace(ds, j, p + 1, n - 1);
      }
    } else {
      k := FunctionPlace(ds, j, p + 1, n);
    }
  }

  lemma {:induction false} PlacedFunction(ds: seq<Declaration>, j: nat, p: nat, k: nat, index: nat) returns (n: nat)
    requires LibraryOf(ds, j, p) && p <= k && Declares(ds, j, k, index)
    ensures n < |FunctionsFrom(ds, p)| && IsDeclared(FunctionsFrom(ds, p)[n], ds, k)
    decreases |ds| - p
  {
    hide TokenInteger;
    if p == k {
      n := 0;
    } else {
      n := PlacedFunction(ds, j, p + 1, k, index);
      if ds[p].FunctionId? && TokenInteger(ds[p].index).Some? {
        n := n + 1;
      }
    }
  }

  lemma {:induction false} SameLibrary(ds: seq<Declaration>, j: nat, p: nat)
    requires LibraryOf(ds, j, p) && p < |ds| && !Opens(ds[p])
    ensures LibraryOf(ds, j, p + 1)
  {
  }

  lemma {:induction false} DistinctFunctions(ds: seq<Declaration>, j: nat, p: nat)
    requires LibraryOf(ds, j, p) && DistinctlyDeclared(ds)
    ensures DistinctIndices(FunctionsFrom(ds, p))
    decreases |ds| - p
  {
    hide TokenInteger;
    if p < |ds| && !Opens(ds[p]) {
      SameLibrary(ds, j, p);
      DistinctFunctions(ds, j, p + 1);
      var fs := FunctionsFrom(ds, p + 1);
      if ds[p].FunctionId? && TokenInteger(ds[p].index).Some? {
        var index := TokenInteger(ds[p].index).value;
        assert Declares(ds, j, p, index);
        forall n | 0 <= n < |fs|
          ensures fs[n].index != index
        {
          var k := FunctionPlace(ds, j, p + 1, n);
          assert fs[n].index == index ==> Declares(ds, j, k, index);
        }
      }
    }
  }

  // ----- Libraries, by places -----

  /** Declared under this name at `j`, before the module that `p` is in ends. */
  ghost predicate NamedHere(ds: seq<Declaration>, p: nat, j: nat, library: string) {
    && p <= j < |ds| && ds[j].LibraryId? && ds[j].name.text == library
    && forall q :: p <= q < j ==> !ds[q].ModuleId?
  }

  /** Declared under this name at `j`, in a module that begins at `p` or behind. */
  ghost predicate NamedBehind(ds: seq<Declaration>, p: nat, j: nat, library: string) {
    && j < |ds| && ds[j].LibraryId? && ds[j].name.text == library
    && exists i: nat :: p <= i < j && ds[i].ModuleId?
  }

  lemma {:induction false} FoundHere(ds: seq<Declaration>, p: nat, library: string) returns (j: nat)
    requires p <= |ds|
    ensures var l := LibraryIn(LibrariesFrom(ds, p), library);
            if l == None then forall j': nat :: !NamedHere(ds, p, j', library)
            else NamedHere(ds, p, j, library) && l == Some(LibraryFrom(ds, j))
                 && forall j': nat :: NamedHere(ds, p, j', library) ==> j <= j'
    decreases |ds| - p
  {
    hide NamedHere, LibraryIn, LibraryFrom, FunctionsFrom;
    j := p;
    if p == |ds| || ds[p].ModuleId? {
      NoneHere(ds, p, library);
    } else {
      var ls, rest := LibrariesFrom(ds, p), LibrariesFrom(ds, p + 1);
      var here := ds[p].LibraryId? && ds[p].name.text == library;
      if here {
        assert ls[0] == LibraryFrom(ds, p);
        IsFirst(ls, ds, p, library);
      } else {
        j := FoundHere(ds, p + 1, library);
        assert [] + rest == rest;
        if ds[p].LibraryId? {
          LibraryName(ds, p);
        }
        NotFirst(ls, rest, library);
      }
      forall j': nat
        ensures NamedHere(ds, p, j', library) <==> (here && j' == p) || NamedHere(ds, p + 1, j', library)
        ensures NamedHere(ds, p, j', library) ==> p <= j'
      {
        HereMore(ds, p, j', library);
      }
    }
  }

  lemma {:induction false} LibraryName(ds: seq<Declaration>, j: nat)
    requires j < |ds| && ds[j].LibraryId?
    ensures LibraryFrom(ds, j).name == ds[j].name.text
  {
  }

  lemma {:induction false} NoneHere(ds: seq<Declaration>, p: nat, library: string)
    requires p == |ds| || (p < |ds| && ds[p].ModuleId?)
    ensures forall j: nat :: !NamedHere(ds, p, j, library)
    ensures LibraryIn(LibrariesFrom(ds, p), library) == None
  {
  }

  lemma {:induction false} HereMore(ds: seq<Declaration>, p: nat, j: nat, library: string)
    requires p < |ds| && !ds[p].ModuleId?
    ensures NamedHere(ds, p, j, library) <==>
            (ds[p].LibraryId? && ds[p].name.text == library && j == p) || NamedHere(ds, p + 1, j, library)
    ensures NamedHere(ds, p, j, library) ==> p <= j
  {
  }

  lemma {:induction false} IsFirst(ls: seq<Library>, ds: seq<Declaration>, p: nat, library: string)
    requires ls != [] && p < |ds| && ds[p].LibraryId? && ds[p].name.text == library && ls[0] == LibraryFrom(ds, p)
    ensures LibraryIn(ls, library) == Some(LibraryFrom(ds, p))
  {
  }

  lemma {:induction false} NotFirst(ls: seq<Library>, rest: seq<Library>, library: string)
    requires ls == rest || (ls != [] && ls[1..] == rest && ls[0].name != library)
    ensures LibraryIn(ls, library) == LibraryIn(rest, library)
  {
  }

  lemma {:induction false} FoundBehind(ds: seq<Declaration>, p: nat, library: string) returns (i: nat, j: nat)
    requires p <= |ds|
    ensures var found := FirstLibrary(ModulesFrom(ds, p), library);
            if found == None then forall j': nat :: !NamedBehind(ds, p, j', library)
            else NamedBehind(ds, p, j, library) && ModuleOf(ds, i, j)
                 && found == Some((ModuleFrom(ds, i), LibraryFrom(ds, j)))
                 && forall j': nat :: NamedBehind(ds, p, j', library) ==> j <= j'
    decreases |ds| - p
  {
    hide NamedHere, NamedBehind;
    i, j := p, p;
    if p == |ds| {
      NoneBehind(ds, library);
    } else {
      var i1, j1 := FoundBehind(ds, p + 1, library);
      i, j := i1, j1;
      var j0 := FoundHere(ds, p + 1, library);
      assert [] + ModulesFrom(ds, p + 1) == ModulesFrom(ds, p + 1);
      var here := ds[p].ModuleId? && LibraryIn(LibrariesFrom(ds, p + 1), library).Some?;
      if here {
        i, j := p, j0;
        HereFirst(ds, p, j0, library);
      } else if FirstLibrary(ModulesFrom(ds, p + 1), library).Some? {
        BehindMore(ds, p, j1, library);
      }
      forall j': nat | NamedBehind(ds, p, j', library)
        ensures FirstLibrary(ModulesFrom(ds, p), library).Some? && j <= j'
      {
        BehindMore(ds, p, j', library);
        if here && NamedBehind(ds, p + 1, j', library) {
          HereBefore(ds, p + 1, j0, j', library);
        }
      }
    }
  }

  lemma {:induction false} NoneBehind(ds: seq<Declaration>, library: string)
    ensures forall j: nat :: !NamedBehind(ds, |ds|, j, library)
  {
  }

  /** Behind a module's declaration a library is in that module or in a later one. */
  lemma {:induction false} BehindMore(ds: seq<Declaration>, p: nat, j: nat, library: string)
    requires p < |ds|
    ensures NamedBehind(ds, p, j, library) <==>
              NamedBehind(ds, p + 1, j, library) || (ds[p].ModuleId? && NamedHere(ds, p + 1, j, library))
  {
  }

  lemma {:induction false} HereFirst(ds: seq<Declaration>, p: nat, j: nat, library: string)
    requires p < |ds| && ds[p].ModuleId? && NamedHere(ds, p + 1, j, library)
    ensures NamedBehind(ds, p, j, library) && ModuleOf(ds, p, j)
  {
  }

  lemma {:induction false} HereBefore(ds: seq<Declaration>, p: nat, j: nat, j': nat, library: string)
    requires NamedHere(ds, p, j, library) && NamedBehind(ds, p, j', library)
    ensures j <= j'
  {
  }

  lemma {:induction false} DistinctLibrariesFrom(ds: seq<Declaration>, p: nat)
    requires p <= |ds| && InModule(ds, p) && DistinctlyDeclared(ds)
    ensures forall n :: 0 <= n < |LibrariesFrom(ds, p)| ==> DistinctIndices(LibrariesFrom(ds, p)[n].functions)
    decreases |ds| - p
  {
    hide FunctionsFrom, DistinctIndices, DistinctlyDeclared;
    if p < |ds| && !ds[p].ModuleId? {
      StillInModule(ds, p);
      DistinctLibrariesFrom(ds, p + 1);
      if ds[p].LibraryId? {
        assert LibraryOf(ds, p, p + 1);
        DistinctFunctions(ds, p, p + 1);
      }
    }
  }

  lemma {:induction false} StillInModule(ds: seq<Declaration>, p: nat)
    requires p < |ds| && (InModule(ds, p) || ds[p].ModuleId?)
    ensures InModule(ds, p + 1)
  {
    if InModule(ds, p) {
      var i: nat :| i < p && ds[i].ModuleId?;
    }
  }

  lemma {:induction false} DistinctModulesFrom(ds: seq<Declaration>, p: nat)
    requires p <= |ds| && DistinctlyDeclared(ds)
    ensures DistinctTable(ModulesFrom(ds, p))
    decreases |ds| - p
  {
    hide LibrariesFrom, DistinctIndices, DistinctlyDeclared, InModule;
    if p < |ds| {
      DistinctModulesFrom(ds, p + 1);
      if ds[p].ModuleId? {
        StillInModule(ds, p);
        DistinctLibrariesFrom(ds, p + 1);
      }
    }
  }

  // ----- The theorem -----

  /** The row of a function's name, or of one of its aliases, as declared at `i`, `j` and `k`. */
  ghost predicate IsRowOf(r: Option<Row>, ds: seq<Declaration>, i: nat, j: nat, index: nat,
                          name: string, alias: bool)
    requires ModuleOf(ds, i, j) && j < |ds| && ds[j].LibraryId?
  {
    r == Some(Row(moduleName := Some(ds[i].name.text), moduleVersion := ds[i].version.text,
                  libraryName := Some(ds[j].name.text), libraryVersion := ds[j].version.text,
                  functionName := Some(name), index := index, alias := alias))
  }

  ghost predicate FirstAliasAt(tail: seq<TailItem>, a: nat) {
    a < |tail| && tail[a].AliasOf? && forall b :: 0 <= b < a ==> tail[b].Plain?
  }

  /**
   The array answers with the function declared under this index in the first library
   declared under this name, and with its first alias.
   */
  ghost predicate AnswersDeclared(rows: seq<Row>, ds: seq<Declaration>, library: string, index: nat,
                                  i: nat, j: nat, k: nat)
    requires Closed(rows) && FirstNames(ds, j, library) && ModuleOf(ds, i, j) && Declares(ds, j, k, index)
  {
    && IsRowOf(Lookup(rows, library, index), ds, i, j, index, ds[k].name.text, false)
    && ((forall a :: 0 <= a < |ds[k].tail| ==> ds[k].tail[a].Plain?) ==> LookupAlias(rows, library, index) == None)
    && forall a: nat | FirstAliasAt(ds[k].tail, a) ::
         IsRowOf(LookupAlias(rows, library, index), ds, i, j, index, ds[k].tail[a].name.text, true)
  }

  /** Some function is declared under this index in the first library declared under this name. */
  ghost predicate IsDeclaredIn(ds: seq<Declaration>, library: string, index: nat) {
    exists j: nat, k: nat :: FirstNames(ds, j, library) && Declares(ds, j, k, index)
  }

  /**
   For all headers of the described shape, with no malformed index and no index twice in
   a library, what the array answers, told by where the declarations stand.
   */
  lemma {:induction false} ArrayAnswersDeclarations(
      hs: seq<Header>, qsort: seq<Function> -> seq<Function>, library: string, index: nat)
    requires forall n :: 0 <= n < |hs| ==> WellShapedHeader(hs[n].ds, hs[n].trailer)
    requires !Malformed(AllDeclarations(hs)) && DistinctlyDeclared(AllDeclarations(hs)) && IsQsort(qsort)
    ensures ReadFilesOf([], Streams(hs)).Some?
    ensures var ds, ms := AllDeclarations(hs), ReadFilesOf([], Streams(hs)).value;
            var rows := Table(TableStmts(Compiled(ms, qsort)));
            && Closed(rows)
            && (!IsDeclaredIn(ds, library, index) ==>
                  Lookup(rows, library, index) == None && LookupAlias(rows, library, index) == None)
            && forall i: nat, j: nat, k: nat |
                 FirstNames(ds, j, library) && ModuleOf(ds, i, j) && Declares(ds, j, k, index) ::
                 AnswersDeclared(rows, ds, library, index, i, j, k)
  {
    hide Closed, Compiled, Lookup, LookupAlias, WellShaped, IsQsort, WellShapedHeader, Malformed,
         DistinctlyDeclared, TableStmts, Table, ReadFilesOf, Streams, AllDeclarations, Declares, FirstNames,
         ModuleOf, ModulesFrom, AnswersDeclared, DistinctTable, IsDeclaredIn;
    var ds := AllDeclarations(hs);
    var ms := ModulesFrom(ds, 0);
    TableDescribed(ds);
    DistinctModulesFrom(ds, 0);
    CompilationPreservesMeaning(hs, ms, qsort, library, index);
    var rows := Table(TableStmts(Compiled(ms, qsort)));
    if !IsDeclaredIn(ds, library, index) {
      UndeclaredAnswer(rows, ds, library, index);
    }
    forall i: nat, j: nat, k: nat |
      FirstNames(ds, j, library) && ModuleOf(ds, i, j) && Declares(ds, j, k, index)
      ensures AnswersDeclared(rows, ds, library, index, i, j, k)
    {
      DeclaredAnswer(rows, ds, library, index, i, j, k);
    }
  }

  /** A malformed index inside a library, and nothing else, is fatal. */
  lemma {:induction false} FatalExactly(hs: seq<Header>)
    requires forall n :: 0 <= n < |hs| ==> WellShapedHeader(hs[n].ds, hs[n].trailer)
    ensures ReadFilesOf([], Streams(hs)) == None <==> Malformed(AllDeclarations(hs))
  {
    hide WellShapedHeader, Malformed, ReadFilesOf;
    HeadersRead([], hs);
    TableDescribed(AllDeclarations(hs));
  }

  lemma {:induction false} NamesBehind(ds: seq<Declaration>, j: nat, library: string)
    ensures Names(ds, j, library) <==> NamedBehind(ds, 0, j, library)
  {
  }

  /** The first library of a name is at the first place that declares one. */
  lemma {:induction false} FirstPlace(ds: seq<Declaration>, library: string) returns (i: nat, j: nat)
    ensures var found := FirstLibrary(ModulesFrom(ds, 0), library);
            if found == None then forall j': nat :: !Names(ds, j', library)
            else FirstNames(ds, j, library) && ModuleOf(ds, i, j)
                 && found == Some((ModuleFrom(ds, i), LibraryFrom(ds, j)))
  {
    hide NamedBehind, Names, ModulesFrom, ModuleFrom, LibraryFrom;
    i, j := FoundBehind(ds, 0, library);
    forall j': nat
      ensures Names(ds, j', library) <==> NamedBehind(ds, 0, j', library)
    {
      NamesBehind(ds, j', library);
    }
    if FirstLibrary(ModulesFrom(ds, 0), library).Some? {
      InRange(ds, j, library);
    }
  }

  lemma {:induction false} InRange(ds: seq<Declaration>, j: nat, library: string)
    requires Names(ds, j, library)
    ensures j < |ds| && ds[j].LibraryId?
  {
  }

  lemma {:induction false} OneModule(ds: seq<Declaration>, i: nat, i': nat, p: nat)
    requires ModuleOf(ds, i, p) && ModuleOf(ds, i', p)
    ensures i == i'
  {
  }

  lemma {:induction false} IndexPlace(ds: seq<Declaration>, j: nat, index: nat) returns (k: nat)
    requires LibraryOf(ds, j, j + 1) && HasIndex(FunctionsFrom(ds, j + 1), index)
    ensures Declares(ds, j, k, index)
  {
    hide FunctionsFrom, TokenInteger;
    var fs := FunctionsFrom(ds, j + 1);
    var n: nat :| n < |fs| && fs[n].index == index;
    k := FunctionPlace(ds, j, j + 1, n);
  }

  lemma {:induction false} UndeclaredAnswer(rows: seq<Row>, ds: seq<Declaration>, library: string, index: nat)
    requires Closed(rows) && Answers(rows, ModulesFrom(ds, 0), library, index)
    requires !IsDeclaredIn(ds, library, index)
    ensures Lookup(rows, library, index) == None && LookupAlias(rows, library, index) == None
  {
    hide Closed, Lookup, LookupAlias, ModulesFrom, FunctionsFrom, TokenInteger;
    var i, j := FirstPlace(ds, library);
    var found := FirstLibrary(ModulesFrom(ds, 0), library);
    if found.Some? {
      assert LibraryOf(ds, j, j + 1);
      var fs := FunctionsFrom(ds, j + 1);
      if HasIndex(fs, index) {
        var k := IndexPlace(ds, j, index);
      }
    }
  }

  lemma {:induction false} DeclaredAnswer(rows: seq<Row>, ds: seq<Declaration>, library: string, index: nat,
                                          i: nat, j: nat, k: nat)
    requires Closed(rows) && Answers(rows, ModulesFrom(ds, 0), library, index)
    requires FirstNames(ds, j, library) && ModuleOf(ds, i, j) && Declares(ds, j, k, index)
    ensures AnswersDeclared(rows, ds, library, index, i, j, k)
  {
    hide Closed, Lookup, LookupAlias, ModulesFrom, FunctionsFrom, TokenInteger, TailAliases;
    var i', j' := FirstPlace(ds, library);
    assert j' == j;
    OneModule(ds, i, i', j);
    assert LibraryOf(ds, j, j + 1);
    var fs := FunctionsFrom(ds, j + 1);
    var n := PlacedFunction(ds, j, j + 1, k, index);
    assert fs[n].index == index;
    FirstOfTail(ds[k].tail);
  }

  lemma {:induction false} FirstOfTail(tail: seq<TailItem>)
    ensures (forall a :: 0 <= a < |tail| ==> tail[a].Plain?) ==> TailAliases(tail) == []
    ensures forall a: nat | FirstAliasAt(tail, a) ::
              TailAliases(tail) != [] && TailAliases(tail)[0] == tail[a].name.text
    decreases |tail|
  {
    if tail != [] {
      FirstOfTail(tail[1..]);
      forall a: nat | FirstAliasAt(tail, a)
        ensures TailAliases(tail) != [] && TailAliases(tail)[0] == tail[a].name.text
      {
        if a > 0 {
          assert FirstAliasAt(tail[1..], a - 1);
        }
      }
    }
  }
}
