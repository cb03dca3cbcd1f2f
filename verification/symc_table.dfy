/**
 Filling index gaps and ordering functions (tool/iopmod-symc.c), and the dense table
 this leaves.
 */
module SymcTable {
  import opened SymcRead

  // ----- Fill -----

  predicate HasIndex(fs: seq<Function>, i: nat) {
    exists k :: 0 <= k < |fs| && fs[k].index == i
  }

  function MaxIndex(fs: seq<Function>): nat {
    if fs == [] then 0
    else
      var m := MaxIndex(fs[..|fs| - 1]);
      if m < fs[|fs| - 1].index then fs[|fs| - 1].index else m
  }

  /** An undefined function has the empty name. */
  function Undefined(i: nat): Function {
    Function("", i, [])
  }

  function FillFrom(fs: seq<Function>, i: nat, limit: nat): seq<Function>
    decreases limit - i
  {
    if i >= limit then fs
    else FillFrom(if HasIndex(fs, i) then fs else fs + [Undefined(i)], i + 1, limit)
  }

  function FilledLibrary(l: Library): Library {
    l.(functions := FillFrom(l.functions, 0, MaxIndex(l.functions)))
  }

  function FilledModule(m: Module): (r: Module)
    ensures |r.libraries| == |m.libraries|
  {
    m.(libraries := seq(|m.libraries|, j requires 0 <= j < |m.libraries| => FilledLibrary(m.libraries[j])))
  }

  function Filled(ms: seq<Module>): (r: seq<Module>)
    ensures |r| == |ms|
  {
    seq(|ms|, i requires 0 <= i < |ms| => FilledModule(ms[i]))
  }

  method FunctionForIndex(i: nat, fs: seq<Function>) returns (found: bool)
    ensures found <==> HasIndex(fs, i)
  {
    for k := 0 to |fs|
      invariant forall j :: 0 <= j < k ==> fs[j].index != i
    {
      if i == fs[k].index {
        return true;
      }
    }
    found := false;
  }

  method FillLibrary(l: Library) returns (r: Library)
    ensures r == FilledLibrary(l)
  {
    r := l;
    var maxIndex := 0;
    for i := 0 to |l.functions|
      invariant maxIndex == MaxIndex(l.functions[..i])
    {
      assert l.functions[..i + 1][..i] == l.functions[..i];
      var index := l.functions[i].index;
      if i == 0 || maxIndex < index {
        maxIndex := index;
      }
    }
    assert l.functions[..|l.functions|] == l.functions;
    for i := 0 to maxIndex
      invariant r == l.(functions := r.functions)
      invariant FillFrom(r.functions, i, maxIndex) == FillFrom(l.functions, 0, maxIndex)
    {
      var found := FunctionForIndex(i, r.functions);
      if !found {
        r := r.(functions := r.functions + [Undefined(i)]);
      }
    }
  }

  method FillModule(m: Module) returns (r: Module)
    ensures r == FilledModule(m)
  {
    r := m;
    for j := 0 to |m.libraries|
      invariant r == m.(libraries := r.libraries) && |r.libraries| == |m.libraries|
      invariant forall k :: 0 <= k < j ==> r.libraries[k] == FilledLibrary(m.libraries[k])
      invariant forall k :: j <= k < |m.libraries| ==> r.libraries[k] == m.libraries[k]
    {
      var l := FillLibrary(r.libraries[j]);
      r := r.(libraries := r.libraries[j := l]);
    }
  }

  method FillSymtab(t: Symtab)
    modifies t
    ensures t.modules == Filled(old(t.modules))
  {
    for i := 0 to |t.modules|
      invariant |t.modules| == |old(t.modules)|
      invariant forall k :: 0 <= k < i ==> t.modules[k] == FilledModule(old(t.modules)[k])
      invariant forall k :: i <= k < |t.modules| ==> t.modules[k] == old(t.modules)[k]
    {
      var m := FillModule(t.modules[i]);
      t.modules := t.modules[i := m];
    }
  }

  // ----- Order -----

  /** function_index_cmp never answers with a negative number. */
  function FunctionIndexCmp(a: Function, b: Function): int {
    if a.index > b.index then 1 else 0
  }

  /** What qsort is asked for: a permutation in which nothing earlier compares greater. */
  ghost predicate Qsorted(fs: seq<Function>, gs: seq<Function>) {
    && multiset(gs) == multiset(fs)
    && forall i, j :: 0 <= i < j < |gs| ==> FunctionIndexCmp(gs[i], gs[j]) <= 0
  }

  ghost predicate IsQsort(qsort: seq<Function> -> seq<Function>) {
    forall fs :: Qsorted(fs, qsort(fs))
  }

  function OrderedLibrary(l: Library, qsort: seq<Function> -> seq<Function>): Library {
    if l.functions == [] then l else l.(functions := qsort(l.functions))
  }

  function OrderedModule(m: Module, qsort: seq<Function> -> seq<Function>): (r: Module)
    ensures |r.libraries| == |m.libraries|
  {
    m.(libraries := seq(|m.libraries|, j requires 0 <= j < |m.libraries| => OrderedLibrary(m.libraries[j], qsort)))
  }

  function Ordered(ms: seq<Module>, qsort: seq<Function> -> seq<Function>): (r: seq<Module>)
    ensures |r| == |ms|
  {
    seq(|ms|, i requires 0 <= i < |ms| => OrderedModule(ms[i], qsort))
  }

  method OrderModule(m: Module, qsort: seq<Function> -> seq<Function>) returns (r: Module)
    ensures r == OrderedModule(m, qsort)
  {
    r := m;
    for j := 0 to |m.libraries|
      invariant r == m.(libraries := r.libraries) && |r.libraries| == |m.libraries|
      invariant forall k :: 0 <= k < j ==> r.libraries[k] == OrderedLibrary(m.libraries[k], qsort)
      invariant forall k :: j <= k < |m.libraries| ==> r.libraries[k] == m.libraries[k]
    {
      var l := r.libraries[j];
      if l.functions != [] {
        l := l.(functions := qsort(l.functions));
      }
      r := r.(libraries := r.libraries[j := l]);
    }
  }

  method OrderSymtab(t: Symtab, qsort: seq<Function> -> seq<Function>)
    modifies t
    ensures t.modules == Ordered(old(t.modules), qsort)
  {
    for i := 0 to |t.modules|
      invariant |t.modules| == |old(t.modules)|
      invariant forall k :: 0 <= k < i ==> t.modules[k] == OrderedModule(old(t.modules)[k], qsort)
      invariant forall k :: i <= k < |t.modules| ==> t.modules[k] == old(t.modules)[k]
    {
      var m := OrderModule(t.modules[i], qsort);
      t.modules := t.modules[i := m];
    }
  }

  // ----- A dense table -----

  ghost predicate DistinctIndices(fs: seq<Function>) {
    forall i, j :: 0 <= i < j < |fs| ==> fs[i].index != fs[j].index
  }

  lemma {:induction false} MaxIndexBounds(fs: seq<Function>)
    requires fs != []
    ensures forall i :: 0 <= i < |fs| ==> fs[i].index <= MaxIndex(fs)
    ensures HasIndex(fs, MaxIndex(fs))
  {
    var init := fs[..|fs| - 1];
    if init == [] {
      assert MaxIndex(init) == 0;
      assert fs[0].index == MaxIndex(fs);
    } else {
      MaxIndexBounds(init);
      var k :| 0 <= k < |init| && init[k].index == MaxIndex(init);
      assert fs[k] == init[k];
      forall i | 0 <= i < |fs|
        ensures fs[i].index <= MaxIndex(fs)
      {
        if i < |init| {
          assert fs[i] == init[i];
        }
      }
      if MaxIndex(fs) == fs[|fs| - 1].index {
        assert HasIndex(fs, MaxIndex(fs));
      }
    }
  }

  /** What filling leaves: the declared functions, and exactly the gaps below the limit. */
  lemma {:induction false} FillGaps(fs: seq<Function>, i: nat, limit: nat)
    requires DistinctIndices(fs)
    ensures var gs := FillFrom(fs, i, limit);
            && fs <= gs && DistinctIndices(gs)
            && (forall k :: |fs| <= k < |gs| ==> i <= gs[k].index < limit && gs[k] == Undefined(gs[k].index)
                                                 && !HasIndex(fs, gs[k].index))
            && (forall n :: i <= n < limit ==> HasIndex(gs, n))
    decreases limit - i
  {
    if i < limit {
      var hs := if HasIndex(fs, i) then fs else fs + [Undefined(i)];
      FillGaps(hs, i + 1, limit);
      var gs := FillFrom(fs, i, limit);
      assert HasIndex(hs, i) by {
        assert !HasIndex(fs, i) ==> hs[|fs|].index == i;
      }
      KeptIndex(hs, gs, i);
      forall k | |fs| <= k < |gs|
        ensures i <= gs[k].index < limit && gs[k] == Undefined(gs[k].index) && !HasIndex(fs, gs[k].index)
      {
        assert gs[k] == if k == |fs| && !HasIndex(fs, i) then Undefined(i) else gs[k];
        if HasIndex(fs, gs[k].index) {
          KeptIndex(fs, hs, gs[k].index);
        }
      }
    }
  }

  lemma {:induction false} KeptIndex(fs: seq<Function>, gs: seq<Function>, i: nat)
    requires fs <= gs && HasIndex(fs, i)
    ensures HasIndex(gs, i)
  {
    var k :| 0 <= k < |fs| && fs[k].index == i;
    assert gs[k] == fs[k];
  }

  // ----- Sorting a permutation of the filled functions -----

  lemma {:induction false} OnlyOnce<T>(s: seq<T>, x: T)
    requires forall i, j :: 0 <= i < j < |s| ==> s[i] != s[j]
    ensures multiset(s)[x] <= 1
  {
    if s != [] {
      var init := s[..|s| - 1];
      assert s == init + [s[|s| - 1]];
      OnlyOnce(init, x);
      if x == s[|s| - 1] {
        assert x !in init;
        assert x !in multiset(init);
      }
    }
  }

  lemma {:induction false} Twice<T>(s: seq<T>, i: nat, j: nat)
    requires i < j < |s| && s[i] == s[j]
    ensures multiset(s)[s[i]] >= 2
  {
    assert s == s[..j] + ([s[j]] + s[j + 1..]);
    assert s[i] in s[..j];
    assert multiset(s) == multiset(s[..j]) + (multiset{s[j]} + multiset(s[j + 1..]));
  }

  /** A permutation keeps indices distinct, and sorting makes them ascend. */
  lemma {:induction false} SortedAscends(fs: seq<Function>, gs: seq<Function>)
    requires DistinctIndices(fs) && Qsorted(fs, gs)
    ensures forall i, j :: 0 <= i < j < |gs| ==> gs[i].index < gs[j].index
  {
    forall i, j | 0 <= i < j < |gs|
      ensures gs[i].index < gs[j].index
    {
      assert FunctionIndexCmp(gs[i], gs[j]) <= 0;
      if gs[i].index == gs[j].index {
        assert gs[i] in multiset(fs) && gs[j] in multiset(fs);
        assert gs[i] == gs[j];
        Twice(gs, i, j);
        OnlyOnce(fs, gs[i]);
      }
    }
  }

  /** Ascending numbers that cover 0 to `top` and nothing else stand at their own places. */
  lemma {:induction false} AscendingCover(gs: seq<Function>, top: nat, n: nat)
    requires forall i, j :: 0 <= i < j < |gs| ==> gs[i].index < gs[j].index
    requires forall i :: 0 <= i <= top ==> HasIndex(gs, i)
    requires n <= top
    ensures n < |gs| && gs[n].index == n
    decreases n
  {
    if n > 0 {
      AscendingCover(gs, top, n - 1);
    }
    assert HasIndex(gs, n);
    var k :| 0 <= k < |gs| && gs[k].index == n;
    if k < n {
      AscendingCover(gs, top, k);
    }
  }

  lemma {:induction false} SameElements(fs: seq<Function>, gs: seq<Function>)
    requires multiset(gs) == multiset(fs)
    ensures forall x :: x in gs <==> x in fs
  {
    forall x
      ensures x in gs <==> x in fs
    {
      assert x in gs <==> x in multiset(gs);
      assert x in fs <==> x in multiset(fs);
    }
  }

  lemma {:induction false} DenseIndices(fs: seq<Function>, gs: seq<Function>)
    requires fs != [] && DistinctIndices(fs)
    requires Qsorted(FillFrom(fs, 0, MaxIndex(fs)), gs)
    ensures |gs| == MaxIndex(fs) + 1
    ensures forall i :: 0 <= i < |gs| ==> gs[i].index == i
  {
    var top := MaxIndex(fs);
    var hs := FillFrom(fs, 0, top);
    MaxIndexBounds(fs);
    FillGaps(fs, 0, top);
    SortedAscends(hs, gs);
    SameElements(hs, gs);
    forall i | 0 <= i <= top
      ensures HasIndex(gs, i)
    {
      if i == top {
        KeptIndex(fs, hs, i);
      }
      assert HasIndex(hs, i);
      var k :| 0 <= k < |hs| && hs[k].index == i;
      assert hs[k] in gs;
    }
    forall i | 0 <= i <= top
      ensures i < |gs| && gs[i].index == i
    {
      AscendingCover(gs, top, i);
    }
    AscendingCover(gs, top, top);
    if |gs| > top + 1 {
      assert gs[top].index < gs[top + 1].index;
      FilledBound(fs, gs[top + 1]);
    }
  }

  lemma {:induction false} FilledBound(fs: seq<Function>, f: Function)
    requires fs != [] && DistinctIndices(fs) && f in FillFrom(fs, 0, MaxIndex(fs))
    ensures f.index <= MaxIndex(fs)
    ensures !HasIndex(fs, f.index) ==> f == Undefined(f.index)
  {
    var hs := FillFrom(fs, 0, MaxIndex(fs));
    MaxIndexBounds(fs);
    FillGaps(fs, 0, MaxIndex(fs));
    var k :| 0 <= k < |hs| && hs[k] == f;
    if k < |fs| {
      assert hs[k] == fs[k];
    }
  }

  /**
   Fill, then order: the table is dense up to the largest index, every declared
   function stands at its own index, unchanged, and the rest are undefined.
   */
  lemma {:induction false} DenseTable(fs: seq<Function>, gs: seq<Function>)
    requires fs != [] && DistinctIndices(fs)
    requires Qsorted(FillFrom(fs, 0, MaxIndex(fs)), gs)
    ensures |gs| == MaxIndex(fs) + 1
    ensures forall i :: 0 <= i < |gs| ==> gs[i].index == i
    ensures forall k :: 0 <= k < |fs| ==> fs[k].index < |gs| && gs[fs[k].index] == fs[k]
    ensures forall i :: 0 <= i < |gs| && !HasIndex(fs, i) ==> gs[i] == Undefined(i)
  {
    var hs := FillFrom(fs, 0, MaxIndex(fs));
    DenseIndices(fs, gs);
    FillGaps(fs, 0, MaxIndex(fs));
    SameElements(hs, gs);
    forall k | 0 <= k < |fs|
      ensures fs[k].index < |gs| && gs[fs[k].index] == fs[k]
    {
      assert hs[k] == fs[k] && hs[k] in gs;
      var i :| 0 <= i < |gs| && gs[i] == fs[k];
    }
    forall i | 0 <= i < |gs| && !HasIndex(fs, i)
      ensures gs[i] == Undefined(i)
    {
      FilledBound(fs, gs[i]);
    }
  }

  // ----- The contract of qsort can be met -----

  function Insert(f: Function, gs: seq<Function>): seq<Function> {
    if gs == [] || f.index <= gs[0].index then [f] + gs else [gs[0]] + Insert(f, gs[1..])
  }

  function InsertionSort(fs: seq<Function>): seq<Function> {
    if fs == [] then [] else Insert(fs[0], InsertionSort(fs[1..]))
  }

  ghost predicate Ascending(gs: seq<Function>) {
    forall i, j :: 0 <= i < j < |gs| ==> gs[i].index <= gs[j].index
  }

  lemma {:induction false} InsertPermutes(f: Function, gs: seq<Function>)
    ensures multiset(Insert(f, gs)) == multiset{f} + multiset(gs)
    decreases |gs|
  {
    if gs != [] && f.index > gs[0].index {
      InsertPermutes(f, gs[1..]);
      assert gs == [gs[0]] + gs[1..];
    }
  }

  lemma {:induction false} InsertAscends(f: Function, gs: seq<Function>)
    requires Ascending(gs)
    ensures Ascending(Insert(f, gs))
    decreases |gs|
  {
    if gs != [] && f.index > gs[0].index {
      var hs := Insert(f, gs[1..]);
      InsertAscends(f, gs[1..]);
      InsertPermutes(f, gs[1..]);
      forall j | 0 <= j < |hs|
        ensures gs[0].index <= hs[j].index
      {
        assert hs[j] in multiset(hs);
      }
    }
  }

  lemma {:induction false} SortPermutes(fs: seq<Function>)
    ensures multiset(InsertionSort(fs)) == multiset(fs)
    decreases |fs|
  {
    hide Insert;
    if fs != [] {
      SortPermutes(fs[1..]);
      InsertPermutes(fs[0], InsertionSort(fs[1..]));
      assert fs == [fs[0]] + fs[1..];
    }
  }

  lemma {:induction false} SortAscends(fs: seq<Function>)
    ensures Ascending(InsertionSort(fs))
    decreases |fs|
  {
    hide Insert, Ascending;
    if fs == [] {
      NothingAscends();
    } else {
      SortAscends(fs[1..]);
      InsertAscends(fs[0], InsertionSort(fs[1..]));
    }
  }

  lemma {:induction false} NothingAscends()
    ensures Ascending([])
  {
  }

  lemma {:induction false} SomeQsort(fs: seq<Function>)
    ensures Qsorted(fs, InsertionSort(fs))
  {
    hide InsertionSort;
    SortPermutes(fs);
    SortAscends(fs);
  }

  lemma {:induction false} QsortExists()
    ensures IsQsort(InsertionSort)
  {
    forall fs: seq<Function>
      ensures Qsorted(fs, InsertionSort(fs))
    {
      SomeQsort(fs);
    }
  }
}
