/**
 Reading headers (tool/iopmod-symc.c): declarations in a stream of significant
 tokens become a table of modules, libraries, functions and aliases.
 */
module SymcRead {
  import opened Common
  import opened Lexer
  import opened LexerLaws
  import FormatNumber

  datatype Function = Function(name: string, index: nat, aliases: seq<string>)
  datatype Library = Library(name: string, version: string, functions: seq<Function>)
  datatype Module = Module(name: string, version: string, libraries: seq<Library>)

  // ----- Token patterns -----

  const EMPTY_TOKEN := Lexed(Empty, "")
  const SEMICOLON := Lexed(Semicolon, ";")
  const LPAREN := Lexed(LParen, "(")
  const RPAREN := Lexed(RParen, ")")
  const COMMA := Lexed(Comma, ",")
  const ID := Lexed(Identifier, "id_")
  const ALIAS := Lexed(Identifier, "alias_")
  const MODULE_ID := Lexed(Identifier, "MODULE_ID")
  const LIBRARY_ID := Lexed(Identifier, "LIBRARY_ID")

  /** A format is a list of tokens; `%s` takes any token, `%i` an integer. */
  datatype Pattern = Tok(t: Lexed) | PercentS | PercentI

  const ID_INDEX := [Tok(ID), Tok(LPAREN), PercentI, Tok(RPAREN)]
  const ID_PERCENT := [Tok(ID), Tok(LPAREN), PercentI]
  const ID_OPEN := [Tok(ID), Tok(LPAREN)]
  const ALIAS_OPEN := [Tok(ALIAS), Tok(LPAREN)]
  const NAME_OPEN := [PercentS, Tok(LPAREN)]
  const ALIAS_NAME := [Tok(ALIAS), Tok(LPAREN), PercentS, Tok(RPAREN)]
  const MODULE_NAME := [Tok(MODULE_ID), Tok(LPAREN), PercentS, Tok(COMMA), PercentI, Tok(RPAREN)]
  const LIBRARY_NAME := [Tok(LIBRARY_ID), Tok(LPAREN), PercentS, Tok(COMMA), PercentI, Tok(RPAREN)]

  /** The token `i` places ahead; past the end every token is empty. */
  function At(u: seq<Lexed>, i: nat): Lexed {
    if i < |u| then u[i] else EMPTY_TOKEN
  }

  predicate Fits(p: Pattern, t: Lexed) {
    match p
    case Tok(x) => x == t
    case PercentS => true
    case PercentI => t.ty.Integer?
  }

  /** The stream goes on as the format says. */
  predicate Matches(u: seq<Lexed>, fmt: seq<Pattern>) {
    forall k :: 0 <= k < |fmt| ==> Fits(fmt[k], At(u, k))
  }

  /** What `%s` and `%i` take before the match ends or fails. */
  function Captures(u: seq<Lexed>, fmt: seq<Pattern>): seq<Lexed> {
    if fmt == [] || !Fits(fmt[0], At(u, 0)) then []
    else (if fmt[0].Tok? then [] else [At(u, 0)]) + Captures(if u == [] then [] else u[1..], fmt[1..])
  }

  function Advance(s: seq<Lexed>, p: nat): (q: nat)
    requires p <= |s|
    ensures q <= |s|
  {
    if p < |s| then p + 1 else p
  }

  lemma {:induction false} CaptureTurn(s: seq<Lexed>, p: nat, fmt: seq<Pattern>, k: nat)
    requires p <= |s| && k < |fmt| && Fits(fmt[k], At(s, p))
    ensures Captures(s[p..], fmt[k..])
         == (if fmt[k].Tok? then [] else [At(s, p)]) + Captures(s[Advance(s, p)..], fmt[k + 1..])
  {
    assert fmt[k..][0] == fmt[k] && fmt[k..][1..] == fmt[k + 1..];
    assert At(s[p..], 0) == At(s, p);
    if p < |s| {
      assert s[p..] != [] && s[p..][1..] == s[p + 1..];
    }
  }

  lemma {:induction false} CaptureEnd(s: seq<Lexed>, p: nat, fmt: seq<Pattern>, k: nat)
    requires p <= |s| && k <= |fmt| && (k < |fmt| ==> !Fits(fmt[k], At(s, p)))
    ensures Captures(s[p..], fmt[k..]) == []
  {
    if k < |fmt| {
      assert fmt[k..][0] == fmt[k];
      assert At(s[p..], 0) == At(s, p);
    }
  }

  /** vtscanf. An argument is assigned as soon as its token fits, even if the rest does not. */
  method Scanf(s: seq<Lexed>, p: nat, fmt: seq<Pattern>) returns (matched: bool, args: seq<Lexed>)
    requires p <= |s|
    ensures matched <==> Matches(s[p..], fmt)
    ensures args == Captures(s[p..], fmt)
  {
    hide Captures, Fits;
    args := [];
    var token := p;
    ghost var u := s[p..];
    assert fmt[0..] == fmt;
    for k := 0 to |fmt|
      invariant token == if p + k <= |s| then p + k else |s|
      invariant forall j :: 0 <= j < k ==> Fits(fmt[j], At(u, j))
      invariant args + Captures(s[token..], fmt[k..]) == Captures(u, fmt)
    {
      var t := At(s, token);
      assert At(u, k) == t;
      if !Fits(fmt[k], t) {
        CaptureEnd(s, token, fmt, k);
        return false, args;
      }
      CaptureTurn(s, token, fmt, k);
      if !fmt[k].Tok? {
        args := args + [t];
      }
      token := Advance(s, token);
    }
    CaptureEnd(s, token, fmt, |fmt|);
    matched := true;
  }

  /** One item of a format that fits. */
  lemma {:induction false} CaptureStep(u: seq<Lexed>, fmt: seq<Pattern>, i: nat)
    requires i < |fmt| && i <= |u| && Fits(fmt[i], At(u, i))
    ensures Captures(u[i..], fmt[i..])
         == (if fmt[i].Tok? then [] else [At(u, i)])
          + Captures(u[if i < |u| then i + 1 else i..], fmt[i + 1..])
  {
    assert fmt[i..][0] == fmt[i] && fmt[i..][1..] == fmt[i + 1..];
    assert At(u[i..], 0) == At(u, i);
    assert i < |u| ==> u[i..][1..] == u[i + 1..];
  }

  /** No token of a match is past the end, unless `%s` stands there. */
  lemma {:induction false} MatchedLength(u: seq<Lexed>, fmt: seq<Pattern>)
    requires Matches(u, fmt) && fmt != [] && fmt[|fmt| - 1].Tok? && fmt[|fmt| - 1].t != EMPTY_TOKEN
    ensures |fmt| <= |u|
  {
    assert Fits(fmt[|fmt| - 1], At(u, |fmt| - 1));
  }

  /** The captures of a match with its slots at `a` and, unless equal, at `b`. */
  lemma {:induction false} MatchedCaptures(u: seq<Lexed>, fmt: seq<Pattern>, a: nat, b: nat, i: nat)
    requires Matches(u, fmt) && |fmt| <= |u| && a <= b < |fmt| && i <= |fmt|
    requires forall k :: 0 <= k < |fmt| ==> (fmt[k].Tok? <==> k != a && k != b)
    ensures Captures(u[i..], fmt[i..]) == (if i <= a && a != b then [At(u, a)] else [])
                                        + (if i <= b then [At(u, b)] else [])
    decreases |fmt| - i
  {
    hide Captures, Fits;
    if i < |fmt| {
      CaptureStep(u, fmt, i);
      MatchedCaptures(u, fmt, a, b, i + 1);
    } else {
      NoCaptures(u[i..], fmt[i..]);
    }
  }

  lemma {:induction false} NoCaptures(u: seq<Lexed>, fmt: seq<Pattern>)
    requires fmt == []
    ensures Captures(u, fmt) == []
  {
  }

  lemma {:induction false} MatchedArgs(u: seq<Lexed>, fmt: seq<Pattern>, a: nat, b: nat)
    requires Matches(u, fmt) && a <= b < |fmt| && fmt[|fmt| - 1].Tok? && fmt[|fmt| - 1].t != EMPTY_TOKEN
    requires forall k :: 0 <= k < |fmt| ==> (fmt[k].Tok? <==> k != a && k != b)
    ensures Captures(u, fmt) == if a == b then [At(u, a)] else [At(u, a), At(u, b)]
  {
    MatchedLength(u, fmt);
    MatchedCaptures(u, fmt, a, b, 0);
    assert u[0..] == u && fmt[0..] == fmt;
  }

  /** The index is assigned before the closing parenthesis is looked at. */
  lemma {:induction false} CaptureIndex(u: seq<Lexed>)
    ensures Captures(u, ID_INDEX) == if Matches(u, ID_PERCENT) then [At(u, 2)] else []
    ensures Matches(u, ID_INDEX) <==> Matches(u, ID_PERCENT) && At(u, 3) == RPAREN
  {
    assert ID_INDEX[0..] == ID_INDEX && u[0..] == u;
    assert forall j :: 0 <= j < 3 ==> ID_INDEX[j] == ID_PERCENT[j];
    assert ID_INDEX[3] == Tok(RPAREN);
    IndexFrom(u, 0);
  }

  lemma {:induction false} IndexFrom(u: seq<Lexed>, i: nat)
    requires i <= 4 && forall j :: 0 <= j < i ==> Fits(ID_INDEX[j], At(u, j))
    ensures i <= |u|
    ensures Captures(u[i..], ID_INDEX[i..]) ==
            if i <= 2 && forall j :: i <= j < 3 ==> Fits(ID_INDEX[j], At(u, j)) then [At(u, 2)] else []
    decreases 4 - i
  {
    hide Captures;
    assert i > 0 ==> Fits(ID_INDEX[i - 1], At(u, i - 1));
    if i < 4 && Fits(ID_INDEX[i], At(u, i)) {
      CaptureTurn(u, i, ID_INDEX, i);
      IndexFrom(u, i + 1);
    } else {
      CaptureEnd(u, i, ID_INDEX, i);
    }
  }

  lemma {:induction false} CaptureFirst(u: seq<Lexed>)
    requires u != []
    ensures Captures(u, NAME_OPEN) == [u[0]]
  {
    assert NAME_OPEN[1..] == [Tok(LPAREN)];
    assert Captures(u[1..], [Tok(LPAREN)]) == [] by {
      assert [Tok(LPAREN)][1..] == [];
    }
  }

  // ----- Integers -----

  predicate AllOf(s: string, base: nat) {
    s != "" && forall i :: 0 <= i < |s| ==>
      var d := FormatNumber.DigitValue(s[i]);
      d.Some? && d.value < base
  }

  /**
   strtol with base 0 over a whole token of at most 16 characters, stored as an
   unsigned int; `None` is the fatal error for a malformed integer.
   */
  function TokenInteger(t: Lexed): Option<nat> {
    var s := t.text;
    if |s| == 0 || |s| > 16 then None
    else if |s| > 2 && s[0] == '0' && (s[1] == 'x' || s[1] == 'X') then
      if AllOf(s[2..], 16) then Some(FormatNumber.Evaluate(s[2..], 16) % 0x1_0000_0000) else None
    else if s[0] == '0' then
      if AllOf(s, 8) then Some(FormatNumber.Evaluate(s, 8) % 0x1_0000_0000) else None
    else
      if AllOf(s, 10) then Some(FormatNumber.Evaluate(s, 10) % 0x1_0000_0000) else None
  }

  // ----- One declaration, which ends before a semicolon or at the end -----

  predicate Ends(u: seq<Lexed>) {
    u == [] || u[0].ty.Semicolon?
  }

  /** The index of the first `id_(%i)`; failing that, of the last one without its closing parenthesis. */
  function IndexToken(u: seq<Lexed>, index: Lexed): Lexed {
    if Ends(u) then index
    else if Matches(u, ID_INDEX) then At(u, 2)
    else IndexToken(u[1..], if Matches(u, ID_PERCENT) then At(u, 2) else index)
  }

  /** The first token before a parenthesis, `id_` and `alias_` aside; failing that the last one tried. */
  function NameToken(u: seq<Lexed>, name: Lexed): Lexed {
    if Ends(u) then name
    else if Matches(u, ID_OPEN) || Matches(u, ALIAS_OPEN) then NameToken(u[1..], name)
    else if Matches(u, NAME_OPEN) then u[0]
    else NameToken(u[1..], u[0])
  }

  /** Every `alias_(%s)`, in textual order. */
  function AliasNames(u: seq<Lexed>): seq<string> {
    if Ends(u) then []
    else (if Matches(u, ALIAS_NAME) then [At(u, 2).text] else []) + AliasNames(u[1..])
  }

  datatype Reading = Nothing | Fatal | Declares(f: Function)

  function ReadFunctionOf(u: seq<Lexed>): Reading {
    var index, name := IndexToken(u, EMPTY_TOKEN), NameToken(u, EMPTY_TOKEN);
    if index.text == "" || name.text == "" then Nothing
    else
      match TokenInteger(index)
      case None => Fatal
      case Some(i) => Declares(Function(name.text, i, AliasNames(u)))
  }

  /** The first module declaration, or library declaration once there is a module. */
  function FirstId(u: seq<Lexed>, library: bool): (v: seq<Lexed>)
    ensures Ends(v) || Matches(v, MODULE_NAME) || (library && Matches(v, LIBRARY_NAME))
  {
    if Ends(u) || Matches(u, MODULE_NAME) || (library && Matches(u, LIBRARY_NAME)) then u
    else FirstId(u[1..], library)
  }

  predicate HasLibrary(ms: seq<Module>) {
    ms != [] && ms[|ms| - 1].libraries != []
  }

  function AddModule(ms: seq<Module>, name: string, version: string): seq<Module> {
    ms + [Module(name, version, [])]
  }

  function AddLibrary(ms: seq<Module>, name: string, version: string): seq<Module>
    requires ms != []
  {
    var m := ms[|ms| - 1];
    ms[|ms| - 1 := m.(libraries := m.libraries + [Library(name, version, [])])]
  }

  function AddFunction(ms: seq<Module>, f: Function): seq<Module>
    requires HasLibrary(ms)
  {
    var m := ms[|ms| - 1];
    var l := m.libraries[|m.libraries| - 1];
    ms[|ms| - 1 := m.(libraries := m.libraries[|m.libraries| - 1 := l.(functions := l.functions + [f])])]
  }

  predicate HasFunction(ms: seq<Module>) {
    HasLibrary(ms) &&
    var ls := ms[|ms| - 1].libraries;
    ls[|ls| - 1].functions != []
  }

  /** One more alias of the last function. */
  function AddAlias(ms: seq<Module>, alias: string): seq<Module>
    requires HasFunction(ms)
  {
    var m := ms[|ms| - 1];
    var l := m.libraries[|m.libraries| - 1];
    var n := |l.functions| - 1;
    var fs := l.functions[n := l.functions[n].(aliases := l.functions[n].aliases + [alias])];
    ms[|ms| - 1 := m.(libraries := m.libraries[|m.libraries| - 1 := l.(functions := fs)])]
  }

  lemma {:induction false} AliasOfAdded(ms: seq<Module>, f: Function, alias: string)
    requires HasLibrary(ms)
    ensures HasFunction(AddFunction(ms, f)) &&
            AddAlias(AddFunction(ms, f), alias) == AddFunction(ms, f.(aliases := f.aliases + [alias]))
  {
    var m := ms[|ms| - 1];
    var n := |m.libraries| - 1;
    var l := m.libraries[n];
    var g := f.(aliases := f.aliases + [alias]);
    var added := AddFunction(ms, f);
    assert added[|added| - 1] == m.(libraries := m.libraries[n := l.(functions := l.functions + [f])]);
    assert (l.functions + [f])[|l.functions| := g] == l.functions + [g];
    assert m.libraries[n := l.(functions := l.functions + [f])][n := l.(functions := l.functions + [g])]
        == m.libraries[n := l.(functions := l.functions + [g])];
  }

  /** The table after one declaration; `None` after a fatal error. */
  function ReadDeclarationOf(ms: seq<Module>, u: seq<Lexed>): Option<seq<Module>> {
    var v := FirstId(u, ms != []);
    if !Ends(v) then
      Some(if Matches(v, MODULE_NAME) then AddModule(ms, At(v, 2).text, At(v, 4).text)
           else AddLibrary(ms, At(v, 2).text, At(v, 4).text))
    else if !HasLibrary(ms) then Some(ms)
    else
      match ReadFunctionOf(u)
      case Nothing => Some(ms)
      case Fatal => None
      case Declares(f) => Some(AddFunction(ms, f))
  }

  function BehindSemicolon(u: seq<Lexed>): (v: seq<Lexed>)
    ensures |v| <= |u|
  {
    if u == [] then [] else if u[0].ty.Semicolon? then u[1..] else BehindSemicolon(u[1..])
  }

  /** The next declaration is behind the first semicolon after the current token. */
  function NextDeclarationOf(u: seq<Lexed>): seq<Lexed>
    requires u != []
  {
    BehindSemicolon(u[1..])
  }

  function ReadSymtabOf(ms: seq<Module>, u: seq<Lexed>): Option<seq<Module>>
    decreases |u|
  {
    if u == [] then Some(ms)
    else
      match ReadDeclarationOf(ms, u)
      case None => None
      case Some(ms') => ReadSymtabOf(ms', NextDeclarationOf(u))
  }

  /** One header after the other. */
  function ReadFilesOf(ms: seq<Module>, files: seq<seq<Lexed>>): Option<seq<Module>>
    decreases |files|
  {
    if files == [] then Some(ms)
    else
      match ReadSymtabOf(ms, files[0])
      case None => None
      case Some(ms') => ReadFilesOf(ms', files[1..])
  }

  // ----- The cursor loops, and the table, which grows in place -----

  lemma {:induction false} Unfold(s: seq<Lexed>, p: nat)
    requires p <= |s|
    ensures p < |s| ==> s[p..] != [] && s[p..][0] == s[p] && s[p..][1..] == s[p + 1..]
    ensures Ends(s[p..]) <==> p == |s| || s[p].ty.Semicolon?
  {
  }

  /** The cursor loop of next_declaration_token. */
  method NextDeclaration(s: seq<Lexed>, p: nat) returns (q: nat)
    requires p < |s|
    ensures p < q <= |s| && s[q..] == NextDeclarationOf(s[p..])
  {
    Unfold(s, p);
    q := p + 1;
    while q < |s|
      invariant p < q <= |s| && BehindSemicolon(s[q..]) == NextDeclarationOf(s[p..])
    {
      Unfold(s, q);
      if s[q].ty.Semicolon? {
        return q + 1;
      }
      q := q + 1;
    }
  }

  method FindIndex(s: seq<Lexed>, p: nat) returns (index: Lexed)
    requires p <= |s|
    ensures index == IndexToken(s[p..], EMPTY_TOKEN)
  {
    hide Captures;
    index := EMPTY_TOKEN;
    var q := p;
    while q < |s| && !s[q].ty.Semicolon?
      invariant p <= q <= |s| && IndexToken(s[q..], index) == IndexToken(s[p..], EMPTY_TOKEN)
    {
      Unfold(s, q);
      var matched, args := Scanf(s, q, ID_INDEX);
      CaptureIndex(s[q..]);
      if args != [] {
        index := args[0];
      }
      if matched {
        return;
      }
      q := q + 1;
    }
    Unfold(s, q);
  }

  method FindName(s: seq<Lexed>, p: nat) returns (name: Lexed)
    requires p <= |s|
    ensures name == NameToken(s[p..], EMPTY_TOKEN)
  {
    name := EMPTY_TOKEN;
    var q := p;
    while q < |s| && !s[q].ty.Semicolon?
      invariant p <= q <= |s| && NameToken(s[q..], name) == NameToken(s[p..], EMPTY_TOKEN)
    {
      Unfold(s, q);
      var isId, _ := Scanf(s, q, ID_OPEN);
      var isAlias, _ := Scanf(s, q, ALIAS_OPEN);
      if !isId && !isAlias {
        var matched, args := Scanf(s, q, NAME_OPEN);
        CaptureFirst(s[q..]);
        name := args[0];
        if matched {
          return;
        }
      }
      q := q + 1;
    }
    Unfold(s, q);
  }

  lemma {:induction false} AliasTurn(s: seq<Lexed>, q: nat)
    requires q < |s| && !s[q].ty.Semicolon?
    ensures AliasNames(s[q..]) == if Matches(s[q..], ALIAS_NAME)
                                  then [At(s[q..], 2).text] + AliasNames(s[q + 1..])
                                  else AliasNames(s[q + 1..])
  {
    hide Matches;
    Unfold(s, q);
  }

  lemma {:induction false} NoAliasTurn(s: seq<Lexed>, q: nat)
    requires q <= |s| && (q < |s| ==> s[q].ty.Semicolon?)
    ensures AliasNames(s[q..]) == []
  {
    Unfold(s, q);
  }

  class Symtab {
    var modules: seq<Module>

    constructor ()
      ensures modules == []
    {
      modules := [];
    }

    /** Appends the aliases of a declaration to the function just added. */
    method ReadAliases(s: seq<Lexed>, p: nat, ghost was: seq<Module>, ghost f: Function)
      requires p <= |s| && HasLibrary(was) && modules == AddFunction(was, f)
      modifies this
      ensures modules == AddFunction(was, f.(aliases := f.aliases + AliasNames(s[p..])))
    {
      hide AddFunction, AddAlias, HasFunction, Matches, Captures, AliasNames;
      ghost var g := f;
      var q := p;
      while q < |s| && !s[q].ty.Semicolon?
        invariant p <= q <= |s|
        invariant g == f.(aliases := g.aliases)
        invariant g.aliases + AliasNames(s[q..]) == f.aliases + AliasNames(s[p..])
        invariant modules == AddFunction(was, g)
      {
        AliasTurn(s, q);
        ghost var rest := AliasNames(s[q + 1..]);
        var matched, args := Scanf(s, q, ALIAS_NAME);
        if matched {
          MatchedArgs(s[q..], ALIAS_NAME, 2, 2);
          AliasOfAdded(was, g, args[0].text);
          modules := AddAlias(modules, args[0].text);
          assert g.aliases + ([args[0].text] + rest) == g.aliases + [args[0].text] + rest;
          g := g.(aliases := g.aliases + [args[0].text]);
        }
        q := q + 1;
      }
      NoAliasTurn(s, q);
      assert g.aliases + [] == g.aliases;
    }

    method ReadFunction(s: seq<Lexed>, p: nat) returns (fatal: bool)
      requires p <= |s| && HasLibrary(modules)
      modifies this
      ensures fatal <==> ReadFunctionOf(s[p..]).Fatal?
      ensures modules == match ReadFunctionOf(s[p..])
                         case Declares(f) => AddFunction(old(modules), f)
                         case _ => old(modules)
    {
      var index := FindIndex(s, p);
      if index.text == "" {
        return false;
      }
      var name := FindName(s, p);
      if name.text == "" {
        return false;
      }
      var i := TokenInteger(index);
      if i == None {
        return true;
      }
      var f := Function(name.text, i.value, []);
      modules := AddFunction(modules, f);
      ReadAliases(s, p, old(modules), f);
      assert [] + AliasNames(s[p..]) == AliasNames(s[p..]);
      fatal := false;
    }

    method ReadDeclaration(s: seq<Lexed>, p: nat) returns (fatal: bool)
      requires p <= |s|
      modifies this
      ensures fatal <==> ReadDeclarationOf(old(modules), s[p..]) == None
      ensures !fatal ==> Some(modules) == ReadDeclarationOf(old(modules), s[p..])
    {
      hide Matches, Captures, AddModule, AddLibrary, AddFunction, ReadFunctionOf;
      var q := p;
      while q < |s| && !s[q].ty.Semicolon?
        invariant p <= q <= |s| && modules == old(modules)
        invariant FirstId(s[q..], modules != []) == FirstId(s[p..], modules != [])
      {
        Unfold(s, q);
        var matched, args := Scanf(s, q, MODULE_NAME);
        if matched {
          MatchedArgs(s[q..], MODULE_NAME, 2, 4);
          modules := AddModule(modules, args[0].text, args[1].text);
          return false;
        }
        if modules != [] {
          matched, args := Scanf(s, q, LIBRARY_NAME);
          if matched {
            MatchedArgs(s[q..], LIBRARY_NAME, 2, 4);
            modules := AddLibrary(modules, args[0].text, args[1].text);
            return false;
          }
        }
        q := q + 1;
      }
      Unfold(s, q);
      if modules == [] || modules[|modules| - 1].libraries == [] {
        return false;
      }
      fatal := ReadFunction(s, p);
    }

    /** read_symtab; a fatal error ends the program. */
    method ReadSymtab(s: seq<Lexed>) returns (fatal: bool)
      modifies this
      ensures fatal <==> ReadSymtabOf(old(modules), s) == None
      ensures !fatal ==> Some(modules) == ReadSymtabOf(old(modules), s)
    {
      var p := 0;
      assert s[0..] == s;
      while p < |s|
        invariant p <= |s| && ReadSymtabOf(modules, s[p..]) == ReadSymtabOf(old(modules), s)
      {
        Unfold(s, p);
        fatal := ReadDeclaration(s, p);
        if fatal {
          return;
        }
        p := NextDeclaration(s, p);
      }
      fatal := false;
    }
  }
}
