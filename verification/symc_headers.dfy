/**
 Headers as they are written - `MODULE_ID(name, version);`,
 `LIBRARY_ID(name, version);`, `id_(index) type name(parameters) alias_(name);` -
 and the table they describe, stated without cursors and token patterns.
 */
module SymcHeaders {
  import opened Common
  import opened Lexer
  import opened LexerLaws
  import opened SymcRead

  datatype TailItem = Plain(t: Lexed) | AliasOf(name: Lexed)

  datatype Declaration =
    | ModuleId(before: seq<Lexed>, name: Lexed, version: Lexed, behind: seq<Lexed>)
    | LibraryId(before: seq<Lexed>, name: Lexed, version: Lexed, behind: seq<Lexed>)
    | FunctionId(index: Lexed, ty: seq<Lexed>, name: Lexed, tail: seq<TailItem>)
    | Other(tokens: seq<Lexed>)
    | Blank

  // ----- What is written, in words and punctuators -----

  function Word(w: string): Lexed {
    Lexed(Identifier, w)
  }

  function Opening(): Lexed {
    Lexed(LParen, "(")
  }

  function Closing(): Lexed {
    Lexed(RParen, ")")
  }

  function ItemTokens(item: TailItem): seq<Lexed> {
    match item
    case Plain(t) => [t]
    case AliasOf(name) => [Word("alias_"), Opening(), name, Closing()]
  }

  function TailTokens(tail: seq<TailItem>): seq<Lexed> {
    if tail == [] then [] else ItemTokens(tail[0]) + TailTokens(tail[1..])
  }

  function TailAliases(tail: seq<TailItem>): seq<string> {
    if tail == [] then []
    else (if tail[0].AliasOf? then [tail[0].name.text] else []) + TailAliases(tail[1..])
  }

  function Tokens(d: Declaration): seq<Lexed> {
    match d
    case ModuleId(before, name, version, behind) =>
      before + ([Word("MODULE_ID"), Opening(), name, Lexed(Comma, ","), version, Closing()] + behind)
    case LibraryId(before, name, version, behind) =>
      before + ([Word("LIBRARY_ID"), Opening(), name, Lexed(Comma, ","), version, Closing()] + behind)
    case FunctionId(index, ty, name, tail) =>
      [Word("id_"), Opening(), index, Closing()] + (ty + ([name, Opening()] + TailTokens(tail)))
    case Other(tokens) => tokens
    case Blank => []
  }

  /** The tokens of a header, each declaration with its semicolon, and what trails the last one. */
  function Stream(ds: seq<Declaration>, trailer: seq<Lexed>): seq<Lexed> {
    if ds == [] then trailer else Tokens(ds[0]) + ([Lexed(Semicolon, ";")] + Stream(ds[1..], trailer))
  }

  /** No semicolon, and neither of the two words that open a module or a library. */
  predicate Ordinary(t: Lexed) {
    !t.ty.Semicolon? && t != Word("MODULE_ID") && t != Word("LIBRARY_ID")
  }

  predicate AllOrdinary(ts: seq<Lexed>) {
    forall i :: 0 <= i < |ts| ==> Ordinary(ts[i])
  }

  ghost predicate GoodItem(item: TailItem) {
    match item
    case Plain(t) => Ordinary(t) && t != Word("alias_")
    case AliasOf(name) => Ordinary(name) && name != Word("alias_")
  }

  ghost predicate WellShaped(d: Declaration) {
    match d
    case ModuleId(before, name, version, behind) =>
      AllOrdinary(before) && Ordinary(name) && version.ty.Integer? && AllOrdinary(behind)
    case LibraryId(before, name, version, behind) =>
      AllOrdinary(before) && Ordinary(name) && version.ty.Integer? && AllOrdinary(behind)
    case FunctionId(index, ty, name, tail) =>
      && index.ty.Integer? && index.text != ""
      && AllOrdinary(ty) && Opening() !in ty
      && Ordinary(name) && name.text != "" && name != Word("id_") && name != Word("alias_") && name != Opening()
      && forall i :: 0 <= i < |tail| ==> GoodItem(tail[i])
    case Other(tokens) => tokens != [] && AllOrdinary(tokens) && Word("id_") !in tokens
    case Blank => true
  }

  /** What one declaration adds to the table; `None` is the fatal malformed index. */
  function Declare(ms: seq<Module>, d: Declaration): Option<seq<Module>> {
    match d
    case ModuleId(_, name, version, _) => Some(AddModule(ms, name.text, version.text))
    case LibraryId(_, name, version, _) =>
      Some(if ms == [] then ms else AddLibrary(ms, name.text, version.text))
    case FunctionId(index, ty, name, tail) =>
      if !HasLibrary(ms) then Some(ms)
      else
        var i := TokenInteger(index);
        if i == None then None
        else Some(AddFunction(ms, Function(name.text, i.value, TailAliases(tail))))
    case Other(_) => Some(ms)
    case Blank => Some(ms)
  }

  function DeclareAll(ms: seq<Module>, ds: seq<Declaration>): Option<seq<Module>>
    decreases |ds|
  {
    if ds == [] then Some(ms)
    else
      match Declare(ms, ds[0])
      case None => None
      case Some(ms') => DeclareAll(ms', ds[1..])
  }

  /** An empty declaration swallows the one after it. */
  function Heard(ds: seq<Declaration>): seq<Declaration> {
    if ds == [] then []
    else if ds[0].Blank? then (if |ds| == 1 then [] else Heard(ds[2..]))
    else [ds[0]] + Heard(ds[1..])
  }

  // ----- Finding the pieces -----

  lemma {:induction false} EndsHere(d: seq<Lexed>, rest: seq<Lexed>)
    requires Ends(rest) && forall i :: 0 <= i < |d| ==> !d[i].ty.Semicolon?
    ensures d == [] ==> d + rest == rest
    ensures d != [] ==> !Ends(d + rest) && (d + rest)[0] == d[0] && (d + rest)[1..] == d[1..] + rest
  {
  }

  /** Ordinary tokens hold no module or library declaration. */
  lemma {:induction false} NoIds(d: seq<Lexed>, rest: seq<Lexed>, library: bool)
    requires AllOrdinary(d)
    ensures FirstId(d + rest, library) == FirstId(rest, library)
    decreases |d|
  {
    if d == [] {
      assert d + rest == rest;
    } else {
      var u := d + rest;
      assert u[0] == d[0] && u[1..] == d[1..] + rest;
      assert !Fits(MODULE_NAME[0], At(u, 0)) && !Fits(LIBRARY_NAME[0], At(u, 0));
      NoIds(d[1..], rest, library);
    }
  }

  lemma {:induction false} Passed(d: seq<Lexed>, rest: seq<Lexed>)
    requires forall i :: 0 <= i < |d| ==> !d[i].ty.Semicolon?
    ensures BehindSemicolon(d + ([SEMICOLON] + rest)) == rest
    decreases |d|
  {
    var u := d + ([SEMICOLON] + rest);
    if d == [] {
      assert u[1..] == rest;
    } else {
      assert u[1..] == d[1..] + ([SEMICOLON] + rest);
      Passed(d[1..], rest);
    }
  }

  lemma {:induction false} NoIndex(d: seq<Lexed>, rest: seq<Lexed>, index: Lexed)
    requires AllOrdinary(d) && ID !in d && Ends(rest)
    ensures IndexToken(d + rest, index) == index
    decreases |d|
  {
    var u := d + rest;
    EndsHere(d, rest);
    if d != [] {
      assert !Fits(ID_INDEX[0], At(u, 0)) && !Fits(ID_PERCENT[0], At(u, 0));
      NoIndex(d[1..], rest, index);
    }
  }

  lemma {:induction false} IndexFound(index: Lexed, rest: seq<Lexed>)
    requires index.ty.Integer?
    ensures IndexToken([ID, LPAREN, index, RPAREN] + rest, EMPTY_TOKEN) == index
  {
    var u := [ID, LPAREN, index, RPAREN] + rest;
    assert At(u, 0) == ID && At(u, 1) == LPAREN && At(u, 2) == index && At(u, 3) == RPAREN;
  }

  /** An index that is not followed by its parenthesis counts as well, if no other `id_` comes. */
  lemma {:induction false} UnclosedIndex(index: Lexed, d: seq<Lexed>, rest: seq<Lexed>)
    requires index.ty.Integer? && index != ID && Ends(rest)
    requires AllOrdinary(d) && ID !in d && d != [] && d[0] != RPAREN
    ensures IndexToken([ID, LPAREN, index] + d + rest, EMPTY_TOKEN) == index
  {
    var u := [ID, LPAREN, index] + d + rest;
    assert At(u, 0) == ID && At(u, 1) == LPAREN && At(u, 2) == index && At(u, 3) == d[0];
    assert !Matches(u, ID_INDEX) by {
      assert !Fits(ID_INDEX[3], At(u, 3));
    }
    assert u[1..] == ([LPAREN, index] + d) + rest;
    NoIndex([LPAREN, index] + d, rest, index);
  }

  /** Tokens not followed by a parenthesis are tried and dropped. */
  lemma {:induction false} NameBehind(d: seq<Lexed>, name: Lexed, rest: seq<Lexed>, last: Lexed)
    requires LPAREN !in d && (forall i :: 0 <= i < |d| ==> !d[i].ty.Semicolon?)
    requires !name.ty.Semicolon? && name != ID && name != ALIAS && name != LPAREN
    ensures NameToken(d + ([name, LPAREN] + rest), last) == name
    decreases |d|
  {
    var u := d + ([name, LPAREN] + rest);
    if d == [] {
      assert u == [name, LPAREN] + rest;
      assert At(u, 0) == name && At(u, 1) == LPAREN;
      assert !Fits(ID_OPEN[0], At(u, 0)) && !Fits(ALIAS_OPEN[0], At(u, 0));
    } else {
      assert u[0] == d[0] && u[1..] == d[1..] + ([name, LPAREN] + rest);
      assert At(u, 1) != LPAREN;
      assert !Fits(ID_OPEN[1], At(u, 1)) && !Fits(ALIAS_OPEN[1], At(u, 1)) && !Fits(NAME_OPEN[1], At(u, 1));
      NameBehind(d[1..], name, rest, d[0]);
    }
  }

  lemma {:induction false} NameFound(index: Lexed, ty: seq<Lexed>, name: Lexed, rest: seq<Lexed>)
    requires index.ty.Integer?
    requires LPAREN !in ty && (forall i :: 0 <= i < |ty| ==> !ty[i].ty.Semicolon?)
    requires !name.ty.Semicolon? && name != ID && name != ALIAS && name != LPAREN
    ensures NameToken([ID, LPAREN, index, RPAREN] + (ty + ([name, LPAREN] + rest)), EMPTY_TOKEN) == name
  {
    var u := [ID, LPAREN, index, RPAREN] + (ty + ([name, LPAREN] + rest));
    var d := [index, RPAREN] + ty;
    var v := d + ([name, LPAREN] + rest);
    assert At(u, 0) == ID && At(u, 1) == LPAREN;
    assert Matches(u, ID_OPEN);
    assert u[1..] == [LPAREN] + v;
    assert At(u[1..], 0) == LPAREN && At(u[1..], 1) == index;
    assert !Fits(ID_OPEN[0], At(u[1..], 0)) && !Fits(ALIAS_OPEN[0], At(u[1..], 0));
    assert !Fits(NAME_OPEN[1], At(u[1..], 1));
    assert u[1..][1..] == v;
    NameBehind(d, name, rest, LPAREN);
  }

  lemma {:induction false} NoAliases(d: seq<Lexed>, rest: seq<Lexed>)
    requires forall i :: 0 <= i < |d| ==> !d[i].ty.Semicolon? && (d[i] != ALIAS || At(d + rest, i + 1) != LPAREN)
    ensures AliasNames(d + rest) == AliasNames(rest)
    decreases |d|
  {
    var u := d + rest;
    if d == [] {
      assert u == rest;
    } else {
      assert u[0] == d[0] && u[1..] == d[1..] + rest;
      assert !Fits(ALIAS_NAME[0], At(u, 0)) || !Fits(ALIAS_NAME[1], At(u, 1)) by {
        assert At(u, 0) == d[0];
      }
      forall i | 0 <= i < |d[1..]|
        ensures d[1..][i] != ALIAS || At(d[1..] + rest, i + 1) != LPAREN
      {
        assert At(d[1..] + rest, i + 1) == At(u, i + 2);
      }
      NoAliases(d[1..], rest);
    }
  }

  lemma {:induction false} ItemFound(item: TailItem, more: seq<Lexed>)
    requires GoodItem(item)
    ensures AliasNames(ItemTokens(item) + more)
         == (if item.AliasOf? then [item.name.text] else []) + AliasNames(more)
  {
    var u := ItemTokens(item) + more;
    if item.AliasOf? {
      assert At(u, 0) == ALIAS && At(u, 1) == LPAREN && At(u, 2) == item.name && At(u, 3) == RPAREN;
      assert Matches(u, ALIAS_NAME);
      var d := [LPAREN, item.name, RPAREN];
      assert u[1..] == d + more;
      NoAliases(d, more);
    } else {
      NoAliases([item.t], more);
      assert [] + AliasNames(more) == AliasNames(more);
    }
  }

  lemma {:induction false} TailFound(tail: seq<TailItem>, rest: seq<Lexed>)
    requires Ends(rest) && forall i :: 0 <= i < |tail| ==> GoodItem(tail[i])
    ensures AliasNames(TailTokens(tail) + rest) == TailAliases(tail)
    decreases |tail|
  {
    hide AliasNames, Matches, GoodItem, ItemTokens;
    if tail == [] {
      assert TailTokens(tail) + rest == rest;
      NoAliasesAtEnd(rest);
    } else {
      var more := TailTokens(tail[1..]) + rest;
      assert TailTokens(tail) + rest == ItemTokens(tail[0]) + more;
      ItemFound(tail[0], more);
      TailFound(tail[1..], rest);
    }
  }

  lemma {:induction false} NoAliasesAtEnd(rest: seq<Lexed>)
    requires Ends(rest)
    ensures AliasNames(rest) == []
  {
  }

  /** Up to the name nothing looks like an alias. */
  lemma {:induction false} NoneBeforeParameters(index: Lexed, ty: seq<Lexed>, name: Lexed, more: seq<Lexed>)
    requires index.ty.Integer? && AllOrdinary(ty) && LPAREN !in ty
    requires Ordinary(name) && name != ALIAS && name != LPAREN
    ensures var d := [ID, LPAREN, index, RPAREN] + (ty + [name]);
            forall i :: 0 <= i < |d| ==> !d[i].ty.Semicolon? && (d[i] != ALIAS || At(d + more, i + 1) != LPAREN)
  {
    var d := [ID, LPAREN, index, RPAREN] + (ty + [name]);
    forall i | 0 <= i < |d|
      ensures !d[i].ty.Semicolon? && (d[i] != ALIAS || At(d + more, i + 1) != LPAREN)
    {
      if 4 <= i < |d| - 1 {
        assert d[i] == ty[i - 4];
        assert At(d + more, i + 1) == d[i + 1];
      }
    }
  }

  lemma {:induction false} AliasesFound(index: Lexed, ty: seq<Lexed>, name: Lexed,
                                        tail: seq<TailItem>, rest: seq<Lexed>)
    requires WellShaped(FunctionId(index, ty, name, tail)) && Ends(rest)
    ensures AliasNames(Tokens(FunctionId(index, ty, name, tail)) + rest) == TailAliases(tail)
  {
    var d := [ID, LPAREN, index, RPAREN] + (ty + [name]);
    var more := [LPAREN] + (TailTokens(tail) + rest);
    assert Tokens(FunctionId(index, ty, name, tail)) + rest == d + more;
    NoneBeforeParameters(index, ty, name, more);
    NoAliases(d, more);
    assert more[1..] == TailTokens(tail) + rest;
    assert !Fits(ALIAS_NAME[0], At(more, 0));
    TailFound(tail, rest);
    assert [] + TailAliases(tail) == TailAliases(tail);
  }

  // ----- Whole headers -----

  lemma {:induction false} FoundId(d: seq<Lexed>, word: Lexed, name: Lexed, version: Lexed,
                                   rest: seq<Lexed>, library: bool)
    requires AllOrdinary(d) && version.ty.Integer?
    requires word == MODULE_ID || (word == LIBRARY_ID && library)
    ensures var v := FirstId(d + ([word, LPAREN, name, COMMA, version, RPAREN] + rest), library);
            !Ends(v) && At(v, 2) == name && At(v, 4) == version
            && (Matches(v, MODULE_NAME) <==> word == MODULE_ID)
  {
    hide Matches;
    var v := [word, LPAREN, name, COMMA, version, RPAREN] + rest;
    NoIds(d, v, library);
    IdMatches(v, word, version);
  }

  lemma {:induction false} IdMatches(v: seq<Lexed>, word: Lexed, version: Lexed)
    requires |v| >= 6 && v[0] == word && v[1] == LPAREN && v[3] == COMMA && v[4] == version && v[5] == RPAREN
    requires version.ty.Integer? && (word == MODULE_ID || word == LIBRARY_ID)
    ensures Matches(v, MODULE_NAME) <==> word == MODULE_ID
    ensures word == LIBRARY_ID ==> Matches(v, LIBRARY_NAME)
  {
    if word == LIBRARY_ID {
      assert !Fits(MODULE_NAME[0], At(v, 0));
    }
  }

  /** A library declaration before any module: the parameters are no function either. */
  lemma {:induction false} EarlyLibrary(d: seq<Lexed>, rest: seq<Lexed>)
    requires Ends(rest) && forall i :: 0 <= i < |d| ==> !d[i].ty.Semicolon? && d[i] != MODULE_ID
    ensures Ends(FirstId(d + rest, false))
    decreases |d|
  {
    EndsHere(d, rest);
    if d != [] {
      assert !Fits(MODULE_NAME[0], At(d + rest, 0));
      EarlyLibrary(d[1..], rest);
    }
  }

  lemma {:induction false} FunctionTokensOrdinary(d: Declaration)
    requires WellShaped(d) && d.FunctionId?
    ensures AllOrdinary(Tokens(d))
  {
    TailOrdinary(d.tail);
  }

  lemma {:induction false} TailOrdinary(tail: seq<TailItem>)
    requires forall i :: 0 <= i < |tail| ==> GoodItem(tail[i])
    ensures AllOrdinary(TailTokens(tail))
    decreases |tail|
  {
    if tail != [] {
      assert GoodItem(tail[0]);
      TailOrdinary(tail[1..]);
    }
  }

  lemma {:induction false} FunctionRead(d: Declaration, rest: seq<Lexed>)
    requires WellShaped(d) && d.FunctionId? && Ends(rest)
    ensures ReadFunctionOf(Tokens(d) + rest) ==
            match TokenInteger(d.index)
            case None => Fatal
            case Some(i) => Declares(Function(d.name.text, i, TailAliases(d.tail)))
  {
    hide IndexToken, NameToken, AliasNames, TailTokens, TailAliases, GoodItem, TokenInteger;
    var more := d.ty + ([d.name, LPAREN] + TailTokens(d.tail));
    assert Tokens(d) + rest == [ID, LPAREN, d.index, RPAREN] + (more + rest);
    IndexFound(d.index, more + rest);
    assert more + rest == d.ty + ([d.name, LPAREN] + (TailTokens(d.tail) + rest));
    assert forall i :: 0 <= i < |d.ty| ==> Ordinary(d.ty[i]);
    NameFound(d.index, d.ty, d.name, TailTokens(d.tail) + rest);
    AliasesFound(d.index, d.ty, d.name, d.tail, rest);
  }

  lemma {:induction false} ModuleRead(ms: seq<Module>, d: Declaration, rest: seq<Lexed>)
    requires WellShaped(d) && d.ModuleId?
    ensures ReadDeclarationOf(ms, Tokens(d) + rest) == Declare(ms, d)
  {
    hide Matches, ReadFunctionOf;
    var more := d.behind + rest;
    FoundId(d.before, MODULE_ID, d.name, d.version, more, ms != []);
    assert Tokens(d) + rest == d.before + ([MODULE_ID, LPAREN, d.name, COMMA, d.version, RPAREN] + more);
  }

  lemma {:induction false} LibraryRead(ms: seq<Module>, d: Declaration, rest: seq<Lexed>)
    requires WellShaped(d) && d.LibraryId? && Ends(rest)
    ensures ReadDeclarationOf(ms, Tokens(d) + rest) == Declare(ms, d)
  {
    hide Matches, ReadFunctionOf;
    if ms == [] {
      EarlyLibrary(Tokens(d), rest);
    } else {
      var more := d.behind + rest;
      FoundId(d.before, LIBRARY_ID, d.name, d.version, more, true);
      assert Tokens(d) + rest == d.before + ([LIBRARY_ID, LPAREN, d.name, COMMA, d.version, RPAREN] + more);
    }
  }

  /** One declaration is read as what it declares. */
  lemma {:induction false} DeclarationRead(ms: seq<Module>, d: Declaration, rest: seq<Lexed>)
    requires WellShaped(d) && Ends(rest)
    ensures ReadDeclarationOf(ms, Tokens(d) + rest) == Declare(ms, d)
  {
    hide Matches, IndexToken, NameToken, AliasNames, Tokens;
    match d
    case ModuleId(_, _, _, _) => ModuleRead(ms, d, rest);
    case LibraryId(_, _, _, _) => LibraryRead(ms, d, rest);
    case FunctionId(_, _, _, _) =>
      FunctionTokensOrdinary(d);
      NoIds(Tokens(d), rest, ms != []);
      FunctionRead(d, rest);
    case _ =>
      PlainTokens(d);
      NoIds(Tokens(d), rest, ms != []);
      NoIndex(Tokens(d), rest, EMPTY_TOKEN);
  }

  lemma {:induction false} PlainTokens(d: Declaration)
    requires WellShaped(d) && (d.Other? || d.Blank?)
    ensures AllOrdinary(Tokens(d)) && ID !in Tokens(d)
  {
  }

  // What the parser stops at after a declaration.
  lemma {:induction false} SemicolonEnds(rest: seq<Lexed>)
    ensures Ends([SEMICOLON] + rest)
  {
  }

  lemma {:induction false} NoSemicolons(d: Declaration)
    requires WellShaped(d)
    ensures forall i :: 0 <= i < |Tokens(d)| ==> !Tokens(d)[i].ty.Semicolon?
  {
    match d
    case ModuleId(before, name, version, behind) =>
    case LibraryId(before, name, version, behind) =>
    case FunctionId(index, ty, name, tail) => FunctionTokensOrdinary(d);
    case Other(tokens) =>
    case Blank =>
  }

  /** Behind a declaration, or behind the one an empty declaration swallows. */
  lemma {:induction false} DeclarationPassed(d: Declaration, rest: seq<Lexed>)
    requires WellShaped(d) && !d.Blank?
    ensures Tokens(d) != [] && NextDeclarationOf(Tokens(d) + ([SEMICOLON] + rest)) == rest
  {
    var ts := Tokens(d);
    NoSemicolons(d);
    Passed(ts[1..], rest);
    assert (ts + ([SEMICOLON] + rest))[1..] == ts[1..] + ([SEMICOLON] + rest);
  }

  lemma {:induction false} TrailerRead(ms: seq<Module>, trailer: seq<Lexed>)
    requires AllOrdinary(trailer) && ID !in trailer
    ensures ReadSymtabOf(ms, trailer) == Some(ms)
  {
    if trailer != [] {
      NoIds(trailer, [], ms != []);
      NoIndex(trailer, [], EMPTY_TOKEN);
      assert trailer + [] == trailer;
      PassedTrailer(trailer[1..]);
    }
  }

  lemma {:induction false} PassedTrailer(trailer: seq<Lexed>)
    requires forall i :: 0 <= i < |trailer| ==> !trailer[i].ty.Semicolon?
    ensures BehindSemicolon(trailer) == []
  {
    if trailer != [] {
      PassedTrailer(trailer[1..]);
    }
  }

  ghost predicate WellShapedHeader(ds: seq<Declaration>, trailer: seq<Lexed>) {
    && (forall i :: 0 <= i < |ds| ==> WellShaped(ds[i]))
    && AllOrdinary(trailer) && Word("id_") !in trailer
  }

  /**
   A header is read as the table its declarations describe, where each empty
   declaration swallows the one after it.
   */
  lemma {:induction false} HeaderRead(ms: seq<Module>, ds: seq<Declaration>, trailer: seq<Lexed>)
    requires WellShapedHeader(ds, trailer)
    ensures ReadSymtabOf(ms, Stream(ds, trailer)) == DeclareAll(ms, Heard(ds))
    decreases |ds|
  {
    hide ReadDeclarationOf, NextDeclarationOf, WellShaped, Declare, Tokens;
    if ds == [] {
      TrailerRead(ms, trailer);
    } else {
      var rest := Stream(ds[1..], trailer);
      var u := Stream(ds, trailer);
      SemicolonEnds(rest);
      DeclarationRead(ms, ds[0], [SEMICOLON] + rest);
      if ds[0].Blank? {
        BlankRead(ms, rest);
        if |ds| == 1 {
          assert rest == trailer;
          BlankLast(ms, trailer);
        } else {
          BlankSwallows(ds[1], Stream(ds[2..], trailer));
          assert ds[1..][1..] == ds[2..];
          HeaderRead(ms, ds[2..], trailer);
        }
      } else {
        DeclarationPassed(ds[0], rest);
        assert Heard(ds)[0] == ds[0] && Heard(ds)[1..] == Heard(ds[1..]);
        match Declare(ms, ds[0])
        case None =>
        case Some(ms') => HeaderRead(ms', ds[1..], trailer);
      }
    }
  }

  // ----- Which declarations are lost -----

  function NonBlank(ds: seq<Declaration>): seq<Declaration> {
    if ds == [] then [] else (if ds[0].Blank? then [] else [ds[0]]) + NonBlank(ds[1..])
  }

  /** Empty declarations directly before place `i`. */
  function BlanksBefore(ds: seq<Declaration>, i: nat): nat
    requires i <= |ds|
  {
    if i == 0 || !ds[i - 1].Blank? then 0 else 1 + BlanksBefore(ds, i - 1)
  }

  /** Every declaration has an even number of empty ones directly before it. */
  ghost predicate EvenBlanks(ds: seq<Declaration>) {
    forall i :: 0 <= i < |ds| && !ds[i].Blank? ==> BlanksBefore(ds, i) % 2 == 0
  }

  /** The same, when an odd number went before `ds` if `odd`. */
  ghost predicate EvenBlanksBehind(ds: seq<Declaration>, odd: bool)
    decreases |ds|
  {
    ds == [] || (if ds[0].Blank? then EvenBlanksBehind(ds[1..], !odd) else !odd && EvenBlanksBehind(ds[1..], false))
  }

  /** What is heard of `ds` behind an empty declaration, or not. */
  function HeardBehind(ds: seq<Declaration>, odd: bool): seq<Declaration> {
    if !odd then Heard(ds) else if ds == [] then [] else Heard(ds[1..])
  }

  lemma {:induction false} HeardIsShorter(ds: seq<Declaration>)
    ensures |Heard(ds)| <= |NonBlank(ds)|
    ensures ds != [] ==> |Heard(ds[1..])| <= |NonBlank(ds)|
    decreases |ds|
  {
    if ds != [] {
      HeardIsShorter(ds[1..]);
      if ds[0].Blank? && |ds| > 1 {
        assert ds[1..][1..] == ds[2..];
      }
    }
  }

  lemma {:induction false} HeardExactly(ds: seq<Declaration>, odd: bool)
    ensures HeardBehind(ds, odd) == NonBlank(ds) <==> EvenBlanksBehind(ds, odd)
    decreases |ds|
  {
    if ds != [] {
      var rest := ds[1..];
      if ds[0].Blank? {
        HeardExactly(rest, !odd);
        BlankTurns(ds, odd);
      } else {
        HeardExactly(rest, false);
        HeardIsShorter(rest);
        if !odd {
          assert Heard(ds)[1..] == Heard(rest) && NonBlank(ds)[1..] == NonBlank(rest);
        }
      }
    }
  }

  /** An empty declaration changes sides. */
  lemma {:induction false} BlankTurns(ds: seq<Declaration>, odd: bool)
    requires ds != [] && ds[0].Blank?
    ensures HeardBehind(ds, odd) == HeardBehind(ds[1..], !odd) && NonBlank(ds) == NonBlank(ds[1..])
  {
    if !odd && |ds| > 1 {
      assert ds[1..][1..] == ds[2..];
    }
  }

  lemma {:induction false} BlanksCounted(ds: seq<Declaration>, n: nat)
    requires n <= |ds|
    ensures EvenBlanksBehind(ds[n..], BlanksBefore(ds, n) % 2 == 1) <==>
            forall i :: n <= i < |ds| && !ds[i].Blank? ==> BlanksBefore(ds, i) % 2 == 0
    decreases |ds| - n
  {
    if n < |ds| {
      BlanksCounted(ds, n + 1);
      assert ds[n..][0] == ds[n] && ds[n..][1..] == ds[n + 1..];
    }
  }

  /** Nothing is lost if and only if every declaration has an even number of empty ones directly before it. */
  lemma {:induction false} NothingLostExactly(ds: seq<Declaration>)
    ensures Heard(ds) == NonBlank(ds) <==> EvenBlanks(ds)
  {
    HeardExactly(ds, false);
    BlanksCounted(ds, 0);
    assert ds[0..] == ds;
  }

  /** One empty declaration swallows the one behind it, two swallow nothing. */
  lemma {:induction false} BlanksSwallow(d: Declaration)
    requires !d.Blank?
    ensures Heard([Blank, d]) == [] && Heard([Blank, Blank, d]) == [d]
  {
    assert [Blank, d][2..] == [] && [Blank, Blank, d][2..] == [d] && [d][1..] == [];
  }

  /** Without empty declarations none is lost. */
  lemma {:induction false} AllHeard(ds: seq<Declaration>)
    requires forall i :: 0 <= i < |ds| ==> !ds[i].Blank?
    ensures Heard(ds) == ds
    decreases |ds|
  {
    if ds != [] {
      AllHeard(ds[1..]);
    }
  }

  // ----- Several headers -----

  /** What a header holds, and what trails its last declaration. */
  datatype Header = Header(ds: seq<Declaration>, trailer: seq<Lexed>)

  function Streams(hs: seq<Header>): seq<seq<Lexed>> {
    if hs == [] then [] else [Stream(hs[0].ds, hs[0].trailer)] + Streams(hs[1..])
  }

  function AllDeclarations(hs: seq<Header>): seq<Declaration> {
    if hs == [] then [] else Heard(hs[0].ds) + AllDeclarations(hs[1..])
  }

  lemma {:induction false} DeclareBoth(ms: seq<Module>, xs: seq<Declaration>, ys: seq<Declaration>)
    ensures DeclareAll(ms, xs + ys) ==
            match DeclareAll(ms, xs)
            case None => None
            case Some(ms') => DeclareAll(ms', ys)
    decreases |xs|
  {
    hide Declare;
    if xs == [] {
      assert xs + ys == ys;
    } else {
      assert (xs + ys)[1..] == xs[1..] + ys;
      if Declare(ms, xs[0]).Some? {
        DeclareBoth(Declare(ms, xs[0]).value, xs[1..], ys);
      }
    }
  }

  /** Headers read one after the other are read as the table all their declarations describe. */
  lemma {:induction false} HeadersRead(ms: seq<Module>, hs: seq<Header>)
    requires forall i :: 0 <= i < |hs| ==> WellShapedHeader(hs[i].ds, hs[i].trailer)
    ensures ReadFilesOf(ms, Streams(hs)) == DeclareAll(ms, AllDeclarations(hs))
    decreases |hs|
  {
    hide WellShapedHeader, ReadSymtabOf, DeclareAll, Heard, Stream;
    if hs == [] {
      NothingDeclared(ms);
    } else {
      HeaderRead(ms, hs[0].ds, hs[0].trailer);
      DeclareBoth(ms, Heard(hs[0].ds), AllDeclarations(hs[1..]));
      var first := DeclareAll(ms, Heard(hs[0].ds));
      if first.Some? {
        HeadersRead(first.value, hs[1..]);
      }
    }
  }

  lemma {:induction false} NothingDeclared(ms: seq<Module>)
    ensures DeclareAll(ms, []) == Some(ms)
  {
  }

  lemma {:induction false} BlankRead(ms: seq<Module>, rest: seq<Lexed>)
    ensures var u := Tokens(Blank) + ([SEMICOLON] + rest);
            u == [SEMICOLON] + rest && NextDeclarationOf(u) == BehindSemicolon(rest)
            && Declare(ms, Blank) == Some(ms)
  {
    assert ([SEMICOLON] + rest)[1..] == rest;
  }

  lemma {:induction false} BlankSwallows(d: Declaration, rest: seq<Lexed>)
    requires WellShaped(d)
    ensures BehindSemicolon(Tokens(d) + ([SEMICOLON] + rest)) == rest
  {
    NoSemicolons(d);
    Passed(Tokens(d), rest);
  }

  lemma {:induction false} BlankLast(ms: seq<Module>, trailer: seq<Lexed>)
    requires AllOrdinary(trailer)
    ensures ReadSymtabOf(ms, BehindSemicolon(trailer)) == Some(ms)
  {
    PassedTrailer(trailer);
  }
}
