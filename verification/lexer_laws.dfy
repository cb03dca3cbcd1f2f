/**
 Laws of the lexer: tokens tile the input, one character of lookahead decides,
 lexing undoes printing, and positions are a fold over the text.
 */
module LexerLaws {
  import opened Lexer

  datatype Lexed = Lexed(ty: TokenType, text: string)

  /** Enumeration up to the end, or up to the first token that is stuck. */
  ghost function Tokens(u: string): seq<Lexed>
    decreases |u|
  {
    var (t, l) := Lexeme(u);
    LexemeResult(u);
    if t.Empty? then []
    else if l == 0 then [Lexed(t, "")]
    else [Lexed(t, u[..l])] + Tokens(u[l..])
  }

  /** Enumeration reaches the end of the input. */
  ghost predicate Clean(u: string) {
    forall x :: x in Tokens(u) ==> !x.ty.ErrorInvalidCharacter?
  }

  lemma {:induction false} CleanStep(u: string)
    requires !Lexeme(u).0.Empty? && Lexeme(u).1 > 0
    ensures Clean(u) <==> Clean(u[Lexeme(u).1..])
  {
    hide Lexeme;
    LexemeResult(u);
    var (t, l) := Lexeme(u);
    assert Tokens(u) == [Lexed(t, u[..l])] + Tokens(u[l..]);
  }

  ghost function Joined(ts: seq<Lexed>): string {
    if ts == [] then "" else ts[0].text + Joined(ts[1..])
  }

  /** What is left to lex after the tokens `ts`. */
  ghost predicate EndsAt(u: string, i: nat) {
    i <= |u| && (i == |u| || Start(u[i]).Reject?)
  }

  /**
   Tokens tile the input: their texts are non-empty and make up the input, up to
   its end or else up to a character no token starts with.
   */
  lemma {:induction false} TokensTile(u: string)
    ensures var ts := Tokens(u);
            && Joined(ts) <= u && EndsAt(u, |Joined(ts)|)
            && (Joined(ts) == u <==> Clean(u))
            && (forall x :: x in ts ==> (x.text == "" <==> x.ty.ErrorInvalidCharacter?))
            && (forall i :: 0 <= i < |ts| - 1 ==> !ts[i].ty.ErrorInvalidCharacter?)
    decreases |u|
  {
    hide Lexeme, Start, Clean;
    LexemeResult(u);
    var (t, l) := Lexeme(u);
    if t.Empty? {
      assert Tokens(u) == [];
      CleanEnds(u);
    } else if l == 0 {
      assert Tokens(u) == [Lexed(t, "")];
      assert Joined(Tokens(u)) == "";
      CleanEnds(u);
    } else {
      var rest := u[l..];
      TokensTile(rest);
      CleanStep(u);
      TilesStep(Lexed(t, u[..l]), Tokens(rest), u, l);
      assert Tokens(u) == [Lexed(t, u[..l])] + Tokens(rest);
    }
  }

  lemma {:induction false} CleanEnds(u: string)
    requires Lexeme(u).1 == 0
    ensures Clean(u) <==> u == ""
  {
    LexemeResult(u);
    if u != "" {
      assert Tokens(u) == [Lexed(ErrorInvalidCharacter, "")];
      assert Tokens(u)[0] in Tokens(u);
    }
  }

  lemma {:induction false} TilesStep(x: Lexed, ts: seq<Lexed>, u: string, l: nat)
    requires l <= |u| && x.text == u[..l] && Joined(ts) <= u[l..] && EndsAt(u[l..], |Joined(ts)|)
    ensures Joined([x] + ts) <= u && EndsAt(u, |Joined([x] + ts)|)
    ensures Joined([x] + ts) == u <==> Joined(ts) == u[l..]
  {
    assert ([x] + ts)[1..] == ts;
    var j := Joined(ts);
    assert u == u[..l] + u[l..];
    assert u[l..][|j|..] == u[l + |j|..];
  }

  /** At a character no token starts with, the next token is the same one again. */
  lemma {:induction false} StuckTokens(s: string, i: nat)
    requires i < |s| && Start(s[i]).Reject?
    ensures Lexeme(s[i..]) == (ErrorInvalidCharacter, 0)
    ensures SignificantAt(s, i) == (ErrorInvalidCharacter, i, 0)
  {
    LexemeResult(s[i..]);
  }

  // ----- Lookahead -----

  lemma {:induction false} ScanAgrees(u: string, v: string, len: nat, ty: TokenType, escape: bool)
    requires Scanning(u, len, ty)
    requires var l := Scan(u, len, ty, escape).1;
             l < |u| && l < |v| && v[..l + 1] == u[..l + 1]
    ensures len <= |v| && Scan(v, len, ty, escape) == Scan(u, len, ty, escape)
    decreases |u| - len
  {
    hide Step, AtEnd, Start;
    var l := Scan(u, len, ty, escape).1;
    assert u[..len] == u[..l + 1][..len] == v[..len];
    assert u[len] == u[..l + 1][len] == v[len];
    StepKeepsScanning(u, len, ty, escape);
    var a := Step(u[..len], ty, escape, u[len]);
    if a.Continue? {
      ScanAgrees(u, v, len + 1, a.ty, a.escape);
    }
  }

  /**
   Two inputs that agree from a token's start through one character past its end
   have the same token there.
   */
  lemma {:induction false} OneCharacterLookahead(u: string, v: string)
    requires var l := Lexeme(u).1;
             l < |u| && l < |v| && v[..l + 1] == u[..l + 1]
    ensures Lexeme(v) == Lexeme(u)
  {
    ScanAgrees(u, v, 0, Empty, false);
  }

  // ----- Lexing undoes printing -----

  /** States that any character outside their token ends. */
  predicate EndsAnywhere(ty: TokenType) {
    !ty.Empty? && !ty.Whitespace? && !ty.StringLit? && !ty.Character? && !ty.Comment?
  }

  lemma {:induction false} SpaceEnds(w: string, ty: TokenType, escape: bool)
    requires w != "" && EndsAnywhere(ty)
    ensures Step(w, ty, escape, ' ') == Return
  {
    hide Grown, Start, Quoted;
    NotGrownBySpace(ty);
  }

  lemma {:induction false} NotGrownBySpace(ty: TokenType)
    ensures Grown(ty, ' ').Empty?
  {
  }

  lemma {:induction false} ReturnEnds(w: string, ty: TokenType, escape: bool, c: char)
    requires w != "" && (ty.Comment? ==> |w| >= 2)
    requires Step(w, ty, escape, c).Return? && !ty.Empty? && !ty.Whitespace?
    ensures EndsAnywhere(ty)
  {
  }

  /** A significant token's own text, alone or before a space, lexes to it. */
  lemma {:induction false} ScanOwnText(u: string, v: string, len: nat, ty: TokenType, escape: bool)
    requires Scanning(u, len, ty)
    requires var (t, l) := Scan(u, len, ty, escape);
             && !IsSkipped(t) && !t.Empty? && !t.ErrorInvalidCharacter?
             && l <= |v| && v[..l] == u[..l]
             && (|v| == l || (v[l] == ' ' && !IsError(t)))
    ensures len <= |v| && Scan(v, len, ty, escape) == Scan(u, len, ty, escape)
    decreases |u| - len
  {
    hide Step, AtEnd, Start;
    var (t, l) := Scan(u, len, ty, escape);
    assert u[..len] == u[..l][..len] == v[..len];
    if len < l {
      assert u[len] == u[..l][len] == v[len];
      StepKeepsScanning(u, len, ty, escape);
      var a := Step(u[..len], ty, escape, u[len]);
      if a.Continue? {
        ScanOwnText(u, v, len + 1, a.ty, a.escape);
      }
    } else {
      OwnTextEnds(u, v, len, ty, escape);
    }
  }

  lemma {:induction false} OwnTextEnds(u: string, v: string, len: nat, ty: TokenType, escape: bool)
    requires Scanning(u, len, ty)
    requires var (t, l) := Scan(u, len, ty, escape);
             && l == len && !IsSkipped(t) && !t.Empty? && !t.ErrorInvalidCharacter?
             && l <= |v| && v[..l] == u[..l]
             && (|v| == l || (v[l] == ' ' && !IsError(t)))
    ensures Scan(v, len, ty, escape) == Scan(u, len, ty, escape)
  {
    hide Step, AtEnd, Start;
    ScanEnds(u, len, ty, escape);
    if |v| == len {
      assert v == v[..len] == u[..len];
    } else {
      SpaceEnds(v[..len], ty, escape);
    }
  }

  lemma {:induction false} AtEndKind(w: string, ty: TokenType)
    requires !IsError(ty) && !ty.Empty? && (ty.Comment? ==> |w| >= 2)
    ensures !IsError(AtEnd(w, ty)) && !IsSkipped(AtEnd(w, ty)) ==> EndsAnywhere(ty)
    ensures EndsAnywhere(ty) ==> AtEnd(w, ty) == ty
  {
  }

  /** A scan that stops where it is returns its state, but for unterminated tokens. */
  lemma {:induction false} ScanEnds(u: string, len: nat, ty: TokenType, escape: bool)
    requires Scanning(u, len, ty)
    requires var (t, l) := Scan(u, len, ty, escape);
             l == len && !IsSkipped(t) && !t.Empty? && !t.ErrorInvalidCharacter?
    ensures len > 0 && Scan(u, len, ty, escape).0 == AtEnd(u[..len], ty)
    ensures !IsError(Scan(u, len, ty, escape).0) ==> EndsAnywhere(ty) && Scan(u, len, ty, escape).0 == ty
  {
    hide Step, Start, AtEnd;
    assert u[..|u|] == u;
    ScanResult(u, len, ty, escape);
    if len < |u| {
      StepKeepsScanning(u, len, ty, escape);
      var a := Step(u[..len], ty, escape, u[len]);
      assert a.Return?;
      ReturnEnds(u[..len], ty, escape, u[len]);
      AtEndKind(u[..len], ty);
    } else {
      AtEndKind(u, ty);
    }
  }

  ghost predicate Kept(x: Lexed) {
    !IsSkipped(x.ty)
  }

  ghost function Filtered(ts: seq<Lexed>): seq<Lexed> {
    if ts == [] then []
    else (if Kept(ts[0]) then [ts[0]] else []) + Filtered(ts[1..])
  }

  /** Lexemes with single spaces between them. */
  ghost function Printed(ts: seq<Lexed>): string {
    if ts == [] then ""
    else if |ts| == 1 then ts[0].text
    else ts[0].text + " " + Printed(ts[1..])
  }

  /** `x` is what its own text lexes to, and also before a space unless it is last. */
  ghost predicate Stable(x: Lexed, last: bool) {
    && Kept(x) && x.text != "" && Lexeme(x.text) == (x.ty, |x.text|)
    && (!last ==> forall v: string {:trigger Lexeme(v)} ::
          |v| > |x.text| && v[..|x.text|] == x.text && v[|x.text|] == ' '
          ==> Lexeme(v) == (x.ty, |x.text|))
  }

  lemma {:induction false} FirstIsStable(u: string)
    requires var (t, l) := Lexeme(u);
             !IsSkipped(t) && !t.Empty? && !t.ErrorInvalidCharacter?
    ensures var (t, l) := Lexeme(u);
            l > 0 && Stable(Lexed(t, u[..l]), IsError(t))
  {
    hide Start, Step;
    LexemeResult(u);
    var (t, l) := Lexeme(u);
    var w := u[..l];
    ScanOwnText(u, w, 0, Empty, false);
    forall v: string | |v| > l && v[..l] == w && v[l] == ' ' && !IsError(t)
      ensures Lexeme(v) == (t, l)
    {
      ScanOwnText(u, v, 0, Empty, false);
    }
  }

  ghost predicate AllStable(ts: seq<Lexed>) {
    ts != [] ==> Stable(ts[0], |ts| == 1) && AllStable(ts[1..])
  }

  lemma {:induction false} KeptAreStable(u: string)
    requires Clean(u)
    ensures AllStable(Filtered(Tokens(u)))
    decreases |u|
  {
    hide Lexeme, Start, Stable;
    LexemeResult(u);
    var (t, l) := Lexeme(u);
    if !t.Empty? {
      var x := Lexed(t, u[..l]);
      assert l > 0 by {
        if l == 0 {
          CleanEnds(u);
        }
      }
      assert Tokens(u) == [x] + Tokens(u[l..]);
      assert Tokens(u)[1..] == Tokens(u[l..]);
      CleanStep(u);
      KeptAreStable(u[l..]);
      if !IsSkipped(t) {
        FirstIsStable(u);
        LexemeResult(u[l..]);
        var rest := Filtered(Tokens(u[l..]));
        assert Filtered(Tokens(u)) == [x] + rest && ([x] + rest)[1..] == rest;
        if IsError(t) {
          assert u[l..] == "" && Tokens(u[l..]) == [];
        } else {
          StableAnyway(x);
        }
      } else {
        assert [] + Filtered(Tokens(u[l..])) == Filtered(Tokens(u[l..]));
      }
    }
  }

  lemma {:induction false} StableAnyway(x: Lexed)
    requires Stable(x, false)
    ensures Stable(x, true)
  {
  }

  lemma {:induction false} SpaceToken(v: string)
    requires |v| >= 2 && v[0] == ' ' && !IsWs(v[1])
    ensures Lexeme(v) == (Whitespace, 1)
  {
    assert Step(v[..0], Empty, false, ' ') == Continue(Whitespace, false);
    assert Step(v[..1], Whitespace, false, v[1]) == Return;
    assert Scan(v, 1, Whitespace, false) == (Whitespace, 1);
  }

  lemma {:induction false} WhitespaceStays(u: string, len: nat)
    requires 0 < len <= |u|
    ensures Scan(u, len, Whitespace, false).0.Whitespace?
    decreases |u| - len
  {
    if len < |u| && IsWs(u[len]) {
      WhitespaceStays(u, len + 1);
    }
  }

  lemma {:induction false} KeptStartsVisibly(u: string)
    requires u != "" && !Lexeme(u).0.Whitespace?
    ensures !IsWs(u[0])
  {
    if IsWs(u[0]) {
      assert Step(u[..0], Empty, false, u[0]) == Continue(Whitespace, false) by {
        assert !IsDigit(u[0]);
      }
      WhitespaceStays(u, 1);
    }
  }

  /** A printed list of stable lexemes starts with its first, then a space. */
  lemma {:induction false} PrintedTokens(x: Lexed, rest: string, u: string)
    requires Stable(x, false) && rest != "" && !IsWs(rest[0])
    requires u == x.text + " " + rest
    ensures Tokens(u) == [x] + ([Lexed(Whitespace, " ")] + Tokens(rest))
  {
    hide Lexeme, Start, IsWs;
    assert u[..|x.text|] == x.text && u[|x.text|] == ' ';
    assert Lexeme(u) == (x.ty, |x.text|);
    LexemeResult(u);
    var v := u[|x.text|..];
    assert v == " " + rest;
    SpaceToken(v);
    assert v[1..] == rest && v[..1] == " ";
    LexemeResult(v);
    assert Tokens(v) == [Lexed(Whitespace, " ")] + Tokens(rest);
  }

  lemma {:induction false} LastToken(x: Lexed)
    requires Stable(x, true)
    ensures Tokens(x.text) == [x]
  {
    hide Start;
    LexemeResult(x.text);
    LexemeResult("");
    assert x.text[|x.text|..] == "" && x.text[..|x.text|] == x.text;
    assert Tokens("") == [];
  }

  lemma {:induction false} RelexStable(ts: seq<Lexed>)
    requires AllStable(ts)
    ensures Filtered(Tokens(Printed(ts))) == ts
    ensures ts != [] ==> Printed(ts) != "" && !IsWs(Printed(ts)[0])
  {
    hide Lexeme, IsWs, Start;
    if ts == [] {
      LexemeResult("");
      assert Tokens("") == [];
    } else {
      var x := ts[0];
      assert Stable(x, |ts| == 1);
      KeptStartsVisibly(x.text);
      if |ts| == 1 {
        LastToken(x);
        assert Filtered([x]) == [x] + Filtered([x][1..]);
      } else {
        RelexStable(ts[1..]);
        var rest := Printed(ts[1..]);
        PrintedTokens(x, rest, Printed(ts));
        FilterTwo(x, Lexed(Whitespace, " "), Tokens(rest));
      }
    }
  }

  lemma {:induction false} FilterTwo(x: Lexed, space: Lexed, ts: seq<Lexed>)
    requires Kept(x) && !Kept(space)
    ensures Filtered([x] + ([space] + ts)) == [x] + Filtered(ts)
  {
    assert ([space] + ts)[1..] == ts;
    assert ([x] + ([space] + ts))[1..] == [space] + ts;
    assert [] + Filtered(ts) == Filtered(ts);
  }

  /**
   Lexing undoes printing: the significant tokens of a clean input, printed with
   single spaces, lex to the same types and texts. The last one may be an
   unterminated string, character or comment.
   */
  lemma {:induction false} LexingUndoesPrinting(u: string)
    requires Clean(u)
    ensures Filtered(Tokens(Printed(Filtered(Tokens(u))))) == Filtered(Tokens(u))
  {
    KeptAreStable(u);
    RelexStable(Filtered(Tokens(u)));
  }

  // ----- Positions -----

  ghost function Newlines(text: string): nat {
    if text == "" then 0
    else Newlines(text[..|text| - 1]) + if text[|text| - 1] == '\n' then 1 else 0
  }

  /** The text behind the last newline. */
  ghost function LastLine(text: string): string {
    if text == "" then ""
    else if text[|text| - 1] == '\n' then ""
    else LastLine(text[..|text| - 1]) + [text[|text| - 1]]
  }

  /** The next column that is 1 modulo 8. */
  ghost function NextStop(column: nat): (stop: nat)
    ensures column < stop <= column + 8 && stop % 8 == 1
    decreases if column % 8 == 0 then 0 else 8 - column % 8
  {
    if column % 8 == 0 then column + 1 else NextStop(column + 1)
  }

  /** One column for each character of a line, except that a tab goes to the next stop. */
  ghost function Columns(line: string): (column: nat)
    ensures column >= 1
  {
    if line == "" then 1
    else
      var before := Columns(line[..|line| - 1]);
      if line[|line| - 1] == '\t' then NextStop(before) else before + 1
  }

  /** A tab leads to the next column that is 1 modulo 8. */
  lemma {:induction false} TabStop(column: int)
    requires column >= 1
    ensures ColumnForChar('\t', column) == NextStop(column)
  {
    var k := (column - 1) / 8;
    assert ColumnForChar('\t', column) == 8 * k + 9;
    assert 8 * k <= column - 1 < 8 * k + 8;
  }

  /**
   A token's line is one plus the newlines before it, its column the fold over the
   text of its line before it, wherever earlier text was cut into tokens.
   */
  lemma {:induction false} PositionIsFold(text: string)
    ensures Behind(ORIGIN, text) == Position(1 + Newlines(text), Columns(LastLine(text)))
  {
    if text != "" {
      var init := text[..|text| - 1];
      PositionIsFold(init);
      TabStop(Columns(LastLine(init)));
      if text[|text| - 1] != '\n' {
        var line := LastLine(init) + [text[|text| - 1]];
        assert line[..|line| - 1] == LastLine(init);
      }
    }
  }
}
