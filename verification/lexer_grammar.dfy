/**
 The languages of the token types, written down without the automaton, and the
 proof that the lexer returns the longest lexeme (section 6.4, paragraph 4 of
 ISO C11). The languages are those of the source: an integer runs over all
 hexadecimal digits and `x`, and the three characters of a slash, an asterisk and
 a slash are a whole comment.
 */
module LexerGrammar {
  import opened Lexer

  datatype Glyphs = No | One(a: char) | Two(a: char, b: char) | Three(a: char, b: char, c: char)

  /** The characters of operators and punctuators; none for the other types. */
  function GlyphsOf(ty: TokenType): Glyphs {
    match ty
    case LParen => One('(') case RParen => One(')') case LBrack => One('[')
    case RBrack => One(']') case LBrace => One('{') case RBrace => One('}')
    case Inc => Two('+', '+') case Dec => Two('-', '-') case Dot => One('.')
    case DotDot => Two('.', '.') case Ellipsis => Three('.', '.', '.') case Dereference => Two('-', '>')
    case Conditional => One('?') case Colon => One(':') case ColonColon => Two(':', ':')
    case Semicolon => One(';') case Backslash => One('\\') case Assign => One('=')
    case AssignBitOr => Two('|', '=') case AssignBitXor => Two('^', '=')
    case AssignBitAnd => Two('&', '=') case AssignShl => Three('<', '<', '=')
    case AssignSar => Three('>', '>', '=') case AssignAdd => Two('+', '=')
    case AssignSub => Two('-', '=') case AssignMul => Two('*', '=') case AssignDiv => Two('/', '=')
    case AssignMod => Two('%', '=') case Comma => One(',') case Or => Two('|', '|')
    case And => Two('&', '&') case Not => One('!') case BitOr => One('|')
    case BitXor => One('^') case BitNot => One('~') case Ampersand => One('&')
    case Shl => Two('<', '<') case Sar => Two('>', '>') case Plus => One('+')
    case Minus => One('-') case Asterisk => One('*') case Div => One('/')
    case Mod => One('%') case Eq => Two('=', '=') case Ne => Two('!', '=')
    case Gt => One('>') case Ge => Two('>', '=') case Lt => One('<')
    case Le => Two('<', '=') case NumSign => One('#') case NumSignNumSign => Two('#', '#')
    case _ => No
  }

  function Text(g: Glyphs): string {
    match g
    case No => ""
    case One(a) => [a]
    case Two(a, b) => [a, b]
    case Three(a, b, c) => [a, b, c]
  }

  function Longer(g: Glyphs, c: char): Glyphs {
    match g
    case No => One(c)
    case One(a) => Two(a, c)
    case _ => Three(g.a, g.b, c)
  }

  function Spelling(ty: TokenType): string {
    Text(GlyphsOf(ty))
  }

  predicate IsSpelled(ty: TokenType) {
    GlyphsOf(ty) != No
  }

  // ----- The alphabet, character by character -----

  predicate Digit(c: char) {
    c in "0123456789"
  }

  /** The letters, the underscore, and bytes that are not ASCII. */
  predicate Letter(c: char) {
    c in "abcdefghijklmnopqrstuvwxyz" || c in "ABCDEFGHIJKLMNOPQRSTUVWXYZ" || c == '_' || c as int >= 128
  }

  /** Digits of all bases, and the letter of the prefix. */
  predicate HexDigit(c: char) {
    c in "0123456789abcdefABCDEFxX"
  }

  predicate Exponent(c: char) {
    c in "eEpP"
  }

  predicate Space(c: char) {
    c in " \t\n\U{0B}\U{0C}\r"
  }

  predicate Newline(c: char) {
    c == '\n'
  }

  lemma {:induction false} DigitClass(c: char)
    ensures IsDigit(c) <==> Digit(c)
  {
  }

  lemma {:induction false} LetterClass(c: char)
    ensures IsIdent(c) <==> Letter(c)
  {
  }

  lemma {:induction false} HexClass(c: char)
    ensures IsHex(c) <==> HexDigit(c)
  {
  }

  lemma {:induction false} ExponentClass(c: char)
    ensures IsExp(c) <==> Exponent(c)
  {
  }

  lemma {:induction false} SpaceClass(c: char)
    ensures IsWs(c) <==> Space(c)
    ensures IsVertWs(c) <==> Newline(c)
  {
  }

  /** The character classes of the lexer are those of the grammar. */
  lemma {:induction false} SameClasses()
    ensures forall c: char :: IsDigit(c) <==> Digit(c)
    ensures forall c: char :: IsIdent(c) <==> Letter(c)
    ensures forall c: char :: IsHex(c) <==> HexDigit(c)
    ensures forall c: char :: IsExp(c) <==> Exponent(c)
    ensures forall c: char :: IsWs(c) <==> Space(c)
    ensures forall c: char :: IsVertWs(c) <==> Newline(c)
  {
    hide IsDigit, IsIdent, IsHex, IsExp, IsWs, IsVertWs, Digit, Letter, HexDigit, Exponent, Space, Newline;
    forall c: char
      ensures IsDigit(c) <==> Digit(c)
      ensures IsIdent(c) <==> Letter(c)
      ensures IsHex(c) <==> HexDigit(c)
      ensures IsExp(c) <==> Exponent(c)
      ensures IsWs(c) <==> Space(c)
      ensures IsVertWs(c) <==> Newline(c)
    {
      DigitClass(c);
      LetterClass(c);
      HexClass(c);
      ExponentClass(c);
      SpaceClass(c);
    }
  }

  ghost predicate Spaces(w: string) {
    w != "" && forall j :: 0 <= j < |w| ==> Space(w[j])
  }

  ghost predicate Word(w: string) {
    w != "" && Letter(w[0]) && forall j :: 1 <= j < |w| ==> Letter(w[j]) || Digit(w[j])
  }

  ghost predicate Number(w: string) {
    w != "" && Digit(w[0]) && forall j :: 1 <= j < |w| ==> HexDigit(w[j])
  }

  /** Digits, exponent letters, and signs right behind an exponent letter. */
  predicate Fractional(w: string, j: nat)
    requires 0 < j < |w|
  {
    Digit(w[j]) || Exponent(w[j]) || ((w[j] == '+' || w[j] == '-') && Exponent(w[j - 1]))
  }

  ghost predicate PointAt(w: string, k: nat) {
    && k < |w| && w[k] == '.'
    && (if k == 0 then |w| >= 2 && Digit(w[1]) else Number(w[..k]))
    && forall j :: k < j < |w| ==> Fractional(w, j)
  }

  ghost predicate Fraction(w: string) {
    exists k :: PointAt(w, k)
  }

  /** The character at `j` is escaped by a backslash that is not. */
  predicate Escaped(w: string, j: nat)
    requires j <= |w|
  {
    j >= 2 && w[j - 1] == '\\' && !Escaped(w, j - 1)
  }

  /** A quote, and no unescaped quote in the first `n` characters after it. */
  ghost predicate QuoteOpen(w: string, quote: char, n: nat)
    requires n <= |w|
  {
    n >= 1 && w[0] == quote && forall j :: 1 <= j < n && w[j] == quote ==> Escaped(w, j)
  }

  ghost predicate QuoteClosed(w: string, quote: char) {
    |w| >= 2 && w[|w| - 1] == quote && !Escaped(w, |w| - 1) && QuoteOpen(w, quote, |w| - 1)
  }

  ghost predicate LineComment(w: string, n: nat)
    requires n <= |w|
  {
    n >= 2 && w[0] == '/' && w[1] == '/' && forall j :: 2 <= j < n ==> !Newline(w[j])
  }

  predicate CommentEndsAt(w: string, j: nat)
    requires 2 <= j < |w|
  {
    w[j - 1] == '*' && w[j] == '/'
  }

  ghost predicate BlockComment(w: string, n: nat)
    requires n <= |w|
  {
    n >= 2 && w[0] == '/' && w[1] == '*' && forall j :: 2 <= j < n ==> !CommentEndsAt(w, j)
  }

  ghost predicate CommentClosed(w: string) {
    |w| >= 3 && var n := |w| - 1;
    || (LineComment(w, n) && Newline(w[n]))
    || (BlockComment(w, n) && CommentEndsAt(w, n))
  }

  /** The lexemes of a token type. */
  ghost predicate InLanguage(w: string, ty: TokenType) {
    if ty.Whitespace? then Spaces(w)
    else if ty.Identifier? then Word(w)
    else if ty.Integer? then Number(w)
    else if ty.Float? then Fraction(w)
    else if ty.StringLit? then QuoteClosed(w, '"')
    else if ty.Character? then QuoteClosed(w, '\'')
    else if ty.Comment? then CommentClosed(w) || LineComment(w, |w|)
    else IsSpelled(ty) && w == Spelling(ty)
  }

  /** Text that begins a token of this kind and never ends. */
  ghost predicate Unterminated(w: string, ty: TokenType) {
    || (ty.ErrorEndOfString? && QuoteOpen(w, '"', |w|))
    || (ty.ErrorEndOfCharacter? && QuoteOpen(w, '\'', |w|))
    || (ty.ErrorEndOfComment? && BlockComment(w, |w|))
  }

  // ----- The automaton on a whole text -----

  datatype Reached = Live(ty: TokenType, escape: bool) | Done(ty: TokenType) | Dead

  ghost function After(r: Reached, w: string, c: char): Reached
    requires r.Live? ==> Scanning(w, |w|, r.ty)
  {
    if r.Live? then
      match Step(w, r.ty, r.escape, c)
      case Continue(t, e) => Live(t, e)
      case Finish(t) => Done(t)
      case _ => Dead
    else Dead
  }

  lemma {:induction false} AfterScans(r: Reached, w: string, c: char)
    requires r.Live? ==> Scanning(w, |w|, r.ty)
    ensures After(r, w, c).Live? ==> Scanning(w + [c], |w| + 1, After(r, w, c).ty)
  {
    if r.Live? {
      var u := w + [c];
      assert u[..|w|] == w;
      StepKeepsScanning(u, |w|, r.ty, r.escape);
    }
  }

  /** The state after all of `w`. */
  ghost function Run(w: string): (r: Reached)
    ensures r.Live? ==> Scanning(w, |w|, r.ty)
  {
    if w == "" then Live(Empty, false)
    else
      var init := w[..|w| - 1];
      AfterScans(Run(init), init, w[|w| - 1]);
      assert init + [w[|w| - 1]] == w;
      After(Run(init), init, w[|w| - 1])
  }

  /** What has been read in each live state. */
  ghost predicate LiveText(w: string, ty: TokenType, escape: bool) {
    if ty.Empty? then w == "" && !escape
    else if ty.StringLit? then QuoteOpen(w, '"', |w|) && escape == Escaped(w, |w|)
    else if ty.Character? then QuoteOpen(w, '\'', |w|) && escape == Escaped(w, |w|)
    else if ty.Comment? then (LineComment(w, |w|) || BlockComment(w, |w|)) && !escape
    else InLanguage(w, ty) && !escape
  }

  ghost predicate DoneText(w: string, ty: TokenType) {
    || (ty.StringLit? && QuoteClosed(w, '"'))
    || (ty.Character? && QuoteClosed(w, '\''))
    || (ty.Comment? && CommentClosed(w))
  }

  ghost predicate ReachedText(w: string, r: Reached) {
    match r
    case Live(ty, escape) => LiveText(w, ty, escape)
    case Done(ty) => DoneText(w, ty)
    case Dead => true
  }

  // ----- Each turn of the automaton keeps the description -----

  /** The types a token can start as. */
  lemma {:induction false} StartKinds(c: char)
    requires Start(c).Continue?
    ensures var a := Start(c);
            && !a.escape && !a.ty.Empty? && !a.ty.Comment? && !a.ty.Float?
            && (a.ty.Whitespace? ==> IsWs(c)) && (a.ty.Integer? ==> IsDigit(c))
            && (a.ty.StringLit? ==> c == '"') && (a.ty.Character? ==> c == '\'')
            && (a.ty.Identifier? ==> IsIdent(c))
  {
  }

  predicate IsKind(ty: TokenType) {
    ty.Whitespace? || ty.Integer? || ty.StringLit? || ty.Character? || ty.Identifier?
  }

  lemma {:induction false} StartGlyphLow(c: char)
    requires Start(c).Continue? && c < '+'
    ensures IsKind(Start(c).ty) || GlyphsOf(Start(c).ty) == One(c)
  {
  }

  lemma {:induction false} StartGlyphMiddle(c: char)
    requires Start(c).Continue? && '+' <= c < '<'
    ensures IsKind(Start(c).ty) || GlyphsOf(Start(c).ty) == One(c)
  {
  }

  lemma {:induction false} StartGlyphHigh(c: char)
    requires Start(c).Continue? && c >= '<'
    ensures IsKind(Start(c).ty) || GlyphsOf(Start(c).ty) == One(c)
  {
  }

  lemma {:induction false} StartGlyph(c: char)
    requires Start(c).Continue?
    ensures IsKind(Start(c).ty) || GlyphsOf(Start(c).ty) == One(c)
  {
    hide Start, GlyphsOf;
    if c < '+' {
      StartGlyphLow(c);
    } else if c < '<' {
      StartGlyphMiddle(c);
    } else {
      StartGlyphHigh(c);
    }
  }

  lemma {:induction false} SpelledAreNotKinds(ty: TokenType)
    requires IsSpelled(ty)
    ensures !IsKind(ty) && !ty.Empty? && !ty.Comment? && !ty.Float? && !IsError(ty)
  {
  }

  lemma {:induction false} StartFollows(c: char)
    ensures ReachedText([c], After(Live(Empty, false), "", c))
  {
    hide Start, GlyphsOf;
    StartIsStep(c);
    StartTakesOrRejects(c);
    if Start(c).Continue? {
      StartKinds(c);
      StartGlyph(c);
      if !IsKind(Start(c).ty) {
        SpelledAreNotKinds(Start(c).ty);
      }
    }
  }

  lemma {:induction false} StartTakesOrRejects(c: char)
    ensures Start(c).Continue? || Start(c).Reject?
  {
  }

  lemma {:induction false} StartIsStep(c: char)
    ensures Step("", Empty, false, c) == Start(c)
  {
  }

  lemma {:induction false} WordFollows(w: string, ty: TokenType, c: char)
    requires ty.Whitespace? || ty.Identifier? || ty.Integer?
    requires LiveText(w, ty, false)
    ensures ReachedText(w + [c], After(Live(ty, false), w, c))
  {
    hide Digit, Letter, HexDigit, Exponent, Space, Newline;
    SameClasses();
    var v := w + [c];
    if ty.Integer? && c == '.' {
      assert v[..|w|] == w;
      assert PointAt(v, |w|);
    }
  }

  lemma {:induction false} FloatFollows(w: string, c: char)
    requires LiveText(w, Float, false)
    ensures ReachedText(w + [c], After(Live(Float, false), w, c))
  {
    hide Digit, Letter, HexDigit, Exponent, Space, Newline;
    SameClasses();
    var v := w + [c];
    var k: nat :| PointAt(w, k);
    if After(Live(Float, false), w, c).Live? {
      assert v[..k] == w[..k];
      assert forall j :: k < j < |w| ==> Fractional(w, j) ==> Fractional(v, j);
      assert Fractional(v, |w|);
      assert PointAt(v, k);
    }
  }

  lemma {:induction false} EscapedPrefix(w: string, v: string, j: nat)
    requires j <= |w| && w <= v
    ensures Escaped(w, j) == Escaped(v, j)
  {
    if j >= 2 {
      EscapedPrefix(w, v, j - 1);
    }
  }

  lemma {:induction false} QuoteOpenPrefix(w: string, v: string, quote: char, n: nat)
    requires n <= |w| && w <= v
    ensures QuoteOpen(w, quote, n) == QuoteOpen(v, quote, n)
  {
    forall j | 1 <= j < n
      ensures w[j] == v[j] && Escaped(w, j) == Escaped(v, j)
    {
      EscapedPrefix(w, v, j);
    }
  }

  /** One more character behind an open quote closes it or leaves it open. */
  lemma {:induction false} QuoteExtends(w: string, quote: char, c: char)
    requires QuoteOpen(w, quote, |w|) && quote != '\\'
    ensures var v := w + [c];
            && (QuoteClosed(v, quote) <==> c == quote && !Escaped(w, |w|))
            && (QuoteOpen(v, quote, |v|) <==> !QuoteClosed(v, quote))
            && Escaped(v, |v|) == (c == '\\' && !Escaped(w, |w|))
  {
    var v := w + [c];
    QuoteOpenPrefix(w, v, quote, |w|);
    EscapedPrefix(w, v, |w|);
  }

  lemma {:induction false} QuoteFollows(w: string, ty: TokenType, escape: bool, c: char)
    requires ty.StringLit? || ty.Character?
    requires LiveText(w, ty, escape)
    ensures ReachedText(w + [c], After(Live(ty, escape), w, c))
  {
    QuoteExtends(w, if ty.StringLit? then '"' else '\'', c);
  }

  lemma {:induction false} CommentExtends(w: string, c: char)
    requires |w| >= 2
    ensures var v := w + [c];
            && (LineComment(v, |v|) <==> LineComment(w, |w|) && !IsVertWs(c))
            && (BlockComment(v, |v|) <==> BlockComment(w, |w|) && !(w[|w| - 1] == '*' && c == '/'))
            && (CommentClosed(v) <==>
                || (LineComment(w, |w|) && IsVertWs(c))
                || (BlockComment(w, |w|) && w[|w| - 1] == '*' && c == '/'))
  {
    var v := w + [c];
    forall j | 2 <= j < |w|
      ensures CommentEndsAt(v, j) == CommentEndsAt(w, j)
    {
    }
    assert forall j :: 0 <= j < |w| ==> v[j] == w[j];
    assert CommentEndsAt(v, |w|) == (w[|w| - 1] == '*' && c == '/');
    assert LineComment(v, |w|) == LineComment(w, |w|);
    assert BlockComment(v, |w|) == BlockComment(w, |w|);
  }

  lemma {:induction false} CommentFollows(w: string, c: char)
    requires LiveText(w, Comment, false)
    ensures ReachedText(w + [c], After(Live(Comment, false), w, c))
  {
    CommentExtends(w, c);
  }

  /** States that grow by one character only. */
  predicate GrowsOneWay(ty: TokenType) {
    || ty.Not? || ty.Mod? || ty.Asterisk? || ty.Shl? || ty.Sar? || ty.NumSign? || ty.Colon?
    || ty.Assign? || ty.BitXor? || ty.DotDot?
  }

  predicate GrowsSeveralWays(ty: TokenType) {
    ty.Lt? || ty.Gt? || ty.Ampersand? || ty.BitOr? || ty.Plus? || ty.Minus?
  }

  lemma {:induction false} OneWayGlyphs(ty: TokenType, c: char)
    requires GrowsOneWay(ty) && !Grown(ty, c).Empty?
    ensures GlyphsOf(Grown(ty, c)) == Longer(GlyphsOf(ty), c) && !GlyphsOf(ty).Three?
  {
  }

  lemma {:induction false} SeveralWaysGlyphs(ty: TokenType, c: char)
    requires GrowsSeveralWays(ty) && !Grown(ty, c).Empty?
    ensures GlyphsOf(Grown(ty, c)) == Longer(GlyphsOf(ty), c) && !GlyphsOf(ty).Three?
  {
  }

  lemma {:induction false} OnlyTheseGrow(ty: TokenType, c: char)
    requires !Grown(ty, c).Empty?
    ensures GrowsOneWay(ty) || GrowsSeveralWays(ty)
  {
  }

  lemma {:induction false} GrownGlyphs(ty: TokenType, c: char)
    requires !Grown(ty, c).Empty?
    ensures GlyphsOf(Grown(ty, c)) == Longer(GlyphsOf(ty), c) && !GlyphsOf(ty).Three?
  {
    hide GlyphsOf, Grown, GrowsOneWay, GrowsSeveralWays;
    OnlyTheseGrow(ty, c);
    if GrowsOneWay(ty) {
      OneWayGlyphs(ty, c);
    } else {
      SeveralWaysGlyphs(ty, c);
    }
  }

  /** A grown operator is spelled with the character behind. */
  lemma {:induction false} GrownSpells(ty: TokenType, c: char)
    requires !Grown(ty, c).Empty?
    ensures var t := Grown(ty, c);
            && IsSpelled(t) && Spelling(t) == Spelling(ty) + [c]
            && !IsKind(t) && !t.Empty? && !t.Comment? && !t.Float?
  {
    hide GlyphsOf;
    GrownGlyphs(ty, c);
    TextLonger(GlyphsOf(ty), c);
    SpelledAreNotKinds(Grown(ty, c));
  }

  lemma {:induction false} TextLonger(g: Glyphs, c: char)
    requires !g.Three?
    ensures Text(Longer(g, c)) == Text(g) + [c] && Longer(g, c) != No
  {
  }

  lemma {:induction false} SpelledFollows(w: string, ty: TokenType, c: char)
    requires IsSpelled(ty) && !ty.Dot? && !ty.Div? && w == Spelling(ty)
    ensures ReachedText(w + [c], After(Live(ty, false), w, c))
  {
    hide Grown, GlyphsOf;
    SpelledAreNotKinds(ty);
    if !Grown(ty, c).Empty? {
      GrownSpells(ty, c);
    }
  }

  lemma {:induction false} DotFollows(w: string, c: char)
    requires LiveText(w, Dot, false)
    ensures ReachedText(w + [c], After(Live(Dot, false), w, c))
  {
    hide Digit, Letter, HexDigit, Exponent, Space, Newline;
    SameClasses();
    var v := w + [c];
    if IsDigit(c) {
      assert PointAt(v, 0);
    }
  }

  lemma {:induction false} DivFollows(w: string, c: char)
    requires LiveText(w, Div, false)
    ensures ReachedText(w + [c], After(Live(Div, false), w, c))
  {
  }

  lemma {:induction false} Follows(w: string, ty: TokenType, escape: bool, c: char)
    requires LiveText(w, ty, escape) && Scanning(w, |w|, ty)
    ensures ReachedText(w + [c], After(Live(ty, escape), w, c))
  {
    hide Step, GlyphsOf, ReachedText, After;
    if ty.Empty? {
      StartFollows(c);
      assert w + [c] == [c];
    } else if ty.Whitespace? || ty.Identifier? || ty.Integer? {
      WordFollows(w, ty, c);
    } else if ty.Float? {
      FloatFollows(w, c);
    } else if ty.StringLit? || ty.Character? {
      QuoteFollows(w, ty, escape, c);
    } else if ty.Comment? {
      CommentFollows(w, c);
    } else if ty.Dot? {
      DotFollows(w, c);
    } else if ty.Div? {
      DivFollows(w, c);
    } else {
      SpelledFollows(w, ty, c);
    }
  }

  // ----- Every described text is reached -----

  lemma {:induction false} StartOfKind(c: char)
    ensures IsWs(c) ==> Start(c) == Continue(Whitespace, false)
    ensures IsDigit(c) ==> Start(c) == Continue(Integer, false)
    ensures IsIdent(c) ==> Start(c) == Continue(Identifier, false)
    ensures c == '"' ==> Start(c) == Continue(StringLit, false)
    ensures c == '\'' ==> Start(c) == Continue(Character, false)
  {
  }

  predicate IsBracket(ty: TokenType) {
    ty.LParen? || ty.RParen? || ty.LBrack? || ty.RBrack? || ty.LBrace? || ty.RBrace?
  }

  predicate IsSeparator(ty: TokenType) {
    || ty.Dot? || ty.Conditional? || ty.Colon? || ty.Semicolon? || ty.Backslash? || ty.Comma?
    || ty.NumSign? || ty.Assign?
  }

  lemma {:induction false} StartOfBracket(ty: TokenType)
    requires IsBracket(ty)
    ensures Start(GlyphsOf(ty).a) == Continue(ty, false)
  {
  }

  lemma {:induction false} StartOfSeparator(ty: TokenType)
    requires IsSeparator(ty)
    ensures Start(GlyphsOf(ty).a) == Continue(ty, false)
  {
  }

  lemma {:induction false} StartOfOther(ty: TokenType)
    requires GlyphsOf(ty).One? && !IsBracket(ty) && !IsSeparator(ty)
    ensures Start(GlyphsOf(ty).a) == Continue(ty, false)
  {
  }

  lemma {:induction false} StartOfSpelled(ty: TokenType)
    requires GlyphsOf(ty).One?
    ensures Start(GlyphsOf(ty).a) == Continue(ty, false)
  {
    hide GlyphsOf, Start, IsBracket, IsSeparator;
    if IsBracket(ty) {
      StartOfBracket(ty);
    } else if IsSeparator(ty) {
      StartOfSeparator(ty);
    } else {
      StartOfOther(ty);
    }
  }

  /** The operator without its last character. */
  function Shorter(ty: TokenType): TokenType {
    match ty
    case Inc => Plus case Dec => Minus case DotDot => Dot case Ellipsis => DotDot
    case Dereference => Minus case ColonColon => Colon
    case AssignBitOr => BitOr case AssignBitXor => BitXor case AssignBitAnd => Ampersand
    case AssignShl => Shl case AssignSar => Sar case AssignAdd => Plus case AssignSub => Minus
    case AssignMul => Asterisk case AssignDiv => Div case AssignMod => Mod
    case Or => BitOr case And => Ampersand case Shl => Lt case Sar => Gt
    case Eq => Assign case Ne => Not case Ge => Gt case Le => Lt case NumSignNumSign => NumSign
    case _ => ty
  }

  function LastGlyph(g: Glyphs): char
    requires g != No
  {
    match g
    case One(a) => a
    case Two(a, b) => b
    case Three(a, b, c) => c
  }

  predicate IsLong(ty: TokenType) {
    GlyphsOf(ty).Two? || GlyphsOf(ty).Three?
  }

  predicate IsBitAssigning(ty: TokenType) {
    ty.AssignBitOr? || ty.AssignBitXor? || ty.AssignBitAnd? || ty.AssignMod?
  }

  predicate IsAssigning(ty: TokenType) {
    ty.AssignAdd? || ty.AssignSub? || ty.AssignMul?
  }

  predicate IsEquality(ty: TokenType) {
    ty.Eq? || ty.Ne?
  }

  predicate IsRelational(ty: TokenType) {
    ty.Ge? || ty.Le?
  }

  predicate IsDoubled(ty: TokenType) {
    ty.Inc? || ty.Dec? || ty.ColonColon? || ty.NumSignNumSign?
  }

  predicate IsLogical(ty: TokenType) {
    ty.Or? || ty.And?
  }

  predicate IsShift(ty: TokenType) {
    ty.Shl? || ty.Sar?
  }

  predicate IsTriple(ty: TokenType) {
    ty.Ellipsis? || ty.AssignShl? || ty.AssignSar?
  }

  predicate IsOtherLong(ty: TokenType) {
    ty.Dereference? || ty.DotDot? || ty.AssignDiv?
  }

  lemma {:induction false} TwoKinds(ty: TokenType)
    requires GlyphsOf(ty).Two?
    ensures IsBitAssigning(ty) || IsAssigning(ty) || IsEquality(ty) || IsRelational(ty) || IsDoubled(ty)
         || IsLogical(ty) || IsShift(ty) || IsOtherLong(ty)
  {
  }

  lemma {:induction false} ThreeKinds(ty: TokenType)
    requires GlyphsOf(ty).Three?
    ensures IsTriple(ty)
  {
  }

  /** The operator without its last character is spelled so, and `Grown` gives that character back. */
  predicate Shortens(ty: TokenType) {
    var g, h := GlyphsOf(ty), GlyphsOf(Shorter(ty));
    && g != No && h != No && !h.Three? && g == Longer(h, LastGlyph(g))
    && (ty.DotDot? || ty.AssignDiv? || Grown(Shorter(ty), LastGlyph(g)) == ty)
  }

  lemma {:induction false} BitAssigningShortens(ty: TokenType)
    requires IsBitAssigning(ty)
    ensures Shortens(ty)
  {
  }

  lemma {:induction false} AssigningShortens(ty: TokenType)
    requires IsAssigning(ty)
    ensures Shortens(ty)
  {
  }

  lemma {:induction false} EqualityShortens(ty: TokenType)
    requires IsEquality(ty)
    ensures Shortens(ty)
  {
  }

  lemma {:induction false} RelationalShortens(ty: TokenType)
    requires IsRelational(ty)
    ensures Shortens(ty)
  {
  }

  lemma {:induction false} DoubledShortens(ty: TokenType)
    requires IsDoubled(ty)
    ensures Shortens(ty)
  {
  }

  lemma {:induction false} LogicalShortens(ty: TokenType)
    requires IsLogical(ty)
    ensures Shortens(ty)
  {
  }

  lemma {:induction false} ShiftShortens(ty: TokenType)
    requires IsShift(ty)
    ensures Shortens(ty)
  {
  }

  lemma {:induction false} TripleShortens(ty: TokenType)
    requires IsTriple(ty)
    ensures Shortens(ty)
  {
  }

  lemma {:induction false} OtherLongShortens(ty: TokenType)
    requires IsOtherLong(ty)
    ensures Shortens(ty)
  {
  }

  lemma {:induction false} LongShortens(ty: TokenType)
    requires IsLong(ty)
    ensures Shortens(ty)
  {
    hide Shortens, GlyphsOf, IsBitAssigning, IsAssigning, IsEquality, IsRelational, IsDoubled,
      IsLogical, IsShift, IsOtherLong, IsTriple;
    if GlyphsOf(ty).Three? {
      ThreeKinds(ty);
      TripleShortens(ty);
    } else {
      TwoKinds(ty);
      if IsBitAssigning(ty) {
        BitAssigningShortens(ty);
      } else if IsAssigning(ty) {
        AssigningShortens(ty);
      } else if IsEquality(ty) {
        EqualityShortens(ty);
      } else if IsRelational(ty) {
        RelationalShortens(ty);
      } else if IsDoubled(ty) {
        DoubledShortens(ty);
      } else if IsLogical(ty) {
        LogicalShortens(ty);
      } else if IsShift(ty) {
        ShiftShortens(ty);
      } else {
        OtherLongShortens(ty);
      }
    }
  }

  lemma {:induction false} ShorterGlyphs(ty: TokenType)
    requires IsLong(ty)
    ensures !GlyphsOf(Shorter(ty)).Three?
    ensures GlyphsOf(ty) == Longer(GlyphsOf(Shorter(ty)), LastGlyph(GlyphsOf(ty)))
    ensures IsSpelled(Shorter(ty))
  {
    hide GlyphsOf, Shorter;
    LongShortens(ty);
  }

  /** `Grown` undoes `Shorter`. */
  lemma {:induction false} ShorterGrows(ty: TokenType)
    requires IsLong(ty) && !ty.DotDot? && !ty.AssignDiv?
    ensures Grown(Shorter(ty), LastGlyph(GlyphsOf(ty))) == ty
  {
    hide GlyphsOf, Shorter, Grown;
    LongShortens(ty);
  }

  lemma {:induction false} SpecialGlyphs()
    ensures Shorter(DotDot).Dot? && GlyphsOf(DotDot) == Two('.', '.')
    ensures Shorter(AssignDiv).Div? && GlyphsOf(AssignDiv) == Two('/', '=')
  {
  }

  /** The state before the last character of a live text. */
  lemma {:induction false} WordPrecedes(w: string, ty: TokenType)
    returns (t0: TokenType)
    requires ty.Whitespace? || ty.Identifier? || ty.Integer?
    requires LiveText(w, ty, false)
    ensures var init, c := w[..|w| - 1], w[|w| - 1];
            && LiveText(init, t0, false) && !t0.Comment? && (t0.Empty? || init != "")
            && Step(init, t0, false, c) == Continue(ty, false)
  {
    hide Digit, Letter, HexDigit, Exponent, Space, Newline;
    SameClasses();
    StartOfKind(w[0]);
    t0 := if |w| == 1 then Empty else ty;
  }

  lemma {:induction false} FloatPrecedes(w: string)
    returns (t0: TokenType)
    requires LiveText(w, Float, false)
    ensures var init, c := w[..|w| - 1], w[|w| - 1];
            && LiveText(init, t0, false) && !t0.Comment? && init != ""
            && Step(init, t0, false, c) == Continue(Float, false)
  {
    hide Digit, Letter, HexDigit, Exponent, Space, Newline;
    SameClasses();
    var init, c := w[..|w| - 1], w[|w| - 1];
    var k: nat :| PointAt(w, k);
    if k == |w| - 1 {
      t0 := Integer;
    } else if |w| == 2 {
      t0 := Dot;
      assert init == ['.'];
    } else {
      t0 := Float;
      assert Fractional(w, |w| - 1);
      assert init[..k] == w[..k];
      forall j | k < j < |init|
        ensures Fractional(init, j)
      {
        assert Fractional(w, j);
      }
      assert PointAt(init, k);
    }
  }

  lemma {:induction false} QuotePrecedes(w: string, ty: TokenType, r: Reached)
    returns (t0: TokenType, e0: bool)
    requires ty.StringLit? || ty.Character?
    requires ReachedText(w, r) && (r == Done(ty) || (r.Live? && r.ty == ty))
    ensures var init, c := w[..|w| - 1], w[|w| - 1];
            && LiveText(init, t0, e0) && !t0.Comment? && (t0.Empty? || init != "")
            && Step(init, t0, e0, c) == if r.Live? then Continue(ty, r.escape) else Finish(ty)
  {
    var init, c := w[..|w| - 1], w[|w| - 1];
    var quote := if ty.StringLit? then '"' else '\'';
    if |w| == 1 {
      StartOfKind(c);
      t0, e0 := Empty, false;
    } else {
      QuoteOpenPrefix(init, w, quote, |init|);
      assert init + [c] == w;
      QuoteExtends(init, quote, c);
      t0, e0 := ty, Escaped(init, |init|);
    }
  }

  lemma {:induction false} CommentPrecedes(w: string, r: Reached)
    returns (t0: TokenType)
    requires ReachedText(w, r) && (r == Done(Comment) || r == Live(Comment, false))
    ensures var init, c := w[..|w| - 1], w[|w| - 1];
            && LiveText(init, t0, false) && (t0.Comment? ==> |init| >= 2)
            && (!t0.Empty? ==> init != "")
            && Step(init, t0, false, c) == if r.Live? then Continue(Comment, false) else Finish(Comment)
  {
    var init, c := w[..|w| - 1], w[|w| - 1];
    if |w| == 2 {
      t0 := Div;
      assert init == ['/'];
    } else {
      assert init + [c] == w;
      CommentExtends(init, c);
      t0 := Comment;
    }
  }

  lemma {:induction false} SpelledPrecedes(w: string, ty: TokenType)
    returns (t0: TokenType)
    requires IsSpelled(ty) && w == Spelling(ty)
    ensures var init, c := w[..|w| - 1], w[|w| - 1];
            && (if t0.Empty? then init == "" else IsSpelled(t0) && init == Spelling(t0) && init != "")
            && !t0.Comment? && Step(init, t0, false, c) == Continue(ty, false)
  {
    hide GlyphsOf, Grown, Shorter;
    var c := w[|w| - 1];
    if GlyphsOf(ty).One? {
      StartOfSpelled(ty);
      StartIsStep(c);
      t0 := Empty;
      assert w[..|w| - 1] == "";
    } else {
      t0 := Shorter(ty);
      ShorterGlyphs(ty);
      TextLonger(GlyphsOf(t0), c);
      SpelledAreNotKinds(t0);
      assert w[..|w| - 1] == Spelling(t0);
      SpecialGlyphs();
      if !ty.DotDot? && !ty.AssignDiv? {
        ShorterGrows(ty);
        SpelledAreNotKinds(ty);
        GrownIsStep(w[..|w| - 1], t0, c, ty);
      }
    }
  }

  lemma {:induction false} GrownIsStep(w: string, t0: TokenType, c: char, ty: TokenType)
    requires Grown(t0, c) == ty && !ty.Empty? && w != ""
    ensures !t0.Empty? && !t0.Comment? && Step(w, t0, false, c) == Continue(ty, false)
  {
  }

  /** The turn that leads to a described text, from the text before it. */
  lemma {:induction false} Precedes(w: string, r: Reached)
    returns (t0: TokenType, e0: bool)
    requires w != "" && !r.Dead? && ReachedText(w, r)
    ensures var init, c := w[..|w| - 1], w[|w| - 1];
            && LiveText(init, t0, e0)
            && (t0.Empty? || init != "") && (t0.Comment? ==> |init| >= 2)
            && Step(init, t0, e0, c) ==
               if r.Live? then Continue(r.ty, r.escape) else Finish(r.ty)
  {
    hide Step, GlyphsOf;
    e0 := false;
    if r.ty.StringLit? || r.ty.Character? {
      t0, e0 := QuotePrecedes(w, r.ty, r);
    } else if r.ty.Comment? {
      t0 := CommentPrecedes(w, r);
    } else if r.ty.Whitespace? || r.ty.Identifier? || r.ty.Integer? {
      t0 := WordPrecedes(w, r.ty);
    } else if r.ty.Float? {
      t0 := FloatPrecedes(w);
    } else {
      t0 := SpelledPrecedes(w, r.ty);
      if !t0.Empty? {
        SpelledAreNotKinds(t0);
      }
    }
  }

  /** The automaton reaches exactly what the descriptions say. */
  lemma {:induction false} RunSound(w: string)
    ensures ReachedText(w, Run(w))
  {
    hide Step, InLanguage, LiveText, DoneText;
    if w == "" {
      EmptyText();
    } else {
      var init := w[..|w| - 1];
      RunSound(init);
      assert init + [w[|w| - 1]] == w;
      if Run(init).Live? {
        Follows(init, Run(init).ty, Run(init).escape, w[|w| - 1]);
      }
    }
  }

  lemma {:induction false} EmptyText()
    ensures LiveText("", Empty, false)
  {
  }

  lemma {:induction false} OnlyEmptyText(r: Reached)
    requires !r.Dead? && ReachedText("", r)
    ensures r == Live(Empty, false)
  {
    hide GlyphsOf;
    if r.Live? && IsSpelled(r.ty) {
      assert Text(GlyphsOf(r.ty)) != "";
    }
  }

  lemma {:induction false} RunComplete(w: string, r: Reached)
    requires !r.Dead? && ReachedText(w, r)
    ensures Run(w) == r
    decreases |w|
  {
    hide Step, InLanguage, LiveText, DoneText;
    if w == "" {
      OnlyEmptyText(r);
    } else {
      var t0, e0 := Precedes(w, r);
      RunComplete(w[..|w| - 1], Live(t0, e0));
    }
  }

  // ----- Longest match -----

  lemma {:induction false} RunStep(u: string, n: nat)
    requires n < |u|
    ensures Run(u[..n + 1]) == After(Run(u[..n]), u[..n], u[n])
  {
    assert u[..n + 1][..n] == u[..n];
  }

  /** Where a scan stops, the automaton stops on the whole text. */
  ghost predicate StopsAt(u: string, t: TokenType, l: nat) {
    && l <= |u|
    && (|| (l == |u| && Run(u).Live? && t == AtEnd(u, Run(u).ty))
        || Run(u[..l]) == Done(t)
        || (l < |u| && Run(u[..l + 1]).Dead? && Run(u[..l]).Live? &&
            if t.ErrorInvalidCharacter? then l == 0 else Run(u[..l]).ty == t && EndsAnywhereOrSpaces(t)))
  }

  predicate EndsAnywhereOrSpaces(ty: TokenType) {
    !ty.Empty? && !ty.StringLit? && !ty.Character? && !ty.Comment?
  }

  lemma {:induction false} ReturningStates(w: string, ty: TokenType, escape: bool, c: char)
    requires ty.Empty? || w != ""
    requires ty.Comment? ==> |w| >= 2
    requires Step(w, ty, escape, c).Return?
    ensures EndsAnywhereOrSpaces(ty)
  {
  }

  lemma {:induction false} ScanRuns(u: string, len: nat, ty: TokenType, escape: bool)
    requires Scanning(u, len, ty) && Run(u[..len]) == Live(ty, escape)
    ensures var (t, l) := Scan(u, len, ty, escape);
            StopsAt(u, t, l)
    decreases |u| - len
  {
    hide Step, AtEnd, Start, Run;
    if len == |u| {
      assert u[..len] == u;
    } else {
      RunStep(u, len);
      StepKeepsScanning(u, len, ty, escape);
      var a := Step(u[..len], ty, escape, u[len]);
      if a.Continue? {
        ScanRuns(u, len + 1, a.ty, a.escape);
      } else if a.Return? {
        ReturningStates(u[..len], ty, escape, u[len]);
      }
    }
  }

  lemma {:induction false} NeverLiveAgain(u: string, n: nat, k: nat)
    requires n < k <= |u| && !Run(u[..n]).Live?
    ensures Run(u[..k]).Dead?
    decreases k
  {
    hide Step;
    RunStep(u, k - 1);
    if n < k - 1 {
      NeverLiveAgain(u, n, k - 1);
    }
  }

  /** States in which the text so far is a lexeme of their type. */
  ghost predicate Accepting(w: string, r: Reached) {
    || r.Done?
    || (r.Live? && !r.ty.Empty? && !r.ty.StringLit? && !r.ty.Character?
        && (r.ty.Comment? ==> LineComment(w, |w|)))
  }

  /** The automaton accepts exactly the languages. */
  lemma {:induction false} AcceptsLanguages(w: string, ty: TokenType)
    ensures InLanguage(w, ty) <==> Accepting(w, Run(w)) && Run(w).ty == ty
  {
    RunSound(w);
    if InLanguage(w, ty) {
      var r := if ty.StringLit? || ty.Character? || (ty.Comment? && CommentClosed(w))
        then Done(ty) else Live(ty, false);
      InLanguageIsNotEmpty(w, ty);
      RunComplete(w, r);
    }
  }

  lemma {:induction false} InLanguageIsNotEmpty(w: string, ty: TokenType)
    requires InLanguage(w, ty)
    ensures !ty.Empty?
  {
  }

  lemma {:induction false} AtEndAccepts(u: string)
    requires u != "" && Run(u).Live?
    ensures var t := AtEnd(u, Run(u).ty);
            && (IsError(t) ==> Unterminated(u, t) && !Accepting(u, Run(u)))
            && (!IsError(t) ==> t == Run(u).ty && Accepting(u, Run(u)))
  {
    RunSound(u);
    if Run(u).ty.Empty? {
      RunComplete(u, Run(u));
    }
  }

  /**
   Longest match: the first token is a lexeme of its type and of no other, and no
   longer prefix of the input is a lexeme of any type. When it is an error, the
   input is unterminated text of that kind, or no prefix of it is a lexeme.
   */
  lemma {:induction false} LongestMatch(u: string)
    requires u != ""
    ensures var (t, l) := Lexeme(u);
            && (forall ty :: InLanguage(u[..l], ty) <==> !IsError(t) && ty == t)
            && (forall k, ty :: l < k <= |u| ==> !InLanguage(u[..k], ty))
            && (IsError(t) && !t.ErrorInvalidCharacter? ==> l == |u| && Unterminated(u, t))
            && (t.ErrorInvalidCharacter? ==> l == 0)
  {
    hide Step, AtEnd, Start, InLanguage, Accepting, Run, Unterminated;
    LexemeResult(u);
    EmptyRun(u);
    ScanRuns(u, 0, Empty, false);
    var (t, l) := Lexeme(u);
    assert l == |u| ==> u[..l] == u;
    forall k, ty | l < k <= |u|
      ensures !InLanguage(u[..k], ty)
    {
      AcceptsLanguages(u[..k], ty);
      DeadBeyond(u, t, l, k);
    }
    forall ty
      ensures InLanguage(u[..l], ty) <==> !IsError(t) && ty == t
    {
      AcceptsLanguages(u[..l], ty);
      StopsAccepting(u, t, l);
    }
    StopsAccepting(u, t, l);
  }

  lemma {:induction false} EmptyRun(u: string)
    ensures Run(u[..0]) == Live(Empty, false)
  {
  }

  lemma {:induction false} DeadBeyond(u: string, t: TokenType, l: nat, k: nat)
    requires StopsAt(u, t, l) && l < k <= |u|
    ensures !Accepting(u[..k], Run(u[..k]))
  {
    hide Run;
    if Run(u[..l]).Live? {
      if l + 1 < k {
        NeverLiveAgain(u, l + 1, k);
      }
    } else {
      NeverLiveAgain(u, l, k);
    }
  }

  lemma {:induction false} StopsAccepting(u: string, t: TokenType, l: nat)
    requires u != "" && StopsAt(u, t, l)
    requires t.ErrorInvalidCharacter? <==> l == 0
    requires IsError(t) && !t.ErrorInvalidCharacter? ==> l == |u|
    ensures Accepting(u[..l], Run(u[..l])) <==> !IsError(t)
    ensures Accepting(u[..l], Run(u[..l])) ==> Run(u[..l]).ty == t
    ensures IsError(t) && !t.ErrorInvalidCharacter? ==> Unterminated(u, t)
  {
    hide Run, AtEnd, Unterminated;
    assert u[..|u|] == u;
    RunSound(u[..l]);
    EmptyRun(u);
    if l == |u| && Run(u).Live? {
      AtEndAccepts(u);
    }
  }

  // ----- Comments as the standard has them -----

  /** Section 6.4.9 of ISO C11: the asterisk that opens a comment does not close it. */
  ghost predicate StandardBlockComment(w: string) {
    && |w| >= 4 && w[0] == '/' && w[1] == '*' && CommentEndsAt(w, |w| - 1)
    && forall j :: 3 <= j < |w| - 1 ==> !CommentEndsAt(w, j)
  }

  /** The block comments are the standard's, but for those that begin with the three characters of the short one. */
  lemma {:induction false} BlockCommentsExactly(w: string)
    requires |w| >= 3
    ensures BlockComment(w, |w| - 1) && CommentEndsAt(w, |w| - 1)
       <==> w == ['/', '*', '/'] || (StandardBlockComment(w) && w[2] != '/')
  {
    if BlockComment(w, |w| - 1) && CommentEndsAt(w, |w| - 1) && |w| > 3 {
      assert !CommentEndsAt(w, 2);
    }
  }

  /** The short one ends the token, whatever follows. */
  lemma {:induction false} ShortComment(rest: string)
    ensures Lexeme(['/', '*', '/'] + rest) == (Comment, 3)
  {
    var u := ['/', '*', '/'] + rest;
    assert u[..0] == "" && u[..1] == ['/'] && u[..2] == ['/', '*'];
    assert Step(u[..0], Empty, false, '/') == Continue(Div, false);
    assert Step(u[..1], Div, false, '*') == Continue(Comment, false);
    assert Step(u[..2], Comment, false, '/') == Finish(Comment);
    assert Scan(u, 2, Comment, false) == (Comment, 3);
    assert Scan(u, 1, Div, false) == Scan(u, 2, Comment, false);
  }
}
