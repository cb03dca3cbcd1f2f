/**
 The lexer of tool/lexc.c: one automaton over characters, with one character of
 lookahead. A token is the text from `start` on; texts carry no terminator.
 */
module Lexer {

  datatype TokenType =
    | Empty | Integer | Float | StringLit | Character | Identifier | Comment | Whitespace
    | LParen | RParen | LBrack | RBrack | LBrace | RBrace
    | Inc | Dec | Dot | DotDot | Ellipsis | Dereference | Conditional
    | Colon | ColonColon | Semicolon | Backslash
    | Assign | AssignBitOr | AssignBitXor | AssignBitAnd | AssignShl | AssignSar
    | AssignAdd | AssignSub | AssignMul | AssignDiv | AssignMod
    | Comma | Or | And | Not | BitOr | BitXor | BitNot | Ampersand | Shl | Sar
    | Plus | Minus | Asterisk | Div | Mod
    | Eq | Ne | Gt | Ge | Lt | Le
    | NumSign | NumSignNumSign
    | ErrorEndOfComment | ErrorEndOfString | ErrorEndOfCharacter | ErrorInvalidCharacter

  // ----- Character classes; bytes from 128 up are identifier characters -----

  predicate IsDigit(c: char) {
    '0' <= c <= '9'
  }

  predicate IsIdent(c: char) {
    'a' <= c <= 'z' || 'A' <= c <= 'Z' || c == '_' || c >= 128 as char
  }

  predicate IsHex(c: char) {
    IsDigit(c) || 'a' <= c <= 'f' || 'A' <= c <= 'F' || c == 'x' || c == 'X'
  }

  predicate IsExp(c: char) {
    c == 'e' || c == 'E' || c == 'p' || c == 'P'
  }

  predicate IsVertWs(c: char) {
    c == 10 as char
  }

  predicate IsHorzWs(c: char) {
    c == ' ' || c == 9 as char || 11 as char <= c <= 13 as char
  }

  predicate IsWs(c: char) {
    IsHorzWs(c) || IsVertWs(c)
  }

  // ----- The automaton -----

  /** What the next character does to a token under way. */
  datatype Action =
    | Continue(ty: TokenType, escape: bool)  // take the character
    | Finish(ty: TokenType)                  // take the character and return
    | Return                                 // return without the character
    | Reject                                 // no token starts with the character

  /** The first character of a token. */
  function Start(c: char): Action {
    if IsDigit(c) then Continue(Integer, false)
    else if IsWs(c) then Continue(Whitespace, false)
    else match c
    case '<' => Continue(Lt, false)
    case '>' => Continue(Gt, false)
    case '=' => Continue(Assign, false)
    case '!' => Continue(Not, false)
    case '+' => Continue(Plus, false)
    case '-' => Continue(Minus, false)
    case '*' => Continue(Asterisk, false)
    case '%' => Continue(Mod, false)
    case '/' => Continue(Div, false)
    case '&' => Continue(Ampersand, false)
    case '|' => Continue(BitOr, false)
    case '^' => Continue(BitXor, false)
    case '~' => Continue(BitNot, false)
    case '.' => Continue(Dot, false)
    case ':' => Continue(Colon, false)
    case '\\' => Continue(Backslash, false)
    case ';' => Continue(Semicolon, false)
    case ',' => Continue(Comma, false)
    case '(' => Continue(LParen, false)
    case ')' => Continue(RParen, false)
    case '[' => Continue(LBrack, false)
    case ']' => Continue(RBrack, false)
    case '{' => Continue(LBrace, false)
    case '}' => Continue(RBrace, false)
    case '?' => Continue(Conditional, false)
    case '"' => Continue(StringLit, false)
    case '\'' => Continue(Character, false)
    case '#' => Continue(NumSign, false)
    case _ => if IsIdent(c) then Continue(Identifier, false) else Reject
  }

  function Quoted(ty: TokenType, quote: char, escape: bool, c: char): Action {
    if escape then Continue(ty, false)
    else if c == '\\' then Continue(ty, true)
    else if c != quote then Continue(ty, false)
    else Finish(ty)
  }

  function Choose(c: char, s1: char, t1: TokenType): TokenType {
    if c == s1 then t1 else Empty
  }

  function Choose2(c: char, s1: char, t1: TokenType, s2: char, t2: TokenType): TokenType {
    if c == s1 then t1 else Choose(c, s2, t2)
  }

  /** The operator that `c` turns `ty` into; `Empty` when there is none. */
  function Grown(ty: TokenType, c: char): TokenType {
    match ty
    case Not => Choose(c, '=', Ne)
    case Mod => Choose(c, '=', AssignMod)
    case Asterisk => Choose(c, '=', AssignMul)
    case Shl => Choose(c, '=', AssignShl)
    case Sar => Choose(c, '=', AssignSar)
    case NumSign => Choose(c, '#', NumSignNumSign)
    case Colon => Choose(c, ':', ColonColon)
    case Assign => Choose(c, '=', Eq)
    case BitXor => Choose(c, '=', AssignBitXor)
    case DotDot => Choose(c, '.', Ellipsis)
    case Lt => Choose2(c, '<', Shl, '=', Le)
    case Gt => Choose2(c, '>', Sar, '=', Ge)
    case Ampersand => Choose2(c, '&', And, '=', AssignBitAnd)
    case BitOr => Choose2(c, '|', Or, '=', AssignBitOr)
    case Plus => Choose2(c, '+', Inc, '=', AssignAdd)
    case Minus => if c == '-' then Dec else Choose2(c, '>', Dereference, '=', AssignSub)
    case _ => Empty
  }

  /** The turn of the scanning loop on `c`, with the text `w` taken so far. */
  function Step(w: string, ty: TokenType, escape: bool, c: char): Action
    requires ty.Empty? || w != ""
    requires ty.Comment? ==> |w| >= 2
  {
    match ty
    case Empty => Start(c)
    case Whitespace => if IsWs(c) then Continue(ty, false) else Return
    case Identifier => if IsIdent(c) || IsDigit(c) then Continue(ty, false) else Return
    case Integer =>
      if c == '.' then Continue(Float, false) else if IsHex(c) then Continue(ty, false) else Return
    case Float =>
      if IsDigit(c) || IsExp(c) then Continue(ty, false)
      else if (c == '+' || c == '-') && IsExp(w[|w| - 1]) then Continue(ty, false)
      else Return
    case Character => Quoted(ty, '\'', escape, c)
    case StringLit => Quoted(ty, '"', escape, c)
    case Dot =>
      if IsDigit(c) then Continue(Float, false) else if c == '.' then Continue(DotDot, false) else Return
    case Comment =>
      if w[1] == '/' && IsVertWs(c) then Finish(ty)
      else if w[1] == '*' && w[|w| - 1] == '*' && c == '/' then Finish(ty)
      else Continue(ty, false)
    case Div =>
      if c == '/' || c == '*' then Continue(Comment, false)
      else if c == '=' then Continue(AssignDiv, false)
      else Return
    case _ =>
      if !Grown(ty, c).Empty? then Continue(Grown(ty, c), false) else Return
  }

  /** What becomes of a token under way at the end of the input. */
  function AtEnd(w: string, ty: TokenType): TokenType
    requires ty.Comment? ==> |w| >= 2
  {
    if ty.StringLit? then ErrorEndOfString
    else if ty.Character? then ErrorEndOfCharacter
    else if ty.Comment? && w[1] == '*' then ErrorEndOfComment
    else ty
  }

  predicate IsError(ty: TokenType) {
    ty.ErrorEndOfComment? || ty.ErrorEndOfString? || ty.ErrorEndOfCharacter? || ty.ErrorInvalidCharacter?
  }

  ghost predicate Scanning(u: string, len: nat, ty: TokenType) {
    && len <= |u|
    && (ty.Empty? <==> len == 0)
    && (ty.Comment? ==> len >= 2)
    && !IsError(ty)
  }

  /** The token at the start of `u`, `len` characters of it already taken. */
  ghost function Scan(u: string, len: nat, ty: TokenType, escape: bool): (r: (TokenType, nat))
    requires Scanning(u, len, ty)
    ensures len <= r.1 <= |u|
    decreases |u| - len
  {
    if len == |u| then (AtEnd(u, ty), len)
    else
      StepKeepsScanning(u, len, ty, escape);
      match Step(u[..len], ty, escape, u[len])
      case Continue(t, e) => Scan(u, len + 1, t, e)
      case Finish(t) => (t, len + 1)
      case Return => (ty, len)
      case Reject => (ErrorInvalidCharacter, len)
  }

  lemma {:induction false} StepKeepsScanning(u: string, len: nat, ty: TokenType, escape: bool)
    requires Scanning(u, len, ty) && len < |u|
    ensures var a := Step(u[..len], ty, escape, u[len]);
            && (a.Continue? ==> Scanning(u, len + 1, a.ty) && !a.ty.Empty?)
            && (a.Finish? ==> a.ty == ty && !ty.Empty?)
            && (a.Return? ==> !ty.Empty?)
            && (a.Reject? ==> ty.Empty?)
  {
    hide Start, Grown;
    StartScans(u[len]);
    GrownScans(ty, u[len]);
  }

  lemma {:induction false} StartScans(c: char)
    ensures var a := Start(c);
            && (a.Continue? ==> !a.ty.Empty? && !a.ty.Comment? && !IsError(a.ty))
            && !a.Finish? && !a.Return?
  {
  }

  lemma {:induction false} GrownScans(ty: TokenType, c: char)
    ensures !Grown(ty, c).Comment? && !IsError(Grown(ty, c))
  {
  }

  lemma {:induction false} FirstStep(w: string, escape: bool, c: char)
    ensures Step(w, Empty, escape, c) == Start(c)
  {
  }

  /** Type and length of the first token of `u`. */
  ghost function Lexeme(u: string): (r: (TokenType, nat))
    ensures r.1 <= |u|
  {
    Scan(u, 0, Empty, false)
  }

  lemma {:induction false} ScanResult(u: string, len: nat, ty: TokenType, escape: bool)
    requires Scanning(u, len, ty)
    ensures var (t, l) := Scan(u, len, ty, escape);
            && (t.Empty? <==> |u| == 0)
            && (t.ErrorInvalidCharacter? <==> len == 0 && u != "" && Start(u[0]).Reject?)
            && (l == 0 <==> t.Empty? || t.ErrorInvalidCharacter?)
            && (IsError(t) && !t.ErrorInvalidCharacter? ==> l == |u|)
    decreases |u| - len
  {
    hide Step, Start;
    if len < |u| {
      StepKeepsScanning(u, len, ty, escape);
      FirstStep(u[..len], escape, u[len]);
      var a := Step(u[..len], ty, escape, u[len]);
      if a.Continue? {
        ScanResult(u, len + 1, a.ty, a.escape);
      }
    }
  }

  lemma {:induction false} LexemeResult(u: string)
    ensures var (t, l) := Lexeme(u);
            && (t.Empty? <==> u == "")
            && (t.ErrorInvalidCharacter? <==> u != "" && Start(u[0]).Reject?)
            && (l == 0 <==> t.Empty? || t.ErrorInvalidCharacter?)
            && (IsError(t) && !t.ErrorInvalidCharacter? ==> l == |u|)
  {
    ScanResult(u, 0, Empty, false);
  }

  // ----- Line and column -----

  datatype Position = Position(line: int, column: int)

  function ColumnForChar(c: char, column: int): int {
    if c == 9 as char then 1 + (column - 1) / 8 * 8 + 8 else 1 + column
  }

  function Past(p: Position, c: char): Position {
    if IsVertWs(c) then Position(p.line + 1, 1) else Position(p.line, ColumnForChar(c, p.column))
  }

  /** Position behind `text`, from a position before it. */
  ghost function Behind(p: Position, text: string): Position {
    if text == "" then p else Past(Behind(p, text[..|text| - 1]), text[|text| - 1])
  }

  const ORIGIN := Position(1, 1)

  // ----- Tokens -----

  datatype Token = Token(ty: TokenType, start: nat, length: nat, pos: Position)

  const FIRST := Token(Empty, 0, 0, ORIGIN)

  /** The token lies in the input, and its position is that of the text before it. */
  ghost predicate ValidToken(s: string, t: Token) {
    t.start + t.length <= |s| && t.pos == Behind(ORIGIN, s[..t.start])
  }

  lemma {:induction false} BehindStep(p: Position, s: string, i: nat)
    requires i < |s|
    ensures Behind(p, s[..i + 1]) == Past(Behind(p, s[..i]), s[i])
  {
    assert s[..i + 1][..i] == s[..i];
  }

  /** Moves a token to its end, character by character. */
  method AdvanceToken(s: string, token: Token) returns (t: Token)
    requires ValidToken(s, token)
    ensures ValidToken(s, t) && t.ty.Empty? && t.length == 0 && t.start == token.start + token.length
  {
    t := token;
    while t.length != 0
      invariant ValidToken(s, t) && t.start + t.length == token.start + token.length
      decreases t.length
    {
      BehindStep(ORIGIN, s, t.start);
      t := t.(pos := Past(t.pos, s[t.start]), start := t.start + 1, length := t.length - 1);
    }
    t := t.(ty := Empty);
  }

  /** The token after `token`, comments and whitespace included. */
  method NextAnyToken(s: string, token: Token) returns (t: Token)
    requires ValidToken(s, token)
    ensures ValidToken(s, t) && t.start == token.start + token.length
    ensures (t.ty, t.length) == Lexeme(s[t.start..])
  {
    hide Step, Start, AtEnd, Behind;
    t := AdvanceToken(s, token);
    var pos := t.start;
    var escape := false;
    ghost var u := s[t.start..];
    ghost var first := t.start;
    while pos < |s|
      invariant pos == first + t.length <= |s| && t.start == first
      invariant t.pos == Behind(ORIGIN, s[..first])
      invariant Scanning(u, t.length, t.ty)
      invariant Scan(u, t.length, t.ty, escape) == Lexeme(u)
    {
      var w, c := s[t.start..pos], s[pos];
      assert u[..t.length] == w && u[t.length] == c;
      StepKeepsScanning(u, t.length, t.ty, escape);
      match Step(w, t.ty, escape, c)
      case Continue(ty, e) =>
        escape := e;
        t := t.(ty := ty, length := t.length + 1);
        pos := pos + 1;
      case Finish(ty) =>
        return t.(ty := ty, length := t.length + 1);
      case Return =>
        return t;
      case Reject =>
        return t.(ty := ErrorInvalidCharacter);
    }
    assert u == s[t.start..t.start + t.length];
    t := t.(ty := AtEnd(s[t.start..t.start + t.length], t.ty));
  }

  predicate IsSkipped(ty: TokenType) {
    ty.Whitespace? || ty.Comment?
  }

  /** First token from offset `i` on that is not skipped: type, offset, length. */
  ghost function SignificantAt(s: string, i: nat): (r: (TokenType, nat, nat))
    requires i <= |s|
    decreases |s| - i
  {
    var (ty, length) := Lexeme(s[i..]);
    LexemeResult(s[i..]);
    if IsSkipped(ty) then SignificantAt(s, i + length) else (ty, i, length)
  }

  /** The next token that is neither a comment nor whitespace. */
  method NextToken(s: string, token: Token) returns (t: Token)
    requires ValidToken(s, token)
    ensures ValidToken(s, t)
    ensures (t.ty, t.start, t.length) == SignificantAt(s, token.start + token.length)
  {
    hide Lexeme, Start;
    t := NextAnyToken(s, token);
    while !t.ty.Empty? && (t.ty.Whitespace? || t.ty.Comment?)
      invariant ValidToken(s, t)
      invariant (t.ty, t.length) == Lexeme(s[t.start..])
      invariant SignificantAt(s, t.start) == SignificantAt(s, token.start + token.length)
      decreases |s| - t.start
    {
      LexemeResult(s[t.start..]);
      t := NextAnyToken(s, t);
    }
  }

  /** The first token that is neither a comment nor whitespace. */
  method FirstToken(s: string) returns (t: Token)
    ensures ValidToken(s, t)
    ensures (t.ty, t.start, t.length) == SignificantAt(s, 0)
  {
    assert s[..0] == "";
    t := NextToken(s, FIRST);
  }
}
