/**
 Enumeration by lexc_next_token, token after token (tool/lexc.c:309-318), and the
 loops over declarations of tool/iopmod-symc.c that rest on it: when they end.
 */
module LexerCursor {
  import opened Lexer
  import opened LexerLaws

  /** The significant token reached after `n` more calls, from offset `from`: type, offset, length. */
  ghost function After(u: string, from: nat, n: nat): (r: (TokenType, nat, nat))
    requires from <= |u|
    ensures from <= r.1 && r.1 + r.2 <= |u|
    decreases n
  {
    SignificantInside(u, from);
    if n == 0 then SignificantAt(u, from)
    else
      var (ty, i, length) := After(u, from, n - 1);
      SignificantInside(u, i + length);
      SignificantAt(u, i + length)
  }

  lemma {:induction false} SignificantInside(u: string, from: nat)
    requires from <= |u|
    ensures var (ty, i, length) := SignificantAt(u, from);
            && from <= i && i + length <= |u| && !IsSkipped(ty) && (ty, length) == Lexeme(u[i..])
    decreases |u| - from
  {
    hide Lexeme, IsSkipped;
    var (ty, length) := Lexeme(u[from..]);
    LexemeResult(u[from..]);
    if IsSkipped(ty) {
      SkippedHasLength(u[from..]);
      SignificantInside(u, from + length);
    }
  }

  lemma {:induction false} SkippedHasLength(u: string)
    requires IsSkipped(Lexeme(u).0)
    ensures Lexeme(u).1 > 0
  {
    hide Lexeme;
    LexemeResult(u);
  }

  /** What is skipped does not matter to whether the rest is clean. */
  lemma {:induction false} CleanBehindSkipped(u: string, from: nat)
    requires from <= |u|
    ensures var i := SignificantAt(u, from).1;
            from <= i <= |u| && (Clean(u[from..]) <==> Clean(u[i..]))
    decreases |u| - from
  {
    hide Lexeme, IsSkipped, Clean;
    var (ty, length) := Lexeme(u[from..]);
    LexemeResult(u[from..]);
    if IsSkipped(ty) {
      SkippedHasLength(u[from..]);
      CleanStep(u[from..]) by {
        SkippedIsToken(ty);
      }
      assert u[from..][length..] == u[from + length..];
      CleanBehindSkipped(u, from + length);
    }
  }

  lemma {:induction false} SkippedIsToken(ty: TokenType)
    requires IsSkipped(ty)
    ensures !ty.Empty?
  {
  }

  lemma {:induction false} AfterFirst(u: string, from: nat, n: nat)
    requires from <= |u|
    ensures var (ty, i, length) := SignificantAt(u, from);
            i + length <= |u| && After(u, from, n + 1) == After(u, i + length, n)
  {
    hide SignificantAt;
    SignificantInside(u, from);
    if n > 0 {
      AfterFirst(u, from, n - 1);
    }
  }

  /** The end of the input, and a character no token starts with, are never left. */
  lemma {:induction false} Stays(u: string, from: nat, n: nat, k: nat)
    requires from <= |u| && n <= k && After(u, from, n).2 == 0
    ensures After(u, from, k) == After(u, from, n)
    decreases k
  {
    hide SignificantAt;
    if n < k {
      Stays(u, from, n, k - 1);
      AgainTheSame(u, from, n);
    }
  }

  lemma {:induction false} AgainTheSame(u: string, from: nat, n: nat)
    requires from <= |u| && After(u, from, n).2 == 0
    ensures SignificantAt(u, After(u, from, n).1) == After(u, from, n)
  {
    hide Lexeme;
    var i := if n == 0 then from else After(u, from, n - 1).1 + After(u, from, n - 1).2;
    SignificantInside(u, i);
  }

  /** Sooner or later enumeration stands at the end of a clean input, and at the bad character of another. */
  lemma {:induction false} ComesToRest(u: string, from: nat) returns (n: nat)
    requires from <= |u|
    ensures After(u, from, n).2 == 0
    ensures if Clean(u[from..]) then After(u, from, n).0.Empty? else After(u, from, n).0.ErrorInvalidCharacter?
    decreases |u| - from
  {
    hide Lexeme, SignificantAt, Clean, After;
    var (ty, i, length) := SignificantAt(u, from);
    SignificantInside(u, from);
    CleanBehindSkipped(u, from);
    LexemeResult(u[i..]);
    AfterNone(u, from);
    if length == 0 {
      n := 0;
      if ty.Empty? {
        NothingIsClean(u[i..]);
      } else {
        BadIsNotClean(u[i..]);
      }
    } else {
      CleanStep(u[i..]);
      assert u[i..][length..] == u[i + length..];
      n := ComesToRest(u, i + length);
      AfterFirst(u, from, n);
      n := n + 1;
    }
  }

  lemma {:induction false} AfterNone(u: string, from: nat)
    requires from <= |u|
    ensures After(u, from, 0) == SignificantAt(u, from)
  {
  }

  lemma {:induction false} NothingIsClean(u: string)
    requires Lexeme(u).0.Empty?
    ensures Clean(u)
  {
    assert Tokens(u) == [];
  }

  lemma {:induction false} BadIsNotClean(u: string)
    requires Lexeme(u).0.ErrorInvalidCharacter? && Lexeme(u).1 == 0
    ensures !Clean(u)
  {
    assert Tokens(u) == [Lexed(ErrorInvalidCharacter, "")];
    assert Tokens(u)[0] in Tokens(u);
  }

  // ----- Loops over declarations -----

  /** The loop over the tokens of a declaration, begun at the `n`-th token, ends. */
  ghost predicate DeclarationEnds(u: string, n: nat) {
    exists k :: k >= n && (After(u, 0, k).0.Empty? || After(u, 0, k).0.Semicolon?)
  }

  /** Every such loop ends if and only if enumeration of the input does: if all its characters start tokens. */
  lemma {:induction false} DeclarationsEndExactly(u: string)
    ensures (forall n :: n >= 0 ==> DeclarationEnds(u, n)) <==> Clean(u)
  {
    hide After, Clean;
    assert u[0..] == u;
    var rest := ComesToRest(u, 0);
    if Clean(u) {
      forall n | n >= 0
        ensures DeclarationEnds(u, n)
      {
        var k := if n < rest then rest else n;
        Stays(u, 0, rest, k);
      }
    } else {
      assert !DeclarationEnds(u, rest) by {
        forall k | k >= rest
          ensures !After(u, 0, k).0.Empty? && !After(u, 0, k).0.Semicolon?
        {
          Stays(u, 0, rest, k);
        }
      }
    }
  }
}
