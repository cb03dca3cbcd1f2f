/**
 Which formats and arguments keep the string copying loop of builtin/vsnprintf.c
 (`for (i = slen; i; i--)`) finite: exactly the sane ones.
 */
module FormatSane {
  import opened FormatSpec

  // ----- The copying loop -----

  /** The loop counter after some turns; nothing but zero stops it. */
  function Counter(slen: int, turns: nat): int {
    if turns == 0 then slen else Counter(slen, turns - 1) - 1
  }

  ghost predicate CopyEnds(slen: int) {
    exists turns: nat :: Counter(slen, turns) == 0
  }

  lemma {:induction false} CounterFalls(slen: int, turns: nat)
    ensures Counter(slen, turns) == slen - turns
  {
    if turns > 0 {
      CounterFalls(slen, turns - 1);
    }
  }

  lemma {:induction false} CopyEndsExactly(slen: int)
    ensures CopyEnds(slen) <==> slen >= 0
  {
    if slen >= 0 {
      CounterFalls(slen, slen);
    } else if CopyEnds(slen) {
      var turns: nat :| Counter(slen, turns) == 0;
      CounterFalls(slen, turns);
    }
  }

  // ----- Where the parser gets -----

  /** One turn of the parser: its next state, and the format it goes on with. */
  function Moved(m: Parser, s: string): (Parser, string)
    requires s != ""
  {
    if m.st == Normal then (if s[0] == '%' then StartSpec(m) else m, s[1..])
    else if InsideSpec(m.st, s[0]) then
      var (m', again) := Turn(m, s[0]);
      (m', if again then s else s[1..])
    else (EndSpec(m, s[0]), s[1..])
  }

  function AfterTurns(m: Parser, s: string, n: nat): (Parser, string)
    decreases n
  {
    if n == 0 || s == "" then (m, s)
    else
      var (m', s') := Moved(m, s);
      AfterTurns(m', s', n - 1)
  }

  ghost predicate Reaches(m: Parser, s: string, m': Parser, s': string) {
    exists n: nat :: AfterTurns(m, s, n) == (m', s')
  }

  /** The next turn is a string conversion. */
  predicate AtString(m: Parser, s: string) {
    s != "" && m.st != Normal && !InsideSpec(m.st, s[0]) && IsStringConversion(s[0])
  }

  /** What the conversion is about to copy. */
  function Copied(m: Parser, s: string): int
    requires AtString(m, s)
  {
    StringLength(if s[0] == 'c' then 1 else |StrOf(m.args)|, m.d.prec)
  }

  /** Every conversion of a string that the parser reaches has a finite loop. */
  ghost predicate AllCopiesEnd(m: Parser, s: string) {
    forall m', s' :: Reaches(m, s, m', s') && AtString(m', s') ==> CopyEnds(Copied(m', s'))
  }

  lemma {:induction false} ReachesItself(m: Parser, s: string)
    ensures Reaches(m, s, m, s)
  {
    assert AfterTurns(m, s, 0) == (m, s);
  }

  lemma {:induction false} ReachesLater(m: Parser, s: string, m': Parser, s': string)
    requires s != "" && var (m1, s1) := Moved(m, s); Reaches(m1, s1, m', s')
    ensures Reaches(m, s, m', s')
  {
    var (m1, s1) := Moved(m, s);
    var n: nat :| AfterTurns(m1, s1, n) == (m', s');
    assert AfterTurns(m, s, n + 1) == (m', s');
  }

  /** What is reached is the start itself, or reached after the first turn. */
  lemma {:induction false} ReachesFirst(m: Parser, s: string, m': Parser, s': string)
    requires Reaches(m, s, m', s')
    ensures (m', s') == (m, s) || (s != "" && var (m1, s1) := Moved(m, s); Reaches(m1, s1, m', s'))
  {
    var n: nat :| AfterTurns(m, s, n) == (m', s');
    if n > 0 && s != "" {
      var (m1, s1) := Moved(m, s);
      assert AfterTurns(m1, s1, n - 1) == (m', s');
    }
  }

  lemma {:induction false} SaneMoves(m: Parser, s: string)
    requires s != ""
    ensures var (m', s') := Moved(m, s);
            Sane(m, s) <==> (AtString(m, s) ==> m.d.prec >= -1) && Sane(m', s')
  {
  }

  /** The length is negative exactly for a precision below -1. */
  lemma {:induction false} CopiedNegative(m: Parser, s: string)
    requires AtString(m, s)
    ensures CopyEnds(Copied(m, s)) <==> m.d.prec >= -1
  {
    CopyEndsExactly(Copied(m, s));
  }

  /** For every parser state and format: all the loops end if and only if it is sane. */
  lemma {:induction false} SaneExactly(m: Parser, s: string)
    ensures Sane(m, s) <==> AllCopiesEnd(m, s)
    decreases |s|, StatesLeft(m.st)
  {
    hide Sane, Moved, AtString, Copied, CopyEnds, Reaches;
    ReachesItself(m, s);
    if s == "" {
      EmptyIsSane(m);
    } else {
      var (m1, s1) := Moved(m, s);
      SaneMoves(m, s);
      MovedOn(m, s);
      SaneExactly(m1, s1);
      if AtString(m, s) {
        CopiedNegative(m, s);
      }
      forall m', s' | Reaches(m1, s1, m', s')
        ensures Reaches(m, s, m', s')
      {
        ReachesLater(m, s, m', s');
      }
      forall m', s' | Reaches(m, s, m', s')
        ensures (m', s') == (m, s) || Reaches(m1, s1, m', s')
      {
        ReachesFirst(m, s, m', s');
      }
    }
  }

  lemma {:induction false} MovedOn(m: Parser, s: string)
    requires s != ""
    ensures var (m', s') := Moved(m, s);
            |s'| < |s| || (s' == s && StatesLeft(m'.st) < StatesLeft(m.st))
  {
  }

  lemma {:induction false} EmptyIsSane(m: Parser)
    ensures Sane(m, "") && AllCopiesEnd(m, "")
  {
    forall m', s' | Reaches(m, "", m', s')
      ensures !AtString(m', s')
    {
      ReachesFirst(m, "", m', s');
    }
  }
}
