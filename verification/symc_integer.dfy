/**
 What integer tokens mean (strtol with base 0, in tool/iopmod-symc.c): positional value of
 the digits behind the prefix, modulo the size of an unsigned int.
 */
module SymcInteger {
  import opened Common
  import opened Lexer
  import opened LexerLaws
  import opened SymcRead
  import opened FormatNumber

  /** `c` is the digit `d`, in either case. */
  predicate IsDigitOf(c: char, d: nat) {
    d < 16 && (c == "0123456789abcdef"[d] || c == "0123456789ABCDEF"[d])
  }

  function Power(base: nat, n: nat): nat {
    if n == 0 then 1 else base * Power(base, n - 1)
  }

  /** `v` is the sum of the digits of `s`, each by the power of its place. */
  ghost predicate Spells(s: string, base: nat, v: nat)
    decreases |s|
  {
    if s == "" then v == 0
    else exists d: nat, w: nat ::
           IsDigitOf(s[0], d) && d < base && Spells(s[1..], base, w) && v == d * Power(base, |s| - 1) + w
  }

  /** What the token means, by its prefix; nothing unless all of it is digits. */
  ghost predicate MeansInteger(s: string, v: nat) {
    if |s| > 2 && (s[..2] == "0x" || s[..2] == "0X") then Spells(s[2..], 16, v)
    else if s != "" && s[0] == '0' then Spells(s, 8, v)
    else s != "" && Spells(s, 10, v)
  }

  lemma {:induction false} DigitsInOrder(d: nat)
    requires d < 16
    ensures "0123456789abcdef"[d] == if d < 10 then '0' + d as char else 'a' + (d - 10) as char
    ensures "0123456789ABCDEF"[d] == if d < 10 then '0' + d as char else 'A' + (d - 10) as char
  {
  }

  /** The value of a character is its place in the list of digits. */
  lemma {:induction false} DigitExactly(c: char, d: nat)
    ensures DigitValue(c) == Some(d) <==> IsDigitOf(c, d)
  {
    if d < 16 {
      DigitsInOrder(d);
    }
  }

  lemma {:induction false} SpellsDigits(s: string, base: nat, v: nat)
    requires base <= 16 && Spells(s, base, v)
    ensures s == "" || AllOf(s, base)
    ensures v == Evaluate(s, base)
    decreases |s|
  {
    hide DigitValue, IsDigitOf, Evaluate;
    if s == "" {
      assert Evaluate("", base) == 0 by {
        EvaluateEmpty(base);
      }
    } else {
      var d: nat, w: nat :| IsDigitOf(s[0], d) && d < base && Spells(s[1..], base, w)
                            && v == d * Power(base, |s| - 1) + w;
      DigitExactly(s[0], d);
      SpellsDigits(s[1..], base, w);
      EvaluateFront(s, base, d);
      assert forall i :: 0 < i < |s| ==> s[i] == s[1..][i - 1];
    }
  }

  lemma {:induction false} EvaluateEmpty(base: nat)
    ensures Evaluate("", base) == 0
  {
  }

  /** The first digit weighs as much as the power of its place. */
  lemma {:induction false} EvaluateFront(s: string, base: nat, d: nat)
    requires s != "" && DigitValue(s[0]) == Some(d) && (s[1..] == "" || AllOf(s[1..], base))
    ensures Evaluate(s, base) == d * Power(base, |s| - 1) + Evaluate(s[1..], base)
    decreases |s|
  {
    hide DigitValue;
    var init, last := s[..|s| - 1], s[|s| - 1];
    if |s| == 1 {
      assert init == "" && s[1..] == "";
    } else {
      assert init[1..] == s[1..][..|s| - 2];
      assert s[1..][|s| - 2] == last;
      assert forall i :: 0 <= i < |init[1..]| ==> init[1..][i] == s[1..][i];
      EvaluateFront(init, base, d);
      var e := DigitValue(last).value;
      Shift(d, base, Power(base, |s| - 2), Evaluate(init[1..], base), e);
    }
  }

  lemma {:induction false} Shift(d: nat, base: nat, p: nat, w: nat, e: nat)
    ensures (d * p + w) * base + e == d * (base * p) + (w * base + e)
  {
  }

  lemma {:induction false} DigitsSpell(s: string, base: nat)
    requires s == "" || AllOf(s, base)
    ensures Spells(s, base, Evaluate(s, base))
    decreases |s|
  {
    hide DigitValue, IsDigitOf, Evaluate;
    if s == "" {
      EvaluateEmpty(base);
    } else {
      var d := DigitValue(s[0]).value;
      DigitExactly(s[0], d);
      assert forall i :: 0 < i < |s| ==> s[i] == s[1..][i - 1];
      DigitsSpell(s[1..], base);
      EvaluateFront(s, base, d);
    }
  }

  lemma {:induction false} SpellsExactly(s: string, base: nat, v: nat)
    requires base <= 16 && s != ""
    ensures Spells(s, base, v) <==> AllOf(s, base) && v == Evaluate(s, base)
  {
    if Spells(s, base, v) {
      SpellsDigits(s, base, v);
    }
    if AllOf(s, base) {
      DigitsSpell(s, base);
    }
  }

  lemma {:induction false} MeaningExactly(s: string, v: nat)
    requires s != ""
    ensures MeansInteger(s, v) <==>
            if |s| > 2 && s[0] == '0' && (s[1] == 'x' || s[1] == 'X') then
              AllOf(s[2..], 16) && v == Evaluate(s[2..], 16)
            else if s[0] == '0' then AllOf(s, 8) && v == Evaluate(s, 8)
            else AllOf(s, 10) && v == Evaluate(s, 10)
  {
    hide AllOf, Evaluate, Spells;
    if |s| > 2 {
      assert s[..2] == "0x" <==> s[0] == '0' && s[1] == 'x';
      assert s[..2] == "0X" <==> s[0] == '0' && s[1] == 'X';
      SpellsExactly(s[2..], 16, v);
    }
    SpellsExactly(s, 8, v);
    SpellsExactly(s, 10, v);
  }

  /**
   An integer token has a value if and only if it has 1 to 16 characters that are a
   hexadecimal, octal or decimal number by their prefix; it is the number modulo 2^32.
   */
  lemma {:induction false} IntegerMeaning(t: Lexed, n: nat)
    ensures TokenInteger(t) == Some(n) <==>
            1 <= |t.text| <= 16 && exists v: nat :: MeansInteger(t.text, v) && n == v % 0x1_0000_0000
  {
    hide AllOf, Evaluate, MeansInteger;
    var s := t.text;
    if s != "" {
      var hex := |s| > 2 && s[0] == '0' && (s[1] == 'x' || s[1] == 'X');
      var v := if hex then Evaluate(s[2..], 16) else Evaluate(s, if s[0] == '0' then 8 else 10);
      MeaningExactly(s, v);
      forall w: nat | MeansInteger(s, w)
        ensures w == v && MeansInteger(s, v)
      {
        MeaningExactly(s, w);
      }
    }
  }

  lemma {:induction false} Append(s: string, c: char, base: nat, v: nat, d: nat)
    requires Evaluate(s, base) == v && DigitValue(c) == Some(d)
    ensures Evaluate(s + [c], base) == v * base + d
  {
    EvaluateLast(s, c, base);
  }

  lemma {:induction false} DecimalExample()
    ensures TokenInteger(Lexed(Integer, "47")) == Some(47)
  {
    hide Evaluate;
    assert "" + ['4'] == "4" && "4" + ['7'] == "47";
    EvaluateEmpty(10);
    Append("", '4', 10, 0, 4);
    Append("4", '7', 10, 4, 7);
  }

  lemma {:induction false} HexadecimalExample()
    ensures TokenInteger(Lexed(Integer, "0x1F")) == Some(31)
  {
    hide Evaluate;
    assert "" + ['1'] == "1" && "1" + ['F'] == "1F";
    EvaluateEmpty(16);
    Append("", '1', 16, 0, 1);
    Append("1", 'F', 16, 1, 15);
    assert "0x1F"[2..] == "1F";
  }

  lemma {:induction false} OctalExample()
    ensures TokenInteger(Lexed(Integer, "010")) == Some(8)
  {
    hide Evaluate;
    assert "" + ['0'] == "0" && "0" + ['1'] == "01" && "01" + ['0'] == "010";
    EvaluateEmpty(8);
    Append("", '0', 8, 0, 0);
    Append("0", '1', 8, 0, 1);
    Append("01", '0', 8, 1, 0);
  }

  /** The digits 8 and 9 are not octal, and a prefix needs digits behind it. */
  lemma {:induction false} MalformedExamples()
    ensures TokenInteger(Lexed(Integer, "08")) == None && TokenInteger(Lexed(Integer, "0x")) == None
  {
    hide Evaluate;
    assert "08"[1] == '8' && "0x"[1] == 'x';
  }
}
