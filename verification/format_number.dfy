/**
 The text of one number as builtin/vsnprintf.c lays it out, without truncation,
 and the proof that the number can be read back from it.
 */
module FormatNumber {
  import opened Common
  import opened Division

  datatype Flags = Flags(
    zero: bool, minus: bool, plus: bool, tick: bool, space: bool, hash: bool,
    signed: bool, upper: bool)

  const NO_FLAGS := Flags(false, false, false, false, false, false, false, false)

  function Digit(d: nat, upper: bool): char
    requires d < 16
  {
    if upper then "0123456789ABCDEF"[d] else "0123456789abcdef"[d]
  }

  /** How many digits `v` needs; none for zero. */
  function NumDigits(v: nat, base: nat): nat
    requires base >= 2
  {
    if v == 0 then 0 else 1 + NumDigits(v / base, base)
  }

  /** The `count` least significant digits of `v`, most significant first. */
  function Digits(v: nat, base: nat, count: nat, upper: bool): (s: string)
    requires 2 <= base <= 16
    ensures |s| == count
  {
    if count == 0 then "" else Digits(v / base, base, count - 1, upper) + [Digit(v % base, upper)]
  }

  /** `_` between groups of `skip` characters, counted from the right. */
  function Group(s: string, skip: nat): string
    requires skip > 0
  {
    if |s| <= skip then s
    else Group(s[..|s| - skip], skip) + "_" + s[|s| - skip..]
  }

  function IsNegative(val: nat, flags: Flags): bool {
    flags.signed && val >= TWO63
  }

  /** The magnitude that is printed: negation is modulo 2^64. */
  function Magnitude(val: nat, flags: Flags): nat
    requires val < TWO64
  {
    if IsNegative(val, flags) then TWO64 - val else val
  }

  /** Digits in the number before separators, zero precision counting as one digit. */
  function DigitCount(v: nat, flags: Flags, base: nat, prec: int): (d: nat)
    requires base >= 2
    ensures d >= 1 && d >= NumDigits(v, base) && d >= prec
  {
    var nd := NumDigits(v, base);
    var p := if flags.hash && base == 8 && prec < nd + 1 then nd + 1 else prec;
    if nd < p then p else if v == 0 then 1 else nd
  }

  function TickSkip(flags: Flags, base: nat, digits: nat): (skip: nat)
    requires digits >= 1
    ensures skip >= 1
  {
    if flags.tick then (if base == 16 then 4 else 3) else digits
  }

  function Sign(val: nat, flags: Flags): string {
    if IsNegative(val, flags) then "-" else if flags.plus then "+" else if flags.space then " " else ""
  }

  function Prefix(flags: Flags, base: nat): string {
    if flags.hash && base == 16 then (if flags.upper then "0X" else "0x") else ""
  }

  /** Digits and separators. */
  function Number(val: nat, flags: Flags, base: nat, prec: int): string
    requires val < TWO64 && 2 <= base <= 16
  {
    var v := Magnitude(val, flags);
    var d := DigitCount(v, flags, base, prec);
    Group(Digits(v, base, d, flags.upper), TickSkip(flags, base, d))
  }

  /** The whole field, padded to `width` on the left, inside, or on the right. */
  function IntText(val: nat, flags: Flags, base: nat, width: int, prec: int): string
    requires val < TWO64 && 2 <= base <= 16
  {
    Layout(Sign(val, flags) + Prefix(flags, base), Number(val, flags, base, prec), flags, width)
  }

  function Layout(head: string, number: string, flags: Flags, width: int): string {
    var pad := if width > |head| + |number| then width - |head| - |number| else 0;
    if flags.minus then head + number + Repeat(' ', pad)
    else if flags.zero then head + Repeat('0', pad) + number
    else Repeat(' ', pad) + head + number
  }

  // ----- The order in which the source generates the number: right to left -----

  /** `s` with separators, `left` digits before the next one. */
  function RightToLeft(s: string, skip: nat, left: nat): (t: string)
    requires skip > 0
    ensures |t| >= |s|
    ensures s == "" ==> t == ""
  {
    if s == "" then ""
    else
      var init, last := s[..|s| - 1], s[|s| - 1..];
      if left == 0 then RightToLeft(init, skip, skip - 1) + last + "_"
      else RightToLeft(init, skip, left - 1) + last
  }

  lemma {:induction false} RightToLeftSplit(s: string, skip: nat, left: nat)
    requires skip > 0
    ensures |s| <= left ==> RightToLeft(s, skip, left) == s
    ensures |s| > left ==>
              RightToLeft(s, skip, left) == RightToLeft(s[..|s| - left], skip, 0) + s[|s| - left..]
  {
    if s != "" && left != 0 {
      var init := s[..|s| - 1];
      RightToLeftSplit(init, skip, left - 1);
      if |s| > left {
        assert init[..|init| - (left - 1)] == s[..|s| - left];
        assert init[|init| - (left - 1)..] + s[|s| - 1..] == s[|s| - left..];
      } else {
        assert init + s[|s| - 1..] == s;
      }
    } else if s != "" {
      assert s[..|s| - 0] == s;
    }
  }

  /** The generator's order yields the grouping. */
  lemma {:induction false} GeneratorGroups(s: string, skip: nat)
    requires skip > 0
    ensures RightToLeft(s, skip, skip) == Group(s, skip)
  {
    RightToLeftSplit(s, skip, skip);
    if |s| > skip {
      var rest := s[..|s| - skip];
      GeneratorGroups(rest, skip);
      assert RightToLeft(rest, skip, 0) == RightToLeft(rest, skip, skip) + "_";
    }
  }

  /** The length the source computes before it starts. */
  lemma {:induction false} GroupLength(s: string, skip: nat)
    requires skip > 0 && s != ""
    ensures |Group(s, skip)| == |s| + (|s| - 1) / skip
  {
    if |s| > skip {
      GroupLength(s[..|s| - skip], skip);
      QuotientStep(|s| - skip - 1, skip);
    } else {
      QuotientSmall(|s| - 1, skip);
    }
  }

  lemma {:induction false} QuotientStep(a: nat, b: nat)
    requires b > 0
    ensures (a + b) / b == a / b + 1 && (a + b) % b == a % b
  {
    Distributed(a / b, 1, b);
    QuotientIsUnique(a + b, b, a / b + 1, a % b);
  }

  lemma {:induction false} QuotientSmall(a: nat, b: nat)
    requires a < b
    ensures a / b == 0 && a % b == a
  {
    QuotientIsUnique(a, b, 0, a);
  }

  /**
   Counted from the right, exactly every (skip + 1)-th character is a separator,
   and between two of them stand `skip` digits.
   */
  lemma {:induction false} SeparatorPositions(s: string, skip: nat, r: nat)
    requires skip > 0 && '_' !in s
    requires r < |Group(s, skip)|
    ensures Group(s, skip)[|Group(s, skip)| - 1 - r] == '_' <==> r % (skip + 1) == skip
  {
    var g := Group(s, skip);
    if |s| <= skip {
      QuotientSmall(r, skip + 1);
      assert g[|g| - 1 - r] in s;
    } else {
      var rest := Group(s[..|s| - skip], skip);
      if r > skip {
        SeparatorPositions(s[..|s| - skip], skip, r - (skip + 1));
        QuotientStep(r - (skip + 1), skip + 1);
        assert g[|g| - 1 - r] == rest[|rest| - 1 - (r - (skip + 1))];
      } else {
        QuotientSmall(r, skip + 1);
        if r < skip {
          assert g[|g| - 1 - r] == s[|s| - 1 - r];
        }
      }
    }
  }

  // ----- Reading a number back -----

  function DigitValue(c: char): (d: Option<nat>) {
    if '0' <= c <= '9' then Some((c - '0') as nat)
    else if 'a' <= c <= 'f' then Some((c - 'a') as nat + 10)
    else if 'A' <= c <= 'F' then Some((c - 'A') as nat + 10)
    else None
  }

  /** Value of the digits in `s`; every other character is skipped. */
  function Evaluate(s: string, base: nat): nat {
    if s == "" then 0
    else
      var init := Evaluate(s[..|s| - 1], base);
      match DigitValue(s[|s| - 1])
      case Some(d) => init * base + d
      case None => init
  }

  /** Not padding, sign or separator. */
  predicate IsPlain(c: char) {
    c != ' ' && c != '+' && c != '-' && c != '_'
  }

  function DropSpaces(s: string): string {
    if s != "" && s[0] == ' ' then DropSpaces(s[1..]) else s
  }

  /** Reads a field: padding, sign, base prefix (when announced), digits. */
  function Read(text: string, prefixed: bool, base: nat): (r: (bool, nat)) {
    var t := DropSpaces(text);
    var neg := t != "" && t[0] == '-';
    var u := if t != "" && (t[0] == '+' || t[0] == '-') then t[1..] else t;
    var digits := if prefixed && |u| >= 2 then u[2..] else u;
    (neg, Evaluate(digits, base))
  }

  lemma {:induction false} DigitReads(d: nat, upper: bool)
    requires d < 16
    ensures DigitValue(Digit(d, upper)) == Some(d)
    ensures IsPlain(Digit(d, upper))
  {
  }

  lemma {:induction false} DigitsRead(v: nat, base: nat, count: nat, upper: bool)
    requires 2 <= base <= 16 && count >= NumDigits(v, base)
    ensures Evaluate(Digits(v, base, count, upper), base) == v
  {
    hide Evaluate, Digit, NumDigits, Digits;
    if count == 0 {
      NoDigits(v, base, upper);
    } else {
      FewerDigits(v, base, count);
      DigitsRead(v / base, base, count - 1, upper);
      LastDigitReads(v, base, count, upper);
    }
  }

  lemma {:induction false} NoDigits(v: nat, base: nat, upper: bool)
    requires 2 <= base <= 16 && NumDigits(v, base) == 0
    ensures Evaluate(Digits(v, base, 0, upper), base) == v
  {
  }

  lemma {:induction false} FewerDigits(v: nat, base: nat, count: nat)
    requires 2 <= base <= 16 && count > 0 && count >= NumDigits(v, base)
    ensures count - 1 >= NumDigits(v / base, base)
  {
    if v == 0 {
      assert 0 / base == 0;
    }
  }

  lemma {:induction false} LastDigitReads(v: nat, base: nat, count: nat, upper: bool)
    requires 2 <= base <= 16 && count > 0
    requires Evaluate(Digits(v / base, base, count - 1, upper), base) == v / base
    ensures Evaluate(Digits(v, base, count, upper), base) == v
  {
    hide Evaluate, Digit, DigitValue, IsPlain, NumDigits;
    var init := Digits(v / base, base, count - 1, upper);
    assert v % base < base;
    DigitReads(v % base, upper);
    EvaluateLast(init, Digit(v % base, upper), base);
    DivideAndMultiply(v, base);
  }

  lemma {:induction false} DigitsArePlain(v: nat, base: nat, count: nat, upper: bool)
    requires 2 <= base <= 16
    ensures forall c :: c in Digits(v, base, count, upper) ==> IsPlain(c)
  {
    if count > 0 {
      DigitsArePlain(v / base, base, count - 1, upper);
      DigitReads(v % base, upper);
    }
  }

  lemma {:induction false} EvaluateLast(s: string, c: char, base: nat)
    ensures Evaluate(s + [c], base) ==
            match DigitValue(c)
            case Some(d) => Evaluate(s, base) * base + d
            case None => Evaluate(s, base)
  {
    assert (s + [c])[..|s|] == s;
  }

  lemma {:induction false} DivideAndMultiply(v: nat, base: nat)
    requires base > 0
    ensures v / base * base + v % base == v
  {
  }

  lemma {:induction false} TicksDoNotCount(s: string, skip: nat, left: nat, base: nat)
    requires skip > 0
    ensures Evaluate(RightToLeft(s, skip, left), base) == Evaluate(s, base)
  {
    if s != "" {
      var t := RightToLeft(s, skip, left);
      var init := s[..|s| - 1];
      TicksDoNotCount(init, skip, if left == 0 then skip - 1 else left - 1, base);
      if left == 0 {
        var u := RightToLeft(init, skip, skip - 1);
        var w := t[..|t| - 1];
        assert w == u + s[|s| - 1..] && w[..|w| - 1] == u;
      } else {
        assert t[..|t| - 1] == RightToLeft(init, skip, left - 1);
      }
    }
  }

  lemma {:induction false} LeadingZeros(k: nat, s: string, base: nat)
    ensures Evaluate(Repeat('0', k) + s, base) == Evaluate(s, base)
  {
    var t := Repeat('0', k) + s;
    if s != "" {
      LeadingZeros(k, s[..|s| - 1], base);
      assert t[..|t| - 1] == Repeat('0', k) + s[..|s| - 1];
    } else if k > 0 {
      LeadingZeros(k - 1, "", base);
      assert t[..|t| - 1] == Repeat('0', k - 1) + "";
    }
  }

  lemma {:induction false} TrailingSpaces(s: string, k: nat, base: nat)
    ensures Evaluate(s + Repeat(' ', k), base) == Evaluate(s, base)
  {
    var t := s + Repeat(' ', k);
    if k > 0 {
      TrailingSpaces(s, k - 1, base);
      assert t[..|t| - 1] == s + Repeat(' ', k - 1);
    } else {
      assert t == s;
    }
  }

  lemma {:induction false} DropPadding(k: nat, s: string)
    ensures DropSpaces(Repeat(' ', k) + s) == DropSpaces(s)
  {
    if k > 0 {
      var t := Repeat(' ', k) + s;
      assert t[1..] == Repeat(' ', k - 1) + s;
      DropPadding(k - 1, s);
    } else {
      assert Repeat(' ', k) + s == s;
    }
  }

  lemma {:induction false} NumberReads(val: nat, flags: Flags, base: nat, prec: int)
    requires val < TWO64 && 2 <= base <= 16
    ensures var n := Number(val, flags, base, prec);
            n != "" && IsPlain(n[0]) && Evaluate(n, base) == Magnitude(val, flags)
  {
    var v := Magnitude(val, flags);
    var d := DigitCount(v, flags, base, prec);
    var s, skip := Digits(v, base, d, flags.upper), TickSkip(flags, base, d);
    DigitsRead(v, base, d, flags.upper);
    DigitsArePlain(v, base, d, flags.upper);
    GeneratorGroups(s, skip);
    TicksDoNotCount(s, skip, skip, base);
    GroupStart(s, skip);
  }

  lemma {:induction false} GroupStart(s: string, skip: nat)
    requires skip > 0 && s != ""
    ensures Group(s, skip) != "" && Group(s, skip)[0] == s[0]
  {
    if |s| > skip {
      GroupStart(s[..|s| - skip], skip);
    }
  }

  /** What follows the padding on the left is read as sign, prefix and digits. */
  lemma {:induction false} ReadBody(val: nat, flags: Flags, base: nat, body: string)
    requires base == 8 || base == 10 || base == 16
    requires body != "" && IsPlain(body[0])
    ensures Read(Sign(val, flags) + Prefix(flags, base) + body, flags.hash && base == 16, base)
         == (IsNegative(val, flags), Evaluate(body, base))
  {
    var sign, prefix := Sign(val, flags), Prefix(flags, base);
    var tail := prefix + body;
    assert sign + prefix + body == sign + tail;
    SignDropped(sign, tail);
    if flags.hash && base == 16 {
      assert tail[2..] == body;
    } else {
      assert tail == body;
    }
  }

  /** A sign in front of the rest is read as a sign. */
  lemma {:induction false} SignDropped(sign: string, tail: string)
    requires sign == "" || sign == " " || sign == "+" || sign == "-"
    requires tail != "" && IsPlain(tail[0])
    ensures var t := DropSpaces(sign + tail);
            && t != "" && (t[0] == '-' <==> sign == "-")
            && tail == if t[0] == '+' || t[0] == '-' then t[1..] else t
  {
    var text := sign + tail;
    if sign == "" {
      assert text == tail;
    } else {
      assert text[0] == sign[0] && text[1..] == tail;
    }
  }

  /**
   A printed number reads back: for every 64-bit value, base, precision, width
   and flags the field determines sign and magnitude, and these give the value.
   */
  lemma {:induction false} PrintedNumberReadsBack(val: nat, flags: Flags, base: nat, width: int, prec: int)
    requires val < TWO64 && (base == 8 || base == 10 || base == 16)
    ensures var (neg, v) := Read(IntText(val, flags, base, width, prec), flags.hash && base == 16, base);
            && neg == IsNegative(val, flags) && v == Magnitude(val, flags)
            && val == if neg then (TWO64 - v) % TWO64 else v
  {
    var head, number := Sign(val, flags) + Prefix(flags, base), Number(val, flags, base, prec);
    NumberReads(val, flags, base, prec);
    var k, body := LayoutShape(head, number, flags, width, base);
    ReadPadded(k, head + body, flags.hash && base == 16, base);
    ReadBody(val, flags, base, body);
    MagnitudeBack(val, flags);
  }

  lemma {:induction false} MagnitudeBack(val: nat, flags: Flags)
    requires val < TWO64
    ensures val == if IsNegative(val, flags) then (TWO64 - Magnitude(val, flags)) % TWO64
                   else Magnitude(val, flags)
  {
  }

  lemma {:induction false} ReadPadded(k: nat, s: string, prefixed: bool, base: nat)
    ensures Read(Repeat(' ', k) + s, prefixed, base) == Read(s, prefixed, base)
  {
    DropPadding(k, s);
  }

  /** Every layout is left padding, then the head, then a body worth the number. */
  lemma {:induction false} LayoutShape(head: string, number: string, flags: Flags, width: int, base: nat)
    returns (k: nat, body: string)
    requires number != "" && IsPlain(number[0])
    ensures Layout(head, number, flags, width) == Repeat(' ', k) + (head + body)
    ensures body != "" && IsPlain(body[0]) && Evaluate(body, base) == Evaluate(number, base)
  {
    var pad := if width > |head| + |number| then width - |head| - |number| else 0;
    k, body := 0, number;
    if flags.minus {
      TrailingSpaces(number, pad, base);
      body := number + Repeat(' ', pad);
      assert head + number + Repeat(' ', pad) == Repeat(' ', 0) + (head + body);
    } else if flags.zero {
      LeadingZeros(pad, number, base);
      body := Repeat('0', pad) + number;
      assert head + Repeat('0', pad) + number == Repeat(' ', 0) + (head + body);
    } else {
      k := pad;
      assert Repeat(' ', pad) + head + number == Repeat(' ', k) + (head + body);
    }
  }
}
