/**
 Integer conversions as section 7.21.6.1 of ISO C11 describes them, and exactly when
 those of builtin/vsnprintf.c print something else. The flag `'` is not of that
 standard, `#` with `d`, `i` and `u` is undefined there and has no effect here, and the
 text of `p` is left to implementations.
 */
module FormatStandard {
  import opened Common
  import opened Division
  import opened FormatNumber
  import opened FormatSpec

  // ----- The standard's text -----

  /** No more digits than the value needs; none for zero. */
  function Shortest(v: nat, base: nat, upper: bool): string
    requires 2 <= base <= 16
  {
    Digits(v, base, NumDigits(v, base), upper)
  }

  /** The precision is the least number of digits, one if it is not given; `#o` makes the first one a zero. */
  function StandardDigits(v: nat, flags: Flags, base: nat, prec: int): string
    requires 2 <= base <= 16
  {
    var digits := Shortest(v, base, flags.upper);
    var least := if prec < 0 then 1 else prec;
    var body := Repeat('0', if least > |digits| then least - |digits| else 0) + digits;
    if flags.hash && base == 8 && (body == "" || body[0] != '0') then "0" + body else body
  }

  /** Only signed conversions have a sign, and only nonzero values have a prefix. */
  function StandardHead(val: nat, flags: Flags, base: nat): string {
    (if !flags.signed then ""
     else if IsNegative(val, flags) then "-"
     else if flags.plus then "+"
     else if flags.space then " " else "")
    + (if flags.hash && base == 16 && val != 0 then (if flags.upper then "0X" else "0x") else "")
  }

  function Padding(width: int, length: nat): nat {
    if width > length then width - length else 0
  }

  /** The flag `0` is ignored with `-` and with a precision. */
  function StandardText(val: nat, flags: Flags, base: nat, width: int, prec: int): string
    requires val < TWO64 && 2 <= base <= 16
  {
    var head, body := StandardHead(val, flags, base), StandardDigits(Magnitude(val, flags), flags, base, prec);
    var pad := Padding(width, |head| + |body|);
    if flags.minus then head + body + Repeat(' ', pad)
    else if flags.zero && prec < 0 then head + Repeat('0', pad) + body
    else Repeat(' ', pad) + head + body
  }

  // ----- When the text is another -----

  /** Zero with precision zero has no digits; one is printed. */
  predicate DigitOfNothing(val: nat, flags: Flags, base: nat, prec: int) {
    val == 0 && prec == 0 && !(flags.hash && base == 8)
  }

  /** Zero has no prefix; one is printed. */
  predicate PrefixOfZero(val: nat, flags: Flags, base: nat) {
    val == 0 && flags.hash && base == 16
  }

  /** What the standard prints without padding and sign. */
  function Bare(val: nat, flags: Flags, base: nat, prec: int): nat
    requires val < TWO64 && 2 <= base <= 16
  {
    |StandardHead(val, flags, base)| + |StandardDigits(Magnitude(val, flags), flags, base, prec)|
  }

  /** A space in front of an unsigned number shows, unless padding with spaces hides it. */
  predicate SpaceShows(val: nat, flags: Flags, base: nat, width: int, prec: int)
    requires val < TWO64 && 2 <= base <= 16
  {
    var n := Bare(val, flags, base, prec);
    !flags.signed && flags.space && !flags.plus
    && (flags.minus || width <= n || (flags.zero && !(prec >= 0 && width == n + 1)))
  }

  /** Zeros pad although a precision is given. */
  predicate ZerosPad(val: nat, flags: Flags, base: nat, width: int, prec: int)
    requires val < TWO64 && 2 <= base <= 16
  {
    && (flags.signed || (!flags.plus && !flags.space))
    && flags.zero && !flags.minus && prec >= 0 && width > Bare(val, flags, base, prec)
  }

  predicate Deviates(val: nat, flags: Flags, base: nat, width: int, prec: int)
    requires val < TWO64 && 2 <= base <= 16
  {
    || DigitOfNothing(val, flags, base, prec)
    || PrefixOfZero(val, flags, base)
    || (!flags.signed && flags.plus)
    || SpaceShows(val, flags, base, width, prec)
    || ZerosPad(val, flags, base, width, prec)
  }

  // ----- Digits -----

  /** More digits than needed are zeros in front. */
  lemma {:induction false} MoreDigits(v: nat, base: nat, count: nat, upper: bool)
    requires 2 <= base <= 16 && count >= NumDigits(v, base)
    ensures Digits(v, base, count, upper) == Repeat('0', count - NumDigits(v, base)) + Shortest(v, base, upper)
    decreases count
  {
    hide Digit;
    if count == NumDigits(v, base) {
      assert Repeat('0', 0) + Shortest(v, base, upper) == Shortest(v, base, upper);
    } else if v == 0 {
      MoreDigits(0, base, count - 1, upper);
      ZeroDigit(base, upper);
      assert Repeat('0', count - 1) + "" + "0" == Repeat('0', count) + "";
    } else {
      FewerDigits(v, base, count);
      MoreDigits(v / base, base, count - 1, upper);
      var zeros := Repeat('0', count - NumDigits(v, base));
      assert zeros + Shortest(v / base, base, upper) + [Digit(v % base, upper)] == zeros + Shortest(v, base, upper);
    }
  }

  lemma {:induction false} ZeroDigit(base: nat, upper: bool)
    requires 2 <= base <= 16
    ensures 0 / base == 0 && 0 % base == 0 && Digit(0, upper) == '0'
  {
  }

  /** No zero in front of what is needed. */
  lemma {:induction false} FirstDigit(v: nat, base: nat, upper: bool)
    requires 2 <= base <= 16 && v > 0
    ensures Shortest(v, base, upper) != "" && Shortest(v, base, upper)[0] != '0'
    decreases v
  {
    hide Digit;
    if v / base > 0 {
      Quotient(v, base);
      FirstDigit(v / base, base, upper);
    } else {
      Small(v, base);
      NonzeroDigit(v % base, upper);
      assert NumDigits(v, base) == 1;
    }
  }

  lemma {:induction false} Quotient(v: nat, base: nat)
    requires base >= 2 && v > 0
    ensures v / base < v
  {
  }

  lemma {:induction false} Small(v: nat, base: nat)
    requires base >= 2 && v / base == 0
    ensures v < base && v % base == v
  {
  }

  lemma {:induction false} NonzeroDigit(d: nat, upper: bool)
    requires 0 < d < 16
    ensures Digit(d, upper) != '0'
  {
  }

  /** But for zero with precision zero the digits are the standard's. */
  lemma {:induction false} SameDigits(val: nat, flags: Flags, base: nat, prec: int)
    requires val < TWO64 && 2 <= base <= 16 && !flags.tick && !DigitOfNothing(val, flags, base, prec)
    ensures Number(val, flags, base, prec) == StandardDigits(Magnitude(val, flags), flags, base, prec)
  {
    hide Digits, NumDigits, Digit;
    var v := Magnitude(val, flags);
    var count := DigitCount(v, flags, base, prec);
    var digits := Shortest(v, base, flags.upper);
    NumberIsDigits(val, flags, base, prec);
    MoreDigits(v, base, count, flags.upper);
    NeededDigits(v, base);
    if v > 0 {
      FirstDigit(v, base, flags.upper);
    }
    assert Repeat('0', 0) + digits == digits && Repeat('0', 1) == "0";
  }

  lemma {:induction false} NeededDigits(v: nat, base: nat)
    requires base >= 2
    ensures NumDigits(v, base) == 0 <==> v == 0
  {
  }

  lemma {:induction false} NumberIsDigits(val: nat, flags: Flags, base: nat, prec: int)
    requires val < TWO64 && 2 <= base <= 16 && !flags.tick
    ensures var v := Magnitude(val, flags);
            Number(val, flags, base, prec) == Digits(v, base, DigitCount(v, flags, base, prec), flags.upper)
  {
  }

  // ----- Layouts -----

  /** The layout of the source, with the two heads that may differ. */
  function Laid(head: string, body: string, minus: bool, zeros: bool, width: int): string {
    var pad := Padding(width, |head| + |body|);
    if minus then head + body + Repeat(' ', pad)
    else if zeros then head + Repeat('0', pad) + body
    else Repeat(' ', pad) + head + body
  }

  /** A head or a body begins with something that is not padding. */
  predicate Visible(s: string) {
    s != "" && s[0] != ' '
  }

  /** A space in front of the head is hidden by the padding, and by nothing else. */
  lemma {:induction false} SpaceInFront(head: string, body: string, minus: bool, zeros: bool, stillZeros: bool,
                                        width: int)
    requires Visible(head + body) && (stillZeros ==> zeros)
    ensures var n := |head| + |body|;
            Laid(" " + head, body, minus, zeros, width) == Laid(head, body, minus, stillZeros, width)
            <==> !minus && width > n && !stillZeros && (zeros ==> width == n + 1)
  {
    var n := |head| + |body|;
    var t, u := Laid(" " + head, body, minus, zeros, width), Laid(head, body, minus, stillZeros, width);
    var inner := " " + head + Repeat('0', Padding(width, n + 1)) + body;
    if minus || width <= n {
      if minus {
        assert t[0] == ' ' && u[0] == (head + body)[0];
      }
    } else if stillZeros {
      assert t == inner && t[0] == ' ';
      assert u == head + Repeat('0', width - n) + body && u[0] != ' ';
    } else if !zeros {
      SpacesJoin(width - n - 1, head, body);
    } else if width == n + 1 {
      assert t == " " + head + "" + body && u == " " + head + body;
    } else {
      assert t == inner && t[1] != ' ';
      assert u == Repeat(' ', width - n) + head + body && u[1] == ' ';
    }
  }

  lemma {:induction false} SpacesJoin(k: nat, head: string, body: string)
    ensures Repeat(' ', k) + (" " + head) + body == Repeat(' ', k + 1) + head + body
  {
  }

  /** Zeros instead of spaces show as soon as there are any. */
  lemma {:induction false} ZerosForSpaces(head: string, body: string, width: int)
    requires Visible(body) && (head == "" || Visible(head) || (head[0] == ' ' && (|head| == 1 || head[1] != ' ')))
    ensures Laid(head, body, false, true, width) == Laid(head, body, false, false, width)
       <==> width <= |head| + |body|
  {
    var n := |head| + |body|;
    if width > n {
      var t, u := Laid(head, body, false, true, width), Laid(head, body, false, false, width);
      assert t == head + Repeat('0', width - n) + body && u == Repeat(' ', width - n) + head + body;
      if head == "" {
        assert t[0] == '0' && u[0] == ' ';
      } else if head[0] != ' ' {
        assert t[0] == head[0] && u[0] == ' ';
      } else {
        assert t[1] != ' ' && u[1] == ' ';
      }
    }
  }

  // ----- What the texts are made of -----

  predicate Without(s: string, c: char) {
    forall i :: 0 <= i < |s| ==> s[i] != c
  }

  lemma {:induction false} LaidWithout(head: string, body: string, minus: bool, zeros: bool, width: int, c: char)
    requires Without(head, c) && Without(body, c) && c != ' ' && (zeros ==> c != '0')
    ensures Without(Laid(head, body, minus, zeros, width), c)
  {
  }

  lemma {:induction false} LaidWith(head: string, body: string, minus: bool, zeros: bool, width: int, c: char)
    requires !Without(head, c) || !Without(body, c)
    ensures !Without(Laid(head, body, minus, zeros, width), c)
  {
    var pad := Padding(width, |head| + |body|);
    var t := Laid(head, body, minus, zeros, width);
    if !Without(head, c) {
      var i :| 0 <= i < |head| && head[i] == c;
      assert t[if minus || zeros then i else pad + i] == c;
    } else {
      var i :| 0 <= i < |body| && body[i] == c;
      assert t[if minus then |head| + i else |head| + pad + i] == c;
    }
  }

  // ----- The theorem -----

  /** The printed text and the standard's, as layouts. */
  lemma {:induction false} AsLayouts(val: nat, flags: Flags, base: nat, width: int, prec: int)
    requires val < TWO64 && 2 <= base <= 16
    ensures IntText(val, flags, base, width, prec) ==
            Laid(Sign(val, flags) + Prefix(flags, base), Number(val, flags, base, prec), flags.minus, flags.zero, width)
    ensures StandardText(val, flags, base, width, prec) ==
            Laid(StandardHead(val, flags, base), StandardDigits(Magnitude(val, flags), flags, base, prec),
                 flags.minus, flags.zero && prec < 0, width)
  {
    hide Number, StandardDigits, Sign, Prefix, StandardHead, Magnitude;
  }

  /** The standard's digits are digits, and there are some unless zero has precision zero. */
  lemma {:induction false} DigitsOnly(val: nat, flags: Flags, base: nat, prec: int)
    requires val < TWO64 && 2 <= base <= 16
    ensures var body := StandardDigits(Magnitude(val, flags), flags, base, prec);
            && (forall i :: 0 <= i < |body| ==> IsPlain(body[i]))
            && (val == 0 ==> forall i :: 0 <= i < |body| ==> body[i] == '0')
            && (body == "" <==> DigitOfNothing(val, flags, base, prec))
  {
    hide Digits, Digit;
    var v := Magnitude(val, flags);
    NeededDigits(v, base);
    DigitsArePlain(v, base, NumDigits(v, base), flags.upper);
    var digits := Shortest(v, base, flags.upper);
    assert forall i :: 0 <= i < |digits| ==> digits[i] in digits;
  }

  /** One digit is printed for zero with precision zero, where the standard's text has none. */
  lemma {:induction false} DigitShows(val: nat, flags: Flags, base: nat, width: int, prec: int)
    requires val < TWO64 && 2 <= base <= 16 && !flags.tick && DigitOfNothing(val, flags, base, prec)
    ensures IntText(val, flags, base, width, prec) != StandardText(val, flags, base, width, prec)
  {
    AsLayouts(val, flags, base, width, prec);
    NumberIsDigits(val, flags, base, prec);
    ZeroDigit(base, flags.upper);
    var number := Number(val, flags, base, prec);
    assert Digits(0, base, 1, flags.upper) == "0" by {
      assert Digits(0 / base, base, 0, flags.upper) == "";
    }
    assert number == "0" && number[0] == '0';
    hide Number, Digits, StandardDigits, Laid, Sign, Prefix, IntText, StandardText;
    DigitsOnly(val, flags, base, prec);
    LaidWith(Sign(val, flags) + Prefix(flags, base), number, flags.minus, flags.zero, width, '0');
    LaidWithout(StandardHead(val, flags, base), StandardDigits(Magnitude(val, flags), flags, base, prec),
                flags.minus, flags.zero && prec < 0, width, '0');
  }

  /** The prefix of zero is printed, where the standard's text has none. */
  lemma {:induction false} PrefixShows(val: nat, flags: Flags, base: nat, width: int, prec: int)
    requires val < TWO64 && 2 <= base <= 16 && PrefixOfZero(val, flags, base)
    ensures IntText(val, flags, base, width, prec) != StandardText(val, flags, base, width, prec)
  {
    var x := if flags.upper then 'X' else 'x';
    AsLayouts(val, flags, base, width, prec);
    DigitsOnly(val, flags, base, prec);
    var head := Sign(val, flags) + Prefix(flags, base);
    assert head[|head| - 1] == x;
    hide Number, StandardDigits, Laid, IntText, StandardText;
    LaidWith(head, Number(val, flags, base, prec), flags.minus, flags.zero, width, x);
    LaidWithout(StandardHead(val, flags, base), StandardDigits(Magnitude(val, flags), flags, base, prec),
                flags.minus, flags.zero && prec < 0, width, x);
  }

  /** A plus in front of an unsigned number is printed, where the standard's text has none. */
  lemma {:induction false} PlusShows(val: nat, flags: Flags, base: nat, width: int, prec: int)
    requires val < TWO64 && 2 <= base <= 16 && !flags.signed && flags.plus
    ensures IntText(val, flags, base, width, prec) != StandardText(val, flags, base, width, prec)
  {
    AsLayouts(val, flags, base, width, prec);
    DigitsOnly(val, flags, base, prec);
    var head := Sign(val, flags) + Prefix(flags, base);
    assert head[0] == '+';
    hide Number, StandardDigits, Laid, IntText, StandardText;
    LaidWith(head, Number(val, flags, base, prec), flags.minus, flags.zero, width, '+');
    LaidWithout(StandardHead(val, flags, base), StandardDigits(Magnitude(val, flags), flags, base, prec),
                flags.minus, flags.zero && prec < 0, width, '+');
  }

  /** Digits, prefix and plus aside, what is left is the space and the zeros. */
  lemma {:induction false} SpaceAndZeros(val: nat, flags: Flags, base: nat, width: int, prec: int)
    requires val < TWO64 && 2 <= base <= 16 && !flags.tick
    requires !DigitOfNothing(val, flags, base, prec) && !PrefixOfZero(val, flags, base)
    requires flags.signed || !flags.plus
    ensures IntText(val, flags, base, width, prec) == StandardText(val, flags, base, width, prec)
       <==> !SpaceShows(val, flags, base, width, prec) && !ZerosPad(val, flags, base, width, prec)
  {
    AsLayouts(val, flags, base, width, prec);
    SameDigits(val, flags, base, prec);
    DigitsOnly(val, flags, base, prec);
    hide IntText, StandardText, Number, StandardDigits, Laid, IsPlain;
    var head, body := StandardHead(val, flags, base), StandardDigits(Magnitude(val, flags), flags, base, prec);
    assert IsPlain(body[0]) && Visible(body) by {
      PlainIsVisible(body);
    }
    if !flags.signed && flags.space {
      assert Sign(val, flags) + Prefix(flags, base) == " " + head;
      assert Visible(head + body);
      SpaceInFront(head, body, flags.minus, flags.zero, flags.zero && prec < 0, width);
    } else {
      assert Sign(val, flags) + Prefix(flags, base) == head;
      if flags.zero && !flags.minus && prec >= 0 {
        ZerosForSpaces(head, body, width);
      } else {
        SameLayout(head, body, flags.minus, flags.zero, flags.zero && prec < 0, width);
      }
    }
  }

  lemma {:induction false} PlainIsVisible(s: string)
    requires s != "" && forall i :: 0 <= i < |s| ==> IsPlain(s[i])
    ensures IsPlain(s[0]) && Visible(s)
  {
  }

  lemma {:induction false} SameLayout(head: string, body: string, minus: bool, zeros: bool, stillZeros: bool,
                                      width: int)
    requires minus || zeros == stillZeros
    ensures Laid(head, body, minus, zeros, width) == Laid(head, body, minus, stillZeros, width)
  {
  }

  /** For every value, base, width, precision and flags but `'`: the text is the standard's unless it deviates. */
  lemma {:induction false} StandardExactly(val: nat, flags: Flags, base: nat, width: int, prec: int)
    requires val < TWO64 && 2 <= base <= 16 && !flags.tick
    ensures IntText(val, flags, base, width, prec) == StandardText(val, flags, base, width, prec)
       <==> !Deviates(val, flags, base, width, prec)
  {
    hide IntText, StandardText, DigitOfNothing, PrefixOfZero, SpaceShows, ZerosPad;
    if DigitOfNothing(val, flags, base, prec) {
      DigitShows(val, flags, base, width, prec);
    } else if PrefixOfZero(val, flags, base) {
      PrefixShows(val, flags, base, width, prec);
    } else if !flags.signed && flags.plus {
      PlusShows(val, flags, base, width, prec);
    } else {
      SpaceAndZeros(val, flags, base, width, prec);
    }
  }

  // ----- Conversions -----

  predicate IsStandardConversion(c: char) {
    c == 'd' || c == 'i' || c == 'o' || c == 'u' || c == 'x' || c == 'X'
  }

  /** What the standard says the conversion prints. */
  function StandardConvert(c: char, d: Spec, args: seq<Arg>): string
    requires IsStandardConversion(c)
  {
    StandardText(ConversionValue(c, d, args), ConversionSpec(c, d).flags, ConversionBase(c), d.width, d.prec)
  }

  predicate ConversionDeviates(c: char, d: Spec, args: seq<Arg>)
    requires IsStandardConversion(c)
  {
    Deviates(ConversionValue(c, d, args), ConversionSpec(c, d).flags, ConversionBase(c), d.width, d.prec)
  }

  /** Every integer conversion prints what the standard says, exactly unless it deviates. */
  lemma {:induction false} ConvertsExactly(c: char, d: Spec, args: seq<Arg>)
    requires IsStandardConversion(c) && !d.flags.tick
    ensures Convert(c, d, args) == StandardConvert(c, d, args) <==> !ConversionDeviates(c, d, args)
  {
    hide IntText, StandardText, Deviates;
    StandardExactly(ConversionValue(c, d, args), ConversionSpec(c, d).flags, ConversionBase(c), d.width, d.prec);
  }

  // ----- Inputs -----

  /** Both texts of a number of one digit, with at most one digit asked for. */
  lemma {:induction false} OneDigit(v: nat, flags: Flags, base: nat, width: int, prec: int)
    requires v < base && (base == 10 || base == 16) && prec <= 1 && !flags.tick
    ensures var body := if v == 0 && prec == 0 then "" else [Digit(v, flags.upper)];
            && IntText(v, flags, base, width, prec) ==
               Laid(Sign(v, flags) + Prefix(flags, base), [Digit(v, flags.upper)], flags.minus, flags.zero, width)
            && StandardText(v, flags, base, width, prec) ==
               Laid(StandardHead(v, flags, base), body, flags.minus, flags.zero && prec < 0, width)
  {
    AsLayouts(v, flags, base, width, prec);
    NumberIsDigits(v, flags, base, prec);
    OneDigitDigits(v, base, flags.upper);
    hide IntText, StandardText, Laid, Sign, Prefix, StandardHead, Number, Digits, NumDigits, Digit;
    assert Magnitude(v, flags) == v;
    assert Repeat('0', 1) == ['0'] && ['0'] + "" == ['0'];
    assert Repeat('0', 0) + [Digit(v, flags.upper)] == [Digit(v, flags.upper)];
  }

  lemma {:induction false} OneDigitDigits(v: nat, base: nat, upper: bool)
    requires 2 <= base <= 16 && v < base
    ensures Digits(v, base, 1, upper) == [Digit(v, upper)] && Digits(v, base, 0, upper) == ""
    ensures NumDigits(v, base) == if v == 0 then 0 else 1
    ensures v == 0 ==> Digit(v, upper) == '0'
  {
    assert v / base == 0 && v % base == v;
    assert Digits(0, base, 0, upper) == "";
  }

  /** `%.0d` of 0: a digit where the standard has none. */
  lemma {:induction false} PrecisionZero()
    ensures var d, args := NO_SPEC.(prec := 0), [IntArg(0)];
            Convert('d', d, args) == "0" && StandardConvert('d', d, args) == ""
  {
    hide IntText, StandardText;
    OneDigit(0, NO_FLAGS.(signed := true), 10, 0, 0);
  }

  /** `%#x` of 0: a prefix where the standard has none. */
  lemma {:induction false} PrefixedZero()
    ensures var d, args := NO_SPEC.(flags := NO_FLAGS.(hash := true)), [IntArg(0)];
            Convert('x', d, args) == "0x0" && StandardConvert('x', d, args) == "0"
  {
    hide IntText, StandardText;
    OneDigit(0, NO_FLAGS.(hash := true), 16, 0, -1);
  }

  /** `%02.1d` of 7: a zero where the standard has a space. */
  lemma {:induction false} ZeroWithPrecision()
    ensures var d, args := NO_SPEC.(flags := NO_FLAGS.(zero := true), width := 2, prec := 1), [IntArg(7)];
            Convert('d', d, args) == "07" && StandardConvert('d', d, args) == " 7"
  {
    hide IntText, StandardText;
    OneDigit(7, NO_FLAGS.(zero := true, signed := true), 10, 2, 1);
    OneOf('0');
    OneOf(' ');
  }

  lemma {:induction false} OneOf(c: char)
    ensures Repeat(c, 1) == [c]
  {
  }

  /** `%+u` of 7: a plus where the standard has none. */
  lemma {:induction false} PlusUnsigned()
    ensures var d, args := NO_SPEC.(flags := NO_FLAGS.(plus := true)), [IntArg(7)];
            Convert('u', d, args) == "+7" && StandardConvert('u', d, args) == "7"
  {
    hide IntText, StandardText;
    OneDigit(7, NO_FLAGS.(plus := true), 10, 0, -1);
  }

  /** `% u` of 7: a space where the standard has none; in `% 2u` the padding hides it. */
  lemma {:induction false} SpaceUnsigned()
    ensures var d, args := NO_SPEC.(flags := NO_FLAGS.(space := true)), [IntArg(7)];
            && Convert('u', d, args) == " 7" && StandardConvert('u', d, args) == "7"
            && Convert('u', d.(width := 2), args) == " 7" == StandardConvert('u', d.(width := 2), args)
  {
    hide IntText, StandardText;
    OneDigit(7, NO_FLAGS.(space := true), 10, 0, -1);
    OneDigit(7, NO_FLAGS.(space := true), 10, 2, -1);
    OneOf(' ');
  }
}
