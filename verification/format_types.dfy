/**
 Integer and character conversions from their written form to what can be read from
 the field, with the sizes of the C types of the IOP as literal numbers: 8 bits for
 `hh`, 16 for `h`, 32 for int and long, 64 for long long.
 */
module FormatTypes {
  import opened Common
  import opened Division
  import opened FormatNumber
  import opened FormatSpec
  import opened FormatLaws

  // ----- Sizes -----

  /** What the length modifiers add up to; `j`, `z` and `t` set it. */
  function Weight(mods: string): int {
    if mods == "" then 0
    else
      var init := Weight(mods[..|mods| - 1]);
      match mods[|mods| - 1]
      case 'h' => init - 1
      case 'l' => init + 1
      case 'L' => init + 2
      case 'q' => init + 2
      case 'j' => 2
      case 'z' => 1
      case 't' => 1
      case _ => init
  }

  /** How many values the type has that the modifiers select. */
  function Size(mods: string): nat {
    var w := Weight(mods);
    if w <= -2 then 0x100
    else if w == -1 then 0x1_0000
    else if w == 0 || w == 1 then 0x1_0000_0000
    else 0x1_0000_0000_0000_0000
  }

  /** `char`, `short`, `int` and `long`, `long long`, as they are usually written. */
  lemma {:induction false} UsualSizes()
    ensures Size("hh") == 0x100
    ensures Size("h") == 0x1_0000
    ensures Size("") == Size("l") == Size("z") == Size("t") == 0x1_0000_0000
    ensures Size("ll") == Size("j") == Size("L") == Size("q") == 0x1_0000_0000_0000_0000
  {
    assert "hh"[..1] == "h" && "ll"[..1] == "l";
    assert "h"[..0] == "" && "l"[..0] == "" && "z"[..0] == "" && "t"[..0] == "";
    assert "j"[..0] == "" && "L"[..0] == "" && "q"[..0] == "";
  }

  lemma {:induction false} RankIsWeight(mods: string)
    requires forall i :: 0 <= i < |mods| ==> IsModifier(mods[i])
    ensures Rank(mods) == Weight(mods)
  {
    if mods != "" {
      RankIsWeight(mods[..|mods| - 1]);
    }
  }

  lemma {:induction false} ModulusIsSize(mods: string)
    requires forall i :: 0 <= i < |mods| ==> IsModifier(mods[i])
    ensures Modulus(ClampRank(Rank(mods))) == Size(mods)
  {
    RankIsWeight(mods);
  }

  lemma {:induction false} DenotedRank(item: Item, args: seq<Arg>)
    requires item.Directive?
    ensures Denotes(item, args).0.rank == Rank(item.mods)
    ensures Denotes(item, args).0.flags.hash == ('#' in item.flags)
    ensures !Denotes(item, args).0.flags.signed && !Denotes(item, args).0.flags.upper
  {
    hide WithWidth, WithPrec, Rank;
    var d := Spec(FlagSet(item.flags), 0, -1, 0);
    var (d1, args1) := WithWidth(item.width, d, args);
    WidthKeeps(item.width, d, args);
    PrecKeeps(item.prec, d1, args1);
  }

  lemma {:induction false} WidthKeeps(w: Amount, d: Spec, args: seq<Arg>)
    ensures var f := WithWidth(w, d, args).0.flags;
            f.hash == d.flags.hash && f.signed == d.flags.signed && f.upper == d.flags.upper
  {
  }

  lemma {:induction false} PrecKeeps(p: Amount, d: Spec, args: seq<Arg>)
    ensures WithPrec(p, d, args).0.flags == d.flags
  {
  }

  // ----- Integer conversions -----

  /** The field, and the value of the type it stands for. */
  ghost predicate Wraps(w: int, i: int, least: int, size: nat)
    requires size > 0
  {
    least <= w < least + size && (w - i) % size == 0
  }

  lemma {:induction false} WrapsInside(w: int, i: int, least: int, size: nat)
    requires size > 0 && Wraps(w, i, least, size) && least <= i < least + size
    ensures w == i
  {
    var k := (w - i) / size;
    assert w - i == k * size;
    if k >= 1 {
      AtLeastOne(k, size);
    } else if k <= -1 {
      AtLeastOne(-k, size);
    }
  }

  /**
   `%d` and `%i`, whatever flags, width and precision: the field reads back as the
   argument, or as the number it wraps around to if its type is too small for it.
   */
  lemma {:induction false} SignedPrints(item: Item, args: seq<Arg>, rest: string) returns (field: string, w: int)
    requires item.Directive? && WellFormed(item) && (item.letter == 'd' || item.letter == 'i')
    requires var left := Denotes(item, args).1; left != [] && left[0].IntArg?
    ensures var left, size := Denotes(item, args).1, Size(item.mods);
            && Output(ItemText(item) + rest, args) == field + Output(rest, left[1..])
            && Read(field, false, 10) == (w < 0, if w < 0 then -w else w)
            && Wraps(w, left[0].i, -(size / 2), size)
            && (-(size / 2) <= left[0].i < size / 2 ==> w == left[0].i)
  {
    hide Output, Read, Convert, Denotes, Size, Modulus, Rank, ClampRank, ItemText, WellFormed;
    var (d, left) := Denotes(item, args);
    DirectiveMeaning(item, args, rest);
    field := Convert(item.letter, d, left);
    DenotedRank(item, args);
    ModifiersOf(item);
    ModulusIsSize(item.mods);
    Halves(item.mods);
    w := SignedField(item.letter, d, left);
    if -(Size(item.mods) / 2) <= left[0].i < Size(item.mods) / 2 {
      WrapsInside(w, left[0].i, -(Size(item.mods) / 2), Size(item.mods));
    }
  }

  lemma {:induction false} ModifiersOf(item: Item)
    requires item.Directive? && WellFormed(item)
    ensures forall i :: 0 <= i < |item.mods| ==> IsModifier(item.mods[i])
  {
  }

  lemma {:induction false} Halves(mods: string)
    ensures Size(mods) > 0 && Size(mods) % 2 == 0 && Size(mods) <= TWO64
  {
  }

  lemma {:induction false} SignedField(c: char, d: Spec, args: seq<Arg>) returns (w: int)
    requires (c == 'd' || c == 'i') && args != [] && args[0].IntArg?
    ensures Read(Convert(c, d, args), false, 10) == (w < 0, if w < 0 then -w else w)
    ensures var size := Modulus(ClampRank(d.rank)); Wraps(w, args[0].i, -(size / 2), size)
    ensures ConvertRest(c, args) == args[1..]
  {
    hide IntText, Read;
    var val, e := ConversionValue(c, d, args), ConversionSpec(c, d);
    w := AsSigned(val);
    PrintedNumberReadsBack(val, e.flags, 10, e.width, e.prec);
  }

  /** Base of the unsigned conversions. */
  function BaseOf(letter: char): nat {
    match letter
    case 'o' => 8
    case 'u' => 10
    case _ => 16
  }

  /** `%o`, `%u`, `%x` and `%X`: the field reads back as the argument modulo the size of its type. */
  lemma {:induction false} UnsignedPrints(item: Item, args: seq<Arg>, rest: string) returns (field: string, w: nat)
    requires item.Directive? && WellFormed(item) && item.letter in "ouxX"
    requires var left := Denotes(item, args).1; left != [] && left[0].IntArg?
    ensures var left, size, base := Denotes(item, args).1, Size(item.mods), BaseOf(item.letter);
            && Output(ItemText(item) + rest, args) == field + Output(rest, left[1..])
            && Read(field, '#' in item.flags && base == 16, base) == (false, w)
            && Wraps(w, left[0].i, 0, size)
            && (0 <= left[0].i < size ==> w == left[0].i)
  {
    hide Output, Read, Convert, Denotes, Size, Modulus, Rank, ClampRank, ItemText, WellFormed;
    var (d, left) := Denotes(item, args);
    DirectiveMeaning(item, args, rest);
    field := Convert(item.letter, d, left);
    DenotedRank(item, args);
    ModifiersOf(item);
    ModulusIsSize(item.mods);
    Halves(item.mods);
    w := UnsignedField(item.letter, d, left);
    if 0 <= left[0].i < Size(item.mods) {
      WrapsInside(w, left[0].i, 0, Size(item.mods));
    }
  }

  lemma {:induction false} UnsignedField(c: char, d: Spec, args: seq<Arg>) returns (w: nat)
    requires c == 'o' || c == 'u' || c == 'x' || c == 'X'
    requires args != [] && args[0].IntArg? && !d.flags.signed
    ensures Read(Convert(c, d, args), d.flags.hash && BaseOf(c) == 16, BaseOf(c)) == (false, w)
    ensures Wraps(w, args[0].i, 0, Modulus(ClampRank(d.rank)))
    ensures ConvertRest(c, args) == args[1..]
  {
    hide IntText, Read;
    var val, e := ConversionValue(c, d, args), ConversionSpec(c, d);
    w := val;
    PrintedNumberReadsBack(val, e.flags, BaseOf(c), e.width, e.prec);
  }

  /** Plain `%d` prints every int. */
  lemma {:induction false} IntPrints(i: int, args: seq<Arg>, rest: string) returns (field: string)
    requires -0x8000_0000 <= i < 0x8000_0000
    ensures Output("%d" + rest, [IntArg(i)] + args) == field + Output(rest, args)
    ensures Read(field, false, 10) == (i < 0, if i < 0 then -i else i)
  {
    hide Output, Read;
    var item := Directive("", Unset, Unset, "", 'd');
    var w;
    UsualSizes();
    PlainText(item);
    assert "%d" == ['%', 'd'] && ([IntArg(i)] + args)[1..] == args;
    field, w := SignedPrints(item, [IntArg(i)] + args, rest);
  }

  /** Plain `%u` prints every unsigned int. */
  lemma {:induction false} UnsignedIntPrints(i: nat, args: seq<Arg>, rest: string) returns (field: string)
    requires i < 0x1_0000_0000
    ensures Output("%u" + rest, [IntArg(i)] + args) == field + Output(rest, args)
    ensures Read(field, false, 10) == (false, i)
  {
    hide Output, Read;
    var item := Directive("", Unset, Unset, "", 'u');
    var w;
    UsualSizes();
    PlainText(item);
    assert "%u" == ['%', 'u'] && ([IntArg(i)] + args)[1..] == args;
    field, w := UnsignedPrints(item, [IntArg(i)] + args, rest);
  }

  lemma {:induction false} PlainText(item: Item)
    requires item.Directive? && item.flags == "" && item.width.Unset? && item.prec.Unset? && item.mods == ""
    ensures ItemText(item) == ['%', item.letter]
  {
  }

  // ----- Addresses -----

  /** `n` hexadecimal digits are enough below 16^n. */
  lemma {:induction false} FewHexDigits(v: nat, n: nat, limit: nat)
    requires n <= 8 && limit == [1, 0x10, 0x100, 0x1000, 0x1_0000, 0x10_0000, 0x100_0000, 0x1000_0000, 0x1_0000_0000][n]
    requires v < limit
    ensures NumDigits(v, 16) <= n
  {
    if n > 0 && v > 0 {
      FewHexDigits(v / 16, n - 1, limit / 16);
    }
  }

  /** Plain `%p` prints `0x` and eight hexadecimal digits that read back as the address. */
  lemma {:induction false} AddressPrints(address: nat, args: seq<Arg>, rest: string) returns (field: string)
    requires address < 0x1_0000_0000
    ensures Output("%p" + rest, [PtrArg(address)] + args) == field + Output(rest, args)
    ensures |field| == 10 && field[..2] == "0x" && '_' !in field[2..] && Evaluate(field[2..], 16) == address
  {
    hide Output, Digits, NumDigits, DigitCount, Group, Evaluate;
    var item := Directive("", Unset, Unset, "", 'p');
    PlainText(item);
    var all := [PtrArg(address)] + args;
    assert "%p" == ['%', 'p'] && all[1..] == args;
    DirectiveMeaning(item, all, rest);
    var d := Denotes(item, all).0;
    field := Convert('p', d, all);
    var e := ConversionSpec('p', d);
    EightDigits(address, e.flags);
    var n := Number(address, e.flags, 16, 8);
    assert Repeat(' ', 0) + ("" + "0x") + n == "0x" + n;
    assert ("0x" + n)[2..] == n;
  }

  lemma {:induction false} EightDigits(address: nat, flags: Flags)
    requires address < 0x1_0000_0000 && !flags.signed && !flags.tick
    ensures var n := Number(address, flags, 16, 8);
            |n| == 8 && '_' !in n && Evaluate(n, 16) == address
  {
    hide Digits, NumDigits, Group, Evaluate;
    FewHexDigits(address, 8, 0x1_0000_0000);
    var s := Digits(address, 16, 8, flags.upper);
    assert DigitCount(address, flags, 16, 8) == 8;
    Ungrouped(s, 8);
    DigitsNoTick(address, 16, 8, flags.upper);
    DigitsRead(address, 16, 8, flags.upper);
  }

  // ----- Digits and separators -----

  /** Digits are counted without leading zeros. */
  lemma {:induction false} NoLeadingZero(v: nat, base: nat, upper: bool)
    requires 2 <= base <= 16 && v > 0
    ensures NumDigits(v, base) > 0 && Digits(v, base, NumDigits(v, base), upper)[0] != '0'
    decreases v
  {
    hide Digit;
    Divided(v, base);
    if v >= base {
      NoLeadingZero(v / base, base, upper);
    } else {
      QuotientSmall(v, base);
      NonzeroDigit(v, upper);
    }
  }

  lemma {:induction false} Divided(v: nat, base: nat)
    requires 2 <= base && v > 0
    ensures v / base < v && (v >= base ==> v / base > 0)
  {
    var q, r := v / base, v % base;
    DivideAndMultiply(v, base);
    AtLeastTwice(q, base);
    assert q == 0 ==> v == r < base;
  }

  lemma {:induction false} AtLeastTwice(q: nat, base: nat)
    requires base >= 2
    ensures q * base >= 2 * q
  {
  }

  lemma {:induction false} NonzeroDigit(d: nat, upper: bool)
    requires 0 < d < 16
    ensures Digit(d, upper) != '0'
  {
  }

  /** The digits of one case. */
  predicate IsCasedDigit(c: char, upper: bool) {
    if upper then c in "0123456789ABCDEF" else c in "0123456789abcdef"
  }

  lemma {:induction false} DigitsCased(v: nat, base: nat, count: nat, upper: bool)
    requires 2 <= base <= 16
    ensures forall c :: c in Digits(v, base, count, upper) ==> IsCasedDigit(c, upper)
  {
    hide IsCasedDigit, Digit;
    if count > 0 {
      DigitsCased(v / base, base, count - 1, upper);
      DigitCased(v % base, upper);
    }
  }

  lemma {:induction false} DigitCased(d: nat, upper: bool)
    requires d < 16
    ensures IsCasedDigit(Digit(d, upper), upper) && Digit(d, upper) != '_'
  {
  }

  lemma {:induction false} GroupHolds(s: string, skip: nat)
    requires skip > 0
    ensures forall c :: c in Group(s, skip) ==> c in s || c == '_'
  {
    if |s| > skip {
      GroupHolds(s[..|s| - skip], skip);
    }
  }

  /**
   A number holds digits of the case asked for, and an underscore behind every four
   of them in base 16, every three in another, counted from the right, if and only if
   the flag asks for it.
   */
  lemma {:induction false} NumberCharacters(val: nat, flags: Flags, base: nat, prec: int, r: nat)
    requires val < TWO64 && 2 <= base <= 16 && r < |Number(val, flags, base, prec)|
    ensures var n := Number(val, flags, base, prec);
            var c := n[|n| - 1 - r];
            && (c == '_' <==> flags.tick && (if base == 16 then r % 5 == 4 else r % 4 == 3))
            && (c != '_' ==> IsCasedDigit(c, flags.upper))
  {
    hide IsCasedDigit, Digit, DigitCount, Group, Digits;
    var v := Magnitude(val, flags);
    var count := DigitCount(v, flags, base, prec);
    var s, skip := Digits(v, base, count, flags.upper), TickSkip(flags, base, count);
    DigitsCased(v, base, count, flags.upper);
    DigitsNoTick(v, base, count, flags.upper);
    GroupHolds(s, skip);
    SeparatorPositions(s, skip, r);
    if !flags.tick {
      Ungrouped(s, skip);
      QuotientSmall(r, skip + 1);
    }
  }

  lemma {:induction false} Ungrouped(s: string, skip: nat)
    requires skip > 0 && |s| <= skip
    ensures Group(s, skip) == s
  {
  }

  lemma {:induction false} DigitsNoTick(v: nat, base: nat, count: nat, upper: bool)
    requires 2 <= base <= 16
    ensures '_' !in Digits(v, base, count, upper)
  {
    hide Digit, IsCasedDigit;
    if count > 0 {
      DigitsNoTick(v / base, base, count - 1, upper);
      DigitCased(v % base, upper);
    }
  }

  /** `%X` asks for the upper case, the other conversions with the letters below for the lower. */
  lemma {:induction false} LetterCase(item: Item, args: seq<Arg>)
    requires item.Directive? && item.letter in "diouxXpP"
    ensures ConversionSpec(item.letter, Denotes(item, args).0).flags.upper <==> item.letter in "XP"
  {
    hide WithWidth, WithPrec, Rank;
    DenotedRank(item, args);
  }

  // ----- Strings and characters -----

  /** `t` with padding to `width` columns, on the right or on the left. */
  ghost predicate IsPadded(field: string, t: string, width: int, left: bool, pad: char) {
    && |field| == (if width > |t| then width else |t|)
    && (if left then t <= field else |field| >= |t| && field[|field| - |t|..] == t)
    && forall i :: 0 <= i < |field| && (if left then i >= |t| else i < |field| - |t|) ==> field[i] == pad
  }

  /** How much of a string a precision leaves; all of it if there is none. */
  function Cut(s: string, prec: int): string
    requires prec >= -1
  {
    if prec == -1 || prec >= |s| then s else s[..prec]
  }

  lemma {:induction false} StringField(s: string, d: Spec)
    requires d.prec >= -1
    ensures IsPadded(StrText(s, d), Cut(s, d.prec), d.width, d.flags.minus,
                     if d.flags.zero && !d.flags.minus then '0' else ' ')
  {
  }

  /** `%s` prints its argument, cut by the precision and padded to the width. */
  lemma {:induction false} StringPrints(item: Item, args: seq<Arg>, rest: string) returns (field: string)
    requires item.Directive? && WellFormed(item) && item.letter == 's'
    requires var left := Denotes(item, args).1; left != [] && left[0].StrArg?
    ensures var (d, left) := Denotes(item, args);
            && Output(ItemText(item) + rest, args) == field + Output(rest, left[1..])
            && d.prec >= -1
            && IsPadded(field, Cut(if left[0].s == None then "(null)" else left[0].s.value, d.prec), d.width,
                        d.flags.minus, if d.flags.zero && !d.flags.minus then '0' else ' ')
  {
    hide Output, StrText, Denotes, ItemText, WellFormed, IsPadded;
    var (d, left) := Denotes(item, args);
    DirectiveMeaning(item, args, rest);
    field := Convert(item.letter, d, left);
    DenotedPrec(item, args);
    StringField(StrOf(left), d);
  }

  /** `%c` prints the character whose code is the argument, or its remainder modulo 256. */
  lemma {:induction false} CharacterPrints(item: Item, args: seq<Arg>, rest: string)
    returns (field: string, code: nat)
    requires item.Directive? && WellFormed(item) && item.letter == 'c'
    requires var left := Denotes(item, args).1; left != [] && left[0].IntArg?
    ensures var (d, left) := Denotes(item, args);
            && Output(ItemText(item) + rest, args) == field + Output(rest, left[1..])
            && d.prec >= -1 && Wraps(code, left[0].i, 0, 256)
            && IsPadded(field, Cut([code as char], d.prec), d.width,
                        d.flags.minus, if d.flags.zero && !d.flags.minus then '0' else ' ')
  {
    hide Output, StrText, Denotes, ItemText, WellFormed, IsPadded;
    var (d, left) := Denotes(item, args);
    DirectiveMeaning(item, args, rest);
    field := Convert(item.letter, d, left);
    DenotedPrec(item, args);
    code := left[0].i % 256;
    Residue(left[0].i, 256);
    StringField([code as char], d);
  }

  lemma {:induction false} DenotedPrec(item: Item, args: seq<Arg>)
    requires item.Directive?
    ensures Denotes(item, args).0.prec >= -1
  {
  }

  /** `%n` prints nothing, but takes its argument. */
  lemma {:induction false} CountPrints(item: Item, args: seq<Arg>, rest: string)
    requires item.Directive? && WellFormed(item) && item.letter == 'n'
    requires Denotes(item, args).1 != []
    ensures Output(ItemText(item) + rest, args) == Output(rest, Denotes(item, args).1[1..])
  {
    hide Output, Denotes, ItemText, WellFormed;
    DirectiveMeaning(item, args, rest);
    var left := Denotes(item, args).1;
    assert "" + Output(rest, left[1..]) == Output(rest, left[1..]);
  }

  /** Any other letter, `%` among them, prints itself and takes no argument. */
  lemma {:induction false} OtherLetterPrints(item: Item, args: seq<Arg>, rest: string)
    requires item.Directive? && WellFormed(item) && item.letter !in "PpdiouXxcsn"
    ensures Output(ItemText(item) + rest, args) == [item.letter] + Output(rest, Denotes(item, args).1)
  {
    hide Output, Denotes, ItemText, WellFormed;
    DirectiveMeaning(item, args, rest);
  }

  /** `%%` prints one percent sign and takes no argument. */
  lemma {:induction false} PercentPrints(args: seq<Arg>, rest: string)
    ensures Output("%%" + rest, args) == "%" + Output(rest, args)
  {
    hide Output;
    var item := Directive("", Unset, Unset, "", '%');
    PlainText(item);
    OtherLetterPrints(item, args, rest);
    assert "%%" == ['%', '%'];
  }
}
