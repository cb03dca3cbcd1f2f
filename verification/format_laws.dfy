/**
 What a format string means, read off its written form instead of the parser's
 states: literal text and conversion specifications
 `% flags width . precision length letter` (7.21.6.1 of ISO C11).
 */
module FormatLaws {
  import opened FormatNumber
  import opened FormatSpec

  datatype Amount = Unset | Literal(digits: string) | Star

  datatype Item =
    | Text(text: string)
    | Directive(flags: string, width: Amount, prec: Amount, mods: string, letter: char)

  predicate AllDecimal(s: string) {
    forall i :: 0 <= i < |s| ==> IsDecimal(s[i])
  }

  ghost predicate WellFormed(item: Item) {
    match item
    case Text(t) => '%' !in t
    case Directive(flags, width, prec, mods, letter) =>
      && (forall i :: 0 <= i < |flags| ==> IsFlag(flags[i]))
      && (width.Literal? ==> AllDecimal(width.digits) && width.digits != "" && width.digits[0] != '0')
      && (prec.Literal? ==> AllDecimal(prec.digits))
      && (forall i :: 0 <= i < |mods| ==> IsModifier(mods[i]))
      && !IsFlag(letter) && !IsDecimal(letter) && letter != '*' && letter != '.' && !IsModifier(letter)
  }

  function Written(a: Amount): string {
    match a
    case Unset => ""
    case Literal(digits) => digits
    case Star => "*"
  }

  function ItemText(item: Item): string {
    match item
    case Text(t) => t
    case Directive(flags, width, prec, mods, letter) =>
      "%" + (flags + (Written(width) + (WrittenPrec(prec) + (mods + [letter]))))
  }

  function FormatText(items: seq<Item>): string {
    if items == [] then "" else ItemText(items[0]) + FormatText(items[1..])
  }

  function FlagSet(f: string): Flags {
    Flags('0' in f, '-' in f, '+' in f, '\'' in f, ' ' in f, '#' in f, false, false)
  }

  function Rank(mods: string): int {
    if mods == "" then 0 else ModifiedRank(Rank(mods[..|mods| - 1]), mods[|mods| - 1])
  }

  function ModifiedRank(rank: int, c: char): int {
    if IsModifier(c) then AddModifier(rank, c) else rank
  }

  function WithWidth(w: Amount, d: Spec, args: seq<Arg>): (Spec, seq<Arg>) {
    match w
    case Unset => (d, args)
    case Literal(digits) => (d.(width := Evaluate(digits, 10)), args)
    case Star =>
      var i := IntOf(args);
      (if i < 0 then d.(width := -i, flags := d.flags.(minus := true)) else d.(width := i), Rest(args))
  }

  function WithPrec(p: Amount, d: Spec, args: seq<Arg>): (Spec, seq<Arg>) {
    match p
    case Unset => (d, args)
    case Literal(digits) => (d.(prec := Evaluate(digits, 10)), args)
    case Star => (d.(prec := if IntOf(args) < 0 then -1 else IntOf(args)), Rest(args))
  }

  /** The specification a directive denotes, and the arguments its stars leave. */
  function Denotes(item: Item, args: seq<Arg>): (Spec, seq<Arg>)
    requires item.Directive?
  {
    var (d1, args1) := WithWidth(item.width, Spec(FlagSet(item.flags), 0, -1, 0), args);
    var (d2, args2) := WithPrec(item.prec, d1, args1);
    (d2.(rank := Rank(item.mods)), args2)
  }

  /** The output of a format, item by item. */
  function Meaning(items: seq<Item>, args: seq<Arg>): string {
    if items == [] then "" else
    match items[0]
    case Text(t) => t + Meaning(items[1..], args)
    case Directive(_, _, _, _, letter) =>
      var (d, rest) := Denotes(items[0], args);
      Convert(letter, d, rest) + Meaning(items[1..], ConvertRest(letter, rest))
  }

  lemma {:induction false} NormalIgnoresSpec(m: Parser, d: Spec, s: string)
    requires m.st == Normal
    ensures Expand(m, s) == Expand(m.(d := d), s)
    decreases |s|
  {
    if s != "" && s[0] != '%' {
      NormalIgnoresSpec(m, d, s[1..]);
    }
  }

  lemma {:induction false} TextSection(m: Parser, t: string, rest: string)
    requires m.st == Normal && '%' !in t
    ensures Expand(m, t + rest) == t + Expand(m, rest)
    decreases |t|
  {
    if t == "" {
      assert t + rest == rest;
      assert "" + Expand(m, rest) == Expand(m, rest);
    } else {
      assert (t + rest)[1..] == t[1..] + rest;
      TextSection(m, t[1..], rest);
      assert [t[0]] + (t[1..] + Expand(m, rest)) == t + Expand(m, rest);
    }
  }

  function Union(f: Flags, g: Flags): Flags {
    Flags(f.zero || g.zero, f.minus || g.minus, f.plus || g.plus, f.tick || g.tick,
          f.space || g.space, f.hash || g.hash, f.signed || g.signed, f.upper || g.upper)
  }

  lemma {:induction false} FlagSetStep(f: string)
    requires f != "" && IsFlag(f[0])
    ensures forall g :: Union(g, FlagSet(f)) == Union(AddFlag(g, f[0]), FlagSet(f[1..]))
  {
    assert f == [f[0]] + f[1..];
  }

  lemma {:induction false} FlagSection(m: Parser, f: string, rest: string)
    requires m.st == InFlags && forall i :: 0 <= i < |f| ==> IsFlag(f[i])
    requires rest != "" && !IsFlag(rest[0])
    ensures Expand(m, f + rest)
         == Expand(m.(st := InWidth, d := m.d.(flags := Union(m.d.flags, FlagSet(f)))), rest)
    decreases |f|
  {
    if f == "" {
      assert f + rest == rest;
      assert Union(m.d.flags, FlagSet("")) == m.d.flags;
    } else {
      assert (f + rest)[1..] == f[1..] + rest;
      FlagSetStep(f);
      FlagSection(m.(d := m.d.(flags := AddFlag(m.d.flags, f[0]))), f[1..], rest);
    }
  }

  /** Decimal digits from the left, as the parser reads them. */
  function DecimalFrom(acc: int, s: string): int
    requires AllDecimal(s)
    decreases |s|
  {
    if s == "" then acc else DecimalFrom(acc * 10 + (s[0] - '0') as int, s[1..])
  }

  lemma {:induction false} DecimalFromLast(acc: int, s: string, c: char)
    requires AllDecimal(s) && IsDecimal(c)
    ensures DecimalFrom(acc, s + [c]) == DecimalFrom(acc, s) * 10 + (c - '0') as int
    decreases |s|
  {
    var t := s + [c];
    if s == "" {
      assert t[1..] == "";
    } else {
      assert t[1..] == s[1..] + [c];
      DecimalFromLast(acc * 10 + (s[0] - '0') as int, s[1..], c);
    }
  }

  lemma {:induction false} DecimalIsEvaluate(s: string)
    requires AllDecimal(s)
    ensures DecimalFrom(0, s) == Evaluate(s, 10)
  {
    if s != "" {
      var init := s[..|s| - 1];
      DecimalIsEvaluate(init);
      DecimalFromLast(0, init, s[|s| - 1]);
      assert init + [s[|s| - 1]] == s;
    }
  }

  lemma {:induction false} WidthDigits(m: Parser, s: string, rest: string)
    requires m.st == InWidth && AllDecimal(s)
    ensures Expand(m, s + rest) == Expand(m.(d := m.d.(width := DecimalFrom(m.d.width, s))), rest)
    decreases |s|
  {
    if s == "" {
      assert s + rest == rest;
    } else {
      assert (s + rest)[1..] == s[1..] + rest;
      WidthDigits(m.(d := WidthDigit(m.d, s[0])), s[1..], rest);
    }
  }

  lemma {:induction false} PrecDigits(m: Parser, s: string, rest: string)
    requires m.st == InPrec && AllDecimal(s)
    ensures Expand(m, s + rest) == Expand(m.(d := m.d.(prec := DecimalFrom(m.d.prec, s))), rest)
    decreases |s|
  {
    if s == "" {
      assert s + rest == rest;
    } else {
      assert (s + rest)[1..] == s[1..] + rest;
      PrecDigits(m.(d := PrecDigit(m.d, s[0])), s[1..], rest);
    }
  }

  lemma {:induction false} ModifierSection(m: Parser, mods: string, done: string, rest: string)
    requires m.st == InModifiers && (forall i :: 0 <= i < |mods| ==> IsModifier(mods[i]))
    requires m.d.rank == Rank(done)
    ensures Expand(m, mods + rest) == Expand(m.(d := m.d.(rank := Rank(done + mods))), rest)
    decreases |mods|
  {
    hide AddModifier, Rank;
    if mods == "" {
      assert mods + rest == rest && done + mods == done;
    } else {
      var done' := done + [mods[0]];
      RankStep(done, mods[0]);
      assert (mods + rest)[1..] == mods[1..] + rest;
      assert done'[..|done'| - 1] == done;
      ModifierSection(m.(d := m.d.(rank := AddModifier(m.d.rank, mods[0]))), mods[1..], done', rest);
      assert done' + mods[1..] == done + mods;
    }
  }

  lemma {:induction false} RankStep(done: string, c: char)
    requires IsModifier(c)
    ensures Rank(done + [c]) == AddModifier(Rank(done), c)
  {
    assert (done + [c])[..|done|] == done;
  }

  /** Nothing that belongs to a width or a precision follows. */
  predicate EndsAmount(rest: string) {
    rest != "" && !IsDecimal(rest[0]) && rest[0] != '*'
  }

  lemma {:induction false} WidthSection(m: Parser, w: Amount, rest: string)
    requires m.st == InWidth && m.d.width == 0 && EndsAmount(rest)
    requires w.Literal? ==> AllDecimal(w.digits)
    ensures var (d, args) := WithWidth(w, m.d, m.args);
            Expand(m, Written(w) + rest) == Expand(Parser(InWidth, d, args), rest)
  {
    match w
    case Unset => assert "" + rest == rest;
    case Literal(digits) => WidthDigits(m, digits, rest); DecimalIsEvaluate(digits);
    case Star => assert ("*" + rest)[1..] == rest;
  }

  function WrittenPrec(p: Amount): string {
    if p.Unset? then "" else "." + Written(p)
  }

  /** An optional precision, up to the length modifiers. */
  lemma {:induction false} PrecSection(m: Parser, p: Amount, rest: string)
    requires m.st == InWidth && EndsAmount(rest) && rest[0] != '.'
    requires p.Literal? ==> AllDecimal(p.digits)
    ensures var (d, args) := WithPrec(p, m.d, m.args);
            Expand(m, WrittenPrec(p) + rest) == Expand(Parser(InModifiers, d, args), rest)
  {
    if p.Unset? {
      assert "" + rest == rest;
    } else {
      var s := "." + Written(p) + rest;
      var m1 := m.(st := InPrec, d := m.d.(prec := 0));
      assert s[1..] == Written(p) + rest;
      assert Expand(m, s) == Expand(m1, Written(p) + rest);
      if p.Literal? {
        PrecDigits(m1, p.digits, rest);
        DecimalIsEvaluate(p.digits);
      } else {
        assert ("*" + rest)[1..] == rest;
      }
    }
  }

  lemma {:induction false} LetterSection(d: Spec, args: seq<Arg>, mods: string, letter: char, rest: string)
    requires d.rank == 0 && (forall i :: 0 <= i < |mods| ==> IsModifier(mods[i])) && !IsModifier(letter)
    ensures Expand(Parser(InModifiers, d, args), mods + ([letter] + rest))
         == Convert(letter, d.(rank := Rank(mods)), args) + Output(rest, ConvertRest(letter, args))
  {
    ModifierSection(Parser(InModifiers, d, args), mods, "", [letter] + rest);
    assert "" + mods == mods;
    var m := Parser(InModifiers, d.(rank := Rank(mods)), args);
    assert ([letter] + rest)[1..] == rest;
    NormalIgnoresSpec(EndSpec(m, letter), NO_SPEC, rest);
  }

  lemma {:induction false} PercentSign(s: string, args: seq<Arg>)
    ensures Output("%" + s, args) == Expand(Parser(InFlags, NO_SPEC, args), s)
  {
    assert ("%" + s)[1..] == s;
  }

  lemma {:induction false} UnionFromNone(flags: string)
    ensures Union(NO_FLAGS, FlagSet(flags)) == FlagSet(flags)
  {
  }

  /** One conversion specification writes what it denotes. */
  lemma {:induction false} DirectiveMeaning(item: Item, args: seq<Arg>, rest: string)
    requires item.Directive? && WellFormed(item)
    ensures var (d, left) := Denotes(item, args);
            Output(ItemText(item) + rest, args) ==
            Convert(item.letter, d, left) + Output(rest, ConvertRest(item.letter, left))
  {
    hide Expand, Output, Convert, ConvertRest, Union, FlagSet, Rank;
    var s4 := item.mods + ([item.letter] + rest);
    var s3 := WrittenPrec(item.prec) + s4;
    var s2 := Written(item.width) + s3;
    var s1 := item.flags + s2;
    assert ItemText(item) + rest == "%" + s1;
    PercentSign(s1, args);
    FlagSection(Parser(InFlags, NO_SPEC, args), item.flags, s2);
    UnionFromNone(item.flags);
    var d0 := NO_SPEC.(flags := FlagSet(item.flags));
    WidthSection(Parser(InWidth, d0, args), item.width, s3);
    var (d1, args1) := WithWidth(item.width, d0, args);
    PrecSection(Parser(InWidth, d1, args1), item.prec, s4);
    var (d2, args2) := WithPrec(item.prec, d1, args1);
    LetterSection(d2, args2, item.mods, item.letter, rest);
  }

  /** The parser's output is the meaning of the format, for all items and arguments. */
  lemma {:induction false} FormatMeaning(items: seq<Item>, args: seq<Arg>)
    requires forall i :: 0 <= i < |items| ==> WellFormed(items[i])
    ensures Output(FormatText(items), args) == Meaning(items, args)
    decreases |items|
  {
    if items != [] {
      var rest := FormatText(items[1..]);
      match items[0]
      case Text(t) =>
        TextSection(Parser(Normal, NO_SPEC, args), t, rest);
        FormatMeaning(items[1..], args);
      case Directive(_, _, _, _, letter) =>
        DirectiveMeaning(items[0], args, rest);
        var (d, left) := Denotes(items[0], args);
        FormatMeaning(items[1..], ConvertRest(letter, left));
    }
  }

  // ----- Addresses read back -----

  /** An address reads back, with its prefix. */
  lemma {:induction false} PointerReadsBack(c: char, d: Spec, args: seq<Arg>)
    requires (c == 'p' || c == 'P') && args != [] && args[0].PtrArg? && !d.flags.signed
    requires args[0].address < 0x1_0000_0000
    ensures Read(Convert(c, d, args), true, 16) == (false, args[0].address)
  {
    hide IntText, Read;
    var e := ConversionSpec(c, d);
    PrintedNumberReadsBack(ConversionValue(c, d, args), e.flags, 16, e.width, e.prec);
  }
}
