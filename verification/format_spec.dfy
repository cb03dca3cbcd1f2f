/**
 The unlimited output of a format string (builtin/vsnprintf.c): the five parser
 states as one function over the remaining format, and what a conversion
 specification means.
 */
module FormatSpec {
  import opened Common
  import opened Division
  import opened FormatNumber

  /** Variable arguments; pointers and longs have 32 bits on the IOP. */
  datatype Arg = IntArg(i: int) | PtrArg(address: nat) | StrArg(s: Option<string>)

  datatype Spec = Spec(flags: Flags, width: int, prec: int, rank: int)

  const NO_SPEC := Spec(NO_FLAGS, 0, -1, 0)

  datatype State = Normal | InFlags | InWidth | InPrec | InModifiers

  /** A missing or differently typed argument, undefined in C, is read as zero or null. */
  function IntOf(args: seq<Arg>): int {
    if args != [] && args[0].IntArg? then args[0].i else 0
  }

  function PtrOf(args: seq<Arg>): nat {
    if args != [] && args[0].PtrArg? then args[0].address else 0
  }

  function StrOf(args: seq<Arg>): string {
    if args != [] && args[0].StrArg? && args[0].s.Some? then args[0].s.value else "(null)"
  }

  function Rest(args: seq<Arg>): seq<Arg> {
    if args == [] then [] else args[1..]
  }

  predicate IsFlag(c: char) {
    c == '-' || c == '+' || c == '\'' || c == ' ' || c == '#' || c == '0'
  }

  function AddFlag(f: Flags, c: char): Flags
    requires IsFlag(c)
  {
    if c == '-' then f.(minus := true)
    else if c == '+' then f.(plus := true)
    else if c == '\'' then f.(tick := true)
    else if c == ' ' then f.(space := true)
    else if c == '#' then f.(hash := true)
    else f.(zero := true)
  }

  predicate IsDecimal(c: char) {
    '0' <= c <= '9'
  }

  predicate IsModifier(c: char) {
    c == 'h' || c == 'l' || c == 'j' || c == 'z' || c == 't' || c == 'L' || c == 'q'
  }

  function AddModifier(rank: int, c: char): int
    requires IsModifier(c)
  {
    if c == 'h' then rank - 1
    else if c == 'l' then rank + 1
    else if c == 'j' then 2
    else if c == 'z' || c == 't' then 1
    else rank + 2
  }

  /** `*` as a width: a negative argument means left justification. */
  function StarWidth(d: Spec, w: int): Spec {
    if w < 0 then d.(width := -w, flags := d.flags.(minus := true)) else d.(width := w)
  }

  function StarPrec(d: Spec, p: int): Spec {
    d.(prec := if p < 0 then -1 else p)
  }

  function WidthDigit(d: Spec, c: char): Spec
    requires IsDecimal(c)
  {
    d.(width := d.width * 10 + (c - '0') as int)
  }

  function PrecDigit(d: Spec, c: char): Spec
    requires IsDecimal(c)
  {
    d.(prec := d.prec * 10 + (c - '0') as int)
  }

  function Distance(a: int, b: int): nat {
    if a < b then b - a else a - b
  }

  /** The nearest rank there is. */
  function ClampRank(rank: int): (r: int)
    ensures -2 <= r <= 2
    ensures forall other :: -2 <= other <= 2 && other != r ==> Distance(r, rank) < Distance(other, rank)
  {
    if rank < -2 then -2 else if rank > 2 then 2 else rank
  }

  /** Sizes of char, short, int, long and long long on the IOP. */
  const TYPE_SIZES: seq<nat> := [0x100, 0x1_0000, 0x1_0000_0000, 0x1_0000_0000, 0x1_0000_0000_0000_0000]

  /** Number of values of the C type a rank selects. */
  function Modulus(rank: int): (m: nat)
    requires -2 <= rank <= 2
    ensures 2 <= m <= TWO64 && m % 2 == 0
    ensures m == TYPE_SIZES[rank + 2]
  {
    if rank == -2 then 0x100
    else if rank == -1 then 0x1_0000
    else if rank <= 1 then 0x1_0000_0000
    else TWO64
  }

  /** `(uintmax_t)(T) v` for the unsigned type T of a rank. */
  function Unsigned(rank: int, v: int): (val: nat)
    requires -2 <= rank <= 2
    ensures val < TYPE_SIZES[rank + 2] && (val - v) % TYPE_SIZES[rank + 2] == 0
  {
    Residue(v, Modulus(rank));
    v % Modulus(rank)
  }

  lemma {:induction false} Residue(v: int, m: int)
    requires m > 0
    ensures (v % m - v) % m == 0
    ensures (v % m - m - v) % m == 0
  {
    var q, r := v / m, v % m;
    assert r - v == -q * m by {
      assert v == q * m + r;
    }
    OneMultiple(r - v, -q, m);
    OneMultiple(r - m - v, -q - 1, m);
  }

  /** A multiple leaves no remainder. */
  lemma {:induction false} OneMultiple(x: int, k: int, m: int)
    requires m > 0 && x == k * m
    ensures x % m == 0
  {
    var q, r := x / m, x % m;
    assert x == q * m + r;
    assert (k - q) * m == r;
    if k - q >= 1 {
      AtLeastOne(k - q, m);
    } else if k - q <= -1 {
      AtLeastOne(q - k, m);
    }
  }

  lemma {:induction false} AtLeastOne(d: int, m: int)
    requires d >= 1 && m > 0
    ensures d * m >= m
  {
  }

  /** `(intmax_t) val`. */
  function AsSigned(val: nat): int
    requires val < TWO64
  {
    if val >= TWO63 then val - TWO64 else val
  }

  /** `(uintmax_t)(intmax_t)(T) v` for the signed type T of a rank. */
  function Signed(rank: int, v: int): (val: nat)
    requires -2 <= rank <= 2
    ensures val < TWO64
    ensures var m: int, w := TYPE_SIZES[rank + 2], AsSigned(val);
            -(m / 2) <= w < m / 2 && (w - v) % m == 0
  {
    var m := Modulus(rank);
    var w := v % m;
    Residue(v, m);
    if w >= m / 2 then w + (TWO64 - m) else w
  }

  /** How much of a string of length `length` is copied; negative for a precision below -1. */
  function StringLength(length: nat, prec: int): int {
    if prec != -1 && length > prec then prec else length
  }

  /** A string field: precision cuts, width pads. */
  function StrText(s: string, d: Spec): string {
    var slen := StringLength(|s|, d.prec);
    var t := if slen >= 0 then s[..slen] else s;
    var pad := if d.width > |t| then d.width - |t| else 0;
    if d.flags.minus then t + Repeat(' ', pad)
    else Repeat(if d.flags.zero then '0' else ' ', pad) + t
  }

  predicate IsIntegerConversion(c: char) {
    c == 'P' || c == 'p' || c == 'd' || c == 'i' || c == 'o' || c == 'u' || c == 'X' || c == 'x'
  }

  function ConversionBase(c: char): nat {
    if c == 'd' || c == 'i' || c == 'u' then 10 else if c == 'o' then 8 else 16
  }

  /** Flags and precision after the letter has had its say: `%p` is `%#.8x`. */
  function ConversionSpec(c: char, d: Spec): Spec {
    var e := d.(rank := ClampRank(d.rank));
    if c == 'p' then e.(prec := 8, flags := e.flags.(hash := true))
    else if c == 'P' then e.(prec := 8, flags := e.flags.(hash := true, upper := true))
    else if c == 'X' then e.(flags := e.flags.(upper := true))
    else if c == 'd' || c == 'i' then e.(flags := e.flags.(signed := true))
    else e
  }

  function ConversionValue(c: char, d: Spec, args: seq<Arg>): (val: nat)
    ensures val < TWO64
  {
    if c == 'p' || c == 'P' then PtrOf(args) % 0x1_0000_0000
    else if c == 'd' || c == 'i' then Signed(ClampRank(d.rank), IntOf(args))
    else Unsigned(ClampRank(d.rank), IntOf(args))
  }

  /** What the conversion letter `c` writes. */
  function Convert(c: char, d: Spec, args: seq<Arg>): string {
    if IsIntegerConversion(c) then
      var e := ConversionSpec(c, d);
      IntText(ConversionValue(c, d, args), e.flags, ConversionBase(c), e.width, e.prec)
    else if c == 'c' then StrText([((IntOf(args) % 0x100) as char)], d)
    else if c == 's' then StrText(StrOf(args), d)
    else if c == 'n' then ""
    else [c]
  }

  /** The arguments the conversion letter leaves. */
  function ConvertRest(c: char, args: seq<Arg>): seq<Arg> {
    if IsIntegerConversion(c) || c == 'c' || c == 's' || c == 'n' then Rest(args) else args
  }

  function StatesLeft(st: State): nat {
    match st
    case Normal => 0
    case InFlags => 3
    case InWidth => 2
    case InPrec => 1
    case InModifiers => 0
  }

  /** Parser state, specification read so far, arguments left. */
  datatype Parser = Parser(st: State, d: Spec, args: seq<Arg>)

  /** The character belongs to the specification and is not its conversion letter. */
  predicate InsideSpec(st: State, c: char) {
    st != Normal && (st == InModifiers ==> IsModifier(c))
  }

  /** One turn of the parser inside a specification; true when `c` is processed again. */
  function Turn(m: Parser, c: char): (r: (Parser, bool))
    requires InsideSpec(m.st, c)
    ensures InsideSpec(r.0.st, c) || r.0.st == InModifiers
    ensures r.1 ==> StatesLeft(r.0.st) < StatesLeft(m.st)
  {
    var d := m.d;
    match m.st
    case InFlags =>
      if IsFlag(c) then (m.(d := d.(flags := AddFlag(d.flags, c))), false)
      else (m.(st := InWidth), true)
    case InWidth =>
      if IsDecimal(c) then (m.(d := WidthDigit(d, c)), false)
      else if c == '*' then (m.(d := StarWidth(d, IntOf(m.args)), args := Rest(m.args)), false)
      else if c == '.' then (m.(st := InPrec, d := d.(prec := 0)), false)
      else (m.(st := InModifiers), true)
    case InPrec =>
      if IsDecimal(c) then (m.(d := PrecDigit(d, c)), false)
      else if c == '*' then (m.(d := StarPrec(d, IntOf(m.args)), args := Rest(m.args)), false)
      else (m.(st := InModifiers), true)
    case InModifiers => (m.(d := d.(rank := AddModifier(d.rank, c))), false)
  }

  function StartSpec(m: Parser): Parser {
    m.(st := InFlags, d := NO_SPEC)
  }

  function EndSpec(m: Parser, c: char): Parser {
    m.(st := Normal, args := ConvertRest(c, m.args))
  }

  /** Unlimited output for the rest of a format, from any parser state. */
  function Expand(m: Parser, s: string): string
    decreases |s|, StatesLeft(m.st)
  {
    if s == "" then ""
    else if m.st == Normal && s[0] == '%' then Expand(StartSpec(m), s[1..])
    else if m.st == Normal then [s[0]] + Expand(m, s[1..])
    else if InsideSpec(m.st, s[0]) then
      var (m', again) := Turn(m, s[0]);
      Expand(m', if again then s else s[1..])
    else Convert(s[0], m.d, m.args) + Expand(EndSpec(m, s[0]), s[1..])
  }

  predicate IsStringConversion(c: char) {
    c == 'c' || c == 's'
  }

  /**
   No string conversion is reached with a precision below -1, for which the
   source's copying loop never gets to zero. Only a digit behind `.*` does that.
   */
  predicate Sane(m: Parser, s: string)
    decreases |s|, StatesLeft(m.st)
  {
    if s == "" then true
    else if m.st == Normal && s[0] == '%' then Sane(StartSpec(m), s[1..])
    else if m.st == Normal then Sane(m, s[1..])
    else if InsideSpec(m.st, s[0]) then
      var (m', again) := Turn(m, s[0]);
      Sane(m', if again then s else s[1..])
    else (IsStringConversion(s[0]) ==> m.d.prec >= -1) && Sane(EndSpec(m, s[0]), s[1..])
  }

  predicate NoDigitBehindStar(format: string) {
    forall i :: 0 <= i < |format| - 1 && format[i] == '*' ==> !IsDecimal(format[i + 1])
  }

  /** Formats without a digit right behind a `*` are sane whatever the arguments. */
  lemma {:induction false} SaneFormats(m: Parser, s: string)
    requires NoDigitBehindStar(s)
    requires m.d.prec >= -1 && (m.st == InPrec && m.d.prec == -1 && s != "" ==> !IsDecimal(s[0]))
    ensures Sane(m, s)
    decreases |s|, StatesLeft(m.st)
  {
    if s != "" {
      var c, t := s[0], s[1..];
      assert NoDigitBehindStar(t) by {
        forall i | 0 <= i < |t| - 1 && t[i] == '*' ensures !IsDecimal(t[i + 1]) {
          assert s[i + 1] == '*';
        }
      }
      assert c == '*' && t != "" ==> !IsDecimal(t[0]);
      if m.st == Normal {
        SaneFormats(if c == '%' then StartSpec(m) else m, t);
      } else if InsideSpec(m.st, c) {
        var (m', again) := Turn(m, c);
        SaneFormats(m', if again then s else t);
      } else {
        SaneFormats(EndSpec(m, c), t);
      }
    }
  }

  /** One that is not: a negative precision from `*`, a digit, and a string. */
  lemma {:induction false} InsaneFormat(name: Option<string>)
    ensures !Sane(Parser(Normal, NO_SPEC, [IntArg(-1), StrArg(name)]), "%.*5s")
  {
    var args := [IntArg(-1), StrArg(name)];
    var m1 := Parser(InFlags, NO_SPEC, args);
    var m2 := Parser(InWidth, NO_SPEC, args);
    var m3 := Parser(InPrec, NO_SPEC.(prec := 0), args);
    var m4 := Parser(InPrec, NO_SPEC, [StrArg(name)]);
    var m5 := Parser(InPrec, NO_SPEC.(prec := -5), [StrArg(name)]);
    assert "%.*5s"[1..] == ".*5s" && ".*5s"[1..] == "*5s" && "*5s"[1..] == "5s" && "5s"[1..] == "s";
    assert Turn(m1, '.') == (m2, true) && Turn(m2, '.') == (m3, false);
    assert Turn(m3, '*') == (m4, false) && Turn(m4, '5') == (m5, false);
    assert !Sane(m5, "s");
    assert !Sane(m4, "5s");
    assert !Sane(m3, "*5s");
    assert !Sane(m2, ".*5s");
    assert !Sane(m1, ".*5s");
  }

  /** The whole output. */
  function Output(format: string, args: seq<Arg>): string {
    Expand(Parser(Normal, NO_SPEC, args), format)
  }
}
