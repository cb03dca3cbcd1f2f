/**
 The formatter of builtin/vsnprintf.c over the caller's buffer. Pointers into the
 buffer are indices; `q` may run ahead of or stay behind the count `o` once the
 output no longer fits.
 */
module Format {
  import opened Common
  import opened Division
  import opened FormatNumber
  import opened FormatSpec

  /** `after` is `before` with as much of `text` as fits in `n` stored from `start`. */
  ghost predicate Stored(before: seq<char>, after: seq<char>, start: int, n: nat, text: string) {
    && |after| == |before|
    && forall i :: 0 <= i < |before| ==>
         after[i] == if start <= i < start + Min(n, |text|) then text[i - start] else before[i]
  }

  /** The write pointer and the count agree until the output is cut. */
  ghost predicate Sink(before: seq<char>, after: seq<char>, start: int, n: nat, q: int, o: nat, text: string) {
    && Stored(before, after, start, n, text)
    && o == |text|
    && (o <= n ==> q == start + o)
    && (n > 0 ==> 0 <= start && start + n <= |before|)
  }

  /** EMIT. */
  method Emit(buffer: array<char>, n: nat, q: int, o: nat, x: char,
              ghost before: seq<char>, ghost start: int, ghost text: string)
    returns (q': int, o': nat)
    requires Sink(before, buffer[..], start, n, q, o, text)
    modifies buffer
    ensures Sink(before, buffer[..], start, n, q', o', text + [x])
  {
    q' := q;
    if o < n {
      buffer[q] := x;
      q' := q + 1;
    }
    o' := o + 1;
  }

  /** Padding with `x` while `width` is above `limit`, if this place is padded at all. */
  method EmitPadding(buffer: array<char>, n: nat, q: int, o: nat, x: char, on: bool, width: int, limit: int,
                     ghost before: seq<char>, ghost start: int, ghost text: string)
    returns (q': int, o': nat, width': int)
    requires Sink(before, buffer[..], start, n, q, o, text)
    modifies buffer
    ensures width' == if on && width > limit then limit else width
    ensures Sink(before, buffer[..], start, n, q', o', text + Repeat(x, width - width'))
  {
    q', o', width' := q, o, width;
    assert text + Repeat(x, 0) == text;
    while on && width' > limit
      invariant width' <= width && (width' >= limit || width' == width) && (on || width' == width)
      invariant Sink(before, buffer[..], start, n, q', o', text + Repeat(x, width - width'))
    {
      ghost var k := width - width';
      q', o' := Emit(buffer, n, q', o', x, before, start, text + Repeat(x, k));
      assert text + Repeat(x, k) + [x] == text + Repeat(x, k + 1);
      width' := width' - 1;
    }
  }

  method EmitString(buffer: array<char>, n: nat, q: int, o: nat, s: string,
                    ghost before: seq<char>, ghost start: int, ghost text: string)
    returns (q': int, o': nat)
    requires Sink(before, buffer[..], start, n, q, o, text)
    modifies buffer
    ensures Sink(before, buffer[..], start, n, q', o', text + s)
  {
    q', o' := q, o;
    var i := |s|;
    assert text + s[..0] == text;
    while i != 0
      invariant 0 <= i <= |s|
      invariant Sink(before, buffer[..], start, n, q', o', text + s[..|s| - i])
    {
      q', o' := Emit(buffer, n, q', o', s[|s| - i], before, start, text + s[..|s| - i]);
      assert text + s[..|s| - i] + [s[|s| - i]] == text + s[..|s| - i + 1];
      i := i - 1;
    }
    assert s[..|s|] == s;
  }

  /** The digit loop that measures a number. */
  method CountDigits(val: nat, base: nat) returns (ndigits: nat)
    requires val < TWO64 && 2 <= base < TWO64
    ensures ndigits == NumDigits(val, base)
  {
    var tmpval: nat := val;
    ndigits := 0;
    while tmpval != 0
      invariant tmpval <= val
      invariant NumDigits(val, base) == ndigits + NumDigits(tmpval, base)
    {
      tmpval := Divide(tmpval, base);
      ndigits := ndigits + 1;
    }
  }

  method Divide(num: nat, den: nat) returns (quot: nat)
    requires num < TWO64 && 2 <= den < TWO64
    ensures quot == num / den && quot <= num && (num > 0 ==> quot < num)
  {
    var rem;
    quot, rem := UDivMod(num, den);
    QuotientIsUnique(num, den, quot, rem.value);
    QuotientShrinks(num, den);
  }

  lemma {:induction false} QuotientShrinks(num: nat, den: nat)
    requires den >= 2
    ensures num / den <= num && (num > 0 ==> num / den < num)
  {
  }

  method Remainder(num: nat, den: nat) returns (rem: nat)
    requires num < TWO64 && 0 < den < TWO64
    ensures rem == num % den && rem < den
  {
    var quot, r := UDivMod(num, den);
    QuotientIsUnique(num, den, quot, r.value);
    rem := r.value;
  }

  /** `after` holds `before` but for the part of `text[from..]` that fits. */
  ghost predicate StoredFrom(before: seq<char>, after: seq<char>, start: int, n: nat, text: string, from: nat) {
    && |after| == |before|
    && forall i :: 0 <= i < |before| ==>
         after[i] == if start + from <= i < start + Min(n, |text|) then text[i - start] else before[i]
  }

  /** A store guarded by the logical position, one character further to the left. */
  method PutBack(buffer: array<char>, n: nat, q: int, o: nat, left: nat, x: char,
                 ghost before: seq<char>, ghost text: string)
    requires o < n ==> 0 <= q && q + (n - o) <= buffer.Length
    requires left < |text| && text[left] == x
    requires StoredFrom(before, buffer[..], q, if o < n then n - o else 0, text, left + 1)
    modifies buffer
    ensures StoredFrom(before, buffer[..], q, if o < n then n - o else 0, text, left)
  {
    if o + left < n {
      buffer[q + left] := x;
    }
  }

  /** `text[..left]` is what the generator has still to write. */
  ghost predicate Generating(text: string, left: nat, v: nat, base: nat, count: nat, upper: bool,
                             skip: nat, b4tick: nat)
  {
    && left <= |text| && b4tick <= skip && 2 <= base <= 16 && skip > 0
    && RightToLeft(Digits(v, base, count, upper), skip, b4tick) == text[..left]
  }

  /** One digit, and to its right a separator when none of the group is left. */
  lemma {:induction false} GeneratorStep(text: string, left: nat, v: nat, base: nat, count: nat, upper: bool,
                      skip: nat, b4tick: nat)
    requires Generating(text, left, v, base, count, upper, skip, b4tick) && left > 0
    ensures count > 0
    ensures b4tick == 0 ==>
              && left >= 2 && text[left - 1] == '_' && text[left - 2] == Digit(v % base, upper)
              && Generating(text, left - 2, v / base, base, count - 1, upper, skip, skip - 1)
    ensures b4tick > 0 ==>
              && text[left - 1] == Digit(v % base, upper)
              && Generating(text, left - 1, v / base, base, count - 1, upper, skip, b4tick - 1)
  {
    hide Digit;
    var s := Digits(v, base, count, upper);
    assert s != "" by {
      assert |text[..left]| == left;
    }
    LastDigit(v, base, count, upper);
    hide Digits;
    LastOfRightToLeft(s, skip, b4tick);
    var t := text[..left];
    if b4tick == 0 {
      assert t[..left - 2] == text[..left - 2];
    } else {
      assert t[..left - 1] == text[..left - 1];
    }
  }

  lemma {:induction false} LastDigit(v: nat, base: nat, count: nat, upper: bool)
    requires 2 <= base <= 16 && count > 0
    ensures var s := Digits(v, base, count, upper);
            s[..count - 1] == Digits(v / base, base, count - 1, upper) && s[count - 1] == Digit(v % base, upper)
  {
    hide Digit;
  }

  /** The last characters of digits with separators, and what is before them. */
  lemma {:induction false} LastOfRightToLeft(s: string, skip: nat, left: nat)
    requires s != "" && skip > 0
    ensures var t, init := RightToLeft(s, skip, left), s[..|s| - 1];
            if left == 0 then
              && |t| >= 2 && t[|t| - 1] == '_' && t[|t| - 2] == s[|s| - 1]
              && t[..|t| - 2] == RightToLeft(init, skip, skip - 1)
            else
              t != "" && t[|t| - 1] == s[|s| - 1] && t[..|t| - 1] == RightToLeft(init, skip, left - 1)
  {
    var t, init := RightToLeft(s, skip, left), s[..|s| - 1];
    if left == 0 {
      assert t == RightToLeft(init, skip, skip - 1) + [s[|s| - 1], '_'];
    } else {
      assert t == RightToLeft(init, skip, left - 1) + [s[|s| - 1]];
    }
  }

  lemma {:induction false} GeneratingBounds(text: string, left: nat, v: nat, base: nat, count: nat, upper: bool,
                      skip: nat, b4tick: nat)
    requires Generating(text, left, v, base, count, upper, skip, b4tick)
    ensures left <= |text| && b4tick <= skip && 2 <= base <= 16 && skip > 0
  {
  }

  /** One turn of the generator loop: a separator if it is due, then a digit. */
  method GenerateDigit(buffer: array<char>, n: nat, q: int, o: nat, left: nat, val: nat, base: nat,
                       skip: nat, b4tick: nat, upper: bool,
                       ghost count: nat, ghost before: seq<char>, ghost text: string)
    returns (left': nat, val': nat, b4tick': nat)
    requires Generating(text, left, val, base, count, upper, skip, b4tick) && left > 0
    requires val < TWO64 && (o < n ==> 0 <= q && q + (n - o) <= buffer.Length)
    requires StoredFrom(before, buffer[..], q, if o < n then n - o else 0, text, left)
    modifies buffer
    ensures left' < left && val' <= val && count > 0
    ensures Generating(text, left', val', base, count - 1, upper, skip, b4tick')
    ensures StoredFrom(before, buffer[..], q, if o < n then n - o else 0, text, left')
  {
    hide Generating, StoredFrom, Digit;
    GeneratorStep(text, left, val, base, count, upper, skip, b4tick);
    GeneratingBounds(text, left, val, base, count, upper, skip, b4tick);
    left', b4tick' := left, b4tick;
    if b4tick' == 0 {
      left' := left' - 1;
      PutBack(buffer, n, q, o, left', '_', before, text);
      b4tick' := skip;
    }
    b4tick' := b4tick' - 1;
    left' := left' - 1;
    var d := Remainder(val, base);
    PutBack(buffer, n, q, o, left', Digit(d, upper), before, text);
    val' := Divide(val, base);
  }

  /**
   The generator: right to left, from behind the last character. It ends exactly
   at the first one, whatever part of the field fits.
   */
  method GenerateNumber(buffer: array<char>, n: nat, q: int, o: nat, ndigits: nat,
                        val: nat, base: nat, skip: nat, upper: bool,
                        ghost digits: nat, ghost text: string)
    requires val < TWO64 && ndigits == |text|
    requires Generating(text, |text|, val, base, digits, upper, skip, skip)
    requires o < n ==> 0 <= q && q + (n - o) <= buffer.Length
    modifies buffer
    ensures Stored(old(buffer[..]), buffer[..], q, if o < n then n - o else 0, text)
  {
    var left: nat, v: nat, b4tick: nat := ndigits, val, skip;
    ghost var count: nat := digits;
    while left > 0
      invariant Generating(text, left, v, base, count, upper, skip, b4tick) && v <= val
      invariant StoredFrom(old(buffer[..]), buffer[..], q, if o < n then n - o else 0, text, left)
    {
      left, v, b4tick := GenerateDigit(buffer, n, q, o, left, v, base, skip, b4tick, upper,
                                       count, old(buffer[..]), text);
      count := count - 1;
    }
  }

  /** Two stretches of output, the second through whatever room the first left. */
  lemma {:induction false} StoredTwice(a: seq<char>, b: seq<char>, c: seq<char>, start: int, n: nat, q: int,
                    text: string, more: string)
    requires |text| <= n ==> q == start + |text|
    requires Stored(a, b, start, n, text)
    requires Stored(b, c, q, if |text| < n then n - |text| else 0, more)
    ensures Stored(a, c, start, n, text + more)
  {
  }

  /** How many digits there are, how often they are separated, how long that is in all. */
  method Measure(val0: nat, flags: Flags, base: nat, prec0: int)
    returns (val: nat, ndigits: nat, tickskip: nat, ghost digits: nat)
    requires val0 < TWO64 && 2 <= base <= 16
    ensures val == Magnitude(val0, flags) && val < TWO64
    ensures digits == DigitCount(val, flags, base, prec0)
    ensures tickskip == TickSkip(flags, base, digits)
    ensures ndigits == |Number(val0, flags, base, prec0)| > 0
    ensures Generating(Number(val0, flags, base, prec0), ndigits, val, base, digits, flags.upper,
                       tickskip, tickskip)
  {
    hide Number, Generating, Digits, NumDigits;
    var prec := prec0;
    val := if flags.signed && val0 >= TWO63 then TWO64 - val0 else val0;
    ndigits := CountDigits(val, base);
    if flags.hash && base == 8 {
      if prec < ndigits + 1 {
        prec := ndigits + 1;
      }
    }
    if ndigits < prec {
      ndigits := prec;
    } else if val == 0 {
      ndigits := 1;
    }
    digits := ndigits;
    Measured(val0, flags, base, prec0);
    tickskip := if flags.tick then (if base == 16 then 4 else 3) else ndigits;
    ndigits := ndigits + (ndigits - 1) / tickskip;
  }

  lemma {:induction false} Measured(val0: nat, flags: Flags, base: nat, prec: int)
    requires val0 < TWO64 && 2 <= base <= 16
    ensures var v := Magnitude(val0, flags);
            var digits := DigitCount(v, flags, base, prec);
            var skip := TickSkip(flags, base, digits);
            var number := Number(val0, flags, base, prec);
            && |number| == digits + (digits - 1) / skip > 0
            && Generating(number, |number|, v, base, digits, flags.upper, skip, skip)
  {
    hide DigitCount, TickSkip, Magnitude, Digits, Group, RightToLeft;
    var v := Magnitude(val0, flags);
    var digits := DigitCount(v, flags, base, prec);
    var skip := TickSkip(flags, base, digits);
    var s := Digits(v, base, digits, flags.upper);
    GroupLength(s, skip);
    GeneratorGroups(s, skip);
    GroupStart(s, skip);
    var number := Number(val0, flags, base, prec);
    assert number[..|number|] == number;
  }

  method EmitSign(buffer: array<char>, n: nat, q: int, o: nat, val: nat, flags: Flags,
                  ghost before: seq<char>, ghost start: int, ghost text: string)
    returns (q': int, o': nat)
    requires Sink(before, buffer[..], start, n, q, o, text)
    modifies buffer
    ensures Sink(before, buffer[..], start, n, q', o', text + Sign(val, flags))
  {
    q', o' := q, o;
    if flags.signed && val >= TWO63 {
      q', o' := Emit(buffer, n, q', o', '-', before, start, text);
    } else if flags.plus {
      q', o' := Emit(buffer, n, q', o', '+', before, start, text);
    } else if flags.space {
      q', o' := Emit(buffer, n, q', o', ' ', before, start, text);
    } else {
      assert text + "" == text;
    }
  }

  method EmitPrefix(buffer: array<char>, n: nat, q: int, o: nat, flags: Flags, base: nat,
                    ghost before: seq<char>, ghost start: int, ghost text: string)
    returns (q': int, o': nat)
    requires Sink(before, buffer[..], start, n, q, o, text)
    modifies buffer
    ensures Sink(before, buffer[..], start, n, q', o', text + Prefix(flags, base))
  {
    q', o' := q, o;
    if flags.hash && base == 16 {
      var x := if flags.upper then 'X' else 'x';
      q', o' := Emit(buffer, n, q', o', '0', before, start, text);
      q', o' := Emit(buffer, n, q', o', x, before, start, text + ['0']);
      assert text + ['0'] + [x] == text + Prefix(flags, base);
    } else {
      assert text + "" == text;
    }
  }

  /** The number itself: both pointers jump over the field, which is then filled. */
  method EmitNumber(buffer: array<char>, n: nat, q: int, o: nat, ndigits: nat, val: nat, base: nat,
                    skip: nat, upper: bool,
                    ghost digits: nat, ghost number: string,
                    ghost before: seq<char>, ghost start: int, ghost text: string)
    returns (q': int, o': nat)
    requires val < TWO64 && ndigits == |number|
    requires Generating(number, |number|, val, base, digits, upper, skip, skip)
    requires Sink(before, buffer[..], start, n, q, o, text)
    modifies buffer
    ensures Sink(before, buffer[..], start, n, q', o', text + number)
  {
    ghost var mid := buffer[..];
    GenerateNumber(buffer, n, q, o, ndigits, val, base, skip, upper, digits, number);
    StoredTwice(before, mid, buffer[..], start, n, q, text, number);
    q', o' := q + ndigits, o + ndigits;
  }

  /** Lays the measured field out, padded on the left, inside, or on the right. */
  method EmitField(buffer: array<char>, q0: int, n: nat, val0: nat, flags: Flags, base: nat, width0: int,
                   val: nat, ndigits: nat, tickskip: nat, nchars: nat,
                   ghost digits: nat, ghost number: string)
    returns (count: nat)
    requires n > 0 ==> 0 <= q0 && q0 + n <= buffer.Length
    requires val < TWO64 && ndigits == |number|
    requires nchars == |Sign(val0, flags) + Prefix(flags, base)| + ndigits
    requires Generating(number, |number|, val, base, digits, flags.upper, tickskip, tickskip)
    modifies buffer
    ensures var text := Layout(Sign(val0, flags) + Prefix(flags, base), number, flags, width0);
            count == |text| && Stored(old(buffer[..]), buffer[..], q0, n, text)
  {
    hide Layout, Sign, Prefix, Generating, Repeat;
    assert Repeat(' ', 0) == "";
    var q, o: nat, width := q0, 0, width0;
    ghost var sign, prefix := Sign(val0, flags), Prefix(flags, base);
    ghost var before := old(buffer[..]);
    q, o, width := EmitPadding(buffer, n, q, o, ' ', !flags.minus && !flags.zero, width, nchars,
                               before, q0, "");
    ghost var early := width0 - width;
    ghost var text := Repeat(' ', early);
    assert "" + text == text;
    q, o := EmitSign(buffer, n, q, o, val0, flags, before, q0, text);
    text := text + sign;
    q, o := EmitPrefix(buffer, n, q, o, flags, base, before, q0, text);
    text := text + prefix;
    ghost var wide := width;
    q, o, width := EmitPadding(buffer, n, q, o, '0', flags.zero && !flags.minus && width > ndigits,
                               width, nchars, before, q0, text);
    ghost var zeros := wide - width;
    text := text + Repeat('0', zeros);
    q, o := EmitNumber(buffer, n, q, o, ndigits, val, base, tickskip, flags.upper, digits, number,
                       before, q0, text);
    text := text + number;
    wide := width;
    q, o, width := EmitPadding(buffer, n, q, o, ' ', flags.minus, width, nchars, before, q0, text);
    LayoutParts(sign, prefix, number, flags, width0, early, zeros, wide - width);
    count := o;
  }

  /** format_int. */
  method FormatInt(buffer: array<char>, q: int, n: nat, val0: nat, flags: Flags,
                   base: nat, width: int, prec: int)
    returns (count: nat)
    requires val0 < TWO64 && (base == 8 || base == 10 || base == 16)
    requires n > 0 ==> 0 <= q && q + n <= buffer.Length
    modifies buffer
    ensures count == |IntText(val0, flags, base, width, prec)|
    ensures Stored(old(buffer[..]), buffer[..], q, n, IntText(val0, flags, base, width, prec))
  {
    var val, ndigits, tickskip, digits := Measure(val0, flags, base, prec);
    var nchars := ndigits;
    if (flags.signed && val0 >= TWO63) || flags.plus || flags.space {
      nchars := nchars + 1;
    }
    if flags.hash && base == 16 {
      nchars := nchars + 2;
    }
    count := EmitField(buffer, q, n, val0, flags, base, width, val, ndigits, tickskip, nchars,
                       digits, Number(val0, flags, base, prec));
  }

  lemma {:induction false} LayoutParts(sign: string, prefix: string, number: string, flags: Flags, width: int,
                    early: nat, zeros: nat, late: nat)
    requires var n := |sign + prefix| + |number|;
             var pad := if width > n then width - n else 0;
             && early == (if flags.minus || flags.zero then 0 else pad)
             && zeros == (if flags.zero && !flags.minus then pad else 0)
             && late == (if flags.minus then pad else 0)
    ensures Repeat(' ', early) + sign + prefix + Repeat('0', zeros) + number + Repeat(' ', late)
         == Layout(sign + prefix, number, flags, width)
  {
  }

  /** A string field: `%s` and `%c`. */
  method FormatString(buffer: array<char>, q0: int, o0: nat, n: nat, s: string, d: Spec,
                      ghost before: seq<char>, ghost text: string)
    returns (q: int, o: nat)
    requires Sink(before, buffer[..], 0, n, q0, o0, text)
    requires d.prec >= -1
    modifies buffer
    ensures Sink(before, buffer[..], 0, n, q, o, text + StrText(s, d))
  {
    var slen := |s|;
    if d.prec != -1 && slen > d.prec {
      slen := d.prec;
    }
    assert slen == StringLength(|s|, d.prec);
    hide StrText, Repeat;
    q, o := q0, o0;
    var width := d.width;
    var pad := if d.flags.zero then '0' else ' ';
    q, o, width := EmitPadding(buffer, n, q, o, pad, !d.flags.minus, width, slen, before, 0, text);
    ghost var early := Repeat(pad, d.width - width);
    q, o := EmitString(buffer, n, q, o, s[..slen], before, 0, text + early);
    ghost var wide := width;
    q, o, width := EmitPadding(buffer, n, q, o, ' ', d.flags.minus, width, slen,
                               before, 0, text + early + s[..slen]);
    StrParts(s, d, slen, d.width - wide, wide - width);
    assert text + early + s[..slen] + Repeat(' ', wide - width)
        == text + (early + s[..slen] + Repeat(' ', wide - width));
  }

  lemma {:induction false} StrParts(s: string, d: Spec, slen: nat, early: nat, late: nat)
    requires d.prec >= -1
    requires slen == StringLength(|s|, d.prec)
    requires var pad := if d.width > slen then d.width - slen else 0;
             early == (if d.flags.minus then 0 else pad) && late == (if d.flags.minus then pad else 0)
    ensures Repeat(if d.flags.zero then '0' else ' ', early) + s[..slen] + Repeat(' ', late) == StrText(s, d)
  {
    assert s[..|s|] == s;
  }

  /** The conversion letters; the rest of the arguments is returned. */
  method ConvertInto(buffer: array<char>, n: nat, q0: int, o0: nat, c: char, d: Spec, args: seq<Arg>,
                     ghost before: seq<char>, ghost text: string)
    returns (q: int, o: nat, rest: seq<Arg>)
    requires Sink(before, buffer[..], 0, n, q0, o0, text)
    requires IsStringConversion(c) ==> d.prec >= -1
    modifies buffer
    ensures Sink(before, buffer[..], 0, n, q, o, text + Convert(c, d, args))
    ensures rest == ConvertRest(c, args)
  {
    q, o, rest := q0, o0, args;
    if IsIntegerConversion(c) {
      var e := ConversionSpec(c, d);
      var sz := FormatInt(buffer, q, if o < n then n - o else 0, ConversionValue(c, d, args),
                          e.flags, ConversionBase(c), e.width, e.prec);
      StoredTwice(before, old(buffer[..]), buffer[..], 0, n, q, text, Convert(c, d, args));
      q, o, rest := q + sz, o + sz, Rest(args);
    } else if c == 'c' {
      q, o := FormatString(buffer, q, o, n, [((IntOf(args) % 0x100) as char)], d, before, text);
      rest := Rest(args);
    } else if c == 's' {
      q, o := FormatString(buffer, q, o, n, StrOf(args), d, before, text);
      rest := Rest(args);
    } else if c == 'n' {
      rest := Rest(args);
      assert text + "" == text;
    } else {
      q, o := Emit(buffer, n, q, o, c, before, 0, text);
    }
  }

  /** Output so far and output to come make up the unlimited output. */
  ghost predicate Parsing(format: string, args: seq<Arg>, text: string, m: Parser, p: nat) {
    && p <= |format| && Sane(m, format[p..])
    && Output(format, args) == text + Expand(m, format[p..])
  }

  lemma {:induction false} ParsingStep(format: string, args: seq<Arg>, text: string, m: Parser, p: nat)
    requires Parsing(format, args, text, m, p) && p < |format|
    ensures m.st == Normal && format[p] == '%' ==>
              Parsing(format, args, text, StartSpec(m), p + 1)
    ensures m.st == Normal && format[p] != '%' ==>
              Parsing(format, args, text + [format[p]], m, p + 1)
    ensures InsideSpec(m.st, format[p]) ==>
              var (m', again) := Turn(m, format[p]);
              Parsing(format, args, text, m', if again then p else p + 1)
    ensures m.st == InModifiers && !IsModifier(format[p]) ==>
              && (IsStringConversion(format[p]) ==> m.d.prec >= -1)
              && Parsing(format, args, text + Convert(format[p], m.d, m.args), EndSpec(m, format[p]), p + 1)
  {
    var s, rest := format[p..], format[p + 1..];
    assert s[1..] == rest && s[0] == format[p];
    if m.st == Normal && s[0] != '%' {
      assert text + ([s[0]] + Expand(m, rest)) == text + [s[0]] + Expand(m, rest);
    } else if m.st == InModifiers && !IsModifier(s[0]) {
      var t := Convert(s[0], m.d, m.args);
      assert text + (t + Expand(EndSpec(m, s[0]), rest)) == text + t + Expand(EndSpec(m, s[0]), rest);
    }
  }

  /** The terminating NUL goes behind the output, or over its last character that fits. */
  method Terminate(buffer: array<char>, n: nat, q: int, o: nat, ghost before: seq<char>, ghost text: string)
    requires Sink(before, buffer[..], 0, n, q, o, text)
    modifies buffer
    ensures n > 0 ==> var k := Min(o, n - 1);
                      && buffer[..k] == text[..k] && buffer[k] == '\0'
                      && buffer[k + 1..] == before[k + 1..]
    ensures n == 0 ==> buffer[..] == before
  {
    if o < n {
      buffer[q] := '\0';
    } else if n > 0 {
      buffer[n - 1] := '\0';
    }
  }

  /**
   For every format, arguments and capacity: the count is that of the unlimited
   output, the buffer holds as much of it as fits before a NUL, and nothing else
   is touched.
   */
  method Vsnprintf(buffer: array<char>, n: nat, format: string, args: seq<Arg>) returns (count: nat)
    requires n <= buffer.Length
    requires Sane(Parser(Normal, NO_SPEC, args), format)
    modifies buffer
    ensures count == |Output(format, args)|
    ensures n > 0 ==> var k := Min(count, n - 1);
                      && buffer[..k] == Output(format, args)[..k] && buffer[k] == '\0'
                      && buffer[k + 1..] == old(buffer[k + 1..])
    ensures n == 0 ==> buffer[..] == old(buffer[..])
  {
    var p: nat, q: int, o: nat := 0, 0, 0;
    var m := Parser(Normal, NO_SPEC, args);
    ghost var before, text := old(buffer[..]), "";
    assert format[0..] == format;
    while p < |format|
      invariant Sink(before, buffer[..], 0, n, q, o, text)
      invariant Parsing(format, args, text, m, p)
      decreases |format| - p, StatesLeft(m.st)
    {
      ParsingStep(format, args, text, m, p);
      var ch := format[p];
      p := p + 1;
      if m.st == Normal {
        if ch == '%' {
          m := StartSpec(m);
        } else {
          q, o := Emit(buffer, n, q, o, ch, before, 0, text);
          text := text + [ch];
        }
      } else if InsideSpec(m.st, ch) {
        var (m', again) := Turn(m, ch);
        m := m';
        if again {
          p := p - 1;
        }
      } else {
        var rest;
        q, o, rest := ConvertInto(buffer, n, q, o, ch, m.d, m.args, before, text);
        text := text + Convert(ch, m.d, m.args);
        m := m.(st := Normal, args := rest);
      }
    }
    Terminate(buffer, n, q, o, before, text);
    count := o;
  }
}
