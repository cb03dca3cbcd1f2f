/**
 Bits of a register (include/iopmod/bits.h): the most significant bit of a word,
 and words as sets of bit numbers.
 */
module IrqBits {
  import Division

  function Pow2(n: nat): (p: nat)
    ensures p >= 1
  {
    if n == 0 then 1 else 2 * Pow2(n - 1)
  }

  lemma {:induction false} Pow2Sum(a: nat, b: nat)
    ensures Pow2(a + b) == Pow2(a) * Pow2(b)
  {
    if a > 0 {
      Pow2Sum(a - 1, b);
      Twice(Pow2(a - 1), Pow2(b));
    }
  }

  lemma {:induction false} Twice(x: nat, y: nat)
    ensures 2 * (x * y) == (2 * x) * y
  {
  }

  lemma {:induction false} Pow2Grows(a: nat, b: nat)
    requires a < b
    ensures 2 * Pow2(a) <= Pow2(b)
    decreases b
  {
    if a < b - 1 {
      Pow2Grows(a, b - 1);
    }
  }

  /** The shifted word `x * 2^s` has its top bit set exactly when `x` has `32 - s` bits. */
  lemma {:induction false} TopBit(x: nat, s: nat)
    requires s <= 31 && 0x8000_0000 <= x * Pow2(s) < 0x1_0000_0000
    ensures Pow2(31 - s) <= x < Pow2(32 - s)
  {
    Pow2Sum(31 - s, s);
    Pow2Sum(32 - s, s);
    Powers();
    if x < Pow2(31 - s) {
      Smaller(x, Pow2(31 - s), Pow2(s));
    }
    if x >= Pow2(32 - s) {
      AtLeast(x, Pow2(32 - s), Pow2(s));
    }
  }

  lemma {:induction false} Smaller(x: nat, y: nat, p: nat)
    requires x < y && p >= 1
    ensures x * p < y * p
  {
  }

  lemma {:induction false} AtLeast(x: nat, y: nat, p: nat)
    requires x >= y
    ensures x * p >= y * p
  {
  }

  lemma {:induction false} Powers()
    ensures Pow2(1) == 2 && Pow2(2) == 4 && Pow2(4) == 0x10 && Pow2(8) == 0x100 && Pow2(16) == 0x1_0000
    ensures Pow2(31) == 0x8000_0000 && Pow2(32) == 0x1_0000_0000
  {
    SmallPowers();
    Pow2Sum(4, 4);
    Pow2Sum(8, 8);
    Pow2Sum(16, 16);
    LastPower();
  }

  lemma {:induction false} SmallPowers()
    ensures Pow2(1) == 2 && Pow2(2) == 4 && Pow2(4) == 0x10
  {
    assert Pow2(3) == 2 * Pow2(2);
  }

  lemma {:induction false} LastPower()
    ensures Pow2(32) == 2 * Pow2(31)
  {
  }

  lemma {:induction false} Shifted(x: nat, s: nat, t: nat)
    ensures x * Pow2(s) * Pow2(t) == x * Pow2(s + t)
  {
    Pow2Sum(s, t);
    Associates(x, Pow2(s), Pow2(t));
  }

  lemma {:induction false} Associates(x: nat, y: nat, z: nat)
    ensures x * y * z == x * (y * z)
  {
  }

  /** `x` is `x0` shifted up so that `r` counts down from 32. */
  ghost predicate Narrowed(x0: nat, x: nat, r: int) {
    1 <= r <= 32 && 0 < x < 0x1_0000_0000 && x == x0 * Pow2(32 - r)
  }

  lemma {:induction false} NarrowMore(x0: nat, x: nat, r: int, t: nat)
    requires Narrowed(x0, x, r) && x * Pow2(t) < 0x1_0000_0000
    ensures Narrowed(x0, x * Pow2(t), r - t)
  {
    hide Pow2;
    var s := 32 - r + t;
    Shifted(x0, 32 - r, t);
    assert x0 > 0;
    AtLeast(x0, 1, Pow2(s));
    AtLeast(Pow2(t), 1, x);
    Powers();
    if s >= 32 {
      if s > 32 {
        Pow2Grows(32, s);
      }
    }
  }

  /** fls: the number of the most significant bit set, counted from one. */
  method Fls(x0: nat) returns (r: int)
    requires x0 < 0x1_0000_0000
    ensures x0 == 0 ==> r == 0
    ensures x0 != 0 ==> 1 <= r <= 32 && Pow2(r - 1) <= x0 < Pow2(r)
  {
    hide Pow2;
    var x := x0;
    r := 32;
    if x == 0 {
      return 0;
    }
    Powers();
    PowerOfZero();
    if x < 0x1_0000 {  // no bit of 0xffff0000
      NarrowMore(x0, x, r, 16);
      x, r := x * 0x1_0000, r - 16;
    }
    if x < 0x100_0000 {  // no bit of 0xff000000
      NarrowMore(x0, x, r, 8);
      x, r := x * 0x100, r - 8;
    }
    if x < 0x1000_0000 {  // no bit of 0xf0000000
      NarrowMore(x0, x, r, 4);
      x, r := x * 0x10, r - 4;
    }
    if x < 0x4000_0000 {  // no bit of 0xc0000000
      NarrowMore(x0, x, r, 2);
      x, r := x * 4, r - 2;
    }
    if x < 0x8000_0000 {  // no bit of 0x80000000
      NarrowMore(x0, x, r, 1);
      x, r := x * 2, r - 1;
    }
    TopBit(x0, 32 - r);
  }

  lemma {:induction false} PowerOfZero()
    ensures Pow2(0) == 1
  {
  }

  /** The position of the top bit is the only one with these bounds. */
  lemma {:induction false} TopBitIsUnique(x: nat, a: nat, b: nat)
    requires Pow2(a) <= x < 2 * Pow2(a) && Pow2(b) <= x < 2 * Pow2(b)
    ensures a == b
  {
    if a < b {
      Pow2Grows(a, b);
    } else if b < a {
      Pow2Grows(b, a);
    }
  }

  // ----- Registers as sets of bit numbers -----

  /** The word whose set bits below `n` are those of `bits`. */
  function Word(bits: set<nat>, n: nat): (w: nat)
    ensures w < Pow2(n)
  {
    if n == 0 then 0 else Word(bits, n - 1) + (if n - 1 in bits then Pow2(n - 1) else 0)
  }

  /** The highest bit decides where the word lies. */
  lemma {:induction false} HighestBit(bits: set<nat>, n: nat, k: nat)
    requires k in bits && k < n && forall i :: i in bits ==> i <= k
    ensures Pow2(k) <= Word(bits, n) < 2 * Pow2(k)
  {
    if k == n - 1 {
      assert Word(bits, n - 1) < Pow2(n - 1);
    } else {
      HighestBit(bits, n - 1, k);
    }
  }

  lemma {:induction false} NoBits(n: nat)
    ensures Word({}, n) == 0
  {
    if n > 0 {
      NoBits(n - 1);
    }
  }

  // ----- One bit -----

  /** Bit `k` of a word, as who reads the word finds it. */
  predicate HasBit(w: nat, k: nat) {
    w / Pow2(k) % 2 == 1
  }

  lemma {:induction false} WordOfOne(b: nat, n: nat)
    ensures Word({b}, n) == if b < n then Pow2(b) else 0
  {
    if n > 0 {
      WordOfOne(b, n - 1);
    }
  }

  lemma {:induction false} Quotient(x: nat, d: nat)
    requires d > 0
    ensures x * d / d == x && x * d % d == 0
  {
    Division.QuotientIsUnique(x * d, d, x, 0);
  }

  lemma {:induction false} EvenPower(b: nat)
    ensures Pow2(b) % 2 == 1 <==> b == 0
  {
  }

  /** `1 << b` in 32 bits. */
  lemma {:induction false} ShiftedOne(b: nat)
    ensures Pow2(b) % 0x1_0000_0000 == if b < 32 then Pow2(b) else 0
  {
    hide Pow2;
    Powers();
    if b < 32 {
      Pow2Grows(b, 32);
    } else {
      Pow2Sum(b - 32, 32);
      Quotient(Pow2(b - 32), 0x1_0000_0000);
    }
  }

  /** A power of two has exactly one bit. */
  lemma {:induction false} OnlyBit(b: nat, k: nat)
    ensures HasBit(Pow2(b), k) <==> k == b
  {
    hide Pow2;
    if k <= b {
      Pow2Sum(b - k, k);
      Quotient(Pow2(b - k), Pow2(k));
      EvenPower(b - k);
    } else {
      Pow2Grows(b, k);
      Division.QuotientIsUnique(Pow2(b), Pow2(k), 0, Pow2(b));
    }
  }
}
