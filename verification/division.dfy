/**
 Shift-subtract division of 64-bit words for a 32-bit target
 (builtin/__udivmoddi4.c).
 */
module Division {
  import opened Common

  const TWO63: nat := 0x8000_0000_0000_0000
  const TWO64: nat := 0x1_0000_0000_0000_0000

  /** `x << 1` on a 64-bit word: the top bit is lost. */
  function ShiftLeft(x: nat): nat {
    x * 2 % TWO64
  }

  predicate IsPowerOfTwo(n: nat) {
    n == 1 || (n > 0 && n % 2 == 0 && IsPowerOfTwo(n / 2))
  }

  lemma {:induction false} Doubled(den: nat, qbit: nat)
    ensures den * (2 * qbit) == 2 * (den * qbit)
  {
  }

  lemma {:induction false} Halved(den: nat, qbit: nat)
    requires qbit % 2 == 0
    ensures den * qbit / 2 == den * (qbit / 2)
  {
    Doubled(den, qbit / 2);
  }

  lemma {:induction false} AtMostProduct(den: nat, qbit: nat)
    requires den >= 1
    ensures qbit <= den * qbit
  {
  }

  lemma {:induction false} Distributed(quot: nat, qbit: nat, den: nat)
    ensures (quot + qbit) * den == quot * den + den * qbit
  {
  }

  /** The first loop: the denominator is shifted up and no shift drops a set bit. */
  method LeftJustify(den: nat) returns (d: nat, qbit: nat)
    requires 0 < den < TWO64
    ensures d == den * qbit && TWO63 <= d < TWO64
    ensures IsPowerOfTwo(qbit)
  {
    d, qbit := den, 1;
    while d < TWO63
      invariant d == den * qbit && 0 < d < TWO64
      invariant IsPowerOfTwo(qbit)
      decreases TWO64 - d
    {
      Doubled(den, qbit);
      AtMostProduct(den, qbit);
      assert ShiftLeft(d) == d * 2 && ShiftLeft(qbit) == qbit * 2;
      d, qbit := ShiftLeft(d), ShiftLeft(qbit);
    }
  }

  /** Quotient and remainder so far, while `d` is `den` times `qbit`. */
  ghost predicate Dividing(num: nat, den: nat, d: nat, qbit: nat, quot: nat, r: nat) {
    && num == quot * den + r
    && if qbit == 0 then r < den else IsPowerOfTwo(qbit) && d == den * qbit && r < 2 * d
  }

  lemma {:induction false} DividingStep(num: nat, den: nat, d: nat, qbit: nat, quot: nat, r: nat)
    requires Dividing(num, den, d, qbit, quot, r) && qbit != 0
    requires num < TWO64 && den != 0
    ensures d <= r ==> (quot + qbit) % TWO64 == quot + qbit
    ensures Dividing(num, den, d / 2, qbit / 2,
                     if d <= r then quot + qbit else quot, if d <= r then r - d else r)
  {
    if d <= r {
      Distributed(quot, qbit, den);
      AtMostProduct(den, quot + qbit);
    }
    if qbit != 1 {
      Halved(den, qbit);
    }
  }

  /** `rem` is `None` when the source leaves the remainder unwritten. */
  method UDivMod(num: nat, den: nat) returns (quot: nat, rem: Option<nat>)
    requires num < TWO64 && den < TWO64
    ensures den == 0 ==> quot == 0 && rem == None
    ensures den != 0 ==> rem.Some? && num == quot * den + rem.value && rem.value < den
  {
    if den == 0 {
      return 0, None;
    }
    var d: nat, qbit: nat := LeftJustify(den);
    var r: nat := num;
    quot := 0;
    while qbit != 0
      invariant Dividing(num, den, d, qbit, quot, r)
    {
      DividingStep(num, den, d, qbit, quot, r);
      if d <= r {
        r, quot := r - d, (quot + qbit) % TWO64;
      }
      d, qbit := d / 2, qbit / 2;
    }
    rem := Some(r);
  }

  /** The contract of `UDivMod` is `/` and `%`. */
  lemma {:induction false} QuotientIsUnique(num: nat, den: nat, quot: nat, rem: nat)
    requires num == quot * den + rem && rem < den
    ensures quot == num / den && rem == num % den
  {
    var q := num / den;
    if quot < q {
      Distributed(quot, q - quot, den);
      AtMostProduct(q - quot, den);
    } else if q < quot {
      Distributed(q, quot - q, den);
      AtMostProduct(quot - q, den);
    }
  }
}
