/** Binary digits of integers, in two's complement: a negative number has ones for ever. */
module Digits {
  import opened Arith

  predicate Digit(x: int, k: nat) { (x / Pow2(k)) % 2 == 1 }

  /** The numbers of `n` digits and a sign. */
  predicate InWord(x: int, n: nat) { 0 <= x + Pow2(n) < 2 * Pow2(n) }

  lemma HalfOf(x: int, p: int)
    requires p >= 1
    ensures x / (2 * p) == (x / 2) / p
  {
    var q, r := x / 2, x % 2;
    var s, t := q / p, q % p;
    DivMod(q, p);
    assert x == 2 * (s * p + t) + r && 0 <= 2 * t + r < 2 * p;
    DivMod(x, 2 * p);
    assert s * (2 * p) == 2 * (s * p);
    DivUnique(2 * p, s, 2 * t + r, x / (2 * p), x % (2 * p));
  }

  lemma NextDigit(x: int, k: nat)
    ensures Digit(x, k + 1) == Digit(x / 2, k)
    ensures Digit(x, 0) <==> x % 2 == 1
  {
    assert Pow2(k + 1) == 2 * Pow2(k) && Pow2(0) == 1;
    HalfOf(x, Pow2(k));
  }

  lemma {:induction false} SignDigits(k: nat)
    ensures Digit(-1, k) && !Digit(0, k)
  {
    if k > 0 {
      NextDigit(-1, k - 1);
      NextDigit(0, k - 1);
      SignDigits(k - 1);
    }
  }

  lemma HalfInWord(x: int, n: nat)
    requires n > 0 && InWord(x, n)
    ensures InWord(x / 2, n - 1)
  {
  }

  /** The digits of a word decide it. */
  lemma {:induction false} DigitsDecide(x: int, y: int, n: nat)
    requires InWord(x, n) && InWord(y, n) && forall k :: 0 <= k <= n ==> Digit(x, k) == Digit(y, k)
    ensures x == y
    decreases n
  {
    if n == 0 {
      SignDigits(0);
    } else {
      NextDigit(x, 0);
      NextDigit(y, 0);
      HalfInWord(x, n);
      HalfInWord(y, n);
      forall k | 0 <= k <= n - 1 ensures Digit(x / 2, k) == Digit(y / 2, k) {
        NextDigit(x, k);
        NextDigit(y, k);
      }
      DigitsDecide(x / 2, y / 2, n - 1);
    }
  }
}
