/** Powers of two, the ranges of bit vectors. */
module Arith {

  function Pow2(n: nat): (p: nat)
    ensures p >= 1
    ensures n >= 1 ==> p >= 2 && p % 2 == 0
  {
    if n == 0 then 1 else 2 * Pow2(n - 1)
  }

  /** Increment of a `w`-bit counter. */
  function Inc(w: nat, x: nat): nat {
    if x + 1 < Pow2(w) then x + 1 else 0
  }

  lemma IncIsModular(w: nat, x: nat)
    requires x < Pow2(w)
    ensures (x + 1) % Pow2(w) == Inc(w, x)
  {
    hide Pow2;
    ModAtMost(x + 1, Pow2(w));
  }

  lemma ModAtMost(x: nat, m: nat)
    requires x <= m && m > 0
    ensures x % m == if x == m then 0 else x
  {
  }

  lemma MulGe(d: int, p: int)
    requires d >= 1 && p >= 0
    ensures d * p >= p
  {
  }

  lemma MulSub(a: int, b: int, p: int)
    ensures (a - b) * p == a * p - b * p
  {
  }

  /** Euclidean division is unique. */
  lemma DivUnique(p: int, q: int, r: int, q': int, r': int)
    requires 0 <= r < p && 0 <= r' < p && q * p + r == q' * p + r'
    ensures q == q' && r == r'
  {
    MulSub(q', q, p);
    MulSub(q, q', p);
    if q' - q >= 1 {
      MulGe(q' - q, p);
    }
    if q - q' >= 1 {
      MulGe(q - q', p);
    }
  }

  lemma DivMod(n: int, p: int)
    requires p >= 1
    ensures n == (n / p) * p + n % p && 0 <= n % p < p
  {
  }

  lemma ModIs(n: int, p: int, q: int, r: int)
    requires 0 <= r < p && n == q * p + r
    ensures n % p == r
  {
    DivMod(n, p);
    DivUnique(p, q, r, n / p, n % p);
  }

  function Abs(x: int): nat {
    if x < 0 then -x else x
  }

  /** The number of binary digits of `n`; 0 has none. */
  function BitLength(n: nat): nat {
    if n == 0 then 0 else 1 + BitLength(n / 2)
  }

  /** `BitLength(n)` is the least width whose range holds `n`. */
  lemma {:induction false} BitLengthFits(n: nat)
    ensures n < Pow2(BitLength(n))
    ensures n > 0 ==> Pow2(BitLength(n) - 1) <= n
  {
    if n > 0 {
      BitLengthFits(n / 2);
    }
  }

  lemma {:induction false} Pow2Monotone(a: nat, b: nat)
    requires a <= b
    ensures Pow2(a) <= Pow2(b)
  {
    if a < b {
      Pow2Monotone(a, b - 1);
    }
  }

  lemma TwiceAProduct(x: nat, y: nat)
    ensures x * (2 * y) == 2 * (x * y)
  {
  }

  lemma {:induction false} PowerSum(a: nat, b: nat)
    ensures Pow2(a) * Pow2(b) == Pow2(a + b)
  {
    if b > 0 {
      PowerSum(a, b - 1);
      TwiceAProduct(Pow2(a), Pow2(b - 1));
      assert Pow2(a + b) == 2 * Pow2(a + (b - 1));
    }
  }

  /** The width of a register that holds 0 to `m - 1`. */
  function Bits(m: nat): (w: nat)
    requires m >= 1
    ensures w >= 1 && m <= Pow2(w)
  {
    BitLengthFits(m - 1);
    if BitLength(m - 1) == 0 then 1 else BitLength(m - 1)
  }

  /** ... and no wider than it must be. */
  lemma BitsLeast(m: nat)
    requires m >= 1
    ensures Bits(m) > 1 ==> Pow2(Bits(m) - 1) < m
  {
    BitLengthFits(m - 1);
  }
}
