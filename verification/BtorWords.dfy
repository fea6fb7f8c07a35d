/** The word operators of BTOR2 (`Btor`), digit by digit and at every width. */
module BtorWords {
  import opened Arith
  import opened Digits
  import opened Btor

  /** `and` and `or` work on each of the `w` digits, and leave none above. */
  lemma {:induction false} JoinedDigits(w: nat, x: nat, y: nat, k: nat)
    ensures Digit(BitAnd(w, x, y), k) <==> k < w && Digit(x, k) && Digit(y, k)
    ensures Digit(BitOr(w, x, y), k) <==> k < w && (Digit(x, k) || Digit(y, k))
    decreases w
  {
    if w == 0 {
      SignDigits(k);
    } else {
      var a, o := BitAnd(w, x, y), BitOr(w, x, y);
      assert a / 2 == BitAnd(w - 1, x / 2, y / 2) && o / 2 == BitOr(w - 1, x / 2, y / 2);
      if k == 0 {
        NextDigit(a, 0);
        NextDigit(o, 0);
        NextDigit(x, 0);
        NextDigit(y, 0);
      } else {
        NextDigit(a, k - 1);
        NextDigit(o, k - 1);
        NextDigit(x, k - 1);
        NextDigit(y, k - 1);
        JoinedDigits(w - 1, x / 2, y / 2, k - 1);
      }
    }
  }

  /** A complement turns each of the `w` digits. */
  lemma {:induction false} ComplementDigits(w: nat, x: nat, k: nat)
    requires x < Pow2(w)
    ensures Digit(Complement(w, x), k) <==> k < w && !Digit(x, k)
    decreases w
  {
    var c := Pow2(w) - 1 - x;
    assert Complement(w, x) == c by { ModAtMost(c, Pow2(w)); }
    if w == 0 {
      SignDigits(k);
    } else {
      assert Pow2(w) == 2 * Pow2(w - 1);
      var d := Pow2(w - 1) - 1 - x / 2;
      assert c / 2 == d && c % 2 == 1 - x % 2;
      assert Complement(w - 1, x / 2) == d by { ModAtMost(d, Pow2(w - 1)); }
      NextDigit(x, if k == 0 then 0 else k - 1);
      NextDigit(c, if k == 0 then 0 else k - 1);
      if k > 0 {
        ComplementDigits(w - 1, x / 2, k - 1);
      }
    }
  }
}
