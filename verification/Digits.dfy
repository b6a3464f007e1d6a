/** Base-`b` positional arithmetic on all integers, negative ones included: `Quot` drops the `k` lowest
    digits of a number and `Rem` keeps them. */
module Digits {

  function Pow(b: nat, k: nat): (p: nat)
    ensures b >= 1 ==> p >= 1
  {
    if k == 0 then 1 else MulPos(b, Pow(b, k - 1)); b * Pow(b, k - 1)
  }

  lemma MulPos(x: nat, y: nat)
    ensures x * y >= 0
    ensures x >= 1 && y >= 1 ==> x * y >= 1
  {}

  lemma MulPred(x: int, y: int)
    ensures (x - 1) * y == x * y - y
  {}

  lemma PowSmall(b: nat)
    ensures Pow(b, 0) == 1 && Pow(b, 1) == b
  {
    assert Pow(b, 1) == b * Pow(b, 0);
  }

  lemma MulBounds(c: nat, b: nat, p: nat)
    requires c < b
    ensures 0 <= c * p <= b * p - p
  {
    MulPred(b, p);
    assert 0 <= c * p <= (b - 1) * p;
  }

  lemma MulSplit(d: int, b: int, c: int, p: int)
    ensures (d * b + c) * p == d * (b * p) + c * p
  {
    assert (d * b + c) * p == d * b * p + c * p;
    assert d * b * p == d * (b * p);
  }

  /** floor(x / b^k) */
  function Quot(b: nat, k: nat, x: int): int
    requires b >= 1
  {
    if k == 0 then x else Quot(b, k - 1, x) / b
  }

  /** x mod b^k */
  function Rem(b: nat, k: nat, x: int): int
    requires b >= 1
  {
    x - Quot(b, k, x) * Pow(b, k)
  }

  lemma DivStep(x: int, b: nat)
    requires b >= 1
    ensures x == x / b * b + x % b && 0 <= x % b < b
  {}

  lemma {:induction false} RemBounds(b: nat, k: nat, x: int)
    requires b >= 1
    ensures 0 <= Rem(b, k, x) < Pow(b, k)
  {
    if k > 0 {
      RemBounds(b, k - 1, x);
      RemUnfold(b, k - 1, x);
      MulBounds(Quot(b, k - 1, x) % b, b, Pow(b, k - 1));
    }
  }

  /** The low k+1 digits are the low k digits plus digit k at its weight. */
  lemma RemUnfold(b: nat, k: nat, x: int)
    requires b >= 1
    ensures Rem(b, k + 1, x) == Rem(b, k, x) + Quot(b, k, x) % b * Pow(b, k)
  {
    DivStep(Quot(b, k, x), b);
    MulSplit(Quot(b, k, x) / b, b, Quot(b, k, x) % b, Pow(b, k));
  }

  lemma MulBeyond(d: int, p: nat)
    ensures d >= 1 ==> d * p >= p
    ensures d <= -1 ==> d * p <= 0 - p
  {}

  lemma FactorZero(d: int, p: nat)
    requires 0 - p < d * p < p
    ensures d == 0
  {
    MulBeyond(d, p);
  }

  /** Quotient and remainder are the only pair that recomposes x. */
  lemma QuotUnique(b: nat, k: nat, x: int, q: int, r: int)
    requires b >= 1
    requires x == q * Pow(b, k) + r && 0 <= r < Pow(b, k)
    ensures Quot(b, k, x) == q && Rem(b, k, x) == r
  {
    RemBounds(b, k, x);
    var p := Pow(b, k);
    assert (Quot(b, k, x) - q) * p == Quot(b, k, x) * p - q * p;
    FactorZero(Quot(b, k, x) - q, p);
  }

  lemma QuotRemAreDivMod(b: nat, k: nat, x: int)
    requires b >= 1
    ensures Quot(b, k, x) == x / Pow(b, k) && Rem(b, k, x) == x % Pow(b, k)
  {
    DivStep(x, Pow(b, k));
    QuotUnique(b, k, x, x / Pow(b, k), x % Pow(b, k));
  }

  /** Moving one step forward advances digit group k exactly when the lower digits roll over to zero. */
  lemma QuotSucc(b: nat, k: nat, x: int)
    requires b >= 1
    ensures Rem(b, k, x + 1) == 0 ==> Quot(b, k, x + 1) == Quot(b, k, x) + 1 && Rem(b, k, x) == Pow(b, k) - 1
    ensures Rem(b, k, x + 1) != 0 ==> Quot(b, k, x + 1) == Quot(b, k, x) && Rem(b, k, x + 1) == Rem(b, k, x) + 1
  {
    RemBounds(b, k, x);
    var q, p := Quot(b, k, x), Pow(b, k);
    if Rem(b, k, x) == p - 1 {
      assert (q + 1) * p == q * p + p;
      QuotUnique(b, k, x + 1, q + 1, 0);
    } else {
      QuotUnique(b, k, x + 1, q, Rem(b, k, x) + 1);
    }
  }

  lemma QuotMonotone(b: nat, k: nat, x: int, y: int)
    requires b >= 1 && x <= y
    ensures Quot(b, k, x) <= Quot(b, k, y)
  {
    RemBounds(b, k, x);
    RemBounds(b, k, y);
    var p, d := Pow(b, k), Quot(b, k, y) - Quot(b, k, x);
    assert d * p == Quot(b, k, y) * p - Quot(b, k, x) * p;
    MulBeyond(d, p);
  }

  /** The low k+1 digits vanish exactly when the low k digits and digit k do. */
  lemma RemZeroUnfold(b: nat, k: nat, x: int)
    requires b >= 1
    ensures Rem(b, k + 1, x) == 0 <==> Rem(b, k, x) == 0 && Quot(b, k, x) % b == 0
  {
    RemUnfold(b, k, x);
    RemBounds(b, k, x);
    DivStep(Quot(b, k, x), b);
    MulPos(Quot(b, k, x) % b, Pow(b, k));
  }

  lemma RemZero(b: nat, x: int)
    requires b >= 1
    ensures Rem(b, 0, x) == 0 && (Rem(b, 1, x) == 0 <==> Quot(b, 0, x) % b == 0)
  {
    RemZeroUnfold(b, 0, x);
  }

  lemma ModAdd(b: nat, x: int, y: int)
    requires b >= 1
    ensures (x % b + y) % b == (x + y) % b
  {
    DivStep(x, b);
    DivStep(x + y, b);
    DivStep(x % b + y, b);
    var d := (x + y) / b - x / b - (x % b + y) / b;
    assert d * b == (x + y) / b * b - x / b * b - (x % b + y) / b * b;
    FactorZero(d, b);
  }

  /** Equal residues of numbers less than b apart are equal numbers. */
  lemma ModClose(b: nat, x: int, y: int)
    requires b >= 1 && 0 - b < x - y < b && x % b == y % b
    ensures x == y
  {
    DivStep(x, b);
    DivStep(y, b);
    assert (x / b - y / b) * b == x / b * b - y / b * b;
    FactorZero(x / b - y / b, b);
  }
}
