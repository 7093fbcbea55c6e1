/** Powers of two and integer base-2 logarithms, standing in for the
    `math.log2`, `math.ceil` and `math.pow` calls the scripts make on
    positive integer sides. */
module IntLog {

  function Pow2(k: nat): (p: nat)
    ensures p >= 1
  {
    if k == 0 then 1 else 2 * Pow2(k - 1)
  }

  /** `floor(log2(n))` for a positive integer. */
  function Log2Floor(n: int): (r: nat)
    requires n >= 1
    decreases n
  {
    if n == 1 then 0 else 1 + Log2Floor(n / 2)
  }

  /** `Log2Floor(n)` is the exponent of the largest power of two not above
      `n`. */
  lemma {:induction false} Log2FloorBounds(n: int)
    requires n >= 1
    ensures Pow2(Log2Floor(n)) <= n < Pow2(Log2Floor(n) + 1)
    decreases n
  {
    if n > 1 {
      Log2FloorBounds(n / 2);
    }
  }

  /** `ceil(log2(n))` for a positive integer. */
  function Log2Ceil(n: int): (r: nat)
    requires n >= 1
  {
    if n == 1 then 0 else Log2Floor(n - 1) + 1
  }

  /** `Log2Ceil(n)` is the exponent of the smallest power of two not below
      `n`. */
  lemma {:induction false} Log2CeilBounds(n: int)
    requires n >= 1
    ensures n <= Pow2(Log2Ceil(n))
    ensures Log2Ceil(n) > 0 ==> Pow2(Log2Ceil(n) - 1) < n
  {
    if n > 1 {
      Log2FloorBounds(n - 1);
    }
  }

  /** A power of two is its own ceiling. */
  lemma {:induction false} Log2CeilPow2(k: nat)
    ensures Log2Ceil(Pow2(k)) == k
  {
    var n := Pow2(k);
    Log2CeilBounds(n);
    var c := Log2Ceil(n);
    Pow2Monotone(c, k);
    if c > 0 {
      Pow2Monotone(c - 1, k);
    }
  }

  /** A smaller exponent gives a smaller power, and conversely. */
  lemma {:induction false} Pow2Monotone(a: nat, b: nat)
    ensures a < b <==> Pow2(a) < Pow2(b)
    decreases a + b
  {
    if a > 0 && b > 0 {
      Pow2Monotone(a - 1, b - 1);
    } else if a == 0 && b > 0 {
      Pow2Monotone(0, b - 1);
    } else if b == 0 && a > 0 {
      Pow2Monotone(a - 1, 0);
    }
  }
}
