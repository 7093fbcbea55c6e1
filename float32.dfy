/** Ordering of IEEE 754 single-precision values carried as their 32-bit
    patterns. The decoders never compute with floats; the only thing they do
    with them is compare, through Python's `min` and `max`. */
module Float32 {
  import opened Bytes

  const EXPONENT_UNIT: int := 0x80_0000   // 2^23: the first exponent bit

  /** All exponent bits set and a non-zero fraction. */
  predicate IsNaN(w: Word32) {
    (w / EXPONENT_UNIT) % 0x100 == 0xFF && w % EXPONENT_UNIT != 0
  }

  /** A key whose integer order is the IEEE order of every non-NaN pattern:
      the magnitude bits, negated when the sign bit is set. Both zeros get 0. */
  function Key(w: Word32): (k: int)
    ensures -TWO_31 < k < TWO_31
    ensures k == 0 <==> w % TWO_31 == 0
    ensures k < 0 <==> w >= TWO_31 && w % TWO_31 != 0
  {
    if w >= TWO_31 then -(w % TWO_31) else w
  }

  /** Python's `a < b` on the two floats: false whenever either is NaN. */
  predicate Less(a: Word32, b: Word32) {
    !IsNaN(a) && !IsNaN(b) && Key(a) < Key(b)
  }

  predicate LessEq(a: Word32, b: Word32) {
    !IsNaN(a) && !IsNaN(b) && Key(a) <= Key(b)
  }

  /** Python's two-argument `min(a, b)`: `b` only when it is strictly less,
      otherwise `a`. */
  function Min(a: Word32, b: Word32): (m: Word32)
    ensures m == a || m == b
    ensures !IsNaN(a) && !IsNaN(b) ==> LessEq(m, a) && LessEq(m, b)
  {
    if Less(b, a) then b else a
  }

  /** Python's two-argument `max(a, b)`: `b` only when it is strictly greater,
      otherwise `a`. */
  function Max(a: Word32, b: Word32): (m: Word32)
    ensures m == a || m == b
    ensures !IsNaN(a) && !IsNaN(b) ==> LessEq(a, m) && LessEq(b, m)
  {
    if Less(a, b) then b else a
  }

  /** The order is transitive on non-NaN values, so a running bound stays a
      bound. */
  lemma {:induction false} LessEqTrans(a: Word32, b: Word32, c: Word32)
    requires LessEq(a, b) && LessEq(b, c)
    ensures LessEq(a, c)
  {
  }

  /** A NaN bound absorbs nothing: `min` keeps its first argument when the
      second is NaN, which is why a NaN coordinate can escape the box. */
  lemma {:induction false} MinWithNaN(a: Word32, b: Word32)
    requires IsNaN(b)
    ensures Min(a, b) == a && Max(a, b) == a
  {
  }
}
