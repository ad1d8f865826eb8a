/**
  The two pieces of C integer semantics the drawing code depends on: signed
  division truncates toward zero (Dafny's `/` is Euclidean), and a value
  returned as `int16_t` is reduced modulo 2^16.
 */
module CInt {

  /** A C `int16_t`. */
  type Int16 = v: int | -0x8000 <= v < 0x8000

  function Abs(a: int): nat {
    if a < 0 then -a else a
  }

  /** `v` lies between `a` and `b`, whichever of the two is larger. */
  predicate Between(v: int, a: int, b: int) {
    (a <= v <= b) || (b <= v <= a)
  }

  /**
    C's `a / b`: the magnitude is the floor of |a| / |b| and the sign is
    negative exactly when the operands' signs differ (or zero).
   */
  function CDiv(a: int, b: int): (q: int)
    requires b != 0
    ensures Abs(q) * Abs(b) <= Abs(a) < (Abs(q) + 1) * Abs(b)
    ensures q > 0 ==> (a < 0) == (b < 0)
    ensures q < 0 ==> (a < 0) != (b < 0)
  {
    var m := Abs(a) / Abs(b);
    DivBounds(Abs(a), Abs(b));
    if (a < 0) == (b < 0) then m else -m
  }

  /** Euclidean division of naturals brackets the numerator. */
  lemma DivBounds(n: nat, d: nat)
    requires d > 0
    ensures (n / d) * d <= n < (n / d + 1) * d
  {
    var q, r := n / d, n % d;
    assert q * d + r == n;
    assert (q + 1) * d == q * d + d;
  }

  /** Where the two divisions part company: C rounds -7 / 2 up to -3. */
  lemma CDivTruncatesTowardZero()
    ensures CDiv(-7, 2) == -3 && -7 / 2 == -4
    ensures CDiv(7, -2) == -3 && 7 / -2 == -3
  {
  }

  /** Conversion to `int16_t`: the representative of `v` modulo 2^16 in range. */
  function WrapInt16(v: int): (r: Int16)
    ensures (r - v) % 0x1_0000 == 0
    ensures -0x8000 <= v < 0x8000 ==> r == v
  {
    (v + 0x8000) % 0x1_0000 - 0x8000
  }
}
