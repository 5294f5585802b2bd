/** Go's int64 arithmetic: two's complement wrap-around of mathematical integers. */
module Int64 {
  const MAX: int := 0x7FFF_FFFF_FFFF_FFFF
  const MIN: int := -0x8000_0000_0000_0000
  const MODULUS: int := 0x1_0000_0000_0000_0000

  predicate InRange(x: int) { MIN <= x <= MAX }

  /** The int64 value that Go computes where mathematics says x. */
  function Wrap(x: int): (r: int)
    ensures InRange(r)
    ensures InRange(x) <==> r == x
  {
    (x - MIN) % MODULUS + MIN
  }

  lemma ShiftKeepsRemainder(a: int, k: int)
    ensures (a + k * MODULUS) % MODULUS == a % MODULUS
  {
    var q, m := a / MODULUS, a % MODULUS;
    assert a + k * MODULUS == (q + k) * MODULUS + m;
    assert (a + k * MODULUS) / MODULUS == q + k;
  }

  /** Wrapping an intermediate result never changes the wrapped final result. */
  lemma WrapAbsorbs(x: int, y: int)
    ensures Wrap(Wrap(x) + y) == Wrap(x + y)
  {
    var k := (x - MIN) / MODULUS;
    assert Wrap(x) == x - k * MODULUS;
    ShiftKeepsRemainder(x + y - MIN, -k);
    assert x + y - MIN + (-k) * MODULUS == Wrap(x) + y - MIN;
  }

  lemma WrapTwice(b: int, x: int, y: int, sum: int)
    requires sum == x + y
    ensures Wrap(Wrap(b + x) + y) == Wrap(b + sum)
  {
    WrapAbsorbs(b + x, y);
  }
}
