/** Go's 64-bit `int` arithmetic: two's-complement wrap-around and truncating division. */
module GoInt {

  const MinInt64: int := -0x8000_0000_0000_0000
  const MaxInt64: int := 0x7FFF_FFFF_FFFF_FFFF
  const Modulus: int := 0x1_0000_0000_0000_0000

  /** The values of Go's `int` on a 64-bit platform. */
  type Int64 = x: int | MinInt64 <= x <= MaxInt64

  function Abs(x: int): nat {
    if x < 0 then -x else x
  }

  /** The int64 that an unbounded result wraps to, as Go's `+`, `-` and `*` do. */
  function Wrap(x: int): (r: Int64)
    ensures MinInt64 <= x <= MaxInt64 ==> r == x
    ensures (x - r) % Modulus == 0
  {
    (x - MinInt64) % Modulus + MinInt64
  }

  /**
   * Go's integer `/`: the quotient truncated toward zero, with the one
   * overflowing case `MinInt64 / -1` wrapping back to `MinInt64`.
   */
  function Quo(a: Int64, b: Int64): (q: Int64)
    requires b != 0
    ensures a >= 0 && b > 0 ==> q == a / b
  {
    var m := Abs(a) / Abs(b);
    QuotientBound(Abs(a), Abs(b));
    assert m <= Abs(a) <= Modulus / 2;
    if (a < 0) != (b < 0) then -m
    else if m <= MaxInt64 then m
    else
      // only MinInt64 / -1 gets here: its quotient 2^63 wraps
      assert Abs(b) == 1 && a == MinInt64;
      MinInt64
  }

  /**
   * Outside the one overflowing case, Go's quotient has the magnitude of the
   * magnitudes' quotient and the sign of the operands' signs: it truncates toward zero.
   */
  lemma QuoTruncates(a: Int64, b: Int64)
    requires b != 0 && !(a == MinInt64 && b == -1)
    ensures Abs(Quo(a, b)) == Abs(a) / Abs(b)
    ensures (a < 0) != (b < 0) ==> Quo(a, b) <= 0
    ensures (a < 0) == (b < 0) ==> Quo(a, b) >= 0
  {
    var m := Abs(a) / Abs(b);
    QuotientBound(Abs(a), Abs(b));
    if (a < 0) != (b < 0) {
      assert Quo(a, b) == -m;
      assert Abs(Quo(a, b)) == m;
    } else {
      assert Quo(a, b) == m;
      assert Abs(Quo(a, b)) == m;
    }
  }

  /** Dividing by at least one never grows a natural number, and dividing by more shrinks it. */
  lemma QuotientBound(x: nat, y: nat)
    requires y > 0
    ensures 0 <= x / y <= x
    ensures y > 1 && x > 0 ==> x / y < x
  {
    var q := x / y;
    assert q * y + x % y == x by { DivMod(x, y); }
    assert q * y == q + q * (y - 1) by { Distribute(q, y); }
    assert q * (y - 1) >= 0 by { ProductNonNegative(q, y - 1); }
    if y > 1 {
      assert q * (y - 1) == q + q * (y - 2) by { Distribute(q, y - 1); }
      assert q * (y - 2) >= 0 by { ProductNonNegative(q, y - 2); }
    }
  }

  lemma DivMod(x: nat, y: nat)
    requires y > 0
    ensures (x / y) * y + x % y == x
  {
  }

  lemma Distribute(q: int, y: int)
    ensures q * y == q + q * (y - 1)
  {
  }

  lemma ProductNonNegative(p: nat, q: nat)
    ensures p * q >= 0
  {
  }
}
