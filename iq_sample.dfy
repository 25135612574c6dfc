/**
 * One complex baseband sample: an in-phase and a quadrature component, each a
 * signed 16-bit integer fixed at construction. The floating-point magnitude and
 * phase are not modelled; the integer radicand `I * I + Q * Q` under the square
 * root of the magnitude is, because it is computed in 32-bit arithmetic.
 */
module IQSamples {
  import opened BitConverter

  /** A datatype value: `i` and `q` are the constructor's arguments and nothing changes them. */
  datatype IQSample = IQSample(i: Int16, q: Int16)

  const Int32Min: int := -0x8000_0000
  const Int32Max: int := 0x7FFF_FFFF

  /** C#'s unchecked `int` arithmetic: the value congruent to `x` modulo 2^32 in [-2^31, 2^31). */
  function WrapInt32(x: int): (r: int)
    ensures Int32Min <= r <= Int32Max
    ensures (r - x) % 0x1_0000_0000 == 0
    ensures Int32Min <= x <= Int32Max ==> r == x
  {
    var m := x % 0x1_0000_0000;
    if m <= Int32Max then m else m - 0x1_0000_0000
  }

  /**
   * The radicand of `Magnitude` as written: both `short` components are promoted
   * to `int`, so the products and the sum are taken modulo 2^32.
   */
  function Radicand(s: IQSample): (r: int)
    ensures Int32Min <= r <= Int32Max
    ensures r < 0 <==> s.i == -0x8000 && s.q == -0x8000
  {
    SquareBound(s.i);
    SquareBound(s.q);
    WrapInt32(s.i * s.i + s.q * s.q)
  }

  /** The square of a 16-bit value is at most 2^30, and reaches it only at -32768. */
  lemma SquareBound(x: Int16)
    ensures 0 <= x * x <= 0x4000_0000
    ensures x * x == 0x4000_0000 <==> x == -0x8000
  {
    if x >= 0 {
      assert x * x <= x * 0x7FFF <= 0x7FFF * 0x7FFF;
    } else if x > -0x8000 {
      assert x * x == (-x) * (-x);
      assert (-x) * (-x) <= (-x) * 0x7FFF <= 0x7FFF * 0x7FFF;
    }
  }

  /** The sum of squares the magnitude evidently intends, taken without wrap-around. */
  function SquaredMagnitude(s: IQSample): (r: nat)
    ensures r <= 0x8000_0000
    ensures r == 0x8000_0000 <==> s.i == -0x8000 && s.q == -0x8000
  {
    SquareBound(s.i);
    SquareBound(s.q);
    s.i * s.i + s.q * s.q
  }

  /**
   * The 32-bit radicand is the true sum of squares for every sample except
   * (-32768, -32768), the only one whose sum 2^31 does not fit in an `int`.
   */
  lemma RadicandExact(s: IQSample)
    ensures Radicand(s) == SquaredMagnitude(s) <==> !(s.i == -0x8000 && s.q == -0x8000)
  {
    var r := SquaredMagnitude(s);
    if r == 0x8000_0000 {
      assert Radicand(s) == Int32Min;
    } else {
      assert r <= Int32Max;
    }
  }

  /** For (-32768, -32768) the radicand wraps to -2^31, whose square root is NaN. */
  lemma RadicandOverflowsAtMinimum()
    ensures Radicand(IQSample(-0x8000, -0x8000)) == Int32Min
    ensures SquaredMagnitude(IQSample(-0x8000, -0x8000)) == 0x8000_0000
  {
  }

  /** The radicand of the sample (3, 4) is 25, so its magnitude is 5. */
  lemma RadicandOfThreeFour()
    ensures Radicand(IQSample(3, 4)) == 25
  {
  }
}
