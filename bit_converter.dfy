/**
 * The two .NET `BitConverter` operations the receiver and its test packets use,
 * on a little-endian machine: `ToInt16` reads a signed 16-bit integer from two
 * bytes (low byte first) and `GetBytes` writes one back out.
 */
module BitConverter {

  type Byte = b: int | 0 <= b < 256

  /** C#'s `short`. */
  type Int16 = x: int | -0x8000 <= x < 0x8000

  /** The unsigned 16-bit value whose bits are those of `x` (two's complement). */
  function Unsigned16(x: Int16): int {
    if x < 0 then x + 0x1_0000 else x
  }

  /** `Unsigned16(x)` is the 16-bit value congruent to `x` modulo 2^16. */
  lemma Unsigned16Bits(x: Int16)
    ensures 0 <= Unsigned16(x) < 0x1_0000
    ensures (Unsigned16(x) - x) % 0x1_0000 == 0
  {
  }

  /** `BitConverter.ToInt16(buffer, k)` with `lo == buffer[k]` and `hi == buffer[k + 1]`. */
  function ToInt16(lo: Byte, hi: Byte): (x: Int16)
    ensures x < 0 <==> hi >= 0x80
  {
    var u := lo as int + 0x100 * (hi as int);
    if u < 0x8000 then u else u - 0x1_0000
  }

  /**
   * `ToInt16` reads the two bytes as the little-endian bits of a 16-bit two's
   * complement integer: its bits are `lo + 256 * hi`.
   */
  lemma ToInt16Bits(lo: Byte, hi: Byte)
    ensures Unsigned16(ToInt16(lo, hi)) == lo as int + 0x100 * (hi as int)
  {
  }

  /** `BitConverter.GetBytes((short)x)`: the low byte, then the high byte. */
  function GetBytes(x: Int16): (b: seq<Byte>)
    ensures |b| == 2
    ensures b[0] as int + 0x100 * (b[1] as int) == Unsigned16(x)
  {
    var u := Unsigned16(x);
    Unsigned16Bits(x);
    [u % 0x100, u / 0x100]
  }

  /** Reading back what `GetBytes` wrote gives the original integer. */
  lemma ToInt16OfGetBytes(x: Int16)
    ensures ToInt16(GetBytes(x)[0], GetBytes(x)[1]) == x
  {
    var b := GetBytes(x);
    ToInt16Bits(b[0], b[1]);
  }

  /** Writing out what `ToInt16` read gives the original two bytes. */
  lemma GetBytesOfToInt16(lo: Byte, hi: Byte)
    ensures GetBytes(ToInt16(lo, hi)) == [lo, hi]
  {
    ToInt16Bits(lo, hi);
  }
}
