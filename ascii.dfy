/**
 * The parts of .NET's `Encoding.ASCII` and of ordinal `string.Contains` that the
 * command client uses. ASCII encoding maps every character outside 0..127 to the
 * byte of '?', and decoding maps every byte outside 0..127 to '?'.
 */
module Ascii {
  import opened BitConverter

  /** The replacement byte and character: '?'. */
  const Replacement: Byte := 0x3F

  predicate IsAscii(s: string) {
    forall k :: 0 <= k < |s| ==> s[k] as int < 0x80
  }

  predicate IsAsciiBytes(b: seq<Byte>) {
    forall k :: 0 <= k < |b| ==> b[k] < 0x80
  }

  function EncodeChar(c: char): Byte {
    if c as int < 0x80 then c as int else Replacement
  }

  function DecodeByte(b: Byte): char {
    if b < 0x80 then b as char else Replacement as char
  }

  /** `Encoding.ASCII.GetBytes(s)`: one byte per character. */
  function GetBytes(s: string): (b: seq<Byte>)
    ensures |b| == |s|
    ensures IsAscii(s) ==> IsAsciiBytes(b)
  {
    seq(|s|, k requires 0 <= k < |s| => EncodeChar(s[k]))
  }

  /** `Encoding.ASCII.GetString(b)`: one character per byte. */
  function GetString(b: seq<Byte>): (s: string)
    ensures |s| == |b|
  {
    seq(|b|, k requires 0 <= k < |b| => DecodeByte(b[k]))
  }

  /** ASCII text survives an encode/decode round trip unchanged. */
  lemma GetStringOfGetBytes(s: string)
    requires IsAscii(s)
    ensures GetString(GetBytes(s)) == s
  {
  }

  /** Bytes below 0x80 survive a decode/encode round trip unchanged. */
  lemma GetBytesOfGetString(b: seq<Byte>)
    requires IsAsciiBytes(b)
    ensures GetBytes(GetString(b)) == b
  {
  }

  /** Joining two ASCII texts gives ASCII text. */
  lemma AsciiConcat(a: string, b: string)
    requires IsAscii(a) && IsAscii(b)
    ensures IsAscii(a + b)
  {
    forall k | |a| <= k < |a + b|
      ensures (a + b)[k] as int < 0x80
    {
      assert (a + b)[k] == b[k - |a|];
    }
  }

  /** `pattern` occurs in `s` starting at offset `k`. */
  predicate OccursAt<T(==)>(s: seq<T>, pattern: seq<T>, k: int) {
    0 <= k <= |s| - |pattern| && s[k..k + |pattern|] == pattern
  }

  /** Ordinal `text.Contains(pattern)`: `pattern` occurs in `text` at some offset. */
  predicate Contains(text: string, pattern: string) {
    exists k :: 0 <= k <= |text| - |pattern| && OccursAt(text, pattern, k)
  }

  /** `pattern` occurs in `bytes` at some offset. */
  predicate ContainsBytes(bytes: seq<Byte>, pattern: seq<Byte>) {
    exists k :: 0 <= k <= |bytes| - |pattern| && OccursAt(bytes, pattern, k)
  }

  /**
   * For an ASCII pattern without '?', searching the decoded text is the same as
   * searching the raw bytes for the pattern's encoding: no byte outside 0..127
   * can produce a match through the '?' replacement.
   */
  lemma ContainsDecoded(bytes: seq<Byte>, pattern: string)
    requires IsAscii(pattern)
    requires forall k :: 0 <= k < |pattern| ==> pattern[k] != Replacement as char
    ensures Contains(GetString(bytes), pattern) <==> ContainsBytes(bytes, GetBytes(pattern))
  {
    var text := GetString(bytes);
    var p := GetBytes(pattern);
    forall k | 0 <= k <= |bytes| - |pattern|
      ensures OccursAt(text, pattern, k) <==> OccursAt(bytes, p, k)
    {
      if text[k..k + |pattern|] == pattern {
        forall j | 0 <= j < |pattern|
          ensures bytes[k + j] == p[j]
        {
          assert text[k + j] == pattern[j];
        }
      }
      if bytes[k..k + |pattern|] == p {
        forall j | 0 <= j < |pattern|
          ensures text[k + j] == pattern[j]
        {
          assert bytes[k + j] == p[j];
        }
      }
    }
  }
}
