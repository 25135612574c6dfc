/**
 * The datagram payload format: a run of 4-byte records, each a little-endian
 * 16-bit I followed by a little-endian 16-bit Q. `Decode` is what the
 * receiver's `ParsePacket` computes; `Encode` is how the receiver's tests build
 * packets (`CreatePacket`), and the two are inverse to each other.
 */
module SamplePackets {
  import opened BitConverter
  import opened IQSamples

  /** Bytes per record. */
  const PacketSize: nat := 4

  /** The sample whose record starts at byte offset `at`: I at `at`, Q at `at + 2`. */
  function RecordAt(buffer: seq<Byte>, at: nat): IQSample
    requires at + PacketSize <= |buffer|
  {
    IQSample(ToInt16(buffer[at], buffer[at + 1]), ToInt16(buffer[at + 2], buffer[at + 3]))
  }

  /**
   * One sample per complete record, record by record. Sample k is read from
   * offsets 4k and 4k + 2; bytes after the last complete record are ignored.
   */
  function Decode(buffer: seq<Byte>): (samples: seq<IQSample>)
    ensures |samples| == |buffer| / PacketSize
    decreases |buffer|
  {
    if |buffer| < PacketSize then []
    else [RecordAt(buffer, 0)] + Decode(buffer[PacketSize..])
  }

  /** Sample k of the decoding is the record at byte offset 4k. */
  lemma {:induction false} DecodeRecords(buffer: seq<Byte>)
    ensures forall k :: 0 <= k < |Decode(buffer)| ==> Decode(buffer)[k] == RecordAt(buffer, PacketSize * k)
    decreases |buffer|
  {
    if |buffer| >= PacketSize {
      var rest := buffer[PacketSize..];
      var whole := Decode(buffer);
      assert whole == [RecordAt(buffer, 0)] + Decode(rest);
      DecodeRecords(rest);
      forall k | 1 <= k < |whole|
        ensures whole[k] == RecordAt(buffer, PacketSize * k)
      {
        assert whole[k] == Decode(rest)[k - 1];
        RecordShift(buffer, k);
      }
    }
  }

  /** Record k - 1 of the buffer without its first record is record k of the buffer. */
  lemma RecordShift(buffer: seq<Byte>, k: nat)
    requires 1 <= k && PacketSize * k + PacketSize <= |buffer|
    ensures RecordAt(buffer[PacketSize..], PacketSize * (k - 1)) == RecordAt(buffer, PacketSize * k)
  {
    var at := PacketSize * (k - 1);
    assert at + PacketSize == PacketSize * k;
  }

  /** The four bytes of one sample: I then Q, each low byte first. */
  function EncodeSample(s: IQSample): (b: seq<Byte>)
    ensures |b| == PacketSize
  {
    GetBytes(s.i) + GetBytes(s.q)
  }

  /** The packet the tests send: the samples' records back to back. */
  function Encode(samples: seq<IQSample>): (buffer: seq<Byte>)
    ensures |buffer| == PacketSize * |samples|
  {
    if samples == [] then [] else EncodeSample(samples[0]) + Encode(samples[1..])
  }

  /** Decoding the encoding of any samples gives them back: the receiver's round-trip law. */
  lemma {:induction false} DecodeEncode(samples: seq<IQSample>)
    ensures Decode(Encode(samples)) == samples
  {
    if samples != [] {
      var s := samples[0];
      var buffer := Encode(samples);
      assert buffer[PacketSize..] == Encode(samples[1..]);
      ToInt16OfGetBytes(s.i);
      ToInt16OfGetBytes(s.q);
      assert RecordAt(buffer, 0) == s;
      DecodeEncode(samples[1..]);
    }
  }

  /** Every aligned buffer is the encoding of its decoding: decoding loses nothing. */
  lemma {:induction false} EncodeDecode(buffer: seq<Byte>)
    requires |buffer| % PacketSize == 0
    ensures Encode(Decode(buffer)) == buffer
  {
    if buffer != [] {
      var samples := Decode(buffer);
      assert samples[1..] == Decode(buffer[PacketSize..]);
      EncodeDecode(buffer[PacketSize..]);
      GetBytesOfToInt16(buffer[0], buffer[1]);
      GetBytesOfToInt16(buffer[2], buffer[3]);
      assert EncodeSample(samples[0]) == buffer[..PacketSize];
      assert buffer == buffer[..PacketSize] + buffer[PacketSize..];
    }
  }

  /** Encoding distributes over concatenation of sample runs. */
  lemma {:induction false} EncodeAppend(a: seq<IQSample>, b: seq<IQSample>)
    ensures Encode(a + b) == Encode(a) + Encode(b)
  {
    if a == [] {
      assert a + b == b;
    } else {
      assert (a + b)[1..] == a[1..] + b;
      EncodeAppend(a[1..], b);
    }
  }

  /** Decoding distributes over concatenation when the first part is aligned. */
  lemma DecodeAppend(a: seq<Byte>, b: seq<Byte>)
    requires |a| % PacketSize == 0
    ensures Decode(a + b) == Decode(a) + Decode(b)
  {
    var whole, left, right := Decode(a + b), Decode(a), Decode(b);
    DecodeRecords(a + b);
    DecodeRecords(a);
    DecodeRecords(b);
    assert |whole| == |left| + |right|;
    forall k | 0 <= k < |whole|
      ensures whole[k] == (left + right)[k]
    {
      if k >= |left| {
        assert (a + b)[PacketSize * k..PacketSize * k + PacketSize]
            == b[PacketSize * (k - |left|)..PacketSize * (k - |left|) + PacketSize];
      }
    }
  }

  /** Decoding a prefix one record longer adds exactly that record's sample. */
  lemma DecodeExtend(buffer: seq<Byte>, k: nat)
    requires k % PacketSize == 0 && k + PacketSize <= |buffer|
    ensures buffer[..k + PacketSize] == buffer[..k] + buffer[k..k + PacketSize]
    ensures Decode(buffer[..k + PacketSize]) == Decode(buffer[..k]) + [RecordAt(buffer, k)]
  {
    var record := buffer[k..k + PacketSize];
    assert buffer[..k + PacketSize] == buffer[..k] + record;
    DecodeAppend(buffer[..k], record);
  }
}
