/**
 * The older sample receiver (`NetSDR.Client.UdpDataReceiver`). Starting it sets
 * the receiving flag with no already-started check, creates the output file
 * empty and loops while the flag is set: each aligned datagram is written to
 * the file as consecutive 4-byte records, each record decoded and reported;
 * misaligned datagrams are skipped; any exception in a pass is caught and the
 * loop goes on. `StopReceiving` clears the flag and closes the socket.
 *
 * The socket is a finite sequence of `Arrival`s; when it runs out, the loop is
 * still waiting for a datagram.
 */
module LegacyUdpReceiver {
  import opened BitConverter
  import opened IQSamples
  import opened SamplePackets
  import UdpReceiver

  const DefaultUdpPort: int := 60000

  datatype Arrival =
      /** `ReceiveAsync` returns a datagram with this payload. */
    | Datagram(payload: seq<Byte>)
      /** `StopReceiving` is called before the next receive completes. */
    | Stop
      /** The receive throws; the loop logs the message and goes on. */
    | Failure(message: string)

  /**
   * What one run of the loop does: the file it leaves, the I/Q pairs it reports
   * (in order) and whether the loop has ended.
   */
  datatype Run = Run(file: seq<Byte>, reported: seq<IQSample>, stopped: bool)

  /**
   * The loop over `socket`. On a closed socket a receive can only throw, so no
   * datagram is delivered.
   */
  function Receive(closed: bool, socket: seq<Arrival>): (r: Run)
    ensures |r.file| == PacketSize * |r.reported|
    decreases |socket|
  {
    if socket == [] then Run([], [], false)
    else match socket[0]
      case Stop => Run([], [], true)
      case Failure(_) => Receive(closed, socket[1..])
      case Datagram(p) =>
        var rest := Receive(closed, socket[1..]);
        if closed || |p| % PacketSize != 0 then rest
        else Run(p + rest.file, Decode(p) + rest.reported, rest.stopped)
  }

  /**
   * A receive error changes nothing, wherever it arrives: the `catch` logs it
   * and the loop goes on.
   */
  lemma {:induction false} FailureIgnored(closed: bool, before: seq<Arrival>, message: string, after: seq<Arrival>)
    ensures Receive(closed, before + [Failure(message)] + after) == Receive(closed, before + after)
    decreases |before|
  {
    if before == [] {
      assert before + [Failure(message)] + after == [Failure(message)] + after;
      assert ([Failure(message)] + after)[1..] == after;
      assert before + after == after;
    } else {
      assert (before + [Failure(message)] + after)[1..] == before[1..] + [Failure(message)] + after;
      assert (before + after)[1..] == before[1..] + after;
      FailureIgnored(closed, before[1..], message, after);
    }
  }

  /** A datagram whose length is not a multiple of 4 changes nothing, wherever it arrives. */
  lemma {:induction false} MisalignedDatagramIgnored(
    closed: bool, before: seq<Arrival>, payload: seq<Byte>, after: seq<Arrival>)
    requires |payload| % PacketSize != 0
    ensures Receive(closed, before + [Datagram(payload)] + after) == Receive(closed, before + after)
    decreases |before|
  {
    if before == [] {
      assert before + [Datagram(payload)] + after == [Datagram(payload)] + after;
      assert ([Datagram(payload)] + after)[1..] == after;
      assert before + after == after;
    } else {
      assert (before + [Datagram(payload)] + after)[1..] == before[1..] + [Datagram(payload)] + after;
      assert (before + after)[1..] == before[1..] + after;
      MisalignedDatagramIgnored(closed, before[1..], payload, after);
    }
  }

  /** The loop ends exactly when `StopReceiving` runs: neither errors nor any datagram end it. */
  lemma {:induction false} StopsOnlyOnStop(closed: bool, socket: seq<Arrival>)
    ensures Receive(closed, socket).stopped <==> exists k :: 0 <= k < |socket| && socket[k].Stop?
    decreases |socket|
  {
    if socket != [] && !socket[0].Stop? {
      StopsOnlyOnStop(closed, socket[1..]);
      if exists k :: 0 <= k < |socket| && socket[k].Stop? {
        var k :| 0 <= k < |socket| && socket[k].Stop?;
        assert socket[1..][k - 1].Stop?;
      }
      if exists k :: 0 <= k < |socket[1..]| && socket[1..][k].Stop? {
        var k :| 0 <= k < |socket[1..]| && socket[1..][k].Stop?;
        assert socket[k + 1].Stop?;
      }
    }
  }

  /** The reported pairs are exactly the decoding of the file the run writes. */
  lemma {:induction false} ReportedIsDecodedFile(closed: bool, socket: seq<Arrival>)
    ensures IsAligned(Receive(closed, socket).file)
    ensures Receive(closed, socket).reported == Decode(Receive(closed, socket).file)
    decreases |socket|
  {
    if socket != [] && !socket[0].Stop? {
      ReportedIsDecodedFile(closed, socket[1..]);
      if socket[0].Datagram? && !closed && |socket[0].payload| % PacketSize == 0 {
        var p, rest := socket[0].payload, Receive(closed, socket[1..]);
        DecodeAppend(p, rest.file);
      }
    }
  }

  predicate IsAligned(bytes: seq<Byte>) {
    |bytes| % PacketSize == 0
  }

  /** Once the socket is closed (after a `StopReceiving`), a restarted loop never writes or reports anything. */
  lemma {:induction false} ClosedSocketDeliversNothing(socket: seq<Arrival>)
    ensures Receive(true, socket).file == [] && Receive(true, socket).reported == []
    decreases |socket|
  {
    if socket != [] && !socket[0].Stop? {
      ClosedSocketDeliversNothing(socket[1..]);
    }
  }

  /** The same arrivals as the current receiver sees them: a stop is seen at the loop head. */
  function AsCurrent(socket: seq<Arrival>): (current: seq<UdpReceiver.Arrival>)
    ensures |current| == |socket|
  {
    if socket == [] then []
    else
      var head := match socket[0]
        case Datagram(p) => UdpReceiver.Datagram(p)
        case Stop => UdpReceiver.StopBetweenDatagrams
        case Failure(m) => UdpReceiver.Failure(m);
      [head] + AsCurrent(socket[1..])
  }

  /**
   * Without receive errors, the old and the current receiver write the same
   * file and decode the same samples (the current one in per-datagram batches);
   * the two differ only on errors, where the old loop goes on and the current
   * one ends with a failure result.
   */
  lemma {:induction false} AgreesWithCurrentReceiver(socket: seq<Arrival>)
    requires forall k :: 0 <= k < |socket| ==> !socket[k].Failure?
    ensures var old_ := Receive(false, socket);
      var now := UdpReceiver.Receive(false, AsCurrent(socket));
      old_.file == UdpReceiver.FileOf(now.effects) &&
      old_.reported == Concat(UdpReceiver.BatchesOf(now.effects)) &&
      old_.stopped == now.result.Some?
    decreases |socket|
  {
    if socket != [] && socket[0].Datagram? {
      var p := socket[0].payload;
      AgreesWithCurrentReceiver(socket[1..]);
      assert AsCurrent(socket)[1..] == AsCurrent(socket[1..]);
      if |p| % PacketSize == 0 {
        var later := UdpReceiver.Receive(false, AsCurrent(socket[1..]));
        UdpReceiver.EffectsOfOneDatagram(p, Decode(p), later.effects);
        var batches := [Decode(p)] + UdpReceiver.BatchesOf(later.effects);
        assert batches[1..] == UdpReceiver.BatchesOf(later.effects);
      }
    }
  }

  /** In an aligned buffer, a record that starts before the end ends within it. */
  lemma NextRecordFits(k: int, length: int)
    requires 0 <= k < length && k % PacketSize == 0 && length % PacketSize == 0
    ensures k + PacketSize <= length
  {
  }

  /** The concatenation of sample batches. */
  function Concat(batches: seq<seq<IQSample>>): seq<IQSample> {
    if batches == [] then [] else batches[0] + Concat(batches[1..])
  }

  class LegacyUdpDataReceiver {
    const udpPort: int
    /** `_isReceivingData`. */
    var isReceivingData: bool
    /** Whether `StopReceiving` has closed the socket. */
    var socketClosed: bool
    /** The path of the output file the latest start created. */
    var outputPath: string
    /** That file's contents. */
    var file: seq<Byte>
    /** Every I/Q pair the loop has decoded and reported, in order. */
    var reported: seq<IQSample>

    constructor(udpPort: int := DefaultUdpPort)
      ensures this.udpPort == udpPort && !isReceivingData && !socketClosed
      ensures file == [] && reported == []
    {
      this.udpPort := udpPort;
      isReceivingData, socketClosed := false, false;
      outputPath := "";
      file, reported := [], [];
    }

    /**
     * `StartReceiving(outputFilePath)`: runs until a stop, or returns `false`
     * while still waiting when the socket input runs out. When creating the
     * file throws (`openFails`), the exception escapes with the flag already set.
     */
    method StartReceiving(outputFilePath: string, openFails: bool, socket: seq<Arrival>)
      returns (threw: bool, stopped: bool)
      modifies this
      ensures openFails ==>
        threw && !stopped && isReceivingData && socketClosed == old(socketClosed) &&
        outputPath == old(outputPath) && file == old(file) && reported == old(reported)
      ensures !openFails ==>
        var run := Receive(old(socketClosed), socket);
        !threw && outputPath == outputFilePath && file == run.file &&
        reported == old(reported) + run.reported &&
        stopped == run.stopped && isReceivingData == !stopped &&
        socketClosed == (old(socketClosed) || stopped)
    {
      if openFails {
        isReceivingData := true;
        return true, false;
      }
      isReceivingData := true;
      outputPath := outputFilePath;
      file := [];
      ghost var closed := socketClosed;
      ghost var target := Receive(closed, socket);
      ghost var reported0 := reported;
      var rest := socket;
      while isReceivingData
        invariant outputPath == outputFilePath
        invariant isReceivingData ==>
          socketClosed == closed &&
          target.file == file + Receive(closed, rest).file &&
          reported0 + target.reported == reported + Receive(closed, rest).reported &&
          target.stopped == Receive(closed, rest).stopped
        invariant !isReceivingData ==>
          socketClosed && target.file == file && reported0 + target.reported == reported && target.stopped
        decreases |rest|
      {
        if rest == [] {
          return false, false;
        }
        match rest[0] {
          case Stop =>
            StopReceiving();
          case Failure(_) =>
          case Datagram(bytes) =>
            if !socketClosed && |bytes| % PacketSize == 0 {
              ghost var later := Receive(closed, rest[1..]);
              WriteRecords(bytes);
              assert reported0 + target.reported == reported + later.reported;
            }
        }
        rest := rest[1..];
      }
      return false, true;
    }

    /** The inner loop: each 4-byte record is decoded, reported and written to the file, in order. */
    method WriteRecords(bytes: seq<Byte>)
      requires |bytes| % PacketSize == 0
      modifies this`file, this`reported
      ensures file == old(file) + bytes
      ensures reported == old(reported) + Decode(bytes)
    {
      var k := 0;
      while k < |bytes|
        invariant 0 <= k <= |bytes| && k % PacketSize == 0
        invariant file == old(file) + bytes[..k]
        invariant reported == old(reported) + Decode(bytes[..k])
      {
        NextRecordFits(k, |bytes|);
        var i := ToInt16(bytes[k], bytes[k + 1]);
        var q := ToInt16(bytes[k + 2], bytes[k + 3]);
        var record := bytes[k..k + PacketSize];
        DecodeExtend(bytes, k);
        file := file + record;
        reported := reported + [IQSample(i, q)];
        k := k + PacketSize;
      }
      assert bytes[..k] == bytes;
    }

    /**
     * `Dispose()`: disposes the socket without clearing the flag, so a loop
     * still running sees only failing receives until `StopReceiving`.
     */
    method Dispose()
      modifies this`socketClosed
      ensures socketClosed
    {
      socketClosed := true;
    }

    /** `StopReceiving()`: clears the flag and closes the socket; calling it again changes nothing. */
    method StopReceiving()
      modifies this`isReceivingData, this`socketClosed
      ensures !isReceivingData && socketClosed
    {
      isReceivingData := false;
      socketClosed := true;
    }
  }
}
