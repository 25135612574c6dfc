/**
 * The sample receiver (`NetSDR.Client.Udp.UdpDataReceiver`). Starting it opens
 * the output file empty and runs a loop that, until cancelled, takes one
 * datagram at a time, skips any whose length is not a multiple of 4, appends
 * the others verbatim to the file and publishes each one's decoded samples as
 * one `SamplesReceived` batch. A second start is refused with a result value.
 *
 * The socket is a finite sequence of `Arrival`s: what each pass of the loop
 * meets after its loop-head check. When the sequence runs out, the loop is
 * still waiting for a datagram and the start has no result yet (`None`).
 */
module UdpReceiver {
  import opened Wrappers
  import opened BitConverter
  import opened IQSamples
  import opened SamplePackets
  import opened ConnectionResults

  const DefaultUdpPort: int := 60000

  const AlreadyStarted: ConnectionResult := ConnectionResult(false, Some("Receiving is already started."))
  const Completed: ConnectionResult := ConnectionResult(true, Some("Receiving completed."))
  const Cancelled: ConnectionResult := ConnectionResult(true, Some("Receiving was cancelled."))
  /** The message of the `ObjectDisposedException` a receive on a disposed `UdpClient` throws (the runtime's text). */
  const DisposedSocketMessage: string := "Cannot access a disposed object.\nObject name: 'System.Net.Sockets.UdpClient'."

  datatype Arrival =
      /** `ReceiveAsync` returns a datagram with this payload. */
    | Datagram(payload: seq<Byte>)
      /** Cancellation (`StopReceiving` or the caller's token) comes after the previous
          datagram was handled, so the loop-head check sees it. */
    | StopBetweenDatagrams
      /** Cancellation comes while `ReceiveAsync` is pending: it throws `OperationCanceledException`. */
    | StopDuringReceive
      /** The receive (or the file write) throws any other exception, with this message. */
    | Failure(message: string)

  /** The receiver's observable side effects, in order. */
  datatype Effect =
      /** Bytes appended to the output file. */
    | Appended(bytes: seq<Byte>)
      /** One `SamplesReceived` invocation with this batch. */
    | SamplesReceived(batch: seq<IQSample>)

  /** What one receiving session does: its side effects, and the result if the loop ended. */
  datatype Session = Session(effects: seq<Effect>, result: Option<ConnectionResult>)

  /**
   * The receive loop from its loop-head check on. `cancelled` is the state of
   * the cancellation source at that check (the caller's token when the loop
   * starts; the token source is linked to it).
   */
  function Receive(cancelled: bool, socket: seq<Arrival>): (s: Session)
    ensures s.result.Some? && s.result.value.isSuccess ==> s.result == Some(Completed) || s.result == Some(Cancelled)
    decreases |socket|
  {
    if cancelled then Session([], Some(Completed))
    else if socket == [] then Session([], None)
    else match socket[0]
      case StopBetweenDatagrams => Session([], Some(Completed))
      case StopDuringReceive => Session([], Some(Cancelled))
      case Failure(m) => Session([], Some(ConnectionResult(false, Some(m))))
      case Datagram(p) =>
        var rest := Receive(false, socket[1..]);
        if |p| % PacketSize != 0 then rest
        else Session([Appended(p), SamplesReceived(Decode(p))] + rest.effects, rest.result)
  }

  /** The effects of one datagram: none when misaligned, else its append and then its batch. */
  function DatagramEffects(payload: seq<Byte>): seq<Effect> {
    if |payload| % PacketSize != 0 then [] else [Appended(payload), SamplesReceived(Decode(payload))]
  }

  /** `Receive` unfolded once, for a socket with an arrival pending. */
  lemma ReceiveStep(socket: seq<Arrival>)
    requires socket != []
    ensures var here, later := Receive(false, socket), Receive(false, socket[1..]);
      match socket[0]
      case StopBetweenDatagrams => here == Session([], Some(Completed))
      case StopDuringReceive => here == Session([], Some(Cancelled))
      case Failure(m) => here == Session([], Some(ConnectionResult(false, Some(m))))
      case Datagram(p) => here.effects == DatagramEffects(p) + later.effects && here.result == later.result
  {
    if socket[0].Datagram? && |socket[0].payload| % PacketSize != 0 {
      assert [] + Receive(false, socket[1..]).effects == Receive(false, socket[1..]).effects;
    }
  }

  /** The contents the effects leave in the output file, which starts empty. */
  function FileOf(effects: seq<Effect>): seq<Byte> {
    if effects == [] then []
    else (if effects[0].Appended? then effects[0].bytes else []) + FileOf(effects[1..])
  }

  /** The batches the effects publish, in order. */
  function BatchesOf(effects: seq<Effect>): seq<seq<IQSample>> {
    if effects == [] then []
    else (if effects[0].SamplesReceived? then [effects[0].batch] else []) + BatchesOf(effects[1..])
  }

  lemma {:induction false} FileOfAppend(a: seq<Effect>, b: seq<Effect>)
    ensures FileOf(a + b) == FileOf(a) + FileOf(b)
  {
    if a == [] {
      assert a + b == b;
    } else {
      assert (a + b)[1..] == a[1..] + b;
      FileOfAppend(a[1..], b);
    }
  }

  /** One datagram's pair of effects writes its bytes and publishes its batch. */
  lemma EffectsOfOneDatagram(bytes: seq<Byte>, batch: seq<IQSample>, rest: seq<Effect>)
    ensures FileOf([Appended(bytes), SamplesReceived(batch)] + rest) == bytes + FileOf(rest)
    ensures BatchesOf([Appended(bytes), SamplesReceived(batch)] + rest) == [batch] + BatchesOf(rest)
  {
    var e := [Appended(bytes), SamplesReceived(batch)] + rest;
    assert e[1..] == [SamplesReceived(batch)] + rest;
    assert e[1..][1..] == rest;
  }

  /**
   * Effects in which every aligned datagram contributes exactly one append of
   * its bytes, immediately followed by exactly one batch of its decoded samples.
   */
  predicate Paired(effects: seq<Effect>)
    decreases |effects|
  {
    effects == [] ||
    (|effects| >= 2 && effects[0].Appended? && |effects[0].bytes| % PacketSize == 0 &&
     effects[1] == SamplesReceived(Decode(effects[0].bytes)) && Paired(effects[2..]))
  }

  /** The concatenation of byte chunks. */
  function Flatten(chunks: seq<seq<Byte>>): seq<Byte> {
    if chunks == [] then [] else chunks[0] + Flatten(chunks[1..])
  }

  /** The packets that encode the batches, back to back. */
  function EncodeAll(batches: seq<seq<IQSample>>): seq<Byte> {
    if batches == [] then [] else Encode(batches[0]) + EncodeAll(batches[1..])
  }

  /** The payloads of the datagrams the loop takes before its first non-datagram arrival. */
  function Taken(socket: seq<Arrival>): (payloads: seq<seq<Byte>>)
    ensures |payloads| <= |socket|
    ensures forall k :: 0 <= k < |payloads| ==> socket[k] == Datagram(payloads[k])
    ensures |payloads| < |socket| ==> !socket[|payloads|].Datagram?
  {
    if socket == [] || !socket[0].Datagram? then [] else [socket[0].payload] + Taken(socket[1..])
  }

  /** The payloads whose length is a multiple of the record size, in order. */
  function Aligned(payloads: seq<seq<Byte>>): seq<seq<Byte>> {
    if payloads == [] then []
    else (if |payloads[0]| % PacketSize == 0 then [payloads[0]] else []) + Aligned(payloads[1..])
  }

  lemma TakenStep(socket: seq<Arrival>)
    requires socket != [] && socket[0].Datagram?
    ensures Taken(socket) == [socket[0].payload] + Taken(socket[1..])
  {
  }

  lemma AlignedStep(p: seq<Byte>, rest: seq<seq<Byte>>)
    ensures Aligned([p] + rest) == if |p| % PacketSize == 0 then [p] + Aligned(rest) else Aligned(rest)
  {
    assert ([p] + rest)[1..] == rest;
  }

  /** Every session pairs each append with the batch decoded from the same bytes. */
  lemma {:induction false} ReceivePaired(cancelled: bool, socket: seq<Arrival>)
    ensures Paired(Receive(cancelled, socket).effects)
    decreases |socket|
  {
    if !cancelled && socket != [] && socket[0].Datagram? {
      ReceivePaired(false, socket[1..]);
      var p := socket[0].payload;
      if |p| % PacketSize == 0 {
        var e := Receive(cancelled, socket).effects;
        assert e[2..] == Receive(false, socket[1..]).effects;
      }
    }
  }

  /** In paired effects, the file holds exactly the published samples, encoded. */
  lemma {:induction false} PairedFileEncodesBatches(effects: seq<Effect>)
    requires Paired(effects)
    ensures FileOf(effects) == EncodeAll(BatchesOf(effects))
    decreases |effects|
  {
    if effects != [] {
      var bytes, rest := effects[0].bytes, effects[2..];
      assert effects == [Appended(bytes), SamplesReceived(Decode(bytes))] + rest;
      EffectsOfOneDatagram(bytes, Decode(bytes), rest);
      PairedFileEncodesBatches(rest);
      EncodeDecode(bytes);
      assert ([Decode(bytes)] + BatchesOf(rest))[1..] == BatchesOf(rest);
    }
  }

  /**
   * The output file of a session equals the encoding of every batch it
   * published, in order: the file and the `SamplesReceived` stream agree.
   */
  lemma FileEncodesBatches(cancelled: bool, socket: seq<Arrival>)
    ensures FileOf(Receive(cancelled, socket).effects) == EncodeAll(BatchesOf(Receive(cancelled, socket).effects))
  {
    ReceivePaired(cancelled, socket);
    PairedFileEncodesBatches(Receive(cancelled, socket).effects);
  }

  /**
   * The output file is the concatenation of the aligned datagrams taken before
   * the loop ended, verbatim and in arrival order; nothing when cancelled at start.
   */
  lemma {:induction false} FileIsAlignedDatagrams(cancelled: bool, socket: seq<Arrival>)
    ensures FileOf(Receive(cancelled, socket).effects) == if cancelled then [] else Flatten(Aligned(Taken(socket)))
    decreases |socket|
  {
    if !cancelled && socket != [] && socket[0].Datagram? {
      var p, later := socket[0].payload, socket[1..];
      FileIsAlignedDatagrams(false, later);
      TakenStep(socket);
      AlignedStep(p, Taken(later));
      if |p| % PacketSize == 0 {
        EffectsOfOneDatagram(p, Decode(p), Receive(false, later).effects);
        assert Flatten([p] + Aligned(Taken(later))) == p + Flatten(Aligned(Taken(later))) by {
          assert ([p] + Aligned(Taken(later)))[1..] == Aligned(Taken(later));
        }
      }
    }
  }

  /**
   * One batch per aligned datagram taken, in order, each the decoding of that
   * datagram; misaligned datagrams publish nothing, and an empty datagram
   * (length 0 is a multiple of 4) publishes one empty batch.
   */
  lemma {:induction false} BatchesAreDecodedDatagrams(socket: seq<Arrival>)
    ensures BatchesOf(Receive(false, socket).effects) == DecodeEach(Aligned(Taken(socket)))
    decreases |socket|
  {
    if socket != [] && socket[0].Datagram? {
      var p := socket[0].payload;
      BatchesAreDecodedDatagrams(socket[1..]);
      assert Taken(socket)[1..] == Taken(socket[1..]);
      if |p| % PacketSize == 0 {
        EffectsOfOneDatagram(p, Decode(p), Receive(false, socket[1..]).effects);
        var aligned := Aligned(Taken(socket));
        assert aligned == [p] + Aligned(Taken(socket[1..]));
        assert aligned[1..] == Aligned(Taken(socket[1..]));
      }
    }
  }

  /** The decoding of each payload, in order. */
  function DecodeEach(payloads: seq<seq<Byte>>): (batches: seq<seq<IQSample>>)
    ensures |batches| == |payloads|
    ensures forall k :: 0 <= k < |payloads| ==> batches[k] == Decode(payloads[k])
  {
    if payloads == [] then [] else [Decode(payloads[0])] + DecodeEach(payloads[1..])
  }

  /** A datagram whose length is not a multiple of 4 changes nothing, wherever it arrives. */
  lemma {:induction false} MisalignedDatagramIgnored(
    cancelled: bool, before: seq<Arrival>, payload: seq<Byte>, after: seq<Arrival>)
    requires |payload| % PacketSize != 0
    ensures Receive(cancelled, before + [Datagram(payload)] + after) == Receive(cancelled, before + after)
    decreases |before|
  {
    if !cancelled {
      if before == [] {
        assert before + [Datagram(payload)] + after == [Datagram(payload)] + after;
        assert ([Datagram(payload)] + after)[1..] == after;
        assert before + after == after;
      } else {
        assert (before + [Datagram(payload)] + after)[1..] == before[1..] + [Datagram(payload)] + after;
        assert (before + after)[1..] == before[1..] + after;
        MisalignedDatagramIgnored(false, before[1..], payload, after);
      }
    }
  }

  /** The result a non-datagram arrival ends the loop with. */
  function Ending(a: Arrival): ConnectionResult
    requires !a.Datagram?
  {
    match a
    case StopBetweenDatagrams => Completed
    case StopDuringReceive => Cancelled
    case Failure(m) => ConnectionResult(false, Some(m))
  }

  /**
   * The result is decided by the first arrival that is not a datagram: no result
   * while only datagrams have arrived, "Receiving was cancelled." (success) for a
   * stop during a receive, "Receiving completed." (success) for a stop seen at the
   * loop head, and (false, message) for any other error.
   */
  lemma {:induction false} ResultIsFirstEnding(socket: seq<Arrival>)
    ensures var n := |Taken(socket)|;
      Receive(false, socket).result == if n == |socket| then None else Some(Ending(socket[n]))
    decreases |socket|
  {
    if socket != [] && socket[0].Datagram? {
      ResultIsFirstEnding(socket[1..]);
      assert |Taken(socket)| == 1 + |Taken(socket[1..])|;
    }
  }

  /** The scenario of the receiver's first test: two samples in one 8-byte datagram, then a stop. */
  lemma AlignedPacketScenario(stop: Arrival)
    requires stop == StopDuringReceive || stop == StopBetweenDatagrams
    ensures var samples := [IQSample(1, -1), IQSample(2, -2)];
      var session := Receive(false, [Datagram(Encode(samples)), stop]);
      FileOf(session.effects) == Encode(samples) && |Encode(samples)| == 8 &&
      BatchesOf(session.effects) == [samples] &&
      session.result.Some? && session.result.value.isSuccess
  {
    var samples := [IQSample(1, -1), IQSample(2, -2)];
    var socket := [Datagram(Encode(samples)), stop];
    DecodeEncode(samples);
    assert socket[1..] == [stop];
    assert Receive(false, socket).effects == [Appended(Encode(samples)), SamplesReceived(samples)] + [];
    EffectsOfOneDatagram(Encode(samples), samples, []);
  }

  /** A 5-byte datagram followed by a stop: nothing written, nothing published, cancelled. */
  lemma MisalignedPacketScenario()
    ensures var session := Receive(false, [Datagram([0, 0, 0, 0, 0]), StopDuringReceive]);
      session.effects == [] && session.result == Some(Cancelled)
  {
    var socket := [Datagram([0, 0, 0, 0, 0]), StopDuringReceive];
    assert socket[1..] == [StopDuringReceive];
  }

  class UdpDataReceiver {
    const udpPort: int
    /** `_cts != null`: set by the first start and never cleared. */
    var started: bool
    /** `_cts.IsCancellationRequested`. */
    var cancelRequested: bool
    /** The path `_fileStream` was created on, once a start opened it. */
    var outputPath: Option<string>
    /** The output file's contents. */
    var file: seq<Byte>
    /** Every side effect so far, in order. */
    var history: seq<Effect>
    /** Whether `Dispose` has disposed the socket. */
    var disposed: bool
    /** Whether `Dispose` has disposed `_cts`; the field is never cleared, so it stays non-null. */
    var tokenDisposed: bool

    ghost predicate Valid()
      reads this
    {
      (cancelRequested ==> started) &&
      (outputPath.Some? ==> started) &&
      (tokenDisposed ==> started && disposed) &&
      (outputPath.None? ==> file == [] && history == [])
    }

    /** What the loop receives: a disposed socket throws on the first receive. */
    static function Input(disposed: bool, socket: seq<Arrival>): seq<Arrival> {
      if disposed then [Failure(DisposedSocketMessage)] else socket
    }

    constructor(udpPort: int := DefaultUdpPort)
      ensures Valid() && this.udpPort == udpPort
      ensures !started && !cancelRequested && !disposed && !tokenDisposed && outputPath == None
      ensures file == [] && history == []
    {
      this.udpPort := udpPort;
      started, cancelRequested, disposed, tokenDisposed := false, false, false, false;
      outputPath := None;
      file, history := [], [];
    }

    /**
     * `StartReceivingAsync(outputFilePath, cancellationToken)`, where
     * `callerCancelled` is whether the caller's token is already cancelled and
     * `openFails` whether creating the output file throws. That exception
     * escapes (`threw`) after the token source was set, so every later start
     * is refused. On a disposed receiver the first receive throws.
     */
    method StartReceivingAsync(outputFilePath: string, callerCancelled: bool, openFails: bool, socket: seq<Arrival>)
      returns (threw: bool, result: Option<ConnectionResult>)
      requires Valid()
      modifies this
      ensures Valid() && started && disposed == old(disposed) && tokenDisposed == old(tokenDisposed)
      ensures threw ==> result == None
      ensures old(started) ==> !threw && result == Some(AlreadyStarted) && unchanged(this)
      ensures !old(started) && openFails ==>
        threw && cancelRequested == callerCancelled && outputPath == None && file == [] && history == []
      ensures !old(started) && !openFails ==>
        var session := Receive(callerCancelled, Input(disposed, socket));
        !threw && outputPath == Some(outputFilePath) &&
        history == session.effects && file == FileOf(history) && result == session.result &&
        (cancelRequested <==> result == Some(Completed) || result == Some(Cancelled))
    {
      if started {
        return false, Some(AlreadyStarted);
      }
      started := true;
      cancelRequested := callerCancelled;
      if openFails {
        return true, None;
      }
      outputPath := Some(outputFilePath);
      file, history := [], [];
      threw := false;
      result := ReceiveLoop(Input(disposed, socket));
    }

    /**
     * The receive loop of `StartReceivingAsync`, from its first loop-head check
     * on: the session `Receive` describes, with the token source cancelled
     * exactly when the loop ended by cancellation.
     */
    method ReceiveLoop(socket: seq<Arrival>) returns (result: Option<ConnectionResult>)
      requires Valid() && outputPath.Some? && !tokenDisposed && file == [] && history == []
      modifies this`cancelRequested, this`file, this`history
      ensures Valid()
      ensures var session := Receive(old(cancelRequested), socket);
        history == session.effects && file == FileOf(history) && result == session.result &&
        (cancelRequested <==> result == Some(Completed) || result == Some(Cancelled))
    {
      ghost var target := Receive(cancelRequested, socket);
      var rest := socket;
      while !cancelRequested
        invariant Valid() && started
        invariant file == FileOf(history)
        invariant !cancelRequested ==>
          target.effects == history + Receive(false, rest).effects &&
          target.result == Receive(false, rest).result
        invariant cancelRequested ==> target.effects == history && target.result == Some(Completed)
        decreases |rest|
      {
        if rest == [] {
          assert history + [] == history;
          return None;
        }
        ghost var before := history;
        var outcome := HandleArrival(rest[0]);
        ReceiveStep(rest);
        if outcome.Some? {
          assert history + [] == history;
          return outcome;
        }
        if !cancelRequested {
          assert target.effects == before + (DatagramEffects(rest[0].payload) + Receive(false, rest[1..]).effects);
        } else {
          assert before + [] == before;
        }
        rest := rest[1..];
      }
      return Some(Completed);
    }

    /**
     * One pass of the loop's `try` block for one arrival: a datagram is
     * handled and the loop goes on; a stop between datagrams cancels the token
     * source and the loop-head check then ends the loop; a stop during the
     * receive cancels it and ends with "Receiving was cancelled."; any other
     * error ends with a failure carrying its message.
     */
    method HandleArrival(arrival: Arrival) returns (outcome: Option<ConnectionResult>)
      requires Valid() && outputPath.Some? && !tokenDisposed && !cancelRequested && file == FileOf(history)
      modifies this`cancelRequested, this`file, this`history
      ensures Valid() && file == FileOf(history)
      ensures cancelRequested <==> arrival.StopBetweenDatagrams? || arrival.StopDuringReceive?
      ensures history == old(history) + (if arrival.Datagram? then DatagramEffects(arrival.payload) else [])
      ensures outcome == match arrival
        case StopDuringReceive => Some(Cancelled)
        case Failure(m) => Some(ConnectionResult(false, Some(m)))
        case _ => None
    {
      match arrival
      case StopBetweenDatagrams =>
        var _ := StopReceiving();
        outcome := None;
      case StopDuringReceive =>
        var _ := StopReceiving();
        outcome := Some(Cancelled);
      case Failure(m) =>
        outcome := Some(ConnectionResult(false, Some(m)));
      case Datagram(payload) =>
        HandleDatagram(payload);
        outcome := None;
    }

    /**
     * One pass of the loop body for a received datagram: a misaligned one is
     * skipped (`continue`); an aligned one is written to the file, decoded, and
     * its samples published.
     */
    method HandleDatagram(payload: seq<Byte>)
      requires file == FileOf(history)
      modifies this`file, this`history
      ensures file == FileOf(history)
      ensures history == old(history) + DatagramEffects(payload)
    {
      if |payload| % PacketSize != 0 {
        assert history + [] == history;
        return;
      }
      FileOfAppend(history, [Appended(payload)]);
      file := file + payload;
      history := history + [Appended(payload)];
      var buffer := new Byte[|payload|](k requires 0 <= k < |payload| => payload[k]);
      assert buffer[..] == payload;
      var samples := ParsePacket(buffer);
      FileOfAppend(history, [SamplesReceived(samples[..])]);
      history := history + [SamplesReceived(samples[..])];
    }

    /**
     * `StopReceiving()`: nothing before the first start; afterwards it cancels,
     * and cancelling again changes nothing. Once `Dispose` has disposed the
     * token source, `Cancel` throws `ObjectDisposedException` and nothing changes.
     */
    method StopReceiving() returns (threw: bool)
      requires Valid()
      modifies this`cancelRequested
      ensures Valid()
      ensures threw <==> tokenDisposed
      ensures threw ==> cancelRequested == old(cancelRequested)
      ensures !threw ==> cancelRequested == started
    {
      if !started {
        return false;
      }
      if tokenDisposed {
        return true;
      }
      cancelRequested := true;
      return false;
    }

    /**
     * `Dispose()`: stops receiving, then disposes the file, the token source (if
     * any) and the socket. A second `Dispose` after a start throws from
     * `StopReceiving` before disposing anything.
     */
    method Dispose() returns (threw: bool)
      requires Valid()
      modifies this`cancelRequested, this`disposed, this`tokenDisposed
      ensures Valid()
      ensures threw <==> old(tokenDisposed)
      ensures threw ==> cancelRequested == old(cancelRequested) && disposed && tokenDisposed
      ensures !threw ==> cancelRequested == started && disposed && tokenDisposed == started
    {
      threw := StopReceiving();
      if threw {
        return;
      }
      tokenDisposed := started;
      disposed := true;
    }

    /** Disposing a started receiver twice: the second call throws, and the receiver stays cancelled. */
    static method DisposeTwice(callerCancelled: bool, socket: seq<Arrival>) returns (first: bool, second: bool, cancelled: bool)
      ensures !first && second && cancelled
    {
      var receiver := new UdpDataReceiver();
      var _, _ := receiver.StartReceivingAsync("samples.dat", callerCancelled, false, socket);
      first := receiver.Dispose();
      second := receiver.Dispose();
      cancelled := receiver.cancelRequested;
    }

    /** A start whose file cannot be created leaves the receiver started: a retry is refused. */
    static method OpenFailureBlocksRestart(socket: seq<Arrival>) returns (threw: bool, retry: Option<ConnectionResult>)
      ensures threw && retry == Some(AlreadyStarted)
    {
      var receiver := new UdpDataReceiver();
      var first;
      threw, first := receiver.StartReceivingAsync("missing/samples.dat", false, true, socket);
      var again;
      again, retry := receiver.StartReceivingAsync("samples.dat", false, false, socket);
    }

    /** Starting a receiver that was disposed before its first start fails on the first receive. */
    static method StartAfterDispose(socket: seq<Arrival>) returns (result: Option<ConnectionResult>)
      ensures result == Some(ConnectionResult(false, Some(DisposedSocketMessage)))
    {
      var receiver := new UdpDataReceiver();
      var _ := receiver.Dispose();
      var threw;
      threw, result := receiver.StartReceivingAsync("samples.dat", false, false, socket);
    }

    /** `ParsePacket(buffer)`: a fresh array holding one sample per complete 4-byte record. */
    static method ParsePacket(buffer: array<Byte>) returns (samples: array<IQSample>)
      ensures fresh(samples)
      ensures samples.Length == buffer.Length / PacketSize
      ensures samples[..] == Decode(buffer[..])
    {
      var count := buffer.Length / PacketSize;
      samples := new IQSample[count];
      for i := 0 to count
        invariant forall k :: 0 <= k < i ==> samples[k] == RecordAt(buffer[..], PacketSize * k)
      {
        var iVal := ToInt16(buffer[i * PacketSize], buffer[i * PacketSize + 1]);
        var qVal := ToInt16(buffer[i * PacketSize + 2], buffer[i * PacketSize + 3]);
        samples[i] := IQSample(iVal, qVal);
      }
      DecodeRecords(buffer[..]);
    }
  }
}
