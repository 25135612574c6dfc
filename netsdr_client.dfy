/**
 * Decimal text for the frequency command. `SetFrequencyAsync` renders its value
 * with the "F2" format: an optional '-', the integer part in decimal, '.', and
 * exactly two decimals. The value is modelled as a whole number of hundredths,
 * that is, as the value the format rounds to, written in the invariant culture.
 */
module FixedPoint {
  import opened Wrappers

  predicate IsDigit(c: char) {
    '0' <= c <= '9'
  }

  predicate AllDigits(s: string) {
    forall k :: 0 <= k < |s| ==> IsDigit(s[k])
  }

  function DigitChar(d: nat): (c: char)
    requires d < 10
    ensures IsDigit(c)
  {
    ('0' as int + d) as char
  }

  function DigitValue(c: char): (d: nat)
    requires IsDigit(c)
    ensures d < 10 && DigitChar(d) == c
  {
    c as int - '0' as int
  }

  /** The shortest decimal numeral of `n`. */
  function NatToDecimal(n: nat): (s: string)
    ensures |s| >= 1 && AllDigits(s)
  {
    if n < 10 then [DigitChar(n)] else NatToDecimal(n / 10) + [DigitChar(n % 10)]
  }

  /** The value of a numeral (the empty one is 0). */
  function DecimalToNat(s: string): nat
    requires AllDigits(s)
  {
    if s == [] then 0 else 10 * DecimalToNat(s[..|s| - 1]) + DigitValue(s[|s| - 1])
  }

  lemma {:induction false} DecimalToNatOfNatToDecimal(n: nat)
    ensures DecimalToNat(NatToDecimal(n)) == n
  {
    if n >= 10 {
      var s := NatToDecimal(n);
      assert s[..|s| - 1] == NatToDecimal(n / 10);
      DecimalToNatOfNatToDecimal(n / 10);
    }
  }

  /** `n` hundredths, n >= 0, in "F2" form. */
  function UnsignedF2(n: nat): (s: string)
    ensures |s| >= 4 && s[|s| - 3] == '.' && IsDigit(s[0])
  {
    NatToDecimal(n / 100) + "." + [DigitChar(n % 100 / 10), DigitChar(n % 10)]
  }

  /** `hundredths / 100` formatted with "F2". */
  function FormatF2(hundredths: int): (s: string)
    ensures |s| >= 4 && s[|s| - 3] == '.'
    ensures s[0] == '-' <==> hundredths < 0
  {
    if hundredths < 0 then "-" + UnsignedF2(-hundredths) else UnsignedF2(hundredths)
  }

  function ParseUnsignedF2(s: string): Option<nat> {
    if |s| < 4 || s[|s| - 3] != '.' || !AllDigits(s[..|s| - 3])
      || !IsDigit(s[|s| - 2]) || !IsDigit(s[|s| - 1])
    then None
    else Some(100 * DecimalToNat(s[..|s| - 3]) + 10 * DigitValue(s[|s| - 2]) + DigitValue(s[|s| - 1]))
  }

  /** Reads "F2" text back as hundredths. */
  function ParseF2(s: string): Option<int> {
    if |s| > 0 && s[0] == '-' then
      match ParseUnsignedF2(s[1..])
      case Some(v) => Some(-(v as int))
      case None => None
    else
      match ParseUnsignedF2(s)
      case Some(v) => Some(v)
      case None => None
  }

  /** "F2" text is made of digits, '.' and '-' only. */
  lemma FormatF2Chars(hundredths: int)
    ensures var f := FormatF2(hundredths);
      forall k :: 0 <= k < |f| ==> f[k] == '-' || f[k] == '.' || IsDigit(f[k])
  {
    var n := if hundredths < 0 then -hundredths else hundredths;
    var u := UnsignedF2(n);
    var whole := NatToDecimal(n / 100);
    assert u == whole + "." + u[|u| - 2..];
    assert forall k :: 0 <= k < |u| ==> u[k] == '.' || IsDigit(u[k]) by {
      forall k | 0 <= k < |u|
        ensures u[k] == '.' || IsDigit(u[k])
      {
        if k < |whole| {
          assert u[k] == whole[k];
        }
      }
    }
    if hundredths < 0 {
      var f := FormatF2(hundredths);
      assert forall k :: 1 <= k < |f| ==> f[k] == u[k - 1];
    }
  }

  lemma ParseUnsignedF2OfUnsignedF2(n: nat)
    ensures ParseUnsignedF2(UnsignedF2(n)) == Some(n)
  {
    var s := UnsignedF2(n);
    assert s[..|s| - 3] == NatToDecimal(n / 100);
    DecimalToNatOfNatToDecimal(n / 100);
    assert n % 100 == 10 * (n % 100 / 10) + n % 10;
  }

  /** Formatting loses nothing: distinct values give distinct texts. */
  lemma ParseF2OfFormatF2(hundredths: int)
    ensures ParseF2(FormatF2(hundredths)) == Some(hundredths)
  {
    if hundredths < 0 {
      var s := FormatF2(hundredths);
      assert s[1..] == UnsignedF2(-hundredths);
      ParseUnsignedF2OfUnsignedF2(-hundredths);
    } else {
      ParseUnsignedF2OfUnsignedF2(hundredths);
    }
  }
}

/**
 * The command-session client (`NetSDR.Client.NetSdrClient`) over an abstract
 * network transport. The transport's connect, write, read and close either
 * complete or throw, which here is chosen nondeterministically; the client
 * records every call it makes, with its outcome, in `trace`, together with the
 * points where it raises `OnTransmissionStarted` and handles a NAK.
 */
module NetSdr {
  import opened Wrappers
  import BitConverter
  import opened Ascii
  import opened FixedPoint

  type Byte = BitConverter.Byte

  const DefaultTcpPort: int := 50000
  const DefaultAddress: string := "127.0.0.1"
  const Nak: string := "NAK"
  const ResponseBufferSize: nat := 1024

  const StartCommand: string := "START_IQ"
  const StopCommand: string := "STOP_IQ"
  const FrequencyPrefix: string := "SET_FREQUENCY "

  /** `INetworkClient`: the connection the client talks through. */
  class Transport {
    /** Whether a stream is open (the socket wrapper's "not connected" guard reads this). */
    var connected: bool
    /** Bytes sent to the peer, in order. */
    var outbound: seq<Byte>
    /** Bytes the peer has sent that are not read yet. */
    var inbound: seq<Byte>

    constructor()
      ensures !connected && outbound == [] && inbound == []
    {
      connected, outbound, inbound := false, [], [];
    }

    /** `ConnectAsync(host, port)`: completes (`ok`) and opens a stream, or throws. */
    method Connect(host: string, port: int) returns (ok: bool)
      modifies this`connected
      ensures ok ==> connected
      ensures !ok ==> connected == old(connected)
    {
      ok :| true;
      if ok {
        connected := true;
      }
    }

    /** `WriteAsync(buffer, offset, count)`: sends the slice, or throws; it always throws when not connected. */
    method Write(buffer: array<Byte>, offset: nat, count: nat) returns (ok: bool)
      requires offset + count <= buffer.Length
      modifies this`outbound
      ensures ok ==> old(connected) && outbound == old(outbound) + buffer[offset..offset + count]
      ensures !ok ==> outbound == old(outbound)
    {
      ok :| true;
      ok := ok && connected;
      if ok {
        outbound := outbound + buffer[offset..offset + count];
      }
    }

    /**
     * `ReadAsync(buffer, offset, count)`: copies between 0 and `count` of the
     * pending bytes into the buffer at `offset` and returns how many, or throws;
     * it always throws when not connected.
     */
    method Read(buffer: array<Byte>, offset: nat, count: nat) returns (bytesRead: Option<nat>)
      requires offset + count <= buffer.Length
      modifies this`inbound, buffer
      ensures bytesRead.Some? ==>
        var n := bytesRead.value;
        old(connected) && n <= count && n <= |old(inbound)| &&
        buffer[offset..offset + n] == old(inbound)[..n] && inbound == old(inbound)[n..] &&
        buffer[..offset] == old(buffer[..offset]) && buffer[offset + n..] == old(buffer[offset + n..])
      ensures bytesRead.None? ==> inbound == old(inbound) && buffer[..] == old(buffer[..])
    {
      var ok: bool :| true;
      if !ok || !connected {
        return None;
      }
      var pending := inbound;
      var n: nat :| n <= count && n <= |pending|;
      for k := 0 to n
        invariant inbound == pending
        invariant buffer[offset..offset + k] == pending[..k]
        invariant buffer[..offset] == old(buffer[..offset])
        invariant buffer[offset + k..] == old(buffer[offset + k..])
      {
        buffer[offset + k] := pending[k];
        assert buffer[offset..offset + k + 1] == buffer[offset..offset + k] + [pending[k]];
      }
      inbound := pending[n..];
      return Some(n);
    }

    /** `Close()`: closes the stream, or throws. */
    method Close() returns (ok: bool)
      modifies this`connected
      ensures ok ==> !connected
      ensures !ok ==> connected == old(connected)
    {
      ok :| true;
      if ok {
        connected := false;
      }
    }

    /** `Dispose()`. */
    method Dispose()
      modifies this`connected
      ensures !connected
    {
      connected := false;
    }
  }

  /** One observable step of the client. */
  datatype Step =
    | ConnectCall(host: string, port: int, ok: bool)
    | WriteCall(bytes: seq<Byte>, offset: nat, count: nat, ok: bool)
      /** A read into a buffer of `capacity` bytes: the bytes read, or `None` when it threw. */
    | ReadCall(capacity: nat, response: Option<seq<Byte>>)
    | CloseCall(ok: bool)
    | DisposeCall
      /** `OnTransmissionStarted` is raised. */
    | TransmissionStarted
      /** `HandleNak` runs. */
    | NakHandled
  {
    function Kind(): StepKind {
      match this
      case ConnectCall(_, _, _) => Connecting
      case WriteCall(_, _, _, _) => Writing
      case ReadCall(_, _) => Reading
      case CloseCall(_) => Closing
      case DisposeCall => Disposing
      case TransmissionStarted => Notifying
      case NakHandled => Rejecting
    }
  }

  datatype StepKind = Connecting | Writing | Reading | Closing | Disposing | Notifying | Rejecting

  /** How many steps of `steps` are of kind `kind`. */
  function Count(steps: seq<Step>, kind: StepKind): nat {
    if steps == [] then 0
    else (if steps[0].Kind() == kind then 1 else 0) + Count(steps[1..], kind)
  }

  lemma {:induction false} CountAppend(a: seq<Step>, b: seq<Step>, kind: StepKind)
    ensures Count(a + b, kind) == Count(a, kind) + Count(b, kind)
  {
    if a == [] {
      assert a + b == b;
    } else {
      assert (a + b)[1..] == a[1..] + b;
      CountAppend(a[1..], b, kind);
    }
  }

  lemma CountOne(step: Step, kind: StepKind)
    ensures Count([step], kind) == if step.Kind() == kind then 1 else 0
  {
    assert [step][1..] == [];
  }

  /** The response contains "NAK": searched as ASCII text, as the client does. */
  predicate Rejected(response: seq<Byte>) {
    Contains(GetString(response), Nak)
  }

  /**
   * The ASCII decoding of the response contains "NAK" exactly when its raw
   * bytes contain 'N', 'A', 'K'; bytes above 127 decode to '?' and cannot fake
   * a match.
   */
  lemma RejectedBytes(response: seq<Byte>)
    ensures Rejected(response) <==> ContainsBytes(response, [0x4E, 0x41, 0x4B])
  {
    ContainsDecoded(response, Nak);
    assert GetBytes(Nak) == [0x4E, 0x41, 0x4B];
  }

  /** `HandleResponseAsync`: one read into a fresh 1024-byte buffer, then `HandleNak` when rejected. */
  function ResponseSteps(response: Option<seq<Byte>>): (steps: seq<Step>)
    ensures 1 <= |steps| <= 2 && steps[0] == ReadCall(ResponseBufferSize, response)
  {
    [ReadCall(ResponseBufferSize, response)]
      + (if response.Some? && Rejected(response.value) then [NakHandled] else [])
  }

  /** `HandleNak` runs exactly when the read returned bytes containing 'N', 'A', 'K'. */
  lemma ResponseNak(response: Option<seq<Byte>>)
    ensures NakHandled in ResponseSteps(response) <==> response.Some? && ContainsBytes(response.value, [0x4E, 0x41, 0x4B])
  {
    if response.Some? {
      RejectedBytes(response.value);
    }
  }

  /**
   * A command on a connected client: the write of the command's whole ASCII
   * encoding, then, only when it completed, the notification (if `notify`) and
   * the response handling.
   */
  function Exchange(command: string, notify: bool, wrote: bool, response: Option<seq<Byte>>): (e: seq<Step>)
    ensures |e| >= 1 && e[0] == WriteCall(GetBytes(command), 0, |command|, wrote)
    ensures |e| > 1 <==> wrote
  {
    var bytes := GetBytes(command);
    [WriteCall(bytes, 0, |bytes|, wrote)]
      + (if wrote then (if notify then [TransmissionStarted] else []) + ResponseSteps(response) else [])
  }

  /**
   * What a command exchange does to the transport's byte streams: the
   * command's bytes are sent exactly when the write completed, and a response
   * is the prefix of the pending input that the read consumed, at most one
   * buffer's worth, read only after a completed write.
   */
  predicate Streams(sent: seq<Byte>, wrote: bool, response: Option<seq<Byte>>,
                    outbound0: seq<Byte>, inbound0: seq<Byte>, outbound: seq<Byte>, inbound: seq<Byte>)
  {
    outbound == (if wrote then outbound0 + sent else outbound0) &&
    (response.Some? ==> wrote && |response.value| <= ResponseBufferSize && inbound0 == response.value + inbound) &&
    (response.None? ==> inbound == inbound0)
  }

  function ToggleCommand(start: bool): (c: string)
    ensures c == StartCommand <==> start
    ensures c == StartCommand || c == StopCommand
  {
    if start then StartCommand else StopCommand
  }

  function FrequencyCommand(hundredths: int): (c: string)
    ensures |c| >= |FrequencyPrefix| + 4 && c[..|FrequencyPrefix|] == FrequencyPrefix
  {
    FrequencyPrefix + FormatF2(hundredths)
  }

  /**
   * What a command exchange does: exactly one write, of the command's bytes from
   * offset 0; a read exactly when the write completed; no connect, close or
   * dispose; a notification exactly when `notify` and the write completed; a
   * NAK handled exactly when a read returned bytes containing "NAK".
   */
  lemma ExchangeCounts(command: string, notify: bool, wrote: bool, response: Option<seq<Byte>>)
    ensures var e := Exchange(command, notify, wrote, response);
      Count(e, Writing) == 1 &&
      e[0] == WriteCall(GetBytes(command), 0, |command|, wrote) &&
      Count(e, Reading) == (if wrote then 1 else 0) &&
      Count(e, Connecting) == 0 && Count(e, Closing) == 0 && Count(e, Disposing) == 0 &&
      Count(e, Notifying) == (if notify && wrote then 1 else 0) &&
      Count(e, Rejecting) == (if wrote && response.Some? && Rejected(response.value) then 1 else 0)
  {
    ExchangeCount(command, notify, wrote, response, Writing);
    ExchangeCount(command, notify, wrote, response, Reading);
    ExchangeCount(command, notify, wrote, response, Connecting);
    ExchangeCount(command, notify, wrote, response, Closing);
    ExchangeCount(command, notify, wrote, response, Disposing);
    ExchangeCount(command, notify, wrote, response, Notifying);
    ExchangeCount(command, notify, wrote, response, Rejecting);
  }

  /** How many steps of one kind an exchange holds. */
  lemma ExchangeCount(command: string, notify: bool, wrote: bool, response: Option<seq<Byte>>, kind: StepKind)
    ensures Count(Exchange(command, notify, wrote, response), kind) ==
      (if kind == Writing then 1 else 0) +
      (if wrote && kind == Reading then 1 else 0) +
      (if wrote && notify && kind == Notifying then 1 else 0) +
      (if wrote && response.Some? && Rejected(response.value) && kind == Rejecting then 1 else 0)
  {
    var bytes := GetBytes(command);
    var write := WriteCall(bytes, 0, |bytes|, wrote);
    CountOne(write, kind);
    if wrote {
      var note: seq<Step> := if notify then [TransmissionStarted] else [];
      var tail := note + ResponseSteps(response);
      assert Exchange(command, notify, wrote, response) == [write] + tail;
      CountAppend([write], tail, kind);
      CountAppend(note, ResponseSteps(response), kind);
      if notify {
        CountOne(TransmissionStarted, kind);
      }
      ResponseCount(response, kind);
    } else {
      assert Exchange(command, notify, wrote, response) == [write];
    }
  }

  /** How many steps of one kind the response handling holds. */
  lemma ResponseCount(response: Option<seq<Byte>>, kind: StepKind)
    ensures Count(ResponseSteps(response), kind) ==
      (if kind == Reading then 1 else 0) +
      (if response.Some? && Rejected(response.value) && kind == Rejecting then 1 else 0)
  {
    var read := [ReadCall(ResponseBufferSize, response)];
    var nak: seq<Step> := if response.Some? && Rejected(response.value) then [NakHandled] else [];
    CountAppend(read, nak, kind);
    CountOne(read[0], kind);
    if nak != [] {
      CountOne(NakHandled, kind);
    }
  }

  /** The notification comes after the write and before the response is read. */
  lemma NotificationBeforeRead(command: string, notify: bool, wrote: bool, response: Option<seq<Byte>>)
    ensures var e := Exchange(command, notify, wrote, response);
      forall i, j :: 0 <= i < |e| && 0 <= j < |e| && e[i] == TransmissionStarted && e[j].ReadCall? ==>
        e[0].WriteCall? && 0 < i < j
  {
  }

  /** The commands are plain ASCII, so the bytes written decode back to the command text. */
  lemma CommandsAreAscii(start: bool, hundredths: int)
    ensures IsAscii(ToggleCommand(start)) && GetString(GetBytes(ToggleCommand(start))) == ToggleCommand(start)
    ensures IsAscii(FrequencyCommand(hundredths))
    ensures GetString(GetBytes(FrequencyCommand(hundredths))) == FrequencyCommand(hundredths)
  {
    FormatF2Chars(hundredths);
    AsciiConcat(FrequencyPrefix, FormatF2(hundredths));
    GetStringOfGetBytes(FrequencyCommand(hundredths));
  }

  /** The frequency command determines the frequency: the value can be read back from it. */
  lemma FrequencyCommandDetermined(hundredths: int)
    ensures var c := FrequencyCommand(hundredths);
      c[..|FrequencyPrefix|] == FrequencyPrefix && ParseF2(c[|FrequencyPrefix|..]) == Some(hundredths)
  {
    var c := FrequencyCommand(hundredths);
    assert c[|FrequencyPrefix|..] == FormatF2(hundredths);
    ParseF2OfFormatF2(hundredths);
  }

  /** The command for 1000 Hz, as the client's tests expect it. */
  lemma FrequencyCommandExample()
    ensures FrequencyCommand(100000) == "SET_FREQUENCY 1000.00"
    ensures FrequencyCommand(-150) == "SET_FREQUENCY -1.50"
  {
    assert NatToDecimal(10) == "10";
    assert NatToDecimal(100) == "100";
    assert NatToDecimal(1000) == "1000";
    assert UnsignedF2(100000) == "1000.00";
    assert UnsignedF2(150) == "1.50";
  }

  class NetSdrClient {
    const host: string
    const tcpPort: int
    const transport: Transport
    /** `IsConnected`. */
    var isConnected: bool
    /** How many handlers are subscribed to `OnTransmissionStarted`. */
    var listeners: nat
    /** Every transport call, notification and NAK handling so far, in order. */
    var trace: seq<Step>

    constructor(host: string, tcpPort: int, transport: Transport)
      ensures this.host == host && this.tcpPort == tcpPort && this.transport == transport
      ensures !isConnected && listeners == 0 && trace == []
    {
      this.host, this.tcpPort, this.transport := host, tcpPort, transport;
      isConnected, listeners, trace := false, 0, [];
    }

    /**
     * `new NetSdrClient(host, tcpPort, networkClient)`: a null host is rejected
     * (`None`); a missing transport is replaced by a new one.
     */
    static method Create(host: Option<string> := Some(DefaultAddress), tcpPort: int := DefaultTcpPort,
                         networkClient: Option<Transport> := None)
      returns (client: Option<NetSdrClient>)
      ensures client.Some? <==> host.Some?
      ensures client.Some? ==>
        var c := client.value;
        fresh(c) && c.host == host.value && c.tcpPort == tcpPort && !c.isConnected && c.trace == [] &&
        c.listeners == 0 &&
        (networkClient.Some? ==> c.transport == networkClient.value) &&
        (networkClient.None? ==> fresh(c.transport) && !c.transport.connected)
    {
      if host.None? {
        return None;
      }
      var transport: Transport;
      if networkClient.Some? {
        transport := networkClient.value;
      } else {
        transport := new Transport();
      }
      var c := new NetSdrClient(host.value, tcpPort, transport);
      return Some(c);
    }

    /** `OnTransmissionStarted += handler`. */
    method Subscribe()
      modifies this`listeners
      ensures listeners == old(listeners) + 1
    {
      listeners := listeners + 1;
    }

    /**
     * `ConnectAsync()`: when already connected, nothing happens; otherwise one
     * transport connect to the client's host and port, and the client is
     * connected exactly when it completed.
     */
    method ConnectAsync()
      modifies this`isConnected, this`trace, transport
      ensures old(isConnected) ==> isConnected && trace == old(trace)
      ensures !old(isConnected) ==> trace == old(trace) + [ConnectCall(host, tcpPort, isConnected)]
      ensures !old(isConnected) && isConnected ==> transport.connected
      ensures !isConnected || old(isConnected) ==> transport.connected == old(transport.connected)
      ensures transport.outbound == old(transport.outbound) && transport.inbound == old(transport.inbound)
    {
      if isConnected {
        return;
      }
      var ok := transport.Connect(host, tcpPort);
      trace := trace + [ConnectCall(host, tcpPort, ok)];
      if ok {
        isConnected := true;
      }
    }

    /**
     * `Disconnect()`: when not connected, nothing happens; otherwise one close,
     * and the client is disconnected exactly when the close completed.
     */
    method Disconnect()
      modifies this`isConnected, this`trace, transport
      ensures !old(isConnected) ==> !isConnected && trace == old(trace)
      ensures old(isConnected) ==> trace == old(trace) + [CloseCall(!isConnected)]
      ensures old(isConnected) && !isConnected ==> !transport.connected
      ensures isConnected || !old(isConnected) ==> transport.connected == old(transport.connected)
      ensures transport.outbound == old(transport.outbound) && transport.inbound == old(transport.inbound)
    {
      if !isConnected {
        return;
      }
      var ok := transport.Close();
      trace := trace + [CloseCall(ok)];
      if ok {
        isConnected := false;
      }
    }

    /**
     * `ToggleTransmissionAsync(start)`: when not connected, nothing happens;
     * otherwise the exchange of "START_IQ" or "STOP_IQ", notifying the
     * subscribers only for a start.
     */
    method ToggleTransmissionAsync(start: bool) returns (ghost wrote: bool, ghost response: Option<seq<Byte>>)
      modifies this`trace, transport
      ensures !old(isConnected) ==> trace == old(trace) && !wrote && response == None
      ensures old(isConnected) ==>
        trace == old(trace) + Exchange(ToggleCommand(start), start && listeners > 0, wrote, response)
      ensures wrote ==> old(transport.connected)
      ensures transport.connected == old(transport.connected)
      ensures Streams(GetBytes(ToggleCommand(start)), wrote, response,
        old(transport.outbound), old(transport.inbound), transport.outbound, transport.inbound)
    {
      wrote, response := false, None;
      if !isConnected {
        return;
      }
      wrote, response := SendCommand(ToggleCommand(start), start);
    }

    /**
     * `SetFrequencyAsync(frequency)`, the frequency given in hundredths of a
     * hertz: when not connected, nothing happens; otherwise the exchange of
     * "SET_FREQUENCY " and the value with two decimals.
     */
    method SetFrequencyAsync(hundredths: int) returns (ghost wrote: bool, ghost response: Option<seq<Byte>>)
      modifies this`trace, transport
      ensures !old(isConnected) ==> trace == old(trace) && !wrote && response == None
      ensures old(isConnected) ==> trace == old(trace) + Exchange(FrequencyCommand(hundredths), false, wrote, response)
      ensures wrote ==> old(transport.connected)
      ensures transport.connected == old(transport.connected)
      ensures Streams(GetBytes(FrequencyCommand(hundredths)), wrote, response,
        old(transport.outbound), old(transport.inbound), transport.outbound, transport.inbound)
    {
      wrote, response := false, None;
      if !isConnected {
        return;
      }
      wrote, response := SendCommand(FrequencyCommand(hundredths), false);
    }

    /** The body shared by both commands: write, raise the event if asked, handle the response. */
    method SendCommand(command: string, raise: bool) returns (ghost wrote: bool, ghost response: Option<seq<Byte>>)
      modifies this`trace, transport
      ensures trace == old(trace) + Exchange(command, raise && listeners > 0, wrote, response)
      ensures wrote ==> old(transport.connected)
      ensures transport.connected == old(transport.connected)
      ensures Streams(GetBytes(command), wrote, response,
        old(transport.outbound), old(transport.inbound), transport.outbound, transport.inbound)
    {
      var bytes := GetBytes(command);
      var buffer := new Byte[|bytes|](k requires 0 <= k < |bytes| => bytes[k]);
      assert buffer[0..|bytes|] == bytes;
      var ok := transport.Write(buffer, 0, buffer.Length);
      trace := trace + [WriteCall(bytes, 0, |bytes|, ok)];
      wrote, response := ok, None;
      if !ok {
        return;
      }
      if raise && listeners > 0 {
        trace := trace + [TransmissionStarted];
      }
      response := HandleResponseAsync();
    }

    /** `HandleResponseAsync()`: read once into a fresh buffer; handle a NAK found in the bytes read. */
    method HandleResponseAsync() returns (ghost response: Option<seq<Byte>>)
      modifies this`trace, transport
      ensures trace == old(trace) + ResponseSteps(response)
      ensures response.Some? ==>
        old(transport.connected) && |response.value| <= ResponseBufferSize &&
        old(transport.inbound) == response.value + transport.inbound
      ensures response.None? ==> transport.inbound == old(transport.inbound)
      ensures transport.outbound == old(transport.outbound) && transport.connected == old(transport.connected)
    {
      var buffer := new Byte[ResponseBufferSize](_ => 0);
      var bytesRead := transport.Read(buffer, 0, buffer.Length);
      if bytesRead.None? {
        response := None;
        trace := trace + [ReadCall(ResponseBufferSize, None)];
        return;
      }
      var received := buffer[..bytesRead.value];
      assert received == buffer[0..bytesRead.value];
      response := Some(received);
      trace := trace + [ReadCall(ResponseBufferSize, Some(received))];
      if Contains(GetString(received), Nak) {
        HandleNak();
      }
    }

    /** `HandleNak()`. */
    method HandleNak()
      modifies this`trace
      ensures trace == old(trace) + [NakHandled]
    {
      trace := trace + [NakHandled];
    }

    /** `Dispose()`: disposes the transport; `isConnected` is left as it was. */
    method Dispose()
      modifies this`trace, transport`connected
      ensures trace == old(trace) + [DisposeCall] && !transport.connected
    {
      transport.Dispose();
      trace := trace + [DisposeCall];
    }
  }

  /**
   * A client created with the defaults that never connected: disconnecting,
   * toggling and setting the frequency make no transport call and raise nothing.
   */
  method UnconnectedClientMakesNoCalls(start: bool, hundredths: int) returns (steps: seq<Step>, connected: bool)
    ensures steps == [] && !connected
  {
    var created := NetSdrClient.Create();
    var client := created.value;
    client.Subscribe();
    client.Disconnect();
    ghost var wrote, response := client.ToggleTransmissionAsync(start);
    wrote, response := client.SetFrequencyAsync(hundredths);
    steps, connected := client.trace, client.isConnected;
  }
}
