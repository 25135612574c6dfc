# NetSDR client core in Dafny

This project models the core of the NetSDR client and simulator. That core has five parts:

- **UDP sample receivers.** There are two. The current one (`NetSDR.Client.Udp.UdpDataReceiver`) and the legacy one (`NetSDR.Client.UdpDataReceiver`) both take datagrams of 4-byte I/Q records from a socket. Each writes the aligned datagrams to an output file and decodes the records into `IQSample`s. The current receiver publishes each datagram's samples as one `SamplesReceived` batch and ends with a `ConnectionResult`. The legacy receiver reports every pair and never ends on an error.
- **Packet format.** A record is a little-endian 16-bit I followed by a little-endian 16-bit Q (`BitConverter.ToInt16` / `GetBytes`). Decoding and encoding are proved to be inverses.
- **Value types.** `IQSample`, which includes the 32-bit radicand of its magnitude, and `ConnectionResult` with its text rendering.
- **The TCP command client** (`NetSdrClient`). It runs over an abstract `INetworkClient` transport:
  - connect and disconnect, each guarded by `IsConnected`;
  - the `START_IQ` / `STOP_IQ` and `SET_FREQUENCY <F2>` commands, sent as ASCII;
  - the `OnTransmissionStarted` notification;
  - reading the response and detecting `NAK` in it.

  Each call on the client appends the transport calls it makes to a `trace`, which the contracts describe.
- **The simulator service lifecycle** (`NetworkSimulatorServiceBase` and the default `Restart` of `INetworkSimulatorService`). A service is either stopped or running. `Start(-1)` selects the default port. `Stop` cancels the token and calls `StopInternal`. `Restart` is `Stop` followed by `Start(Port)`.

The receivers' sockets are modelled as finite sequences of arrivals: datagrams, stops and failures. Each receive loop is a `class` method whose `while` loop is proved against a recursive specification function (`UdpReceiver.Receive`, `LegacyUdpReceiver.Receive`). Lemmas then prove what the source promises about that function.

Files:

| file | what it models |
|---|---|
| `wrappers.dfy` | the `Option` datatype |
| `bit_converter.dfy` | `BitConverter.ToInt16` and `GetBytes` for `short` |
| `ascii.dfy` | `Encoding.ASCII.GetBytes` / `GetString` and ordinal `Contains` |
| `iq_sample.dfy` | `IQSample` |
| `connection_result.dfy` | `ConnectionResult` |
| `sample_packets.dfy` | the 4-byte record format |
| `udp_data_receiver.dfy` | the current receiver |
| `legacy_udp_data_receiver.dfy` | the legacy receiver |
| `netsdr_client.dfy` | F2 formatting and the TCP command client |
| `network_simulator_service.dfy` | the simulator lifecycle |

A client test expects a `SocketException` from `ConnectAsync` to reach the caller (`NetSdr.Client.Tests/NetSdrClientTest.cs:46-56`). The code catches and logs it (`NetSDR.Client/NetSdrClient.cs:70-73`). The model follows the code: a failed connect leaves the client disconnected and returns normally.

## Model

| member | source | states |
|---|---|---|
| BitConverter.ToInt16Bits | NetSDR.Client/Udp/UdpDataReceiver.cs:118-119 | `ToInt16(lo, hi)` reads two bytes as the little-endian bits of a 16-bit two's complement value: its bits are `lo + 256*hi`. |
| BitConverter.ToInt16 | NetSDR.Client/Udp/UdpDataReceiver.cs:118-119 | The value read is negative exactly when the sign bit, the top bit of the second byte, is set. |
| BitConverter.GetBytes | NetSdr.Client.Tests/Unit/Udp/UdpDataReceiverTests.cs:150-151 | Writing a `short` gives two bytes, low byte first, whose value is the 16-bit pattern of the integer. |
| BitConverter.ToInt16OfGetBytes | NetSdr.Client.Tests/Unit/Udp/UdpDataReceiverTests.cs:150-151 | Reading back the two bytes `GetBytes` wrote gives the original `short`. |
| BitConverter.GetBytesOfToInt16 | NetSDR.Client/Udp/UdpDataReceiver.cs:118-119 | Writing out the value `ToInt16` read gives back the same two bytes, so decoding loses nothing. |
| Ascii.GetBytes | NetSDR.Client/NetSdrClient.cs:113 | ASCII encoding writes one byte per character, and ASCII text encodes to bytes below 0x80. |
| Ascii.GetString | NetSDR.Client/NetSdrClient.cs:167 | ASCII decoding gives one character per byte. |
| Ascii.GetStringOfGetBytes | NetSDR.Client/NetSdrClient.cs:113 | ASCII text survives encoding followed by decoding. |
| Ascii.GetBytesOfGetString | NetSDR.Client/NetSdrClient.cs:167 | Bytes below 0x80 survive decoding followed by encoding. |
| Ascii.ContainsDecoded | NetSDR.Client/NetSdrClient.cs:167-169 | For an ASCII pattern without '?', the decoded text contains the pattern exactly when the raw bytes contain its encoding (both directions). |
| IQSamples.WrapInt32 | NetSDR.Client/Models/IQSample.cs:10 | C# `int` arithmetic wraps: the result is in the 32-bit range, congruent to the exact value mod 2^32, and equal to it when the exact value fits. |
| IQSamples.SquaredMagnitude | NetSDR.Client/Models/IQSample.cs:10 | The exact `I*I + Q*Q` is at most 2^31, and equals 2^31 only for (-32768, -32768). |
| IQSamples.Radicand | NetSDR.Client/Models/IQSample.cs:10 | The radicand as written stays in the 32-bit range. It is negative, so the magnitude is NaN, exactly for the sample (-32768, -32768). |
| IQSamples.RadicandExact | NetSDR.Client/Models/IQSample.cs:10 | The 32-bit radicand under `Math.Sqrt` equals the exact sum of squares exactly when the sample is not (-32768, -32768). |
| IQSamples.RadicandOverflowsAtMinimum | NetSDR.Client/Models/IQSample.cs:10 | For (-32768, -32768) the radicand wraps to -2^31, while the true sum of squares is 2^31. |
| IQSamples.RadicandOfThreeFour | NetSDR.Client.Tests/Unit/Models/IQSampleTests.cs:19-23 | The sample (3, 4) has radicand 25, so its magnitude is 5. |
| ConnectionResults.ConnectionResult.ToString | NetSDR.Client/Models/ConnectionResult.cs:8-9 | The text is "Success" exactly for a success. A failure renders as "Error: " followed by its message, or by "Unknown" when there is no message. |
| ConnectionResults.SuccessIgnoresMessage | NetSDR.Client/Models/ConnectionResult.cs:8-9 | Two successes render the same text, whatever their messages. |
| ConnectionResults.FailureRenderings | NetSDR.Client/Models/ConnectionResult.cs:8-9 | Two failures render the same text exactly when their messages agree, reading a missing message as "Unknown". |
| ConnectionResults.RenderingExamples | NetSDR.Client.Tests/Unit/Models/ConnectionResultTests.cs:10-43 | The message defaults to null; the renderings are "Success", "Error: Timeout", "Error: Connection lost" and "Error: Unknown". |
| SamplePackets.Decode | NetSDR.Client/Udp/UdpDataReceiver.cs:113-114 | `ParsePacket` yields `Length / 4` samples; trailing bytes of an incomplete record are ignored. |
| SamplePackets.DecodeRecords | NetSDR.Client/Udp/UdpDataReceiver.cs:116-121 | Sample k is read from bytes 4k..4k+1 (I) and 4k+2..4k+3 (Q). |
| SamplePackets.EncodeSample | NetSdr.Client.Tests/Unit/Udp/UdpDataReceiverTests.cs:150-151 | A sample's record is exactly 4 bytes. |
| SamplePackets.Encode | NetSdr.Client.Tests/Unit/Udp/UdpDataReceiverTests.cs:145-155 | The packet for n samples is 4n bytes. |
| SamplePackets.DecodeEncode | NetSdr.Client.Tests/Unit/Udp/UdpDataReceiverTests.cs:145-155 | Parsing a packet built from any samples gives those samples back. |
| SamplePackets.EncodeDecode | NetSDR.Client/Udp/UdpDataReceiver.cs:111-124 | An aligned buffer is the encoding of its parse, so parsing loses no bytes. |
| SamplePackets.EncodeAppend | NetSdr.Client.Tests/Unit/Udp/UdpDataReceiverTests.cs:145-155 | Encoding distributes over concatenation of sample runs. |
| SamplePackets.DecodeAppend | NetSDR.Client/Udp/UdpDataReceiver.cs:111-124 | Parsing distributes over concatenation when the first buffer is aligned. |
| SamplePackets.DecodeExtend | NetSDR.Client/UdpDataReceiver.cs:44-51 | Extending an aligned prefix by one record adds exactly that record's bytes and that record's sample. |
| UdpReceiver.ReceivePaired | NetSDR.Client/Udp/UdpDataReceiver.cs:59-62 | In every session, each append to the file is followed at once by one `SamplesReceived` batch decoded from the same bytes. |
| UdpReceiver.Receive | NetSDR.Client/Udp/UdpDataReceiver.cs:46-77 | The receive loop from its loop-head check on: the only successful results are "Receiving completed." and "Receiving was cancelled.". |
| UdpReceiver.FileEncodesBatches | NetSDR.Client/Udp/UdpDataReceiver.cs:59-62 | The output file equals the encoding of all published batches, in order. |
| UdpReceiver.FileIsAlignedDatagrams | NetSDR.Client/Udp/UdpDataReceiver.cs:44-64 | The file is created empty and ends up as the concatenation of the aligned datagrams received before the loop ended, in order. It stays empty when the caller's token was already cancelled. |
| UdpReceiver.BatchesAreDecodedDatagrams | NetSDR.Client/Udp/UdpDataReceiver.cs:53-62 | Exactly one batch is published per aligned datagram, in order, each the parse of that datagram. Misaligned datagrams publish nothing. |
| UdpReceiver.DecodeEach | NetSDR.Client/Udp/UdpDataReceiver.cs:60 | Batch k is the parse of payload k. |
| UdpReceiver.MisalignedDatagramIgnored | NetSDR.Client/Udp/UdpDataReceiver.cs:53-57 | Removing a misaligned datagram from anywhere in the input changes neither the effects nor the result. |
| UdpReceiver.ResultIsFirstEnding | NetSDR.Client/Udp/UdpDataReceiver.cs:48-77 | The first non-datagram decides the result: "Receiving completed." (success) for a stop seen at the loop head, "Receiving was cancelled." (success) for a stop during a receive, and (false, message) for an error. There is no result while only datagrams arrived. |
| UdpReceiver.AlignedPacketScenario | NetSdr.Client.Tests/Unit/Udp/UdpDataReceiverTests.cs:21-65 | An 8-byte packet of (1,-1),(2,-2) followed by a stop publishes that single batch, writes those 8 bytes and ends with a success. |
| UdpReceiver.MisalignedPacketScenario | NetSdr.Client.Tests/Unit/Udp/UdpDataReceiverTests.cs:67-99 | A 5-byte datagram followed by a stop writes and publishes nothing, and ends with "Receiving was cancelled.". |
| UdpReceiver.UdpDataReceiver.constructor | NetSDR.Client/Udp/UdpDataReceiver.cs:8-24 | A new receiver has the given port (60000 by default), has not started, has no file, and nothing is disposed. |
| UdpReceiver.UdpDataReceiver.StartReceivingAsync | NetSDR.Client/Udp/UdpDataReceiver.cs:36-78 | A second start returns (false, "Receiving is already started.") and changes nothing. A first start sets the token source. If the file cannot be created, the exception escapes with no result, the token source stays set and no file exists. Otherwise the file is created empty and the receiver runs the session `Receive` describes; on a disposed receiver the first receive fails. The token source is cancelled exactly when the result is "completed" or "cancelled". |
| UdpReceiver.UdpDataReceiver.ReceiveLoop | NetSDR.Client/Udp/UdpDataReceiver.cs:46-77 | The `while` loop produces exactly the effects and result of `Receive` from the current cancellation state, and keeps the file equal to the appended bytes. |
| UdpReceiver.UdpDataReceiver.HandleArrival | NetSDR.Client/Udp/UdpDataReceiver.cs:48-76 | One pass: a datagram adds its effects; a stop cancels the token source; a stop during the receive returns "cancelled"; any other error returns (false, message). |
| UdpReceiver.UdpDataReceiver.HandleDatagram | NetSDR.Client/Udp/UdpDataReceiver.cs:53-62 | A misaligned datagram changes nothing. An aligned one is appended to the file, then its parse is published. |
| UdpReceiver.UdpDataReceiver.StopReceiving | NetSDR.Client/Udp/UdpDataReceiver.cs:80-86 | Does nothing before the first start; afterwards it cancels, and repeating it changes nothing. Once `Dispose` has disposed the token source, `Cancel` throws and nothing changes. |
| UdpReceiver.UdpDataReceiver.Dispose | NetSDR.Client/Udp/UdpDataReceiver.cs:88-95 | Stops receiving, then disposes the token source (when there is one) and the socket. When the token source was already disposed, `StopReceiving` throws first and nothing changes. |
| UdpReceiver.UdpDataReceiver.ParsePacket | NetSDR.Client/Udp/UdpDataReceiver.cs:111-124 | The array loop fills a fresh array of `Length / 4` samples equal to `Decode` of the buffer. |
| UdpReceiver.UdpDataReceiver.DisposeTwice | NetSDR.Client/Udp/UdpDataReceiver.cs:88-95 | After a start, a first `Dispose` completes and a second throws; the receiver stays cancelled. |
| UdpReceiver.UdpDataReceiver.OpenFailureBlocksRestart | NetSDR.Client/Udp/UdpDataReceiver.cs:38-44 | A start whose file cannot be created throws and leaves the token source set, so a retry returns "Receiving is already started.". |
| UdpReceiver.UdpDataReceiver.StartAfterDispose | NetSDR.Client/Udp/UdpDataReceiver.cs:50 | A receiver disposed before its first start ends that start with a failure carrying the disposed socket's message. |
| LegacyUdpReceiver.ReportedIsDecodedFile | NetSDR.Client/UdpDataReceiver.cs:44-54 | The legacy file is aligned, and the pairs the loop reports are exactly the decoding of the file it writes. |
| LegacyUdpReceiver.Receive | NetSDR.Client/UdpDataReceiver.cs:30-60 | The legacy loop over the arrivals: the file holds exactly 4 bytes per reported pair. |
| LegacyUdpReceiver.FailureIgnored | NetSDR.Client/UdpDataReceiver.cs:56-59 | Removing a receive error from anywhere in the input changes neither the file, the reported pairs nor whether the loop ended. |
| LegacyUdpReceiver.MisalignedDatagramIgnored | NetSDR.Client/UdpDataReceiver.cs:38-42 | Removing a misaligned datagram from anywhere in the input changes nothing. |
| LegacyUdpReceiver.StopsOnlyOnStop | NetSDR.Client/UdpDataReceiver.cs:30 | The loop ends exactly when the input contains a `StopReceiving`; neither errors nor datagrams end it. |
| LegacyUdpReceiver.ClosedSocketDeliversNothing | NetSDR.Client/UdpDataReceiver.cs:63-67 | After `StopReceiving` has closed the socket, a restarted loop writes and reports nothing. |
| LegacyUdpReceiver.AgreesWithCurrentReceiver | NetSDR.Client/UdpDataReceiver.cs:30-60 | Without receive errors, the legacy and current receivers write the same file and decode the same samples, and the legacy loop ends exactly when the current one has a result. |
| LegacyUdpReceiver.AsCurrent | NetSDR.Client/UdpDataReceiver.cs:30-36 | The legacy input translates one-for-one into the current receiver's input. |
| LegacyUdpReceiver.LegacyUdpDataReceiver.constructor | NetSDR.Client/UdpDataReceiver.cs:5-16 | A new legacy receiver has the given port (60000 by default), is not receiving, and its socket is open. |
| LegacyUdpReceiver.LegacyUdpDataReceiver.StartReceiving | NetSDR.Client/UdpDataReceiver.cs:22-61 | Sets the flag with no already-started guard. If the file cannot be created, the exception escapes with the flag set and nothing else changed. Otherwise it recreates the file empty, then writes and reports exactly what `Receive` describes. The flag ends cleared and the socket closed exactly when a stop ended the loop. |
| LegacyUdpReceiver.LegacyUdpDataReceiver.WriteRecords | NetSDR.Client/UdpDataReceiver.cs:44-54 | The record loop appends the datagram's bytes to the file and reports its decoding, record by record. |
| LegacyUdpReceiver.LegacyUdpDataReceiver.StopReceiving | NetSDR.Client/UdpDataReceiver.cs:63-68 | Clears the flag and closes the socket. |
| LegacyUdpReceiver.LegacyUdpDataReceiver.Dispose | NetSDR.Client/UdpDataReceiver.cs:70-73 | Closes the socket without clearing the flag. |
| FixedPoint.NatToDecimal | NetSDR.Client/NetSdrClient.cs:146 | The integer part is a non-empty run of decimal digits. |
| FixedPoint.DecimalToNatOfNatToDecimal | NetSDR.Client/NetSdrClient.cs:146 | The decimal numeral reads back as its number. |
| FixedPoint.UnsignedF2 | NetSDR.Client/NetSdrClient.cs:146 | A non-negative "F2" text starts with a digit and has '.' third from the end. |
| FixedPoint.FormatF2 | NetSDR.Client/NetSdrClient.cs:146 | "F2" text has '.' third from the end, and starts with '-' exactly for negative values. |
| FixedPoint.FormatF2Chars | NetSDR.Client/NetSdrClient.cs:146 | "F2" text consists only of digits, '.' and '-'. |
| FixedPoint.ParseUnsignedF2OfUnsignedF2 | NetSDR.Client/NetSdrClient.cs:146 | Non-negative "F2" text parses back to its hundredths. |
| FixedPoint.ParseF2OfFormatF2 | NetSDR.Client/NetSdrClient.cs:146 | Any value's "F2" text parses back to that value, so distinct values give distinct commands. |
| NetSdr.Transport.Connect | NetSDR.Client/NetworkClient.cs:16-20 | Connect either completes and opens the stream, or throws and changes nothing. |
| NetSdr.Transport.Write | NetSDR.Client/NetworkClient.cs:22-27 | Write throws when not connected (`EnsureConnected`, lines 42-48). On success it sends exactly the slice `buffer[offset..offset+count]`. |
| NetSdr.Transport.Read | NetSDR.Client/NetworkClient.cs:29-34 | Read throws when not connected. Otherwise it copies at most `count` pending bytes into the buffer at `offset`, consumes them, and leaves the rest of the buffer alone. |
| NetSdr.Transport.Close | NetSDR.Client/NetworkClient.cs:36-40 | Close either completes and closes the stream, or throws and changes nothing. |
| NetSdr.Transport.Dispose | NetSDR.Client/NetworkClient.cs:50-54 | The stream is gone after `Dispose`. |
| NetSdr.CountAppend | NetSDR.Client/NetSdrClient.cs:110-122 | Step counts add up over concatenated traces. |
| NetSdr.RejectedBytes | NetSDR.Client/NetSdrClient.cs:167-169 | The decoded response contains "NAK" exactly when its bytes contain 0x4E 0x41 0x4B. |
| NetSdr.ResponseSteps | NetSDR.Client/NetSdrClient.cs:161-172 | Response handling is one read, first, followed by at most one NAK handling. |
| NetSdr.ResponseNak | NetSDR.Client/NetSdrClient.cs:165-172 | `HandleNak` runs exactly when the read returned bytes containing 0x4E 0x41 0x4B. |
| NetSdr.ResponseCount | NetSDR.Client/NetSdrClient.cs:161-182 | Response handling holds one read and one NAK handling exactly when rejected, and nothing else. |
| NetSdr.Exchange | NetSDR.Client/NetSdrClient.cs:110-122 | A command exchange starts with the write of the whole command from offset 0, and goes on exactly when the write completed. |
| NetSdr.ToggleCommand | NetSDR.Client/NetSdrClient.cs:112 | The command is "START_IQ" exactly for a start, and "STOP_IQ" otherwise. |
| NetSdr.FrequencyCommand | NetSDR.Client/NetSdrClient.cs:146 | The frequency command starts with "SET_FREQUENCY " and is followed by a value of at least four characters. |
| NetSdr.ExchangeCount | NetSDR.Client/NetSdrClient.cs:110-122 | The number of steps of each kind in a command exchange. |
| NetSdr.ExchangeCounts | NetSDR.Client/NetSdrClient.cs:110-122 | A command exchange makes exactly one write (the whole ASCII command, from offset 0) and a read exactly when the write completed. It makes no connect, close or dispose. It raises the notification exactly when asked and the write completed, and handles a NAK exactly when the bytes read contain "NAK". |
| NetSdr.NotificationBeforeRead | NetSDR.Client/NetSdrClient.cs:115-122 | `OnTransmissionStarted` is raised after the write and before the response is read. |
| NetSdr.CommandsAreAscii | NetSDR.Client/NetSdrClient.cs:112-113 | Every command is ASCII, so the bytes written decode back to the command text. |
| NetSdr.FrequencyCommandDetermined | NetSDR.Client/NetSdrClient.cs:146-147 | The frequency command is "SET_FREQUENCY " followed by text that parses back to the frequency. |
| NetSdr.FrequencyCommandExample | NetSdr.Client.Tests/NetSdrClientTest.cs:102-114 | 1000 Hz gives "SET_FREQUENCY 1000.00", and -1.5 Hz gives "SET_FREQUENCY -1.50". |
| NetSdr.NetSdrClient.constructor | NetSDR.Client/NetSdrClient.cs:38-46 | A new client keeps its host, port and transport, is not connected, and has made no call. |
| NetSdr.NetSdrClient.Create | NetSDR.Client/NetSdrClient.cs:38-46 | A null host is rejected. Otherwise the new client is not connected, has made no call and has no subscribers, and uses the given transport, or a new unconnected one when none is given. |
| NetSdr.NetSdrClient.Subscribe | NetSDR.Client/NetSdrClient.cs:26 | Subscribing adds one handler to `OnTransmissionStarted`. |
| NetSdr.NetSdrClient.ConnectAsync | NetSDR.Client/NetSdrClient.cs:52-78 | When already connected, no call is made. Otherwise there is one connect to the client's host and port, and the client is connected exactly when it completed, in which case the transport is connected too. A failed connect leaves the transport as it was. No bytes are sent or consumed. |
| NetSdr.NetSdrClient.Disconnect | NetSDR.Client/NetSdrClient.cs:80-100 | When not connected, no call is made. Otherwise there is one close, and the client is disconnected exactly when it completed, in which case the transport is closed too. A failed close leaves the transport as it was. No bytes are sent or consumed. |
| NetSdr.NetSdrClient.ToggleTransmissionAsync | NetSDR.Client/NetSdrClient.cs:102-134 | When not connected, nothing happens. Otherwise it performs the "START_IQ" or "STOP_IQ" exchange, notifying subscribers only on start. The command's bytes reach the transport exactly when the write completed, and the response is the prefix of the pending input the read consumed. |
| NetSdr.NetSdrClient.SetFrequencyAsync | NetSDR.Client/NetSdrClient.cs:136-159 | When not connected, nothing happens. Otherwise it performs the "SET_FREQUENCY <F2>" exchange, with no notification. The command's bytes reach the transport exactly when the write completed, and the response is the prefix of the pending input the read consumed. |
| NetSdr.NetSdrClient.SendCommand | NetSDR.Client/NetSdrClient.cs:110-122 | The shared command body adds exactly the `Exchange` steps to the trace. The transport's output grows by the command's bytes exactly when the write completed; the response is what the read consumed from the transport's input. |
| NetSdr.NetSdrClient.HandleResponseAsync | NetSDR.Client/NetSdrClient.cs:161-182 | One read into a fresh 1024-byte buffer: the response is the at most 1024 bytes consumed from the transport's pending input. NAK handling follows exactly when those bytes contain "NAK". A failed read consumes nothing and is absorbed. |
| NetSdr.NetSdrClient.HandleNak | NetSDR.Client/NetSdrClient.cs:208-213 | Records one NAK handling. |
| NetSdr.NetSdrClient.Dispose | NetSDR.Client/NetSdrClient.cs:215-218 | Disposes the transport and leaves `IsConnected` as it was. |
| NetSdr.UnconnectedClientMakesNoCalls | NetSdr.Client.Tests/NetSdrClientTest.cs:70-100 | On a default client that never connected, disconnect, toggle and set-frequency make no transport call, and the client stays disconnected. |
| Simulator.LifecycleKeepsConsistent | NetSDR.Simulator/Services/NetworkSimulatorServiceBase.cs:24-47 | Start, Stop and Restart keep "running exactly when a token source exists". |
| Simulator.StartSemantics | NetSDR.Simulator/Services/NetworkSimulatorServiceBase.cs:24-34 | Start on a running service changes nothing. Otherwise it runs on the given port (-1 selects the default) and launches one run, and a second Start is a no-op. |
| Simulator.StopSemantics | NetSDR.Simulator/Services/NetworkSimulatorServiceBase.cs:36-47 | Stop on a stopped service changes nothing. Otherwise it cancels the token, then calls `StopInternal`, clears the token source and keeps the port; Stop is idempotent. |
| Simulator.ChosenPort | NetSDR.Simulator/Services/NetworkSimulatorServiceBase.cs:28 | The port is the given one or the default, and it is the default exactly when -1 or the default itself was given. |
| Simulator.Started | NetSDR.Simulator/Services/NetworkSimulatorServiceBase.cs:24-34 | After `Start` the service runs. A running service is unchanged; a stopped one gets a token source and the chosen port. |
| Simulator.Stopped | NetSDR.Simulator/Services/NetworkSimulatorServiceBase.cs:36-47 | After `Stop` the service is stopped on the same port. A stopped service is unchanged; a running one loses its token source. |
| Simulator.Restarted | NetSDR.Simulator/Interfaces/INetworkSimulatorService.cs:17-21 | After `Restart` the service runs, with a token source, on the port chosen from its previous one. |
| Simulator.RestartSemantics | NetSDR.Simulator/Interfaces/INetworkSimulatorService.cs:17-21 | After Restart the service runs on its previous port. A never-started service, whose port is 0, restarts on port 0 rather than on its default port. |
| Simulator.NetworkSimulatorService.constructor | NetSDR.Simulator/Services/NetworkSimulatorServiceBase.cs:15-18 | A new service is stopped, on port 0, with no token source. |
| Simulator.NetworkSimulatorService.Start | NetSDR.Simulator/Services/NetworkSimulatorServiceBase.cs:24-34 | The new state and activity are those `Started` / `StartActivity` give. From stopped, the token source is fresh. |
| Simulator.NetworkSimulatorService.Stop | NetSDR.Simulator/Services/NetworkSimulatorServiceBase.cs:36-47 | The new state and activity are those `Stopped` / `StopActivity` give, and the old token source is cancelled. |
| Simulator.NetworkSimulatorService.StopInternal | NetSDR.Simulator/Services/NetworkSimulatorServiceBase.cs:50 | Records one call of the service's stop hook. |
| Simulator.NetworkSimulatorService.Restart | NetSDR.Simulator/Interfaces/INetworkSimulatorService.cs:17-21 | The new state is `Restarted`, and the activity is Stop's followed by Start's. |
| Simulator.RestartNeverStarted | NetSDR.Simulator/Interfaces/INetworkSimulatorService.cs:17-21 | Restarting a newly created service runs it on port 0. |
| Simulator.StartThenRestartDefaults | NetSDR.Simulator/Services/UdpSimulatorService.cs:17 | TCP and UDP services started with no argument run on 50000 and 50001 (TcpSimulatorService.cs:12), and restarting keeps those ports. |

## Left out

- Logging and console output are not modelled. The exception is the legacy receiver's "Received IQ data pair" lines, which are modelled as the `reported` sequence.
- Real sockets, files, threads and `Task.Run` are not modelled. The socket is a finite input sequence. The file is a byte sequence. A background run is an `Activity` entry.
- Time is not modelled. When the input runs out, the loop is taken to be still waiting (`None` / `false`).
- `UdpReceiver.UdpDataReceiver.DisposeAsync` is not modelled because it does what `Dispose` does, asynchronously.
- Concurrency is not modelled. In particular, a `StopReceiving` or a second `StartReceiving` that races a pass of the loop is not modelled. A stop is an arrival, seen either at the loop head or during a receive.
- The floating-point `Magnitude` and `Phase` are not modelled, because the model has no floating-point arithmetic. Only the 32-bit integer radicand is modelled.
- `NetSdr.NetSdrClient.SetFrequencyAsync`: the `double` frequency is modelled as an integer number of hundredths, so the rounding done by the "F2" format is not modelled. The text is modelled as written in the invariant culture; other cultures' decimal separators are not modelled.
- Failures in the current receiver (a receive error, or a file write that throws) are modelled as one `Failure` arrival before the pass writes anything. A write that fails after part of the bytes reached the file is not modelled.
- The legacy receiver's failed receives are modelled as `Failure` arrivals that change nothing. A write that fails midway through a datagram's records is not modelled.
- Exceptions thrown by `SamplesReceived` or `OnTransmissionStarted` subscribers are not modelled, because subscribers are code outside this model.
- `NetSdr.Transport` models `INetworkClient` (as `NetworkClient.cs` implements it) as a connection whose connect, close, write and read either complete or throw, nondeterministically. The `TcpClient` socket behind it, its timeouts and its cancellation tokens are not modelled.
- `NetSdr.NetSdrClient.Subscribe`: handlers are counted, not stored, so unsubscribing and the handlers' own effects are not modelled.
- `NetSdrTcpClient`, the simulator's TCP and UDP servers (`RunAsync` and their protocols), the console, web and WPF front ends, and dependency-injection registration are not part of this model.
- Socket binding and port conflicts are not modelled. The receivers keep their UDP port but never bind it.
- The text of the `ObjectDisposedException` a disposed `UdpClient` throws comes from the .NET runtime, not from this repository. The model uses the runtime's usual wording.
- A file that cannot be opened is modelled only as the `openFails` input of the two start methods. Why it fails (path, permissions, sharing) is not modelled.

## Findings

| source | as written | input that shows it | evidently intended | confidence | as-written member | corrected member |
|---|---|---|---|---|---|---|
| NetSDR.Client/Models/IQSample.cs:10 | `I * I + Q * Q` is computed in 32-bit `int` arithmetic before `Math.Sqrt` | `new IQSample(-32768, -32768)`: the sum 2^31 wraps to -2^31, so `Magnitude` is NaN rather than 46340.95 | the square root of the exact sum of squares (for example by widening to `long` or `double` first) | not executed | IQSamples.RadicandOverflowsAtMinimum | IQSamples.RadicandExact |
