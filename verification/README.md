# A verified model of the Modbus TCP/RTU stack

This project models the protocol logic of a Modbus stack written in C: the CRC-16 and the
resynchronising frame extraction of the RTU server, the PDU codec and dispatcher that all four
endpoints share, the RTU and TCP clients and servers, the shared-bus registry and locking of the
RTU client, and the client slots of the TCP server loop.  `dafny verify dfyconfig.toml` checks
all of it.

Code that fills buffers, updates a context or loops over reads is a class or a method here, with
arrays where the C code has them, and is proved equal to a function on values.  The theorems are
about those functions.  What the operating system does is an input:

* `Transport.Input` is what a serial line or socket will deliver: all bytes that will ever
  arrive, and a schedule that says how each read is cut short, interrupted, refused, ended or
  failed.  Every theorem holds for all schedules unless it says "clean" (reads are only cut or
  interrupted) or "working" (no read error).
* A TCP client also has the outcomes of its waits for a first byte (`TcpClient.Socket.waits`).
* An `ExactSend.Sending` says how `mb_tcp_send_all` or `write_all` ends: with 0, which means that
  the whole buffer went out, or with an error after a first part of it (or all of it, if only
  `tcdrain` fails).  `RtuServer.Transmission` adds what the line brings back meanwhile.
* Polls and bus operations take the monotonic clock as an argument or a step.
* The application's callbacks are one function from a state and a call to the next state, a
  return code and output (`Dispatch.Handlers`).

## Main results

* **CRC.**  The byte loop is the bit-serial remainder by the generator polynomial; a frame is
  accepted exactly when the CRC over all of it is zero; every change within 16 consecutive bits
  in transmission order and every odd number of flipped bits is detected, at any length.
* **RTU framing.**  Over every run of polls, however the stream is cut, the log of dropped bytes
  and frames followed by a scan of the buffer is the scan of the whole stream by a simple
  recursive scanner (restarting where the assembly timeout threw bytes away).  Without such a
  timeout, as many polls as the line has bytes, schedule events and frames, and one more,
  extract exactly the scanner's frames.
  Every frame extracted is a request of the announced length with a valid checksum, no such
  request starts at a dropped byte, and only bytes that can still become one are kept.
* **Bytes and codes.**  What a server answers to every request PDU, which responses a client
  takes, and what every return code of both clients says is stated for all bytes and in numbers
  (`PduBytes`, `RtuBytes`, `TcpBytes`, `RtuFrameSpec`, `CrcNumbers`), apart from the functions
  that the other theorems use.
* **Transparency.**  For every in-range client call, over RTU or TCP and however the bytes are
  cut, the caller gets exactly what calling the handler directly gives, and the application
  state advances by exactly that call.  Over TCP this holds for every transaction of a whole run
  of client and server that gives a success or exception, whatever timeouts and late replies came
  before or after it, unless it takes an answer that can be mistaken as the next item says; with
  at most 65535 requests none can.
* **TCP client.**  After every run of requests the socket is closed or whole ADUs only have been
  taken; a success or exception is the answer to that very request if and only if the transaction
  takes no answer to a request that is a multiple of 65535 away.
* **RTU shared bus.**  Over every interleaving of any number of threads and contexts: one
  transaction at a time on a bus record, which is not freed or disturbed meanwhile; the same
  unit id at begin and end; the required silence but for less than a microsecond; a consistent
  registry; no deadlock.
* **TCP server loop.**  Slots hold distinct open sockets, and link-up minus link-down callbacks
  is the number of occupied slots.

## Where the code and its documentation differ

* `include/modbus_rtu_client.h:8-12` asks callers not to start a request on a context during or
  after its disconnect.  That is not enough.  A call that was started before and has not got
  the context's lock yet, whether before its unlocked test of `initialized`
  (`src/modbus_rtu_client.c:544-548`) or after it, can come after the disconnect and find the
  lock destroyed or the bus pointer cleared.  `BusObligation.DisconnectSafeExactly` shows that
  such a run exists if and only if the context is connected and some other call on it has not
  got the lock when the disconnect is called; so a caller is safe that has no other call on the
  context in progress.  `BusObligation.MisuseReachable` reaches the misuse from every initial
  state.  The safety theorems assume that callers see to this, and that connects and disconnects
  of one context do not overlap (`BusProtocol.Allowed`).
* The assembly timeout of the RTU server (`src/modbus_rtu_server.c:336-341`) is logged as
  a frame assembly timeout, but each poll extracts at most one frame, so a complete frame
  queued behind another is discarded too when it waits longer than the timeout.
  `RtuFramer.QueuedFrameLost` shows this of any two request frames that arrive together.
* `wait_bus_silence` divides a negative nanosecond difference with the truncation of C, so it can
  sleep up to a microsecond less than the configured silence, or not at all when almost a
  microsecond is missing; `BusSilence.ShortfallExactly` says exactly when.
* `include/modbus_rtu_server.h:8-13` says that the silence before a response is measured from the
  last byte of the request, but it is counted from the beginning of the last poll that read
  bytes (`src/modbus_rtu_server.c:333-349`).
  `RtuServer.ResponseShortfallExactly` says exactly when the response is too early.

## Model

Line numbers are those of the repository's files.

| member | source | states |
|---|---|---|
| `Crc.Crc16` | src/modbus_rtu.c:324-344 | the nested loops compute the fold `CrcOf` over the bytes; a null buffer gives 0, or the initial value when the length is 0 |
| `Crc.AppendCrc` | src/modbus_rtu.c:346-356 | on success the frame becomes payload plus CRC, low byte first, and nothing behind it changes; it fails exactly for a null buffer or too little room, changing nothing |
| `Crc.ValidateCrc` | src/modbus_rtu.c:358-370 | returns 0 exactly for the frames that `ValidFrame` accepts |
| `Crc.AppendThenValidate` | src/modbus_rtu.c:346-370 | of all frames with a given payload, validation accepts exactly the one that appending makes |
| `CrcTheory.ByteLoopIsBitSerial` | src/modbus_rtu.c:332-341 | for every message the byte loop leaves the register of a bit-serial shift register fed the bits in transmission order |
| `CrcTheory.DivisionIdentity` | src/modbus_rtu.c:324-344 | the long division used as the reference is one: dividend equals quotient times generator plus remainder |
| `CrcTheory.CrcIsPolynomialRemainder` | src/modbus_rtu.c:324-344 | the CRC is the remainder of x^16 times the message, with its first 16 bits complemented, by x^16 + x^15 + x^2 + 1, for every length |
| `CrcTheory.ValidIffZeroResidue` | src/modbus_rtu.c:358-370 | a frame is accepted exactly when the CRC over all of it, checksum included, is zero |
| `CrcTheory.NoShortMultiple` | src/modbus_rtu.c:335-338 | the generator divides no nonzero polynomial confined to 16 consecutive coefficients |
| `CrcTheory.BurstDetected` | src/modbus_rtu.c:324-370 | changing a valid frame of any length only within 16 consecutive bits of transmission order makes validation fail |
| `CrcTheory.RemainderKeepsParity` | src/modbus_rtu.c:332-341 | division by the generator keeps the parity of the number of ones |
| `CrcTheory.ValidParity` | src/modbus_rtu.c:332-341 | all valid frames, of every length, have the same parity |
| `CrcTheory.OddErrorsDetected` | src/modbus_rtu.c:332-370 | flipping any odd number of bits anywhere in a valid frame makes validation fail |
| `CrcNumbers.RoundInNumbers` | src/modbus_rtu.c:334-339 | for every register value a round of the inner loop halves it and, if a one falls out, turns bits 15, 13 and 0 over |
| `CrcNumbers.CheckValue` | test/test_modbus_rtu.c:45 | the CRC of 01 03 00 00 00 0A is CDC5, sent low byte first |
| `Packing.PackBits` | src/modbus_pdu.c:52-60 | packs the coils in place, eight to a byte, touching nothing else |
| `Packing.UnpackBits` | src/modbus_pdu.c:62-67 | writes coil i as bit i % 8 of byte i / 8, touching nothing else |
| `Packing.UnpackOfPack` | src/modbus_pdu.c:47-67 | unpacking what was packed gives the coils normalised to 0 and 1 |
| `Packing.PadBitsZero` | src/modbus_pdu.c:52-60 | packing leaves every pad bit of the last byte zero |
| `Packing.PackOfUnpack` | src/modbus_pdu.c:47-67 | packing what was unpacked restores each coil's bit and clears the pad bits |
| `Packing.PackOfUnpackExact` | src/modbus_pdu.c:47-67 | bytes without pad bits set are restored exactly |
| `Packing.PutWords` | src/modbus_pdu.c:116-125 | registers are written big-endian in order, touching nothing else |
| `Packing.GetWords` | src/modbus_pdu.c:185-190 | registers are read big-endian in order |
| `Packing.DecodeOfEncode` | src/modbus_pdu.c:30-39 | decoding encoded registers, wherever they stand, gives them back |
| `Pdu.BuildFixed` | src/modbus_pdu.c:102-114 | the first five bytes are function code, address and quantity or value; the rest of the buffer stays |
| `Pdu.BuildWriteRegisters` | src/modbus_pdu.c:116-125 | the FC16 request PDU for the first qty registers |
| `Pdu.BuildWriteCoils` | src/modbus_pdu.c:127-136 | the FC15 request PDU for the first qty coils |
| `Pdu.FixedFields` | src/modbus_pdu.c:30-39 | the fields of a fixed request can be read back from any PDU that starts with it |
| `Dispatch.ServeRequest` | src/modbus_pdu.c:350-389 | dispatch into a buffer writes exactly the response of `HandleRequest`, leaves the bytes before it alone and advances the application state as specified |
| `Dispatch.ServeReadRegisters` | src/modbus_pdu.c:205-231 | every branch writes its response or exception and runs the callback only when all checks pass |
| `Dispatch.ServeReadBits` | src/modbus_pdu.c:233-259 | the same for coils and discrete inputs |
| `Dispatch.ServeWriteSingleCoil` | src/modbus_pdu.c:261-284 | the same for FC05; values other than FF00 and 0000 are refused without a call |
| `Dispatch.ServeWriteSingleRegister` | src/modbus_pdu.c:286-301 | the same for FC06 |
| `Dispatch.ServeWriteMultiple` | src/modbus_pdu.c:303-348 | the same for FC15 and FC16, with the length and byte-count checks |
| `PduProperties.CheckAcceptsDispatch` | src/modbus_pdu.c:138-183 | for every request of at least 5 bytes the answer has 2 to 253 bytes, at most one handler is called and only in limits, and the client's check gives 0 exactly when a handler returned 0, otherwise the exception code, never a frame error |
| `PduProperties.ExceptionTellsWhy` | src/modbus_pdu.c:205-389 | for every request of at least 5 bytes: exception 1 exactly for an unsupported function or missing handler, else 3 exactly for malformed data, else 2 exactly for a range past the end, else exactly one call |
| `PduProperties.CallCarriesFields` | src/modbus_pdu.c:205-348 | a handler is called with exactly the address, quantity and data that the request's bytes say, whoever sent it |
| `PduProperties.PduTransparent` | src/modbus_pdu.c:102-389 | for every in-range client request, encode, dispatch, check and decode give the direct handler result and state, with exactly the calls of the direct call |
| `PduProperties.GetRegistersAt` | src/modbus_pdu.c:185-190 | the registers stored are those that decoding the checked response gives |
| `PduProperties.GetBitsAt` | src/modbus_pdu.c:192-195 | the coils stored are those that decoding the checked response gives |
| `PduBytes.ArgumentsExactly` | src/modbus_tcp_client.c:306-504 | the quantities that the client functions take, in numbers |
| `PduBytes.EncodedBytes` | src/modbus_pdu.c:102-136 | every byte of every client request: function code, big-endian address and quantity or value, byte count, registers or coils, clear pad bits |
| `PduBytes.CheckResponseExactly` | src/modbus_pdu.c:138-183 | for all bytes, the check gives 0 exactly for an echo of a write or a read response of the right function, byte count and length, c exactly for an exception with code c, and -1 for everything else |
| `PduBytes.DecodedBytes` | src/modbus_pdu.c:185-195 | what a client function returns for every response: each register or coil of its bytes, the exception, or the error |
| `PduBytes.RequestServedByBytes` | src/modbus_pdu.c:80-389 | what a server makes of every request PDU, byte by byte: which exception and why, or exactly the call that the bytes ask for and the bytes of its answer; a callback's code 1-6, 8, 10 or 11 is sent as it is and any other nonzero one as 4 |
| `StreamScan.ScanConserves` | src/modbus_rtu_server.c:194-233 | the scanner's events and leftover account for every byte in order |
| `StreamScan.ScanLeavesUndecided` | src/modbus_rtu_server.c:194-233 | what a scan leaves over is an undecided candidate |
| `StreamScan.ScanExtends` | src/modbus_rtu_server.c:194-233 | scanning is incremental: scan a part, then what it left with the rest appended |
| `StreamScan.ScanOneTakesFirst` | src/modbus_rtu_server.c:194-233 | one poll takes at most one frame, the first there is, and leaves the others |
| `RtuFramer.DecisionStable` | src/modbus_rtu_server.c:140-174 | once a candidate at the front is accepted or rejected, it stays so under any extension; an accepted one has 8 to 256 bytes |
| `RtuFramer.FullBufferDecided` | src/modbus_rtu_server.c:140-174 | a full buffer is never undecided |
| `RtuFramer.FillReads` | src/modbus_rtu_server.c:112-138 | reading appends to the buffer what it takes from the line, and never overflows it |
| `RtuFramer.FillOfFailing` | src/modbus_rtu_server.c:125-134 | a read error is reported, and takes nothing |
| `RtuFramer.RunConserves` | src/modbus_rtu_server.c:112-233 | over every run the dropped bytes, frames and discards, the buffer and the bytes to come make up the stream, in order |
| `RtuFramer.RunRefinesScan` | src/modbus_rtu_server.c:112-233 | over every run, with any errors and timeouts, the log since the last discard and a scan of the buffer are the scan of all bytes since |
| `RtuFramer.RunReadsAll` | src/modbus_rtu_server.c:112-138 | every poll brings the end of the line's input nearer: as many polls as it has bytes and schedule events have read it all |
| `RtuFramer.RunExtractsScannerFrames` | src/modbus_rtu_server.c:112-233 | on a line without read errors, more polls than the line has bytes and schedule events and the stream has frames log exactly the scanner's events, unless an assembly timeout fires |
| `RtuFramer.PromptPolls` | src/modbus_rtu_server.c:336-341 | no assembly timeout fires in a run, however long, if while bytes stay buffered the polls come within the timeout |
| `RtuFramer.RunLeavesRoom` | src/modbus_rtu_server.c:112-233 | after every poll there is room in the buffer |
| `RtuFramer.PollsDrain` | src/modbus_rtu_server.c:194-233 | on a quiet line each poll takes the next buffered frame, and one poll more than there are frames takes them all |
| `RtuFramer.QueuedFrameFate` | src/modbus_rtu_server.c:336-341 | a complete frame in the buffer is extracted by the next poll of a quiet line if and only if the assembly timeout does not fire there, otherwise discarded |
| `RtuFramer.QueuedFrameLost` | src/modbus_rtu_server.c:326-349 | of any two request frames that arrive together, however cut, the first is extracted, and the second exactly if the next poll comes within the timeout; otherwise it is discarded |
| `RtuFrameSpec.DecideExactly` | src/modbus_rtu_server.c:140-233 | for all bytes at the front: a frame exactly if a request of the announced length with a valid checksum stands there, waiting exactly if more bytes can complete one within 256, a drop exactly otherwise |
| `RtuFrameSpec.RunExplains` | src/modbus_rtu_server.c:112-233 | over every run, whatever the reads, errors and timeouts: the log is that of the stream in order, every frame in it is a request with a valid checksum, and none starts at a dropped byte, whatever followed it |
| `RtuFrameSpec.RunFramesAreRequests` | src/modbus_rtu_server.c:194-233 | every frame that any run extracts has a valid checksum and 8 bytes, or 9 and its byte count for FC15 and FC16 |
| `RtuFrameSpec.PollWaits` | src/modbus_rtu_server.c:194-233 | a poll that finds no frame keeps only bytes that can still become one |
| `RtuFrameSpec.PartialFrameFate` | src/modbus_rtu_server.c:326-345 | a first part of a request is put together with what the next poll brings if that comes within the timeout, and thrown away otherwise; bytes that come restart the timeout |
| `RtuServer.RtuServer.ReadAvailableBytes` | src/modbus_rtu_server.c:112-138 | the in-place read loop leaves buffer, line and time of the last byte as `Fill` says |
| `RtuServer.RtuServer.DropRxBytes` | src/modbus_rtu_server.c:176-184 | compaction in place removes exactly the first count bytes |
| `RtuServer.RtuServer.Resync` | src/modbus_rtu_server.c:194-233 | the drop-one-byte loop ends at an accepted or incomplete candidate, having dropped what the scanner drops |
| `RtuServer.RtuServer.ExtractRequestFrame` | src/modbus_rtu_server.c:194-233 | it logs and leaves in the buffer what one scan step does, and copies out the frame it found |
| `RtuServer.EchoDiscardBounded` | src/modbus_rtu_server.c:280-313 | at most the transmitted length is thrown away after a response |
| `RtuServer.EchoDiscarded` | src/modbus_rtu_server.c:280-313 | if a clean line has the echo, exactly that is thrown away, however it is cut |
| `RtuServer.ServesExactly` | src/modbus_rtu_server.c:358-391 | a frame for another unit, or a broadcast read, is ignored without a call; any other is dispatched, and answered unless broadcast, in a frame of the same unit with a valid checksum |
| `RtuServer.RequestEndExactly` | src/modbus_rtu_server.c:112-118 | a poll that reads bytes notes its beginning as their time; one that finds none leaves it |
| `RtuServer.ResponseShortfallExactly` | src/modbus_rtu_server.c:76-104 | a response goes out when the silence counted from the beginning of the last poll that read bytes is over, and so too early after the request's real end if and only if that came after this beginning and the clock was not past the silence anyway |
| `RtuServer.UnknownEndWaits` | src/modbus_rtu_server.c:90-99 | without a usable time of the last byte the whole silence is waited out |
| `RtuServer.RtuServer.WaitResponseSilence` | src/modbus_rtu_server.c:80-104 | sleeps for the specified time, or not at all |
| `RtuServer.RtuServer.Respond` | src/modbus_rtu_server.c:358-402 | unit filter, broadcast rule, dispatch, framing, the silence before the response, sending (all of it, or a first part and an error) and echo as specified |
| `RtuServer.RtuServer.ProcessOnce` | src/modbus_rtu_server.c:326-402 | one call of the server callback is `OnProcess` on the context's state and line |
| `RtuEndToEnd.ServerRunServesFrames` | src/modbus_rtu_server.c:326-402 | over every run, whatever the reads, timeouts, echoes and failed transmissions, calls and state are those of serving the extracted frames in order, and so are the answers if all go out |
| `RtuEndToEnd.ServerRunPolls` | src/modbus_rtu_server.c:326-402 | with or without local echo, if every transmission brings back its own echo only, the receive side of a run is that of the framer alone |
| `RtuEndToEnd.ServesOnlyRequests` | src/modbus_rtu_server.c:326-402 | over every run of the server, whatever echoes and failed transmissions do, only requests with a valid checksum are served |
| `RtuEndToEnd.TurnFailsExactly` | src/modbus_rtu_server.c:326-402 | a call of the server fails exactly on a read error or if a response that is due does not go out |
| `RtuEndToEnd.RequestArrives` | src/modbus_rtu_server.c:194-233 | a request frame cut in any way over as many polls as the line has bytes and schedule events, or more, is extracted once, whole, if no assembly timeout fires |
| `RtuEndToEnd.ResponseArrives` | src/modbus_rtu_client.c:479-524 | a valid response frame of the announced length, cut in any way, is received whole |
| `RtuEndToEnd.RtuTransparent` | src/modbus_rtu_client.c:535-611 | end-to-end transparency over the serial line, from client call to server run and back, with or without local echo at either end |
| `RtuEndToEnd.BroadcastTransparent` | src/modbus_rtu_client.c:551-584 | a broadcast write acts as a direct call on every server and is never answered; a broadcast read is refused by the client and ignored by servers |
| `RtuEndToEnd.EchoCorrupted` | src/modbus_rtu_client.c:571-580 | a differing local echo fails the transaction with the transport error |
| `ExactRead.Line.Receive` | src/modbus_rtu_client.c:374-399 | the receive loop stores what `ReadExact` says and returns its code |
| `ExactRead.ReadExactLength` | src/modbus_tcp_client.c:80-100 | an exact read loses no byte, and returns 0 exactly when everything asked for was read |
| `ExactRead.ReadExactClean` | src/modbus_tcp_server.c:65-79 | with enough bytes on a clean line it returns exactly the next ones, however they are cut |
| `ShortReads.ReadExactShort` | src/modbus_rtu_client.c:374-399 | a clean line with too few bytes gives all of them and the code for the deadline |
| `ShortReads.ReadExactStopped` | src/modbus_tcp_client.c:80-100 | an error, the end of the file or the deadline in place of the first byte gives its own code |
| `ExactSend.SendAll` | src/modbus_tcp.c:230-248 | what goes out is a prefix of the buffer, and all of it exactly if 0 is returned |
| `ExactSend.SuccessTakesAll` | src/modbus_rtu_client.c:405-417 | the loop ends without an error exactly if every byte was taken |
| `ExactSend.OnlyRefusalFails` | src/modbus_tcp.c:230-248 | interrupted and partial calls are repeated; only a call that fails or takes nothing ends the loop early |
| `ExactSend.WriteAll` | src/modbus_rtu_client.c:401-423 | 0 exactly if every byte was taken and the final drain succeeds; -1 may follow a first part or all of the bytes |
| `RtuClient.ResponseIsFrame` | src/modbus_rtu_client.c:479-524 | a received response is a valid frame from the right unit of 5 to 256 bytes |
| `RtuClient.RtuClient.ReceiveResponse` | src/modbus_rtu_client.c:479-524 | length from the function code or byte count, CRC, then sender, with the code, the bytes and the length reported, on success and on every failure |
| `RtuClient.RtuClient.DoExchange` | src/modbus_rtu_client.c:555-611 | the locked part of a transaction, with every error code |
| `RtuClient.RtuClient.DoTransact` | src/modbus_rtu_client.c:535-611 | a whole transaction, including the two early refusals |
| `RtuClient.RtuClient.ReadRegisters` | src/modbus_rtu_client.c:613-629 | on 0 the caller's array holds the decoded answer; on any error it is unchanged |
| `RtuClient.RtuClient.ReadCoils` | src/modbus_rtu_client.c:631-647 | the same for coils |
| `RtuClient.RtuClient.WriteRegister` | src/modbus_rtu_client.c:750-763 | the transaction of the FC06 request |
| `RtuClient.RtuClient.WriteCoil` | src/modbus_rtu_client.c:765-778 | the transaction of the FC05 request with FF00 for any nonzero value |
| `RtuClient.RtuClient.WriteRegisters` | src/modbus_rtu_client.c:780-793 | argument check, then the transaction of the FC16 request |
| `RtuClient.RtuClient.WriteCoils` | src/modbus_rtu_client.c:795-808 | argument check, then the transaction of the FC15 request |
| `RtuBytes.NotSent` | src/modbus_rtu_client.c:544-569 | not connected, a broadcast read and a failed send give -2, -1 and -3, and nothing is received |
| `RtuBytes.ReplyExactly` | src/modbus_rtu_client.c:479-611 | the return code for every clean line: -4 for too few bytes, -5 for a wrong function code, length or PDU, -7 for a wrong checksum, -6 for another unit, else 0 or the exception |
| `RtuBytes.ReceivedExactly` | src/modbus_rtu_client.c:479-524 | the code, the bytes and the length reported by the receiving part, for every clean line |
| `RtuBytes.NoAnswer` | src/modbus_rtu_client.c:374-399 | no data or the end of the file in place of an answer gives -4, an error -3 |
| `RtuBytes.BadEcho` | src/modbus_rtu_client.c:571-580 | a local echo that is missing or differs gives -3 |
| `RtuBytes.ReplyAnswers` | src/modbus_rtu_client.c:594-611 | 0 is returned only with a valid frame from the unit that answers the request (a write was echoed), c only with that exception |
| `RtuBytes.WaitingForgotten` | src/modbus_rtu_client.c:565 | bytes that waited before the request are thrown away, whatever they are |
| `Mbap.AduFields` | src/modbus_tcp_client.c:232-253 | a framed PDU is one whole Modbus ADU whose identifier, unit and PDU can be read back |
| `TcpBytes.AduExactly` | src/modbus_tcp_client.c:232-253 | the seven header bytes in numbers, then the PDU |
| `TcpBytes.ReadAduExactly` | src/modbus_tcp_server.c:83-110 | on every clean stream: a length out of range ends it, too few bytes time out, otherwise exactly one ADU is taken |
| `Mbap.CutIsUnique` | src/modbus_tcp_client.c:187-193 | bytes can be cut into whole ADUs in one way only |
| `Mbap.ReadAduTakesOne` | src/modbus_tcp_client.c:176-208 | success takes one whole ADU off the stream and nothing else |
| `Mbap.AduArrives` | src/modbus_tcp_server.c:90-110 | a whole ADU at the front of a clean stream is taken whole, however it is cut |
| `Mbap.ReceiveAdu` | src/modbus_tcp_server.c:90-110 | header then body into the buffer, with the code specified |
| `TcpServer.AnswerEchoes` | src/modbus_tcp_server.c:145-149 | an answer is one whole ADU with the request's first four bytes and unit id; there is none exactly for requests that are not accepted |
| `TcpBytes.ServesExactly` | src/modbus_tcp_server.c:112-157 | an ADU that is too short, not Modbus or for another unit is ignored without a call; any other is dispatched and answered in an ADU with its identifier and unit |
| `TcpBytes.TurnExactly` | src/modbus_tcp_server.c:83-157 | one call on every clean socket: it fails on a missing or bad ADU, otherwise takes the first, serves it and sends the answer |
| `TcpServer.ConnectionServesInOrder` | src/modbus_tcp_server.c:83-157 | over every connection, open or ended, whatever the reads and sends, what was taken is whole ADUs from the front of the stream, calls and state are those of serving them in order, and what was sent is their answers, all of them unless the last send failed |
| `TcpServer.AllRequestsTaken` | src/modbus_tcp_server.c:83-157 | on a clean stream of requests every one is taken and the connection stays open |
| `TcpServer.TcpServer.ProcessOnce` | src/modbus_tcp_server.c:83-157 | one call of the server callback is `OnProcess` on the socket |
| `TcpServer.TcpServer.BuildResponse` | src/modbus_tcp_server.c:126-149 | dispatch in place and the header make the response ADU |
| `ServeInOrder.RepliesAnswer` | src/modbus_tcp_server.c:126-157 | each numbered reply is the answer to that request in the state the earlier ones left |
| `TcpClient.ResponseTakes` | src/modbus_tcp_client.c:176-208 | one receive takes a whole ADU, or nothing, or the code is one that closes the socket |
| `TcpClient.CollectTakes` | src/modbus_tcp_client.c:258-276 | skipping stale replies takes whole ADUs only, and the accepted one, taken last, has the expected identifier |
| `TcpClient.TimeoutMeaning` | src/modbus_tcp_client.c:278-291 | the TID error says that the connection is open and only replies with other identifiers came; a timeout with the connection open says that nothing at all was taken |
| `TcpClient.AlignedOrClosed` | src/modbus_tcp_client.c:258-280 | after every run of requests, under any schedule, the socket is closed or a sequence of whole ADUs has been taken off the stream |
| `TcpEndToEnd.ClosedStaysClosed` | src/modbus_tcp_client.c:241-245 | once closed, whatever is asked for afterwards leaves the client, the stream and what was taken and sent as they were, and is refused |
| `TcpClient.SameTid` | src/modbus_tcp_client.c:117-125 | two requests have the same identifier exactly when a multiple of 65535 apart |
| `TcpClient.RunCountsTids` | src/modbus_tcp_client.c:117-125 | while the socket is open the n-th request has the n-th identifier of the cycle |
| `TcpClient.OwnReplyOnly` | src/modbus_tcp_client.c:221-304 | if replies carry the identifier of their request, the reply that a success or exception of the n-th transaction came from is the one to the n-th request if and only if the transaction takes no reply to another request that is a multiple of 65535 away |
| `TcpClient.EarlyRepliesAreOwn` | src/modbus_tcp_client.c:221-304 | if every reply is less than 65535 requests away, as on a connection with at most 65535 requests, a success or exception of the n-th transaction came from the reply to the n-th request |
| `TcpClient.LateReplyAccepted` | src/modbus_tcp_client.c:258-304 | a reply to a request any multiple of 65535 requests ago is taken for the answer, and the return code is that of checking it |
| `TcpBytes.NotSent` | src/modbus_tcp_client.c:221-256 | not connected gives -2 and changes nothing; a failed send gives -3 and closes; otherwise the request goes out with the next identifier |
| `TcpBytes.NoReply` | src/modbus_tcp_client.c:176-186 | no reply in time gives -4 and keeps the connection, a failing wait gives -3 and closes it |
| `TcpBytes.ReplyStops` | src/modbus_tcp_client.c:176-208 | a reply that breaks off gives -4 at the deadline, -3 at the end of the file or an error, and closes the connection |
| `TcpBytes.BadReply` | src/modbus_tcp_client.c:176-208 | on every clean stream: too few bytes give -4 and close, a bad length gives -3 and closes, another protocol gives -5 and keeps the connection |
| `TcpBytes.ReplyTaken` | src/modbus_tcp_client.c:258-304 | a whole reply with the identifier of the request is checked, one with another is skipped, with -6 if nothing follows in time; the connection stays open |
| `TcpBytes.ReplyAnswers` | src/modbus_tcp_client.c:288-304 | 0 is returned only with a reply that answers the request (a write was echoed), c only with that exception |
| `TcpBytes.TidExactly` | src/modbus_tcp_client.c:117-125 | the identifiers of a connection are 1 to 65535, then from 1 again |
| `TcpClient.TcpClient.NextTransactionId` | src/modbus_tcp_client.c:117-125 | the counter advances through the cycle |
| `TcpClient.TcpClient.ReceiveResponse` | src/modbus_tcp_client.c:176-208 | the codes, bytes and socket state specified, with a timeout inside an ADU told apart |
| `TcpClient.TcpClient.CollectReply` | src/modbus_tcp_client.c:258-276 | the discard loop ends with the reply, code and stale flag specified |
| `TcpClient.TcpClient.DoTransact` | src/modbus_tcp_client.c:221-304 | a whole transaction: identifier, socket state, code and reply as specified |
| `TcpClient.TcpClient.ReadRegisters` | src/modbus_tcp_client.c:306-322 | on 0 the caller's array holds the decoded answer; on any error it is unchanged |
| `TcpClient.TcpClient.ReadCoils` | src/modbus_tcp_client.c:324-340 | the same for coils |
| `TcpClient.TcpClient.WriteRegister` | src/modbus_tcp_client.c:446-459 | the transaction of the FC06 request |
| `TcpClient.TcpClient.WriteCoil` | src/modbus_tcp_client.c:461-474 | the transaction of the FC05 request with FF00 for any nonzero value |
| `TcpClient.TcpClient.WriteRegisters` | src/modbus_tcp_client.c:476-489 | argument check, then the transaction of the FC16 request |
| `TcpClient.TcpClient.WriteCoils` | src/modbus_tcp_client.c:491-504 | argument check, then the transaction of the FC15 request |
| `TcpEndToEnd.TcpTransparent` | src/modbus_tcp_client.c:221-304 | end-to-end transparency over TCP, past any stale replies, leaving the connection open with nothing left over |
| `TcpEndToEnd.SentInTidOrder` | src/modbus_tcp_client.c:247-250 | the n-th whole request ADU on the wire has the n-th identifier |
| `TcpEndToEnd.RepliesEchoTids` | src/modbus_tcp_server.c:145-149 | what an echoing server sends is whole replies, each with the identifier of its request |
| `TcpEndToEnd.ServerTakesSent` | src/modbus_tcp_server.c:83-157 | a server connected to a run of the client takes the first of the requests sent, whole, even if the last one was sent in part, and the client reads their answers |
| `TcpEndToEnd.RunTakesOwnAnswers` | src/modbus_tcp_client.c:221-304 | client and server over a whole run, and any transaction of it: a success or exception of the n-th is one of the server's answers, and the answer to the n-th request if and only if no answer taken there is to a request a multiple of 65535 away |
| `TcpEndToEnd.RunTransparent` | src/modbus_tcp_client.c:221-304 | for every n of a whole run: unless an answer can be mistaken, the n-th success or exception says that the server took the n-th request and is what a direct call gives in the state that serving the first n - 1 requests left, and serving the n-th advances the state by exactly that call |
| `TcpEndToEnd.ShortRunTransparent` | src/modbus_tcp_client.c:221-304 | the same for every success or exception of a run of at most 65535 requests, without any condition on the answers |
| `BusSilence.WaitBusSilence` | src/modbus_rtu_client.c:232-258 | sleeps for the specified time, or not at all |
| `BusSilence.RequiredUs` | src/modbus_rtu_client.c:235-246 | the longer of the two delays if the unit id changed, otherwise the inter-frame delay |
| `BusSilence.SilenceKept` | src/modbus_rtu_client.c:232-258 | the real silence is more than the required one minus a microsecond, and all of it if truncation loses nothing |
| `BusSilence.ShortfallExactly` | src/modbus_rtu_client.c:246-257 | for all times: the silence falls short if and only if the nanosecond difference is negative and not whole microseconds and the measured time is not past the required one |
| `BusSilence.ShortfallExample` | src/modbus_rtu_client.c:251-256 | a concrete silence 999 ns short |
| `BusSilence.NoLongerThanNeeded` | src/modbus_rtu_client.c:232-258 | no sleep without a transaction before or once the silence is over; otherwise the sleep ends less than a microsecond after it |
| `BusCalls.CharacterSilence` | src/modbus_rtu.c:372-388 | 3.5 characters rounded up to whole microseconds, 1750 above 19200 baud |
| `BusCalls.ConfiguredSilence` | src/modbus_rtu_client.c:81-94 | the silence that a configuration asks for: 0 stands for 3.5 characters or 30 ms, the largest value for none, and the longer one applies after another unit |
| `BusRegistry.AttachKeepsRegistry` | src/modbus_rtu_client.c:165-191 | an attach keeps keys and descriptors distinct and open, counts equal to the attached contexts, and settings in agreement; or fails and changes nothing |
| `BusRegistry.DetachKeepsRegistry` | src/modbus_rtu_client.c:194-214 | a detach keeps the same, and closes the port and frees the record exactly at the last one |
| `BusRegistry.OthersStay` | src/modbus_rtu_client.c:194-214 | detaching one context does not free the record of another |
| `BusRegistry.SameDeviceSameBus` | src/modbus_rtu_client.c:118-126 | contexts on one device share one record and agree on effective settings, and conversely |
| `BusRegistry.AttachExactly` | src/modbus_rtu_client.c:118-191 | a device in use is shared exactly if baud rate, data bits, stop bits, parity and mode match (0 standing for 9600, 8 and 1), with one reference more and nothing opened; another device gets a record exactly if its port opens |
| `BusRegistry.SharedBuses.FindBus` | src/modbus_rtu_client.c:108-116 | the list walk finds the record for the key, if there is one |
| `BusRegistry.SharedBuses.AttachBus` | src/modbus_rtu_client.c:129-191 | lookup, settings check, opening and counting in place as specified |
| `BusRegistry.SharedBuses.DetachBus` | src/modbus_rtu_client.c:194-214 | counting down, unlinking and closing in place as specified |
| `BusProtocol.StepKeepsInv` | src/modbus_rtu_client.c:535-722 | every step of request, set_unit_id, connect and disconnect that callers may cause, from the call and its unlocked test on, keeps the invariant over locks, contexts, records and registry |
| `BusSafety.OneTransactionPerBus` | src/modbus_rtu_client.c:458-470 | in every reachable state at most one thread is between begin and end of a transaction on a bus record |
| `BusSafety.TransactionUndisturbed` | src/modbus_rtu_client.c:458-470 | whatever others do between begin and end, the record stays alive with its port open and its mutex held, and the unit id stays that of the begin |
| `BusSafety.EndNotesUnit` | src/modbus_rtu_client.c:260-265 | the end of a transaction notes the unit id that its begin waited for |
| `BusSafety.SilenceBeforeSend` | src/modbus_rtu_client.c:216-265 | in every reachable state in which a request is sent, more than the required silence minus a microsecond has passed since the last transaction on the record |
| `BusSafety.RegistryAfterRun` | src/modbus_rtu_client.c:651-707 | after every run the registry invariant holds, and a context at rest is attached exactly if it is connected, to the record it points to |
| `BusSafety.NoDeadlock` | src/modbus_rtu_client.c:544-592 | in every reachable state with a call in progress some thread can take its next step, at once or when its bus silence is over |
| `BusCalls.RequestCall` | src/modbus_rtu_client.c:535-611 | undisturbed, a request waits out its silence, sends, and leaves everything as it was but for its unit id and end noted on the record |
| `BusCalls.SilenceEnds` | src/modbus_rtu_client.c:232-258 | it sends at once or less than a microsecond after the silence is over |
| `BusCalls.RefusedCall` | src/modbus_rtu_client.c:551-556 | undisturbed, a broadcast read changes nothing |
| `BusCalls.OnlyWritesAreBroadcast` | src/modbus_rtu_client.c:551-556 | a request that takes the bus asks for a unit or writes |
| `BusCalls.SetUnitCall` | src/modbus_rtu_client.c:709-722 | undisturbed, set_unit_id changes the unit id of its context and nothing else |
| `BusCalls.ConnectCall` | src/modbus_rtu_client.c:651-690 | undisturbed, a connect ends connected to the record that the registry gives, or unconnected without a lock |
| `BusCalls.DisconnectCall` | src/modbus_rtu_client.c:692-707 | undisturbed, a disconnect gives its reference back and leaves its context without lock and record |
| `BusCalls.SharingReachable` | src/modbus_rtu_client.c:165-191 | from every initial state two contexts of one device come to share one record, counted twice, and one open port |
| `BusObligation.NeverBad` | src/modbus_rtu_client.c:692-707 | if callers meet their obligations no thread ever waits for a destroyed lock, or locks, detaches or uses a bus record that is missing or freed |
| `BusObligation.Drain` | src/modbus_rtu_client.c:535-611 | from every state that satisfies the invariant all calls that have got their lock can run to their end |
| `BusObligation.DisconnectSafeExactly` | src/modbus_rtu_client.c:692-707 | after a disconnect is called as the header allows, such a misuse is possible if and only if the context is connected and some other call on it has not got the lock yet |
| `BusObligation.PendingStranded` | src/modbus_rtu_client.c:544-548 | a request or set_unit_id that has not got the lock of a connected context when its disconnect is called can be stranded, whatever else is in progress |
| `BusObligation.MisuseReachable` | src/modbus_rtu_client.c:544-548 | from every initial state, a run in which all callers meet their obligations leads to where a disconnect that the header allows can strand a request |
| `SlotTable.IterateKeeps` | src/modbus_tcp.c:262-369 | every round of the server loop keeps the slot invariant, whatever it meets |
| `SlotTable.RoundExactly` | src/modbus_tcp.c:262-369 | each round closes exactly the sockets of gone peers or failing callbacks, puts an accepted socket below 1024 into the first free slot, and leaves all other slots alone |
| `SlotTable.RunOfServerLoop` | src/modbus_tcp.c:262-369 | over every run occupied slots hold distinct open sockets, all there are, at most the capacity, and link-up minus link-down callbacks is their number |
| `SlotTable.TcpServerLoop.RunOnce` | src/modbus_tcp.c:262-369 | one round on the slot array is `Iterate` |
| `SlotTable.TcpServerLoop.Place` | src/modbus_tcp.c:330-342 | the first free slot takes the socket, if there is one |
| `SlotTable.TcpServerLoop.CloseAll` | src/modbus_tcp.c:294-311 | one pass closes exactly the sockets given, with their callbacks in slot order |
| `RtuFrames.BuildRequestBasis` | src/modbus_rtu.c:401-430 | the standalone builder makes the PDU layer's request in a serial frame, or refuses and changes nothing |
| `RtuFrames.BuildFc16Request` | src/modbus_rtu.c:432-465 | the same for FC16 |
| `RtuFrames.ParseRequest` | src/modbus_rtu.c:467-491 | accepts exactly valid frames of at least 8 bytes and returns their fields |
| `RtuBytes.ParseExactly` | src/modbus_rtu.c:467-491 | which frames the parser takes and what it reads in them, in numbers |
| `RtuFrames.BuildReadRegistersResponse` | src/modbus_rtu.c:493-521 | the standalone response builder makes the PDU layer's response in a serial frame |
| `RtuFrames.ParseOfBuilt` | src/modbus_rtu.c:401-491 | parsing a built request gives the arguments back (quantity 1 for FC06) |
| `TcpFrames.TcpContext.BuildRequestBasis` | src/modbus_tcp.c:532-601 | the standalone builder makes the PDU layer's request in an ADU with the next identifier, or refuses and changes nothing |
| `TcpFrames.TcpContext.BuildFc16Request` | src/modbus_tcp.c:603-651 | the same for FC16 |
| `TcpFrames.ParseRequest` | src/modbus_tcp.c:653-684 | accepts exactly whole ADUs with a length field of 6 to 254 and returns their fields |
| `TcpBytes.ParseExactly` | src/modbus_tcp.c:653-684 | which buffers the parser takes and what it reads in them, in numbers |
| `TcpFrames.BuildReadRegistersResponse` | src/modbus_tcp.c:686-721 | the standalone response builder makes the PDU layer's response in an ADU |
| `TcpFrames.ParseOfBuilt` | src/modbus_tcp.c:532-684 | parsing a built request, whatever follows it, gives the arguments back (quantity 1 for FC06) |

## Left out

- RtuTransparent: assumes that no assembly timeout fires (`RtuFramer.PromptPolls` says when it does not) and that an echo at the server is read away before its deadline.
- BroadcastTransparent: assumes that no assembly timeout fires.
- ServerRunServesFrames: what a failed transmission put on the line is stated by `RtuServer.RtuServer.ProcessOnce`, not for the whole run.
- OwnReplyOnly: that replies carry the identifier of their request is assumed of the peer there; for this repository's server `TcpEndToEnd.RunTakesOwnAnswers` proves it.
- StepKeepsInv: connects and disconnects of one context that overlap are excluded, although the header does not forbid them, since connect resets the context without a lock.
- DisconnectSafeExactly: a connect of the same context in progress is excluded: whether the disconnect is safe then also depends on whether the connect succeeds.  `BusObligation.PendingStranded` has no such exclusion.
- SilenceBeforeSend: the silence is kept on one bus record; a device whose last context disconnects and that is opened again starts with none, as in the code.
- AttachKeepsRegistry: a reference count is unbounded (the code's wraps at 2^32 contexts), and record ids are never reused (the code's addresses may be).
- BuildRequestBasis: a null TCP context is not modelled; null buffers are.
- Null pointers: contexts, output arrays and configurations are not null except in the CRC functions and the standalone builders and parsers.
- Sockets, termios, RS-485, ioctl, select and poll calls, and pthread creation: system calls, which appear only as the inputs described above.
- Logging, hex dumps, TX-enable hooks, on_error callbacks and configuration defaults: no protocol property; hooks are assumed not to call back into the library.
- realpath canonicalisation: the registry key is an abstract string.
- Deadlines: the response deadline is where a schedule says that no data came; TCP timeouts above INT_MAX milliseconds, whose poll argument is cast, are not modelled.
- The outbound client thread (src/modbus_tcp.c:375-431), the RTU server thread's pause loop (src/modbus_rtu.c:182-212), and starting and stopping servers: retry loops around system calls.
- Endless interruption: a schedule is finite, so a read that is interrupted forever is not modelled.
- Data races on the unlocked `initialized` flag: each access is one atomic step.
