/**
 * One transaction of src/modbus_rtu_client.c from the built frame to the checked response.
 * Bus locking and timing are in the Bus modules; here the context already owns the line, and
 * `link` is what arrives after the flush at the start of the transaction.
 */
module RtuClient {
  import opened Bytes
  import opened ExactRead
  import opened ExactSend
  import opened Transport
  import opened PduProperties
  import Crc
  import Pdu
  import RtuFrames

  const ERR_ARG := -1
  const ERR_NOT_CONNECTED := -2
  const ERR_TRANSPORT := -3
  const ERR_TIMEOUT := -4
  const ERR_FRAME := -5
  const ERR_UNIT_ID := -6
  const ERR_CRC := -7

  const IO_FRAME_ERROR := -10
  const IO_CRC_ERROR := -11
  const IO_UNIT_ID_ERROR := -12

  const MAX_ADU_LENGTH := 256

  /** read_exact_timeout: -1 on an error, -2 at the deadline or at end of file. */
  const CODES: ErrorCodes := Codes(-2, -2, -1)

  /** Read the rest of the frame and check its CRC and sender; a part of the rest is not reported. */
  function FinishFrame(r: Received, unit: byte, frameLen: nat): Received
    requires 2 <= |r.bytes| <= frameLen
  {
    var all := Extend(CODES, r, frameLen - |r.bytes|);
    if all.rc != 0 then all.(bytes := r.bytes) else all.(rc := FrameVerdict(all.bytes, unit))
  }

  /** The CRC and sender checks on a whole frame. */
  function FrameVerdict(frame: seq<byte>, unit: byte): int
    requires |frame| >= 2
  {
    if !Crc.ValidFrame(frame) then IO_CRC_ERROR else if frame[0] != unit then IO_UNIT_ID_ERROR else 0
  }

  /** The byte count of a read response decides its length. */
  function RecvReadResponse(two: Received, unit: byte, fc: byte): Received
    requires |two.bytes| == 2
  {
    ReadExactLength(CODES, two.link, 1);
    var three := Extend(CODES, two, 1);
    if three.rc != 0 then three.(bytes := two.bytes)
    else if ReadFrameLength(three.bytes) > MAX_ADU_LENGTH then three.(rc := IO_FRAME_ERROR)
    else FinishFrame(three, unit, ReadFrameLength(three.bytes))
  }

  function ReadFrameLength(head: seq<byte>): nat
    requires |head| >= 3
  {
    3 + head[2] as nat + 2
  }

  /** recv_response */
  function RecvResponse(link: Input, unit: byte, fc: byte): Received {
    ReadExactLength(CODES, link, 2);
    var two := ReadExact(CODES, link, 2);
    if two.rc != 0 then two.(bytes := [])
    else if two.bytes[1] == Pdu.ExceptionFunction(fc) then FinishFrame(two, unit, 5)
    else if two.bytes[1] != fc then two.(rc := IO_FRAME_ERROR)
    else if fc <= Pdu.READ_INPUT_REGISTERS then RecvReadResponse(two, unit, fc)
    else FinishFrame(two, unit, 8)
  }

  /** io_err_to_client_err */
  function ClientError(rc: int): int {
    if rc == -2 then ERR_TIMEOUT
    else if rc == IO_CRC_ERROR then ERR_CRC
    else if rc == IO_FRAME_ERROR then ERR_FRAME
    else if rc == IO_UNIT_ID_ERROR then ERR_UNIT_ID
    else ERR_TRANSPORT
  }

  /** What one transaction did: return code, response ADU if any, input left, bytes on the wire. */
  datatype Transaction = Transaction(rc: int, resp: seq<byte>, link: Input, sent: seq<byte>)

  /** The local echo of the request, if the transceiver produces one, must come back intact. */
  function AfterEcho(link: Input, req: seq<byte>, localEcho: bool): Received {
    if !localEcho then Received(0, [], link)
    else
      var echo := ReadExact(CODES, link, |req|);
      if echo.rc != 0 || echo.bytes != req then echo.(rc := -1) else echo
  }

  /** Receive the reply to a request that went out as req, and check it. */
  function AwaitReply(unit: byte, pdu: seq<byte>, link: Input, req: seq<byte>): Transaction
    requires |pdu| >= 5
  {
    var r := RecvResponse(link, unit, pdu[0]);
    if r.rc != 0 then Transaction(ClientError(r.rc), [], r.link, req)
    else
      ResponseIsFrame(link, unit, pdu[0]);
      var rc := Pdu.CheckResponse(pdu, r.bytes[1..|r.bytes| - 2]);
      Transaction(if rc == Pdu.ERR_FRAME then ERR_FRAME else rc, r.bytes, r.link, req)
  }

  /** The part of transact that runs under the locks, after the broadcast check. */
  function Exchange(unit: byte, localEcho: bool, pdu: seq<byte>, link: Input, sending: Sending): Transaction
    requires |pdu| >= 5
  {
    var req := RtuFrames.SerialFrame(unit, pdu);
    if !sending.Delivered? then Transaction(ERR_TRANSPORT, [], link, Wire(sending, req))
    else
      var echo := AfterEcho(link, req, localEcho);
      if echo.rc != 0 then Transaction(ERR_TRANSPORT, [], echo.link, req)
      else if unit == 0 then Transaction(0, [], echo.link, req)
      else AwaitReply(unit, pdu, echo.link, req)
  }

  /** A frame that was finished has the length asked for, a valid CRC and the right sender. */
  predicate IsFrame(frame: seq<byte>, unit: byte, frameLen: nat) {
    |frame| == frameLen && frameLen >= 2 && Crc.ValidFrame(frame) && frame[0] == unit
  }

  lemma FinishedFrame(r: Received, unit: byte, frameLen: nat)
    requires 2 <= |r.bytes| <= frameLen
    ensures var f := FinishFrame(r, unit, frameLen);
            f.rc == 0 ==> IsFrame(f.bytes, unit, frameLen) && f.bytes[..|r.bytes|] == r.bytes
  {
    ReadExactLength(CODES, r.link, frameLen - |r.bytes|);
  }

  /** A received response is a valid frame from the right unit, of the length its head announces. */
  lemma ResponseIsFrame(link: Input, unit: byte, fc: byte)
    ensures var r := RecvResponse(link, unit, fc);
            r.rc == 0 ==> 5 <= |r.bytes| <= MAX_ADU_LENGTH && IsFrame(r.bytes, unit, |r.bytes|)
  {
    ReadExactLength(CODES, link, 2);
    var two := ReadExact(CODES, link, 2);
    if two.rc == 0 {
      FinishedFrame(two, unit, 5);
      FinishedFrame(two, unit, 8);
      ReadResponseIsFrame(two, unit, fc);
    }
  }

  lemma ReadResponseIsFrame(two: Received, unit: byte, fc: byte)
    requires |two.bytes| == 2
    ensures var r := RecvReadResponse(two, unit, fc);
            r.rc == 0 ==> 5 <= |r.bytes| <= MAX_ADU_LENGTH && IsFrame(r.bytes, unit, |r.bytes|)
  {
    ReadExactLength(CODES, two.link, 1);
    var three := Extend(CODES, two, 1);
    if three.rc == 0 {
      FinishedFrame(three, unit, ReadFrameLength(three.bytes));
    }
  }

  /** transact */
  function Transact(connected: bool, unit: byte, localEcho: bool, pdu: seq<byte>, link: Input,
                    sending: Sending): Transaction
    requires |pdu| >= 5
  {
    if !connected then Transaction(ERR_NOT_CONNECTED, [], link, [])
    else if unit == 0 && !Pdu.IsWrite(pdu[0]) then Transaction(ERR_ARG, [], link, [])
    else Exchange(unit, localEcho, pdu, link, sending)
  }

  /** What the caller of a client function is given after its transaction. */
  function AnswerOf(r: Request, t: Transaction): Answer
    requires r.InRange()
  {
    if t.rc < 0 then ClientFailure(t.rc)
    else if |t.resp| < 4 then Done
    else Decode(r, t.resp[1..|t.resp| - 2])
  }

  /** tcflush: bytes that were waiting before the request are thrown away. */
  function Flushed(link: Input, waiting: nat): Input {
    link.(incoming := link.incoming[Min(waiting, |link.incoming|)..])
  }

  /** The client context, holding its bus. */
  class RtuClient {
    var connected: bool
    var unitId: byte
    const localEcho: bool
    const line: Line

    constructor (unitId: byte, localEcho: bool, line: Line)
      ensures connected && this.unitId == unitId && this.localEcho == localEcho && this.line == line
    {
      connected, this.unitId, this.localEcho, this.line := true, unitId, localEcho, line;
    }

    /** The last read of a response, then its CRC and sender. */
    method FinishResponse(buf: array<byte>, have: nat, unit: byte, frameLen: nat, ghost r: Received)
      returns (rc: int, totalLen: nat)
      requires buf.Length == MAX_ADU_LENGTH && 2 <= have <= frameLen <= MAX_ADU_LENGTH
      requires r.link == line.link && r.bytes == buf[..have]
      modifies line, buf
      ensures var f := FinishFrame(r, unit, frameLen);
              rc == f.rc && line.link == f.link && totalLen <= MAX_ADU_LENGTH && buf[..totalLen] == f.bytes
    {
      ReadExactLength(CODES, line.link, frameLen - have);
      rc := line.ReceiveRest(CODES, buf, have, frameLen, r);
      if rc != 0 {
        return rc, have;
      }
      rc := CheckFrame(buf, frameLen, unit);
      return rc, frameLen;
    }

    static method CheckFrame(buf: array<byte>, frameLen: nat, unit: byte) returns (rc: int)
      requires 2 <= frameLen <= buf.Length
      ensures rc == FrameVerdict(buf[..frameLen], unit)
    {
      var crc := Crc.ValidateCrc(buf, frameLen);
      return if crc != 0 then IO_CRC_ERROR else if buf[0] != unit then IO_UNIT_ID_ERROR else 0;
    }

    /** recv_response */
    method ReceiveResponse(unit: byte, fc: byte, buf: array<byte>) returns (rc: int, totalLen: nat)
      requires buf.Length == MAX_ADU_LENGTH
      modifies line, buf
      ensures var r := RecvResponse(old(line.link), unit, fc);
              rc == r.rc && line.link == r.link &&
              totalLen <= MAX_ADU_LENGTH && buf[..totalLen] == r.bytes
    {
      ghost var start := line.link;
      totalLen := 0;
      ReadExactLength(CODES, line.link, 2);
      rc := line.Receive(CODES, buf, 0, 2);
      if rc != 0 {
        return;
      }
      ghost var two := ReadExact(CODES, start, 2);
      assert buf[..2] == two.bytes;
      totalLen := 2;
      var respFc := buf[1];
      if respFc == Pdu.ExceptionFunction(fc) {
        rc, totalLen := FinishResponse(buf, 2, unit, 5, two);
      } else if respFc != fc {
        rc := IO_FRAME_ERROR;
      } else if fc <= 4 {
        rc, totalLen := ReceiveRead(unit, fc, buf, two);
      } else {
        rc, totalLen := FinishResponse(buf, 2, unit, 8, two);
      }
    }

    /** The read-response branch of recv_response. */
    method ReceiveRead(unit: byte, fc: byte, buf: array<byte>, ghost two: Received) returns (rc: int, totalLen: nat)
      requires buf.Length == MAX_ADU_LENGTH && |two.bytes| == 2 && two.link == line.link && two.bytes == buf[..2]
      modifies line, buf
      ensures var r := RecvReadResponse(two, unit, fc);
              rc == r.rc && line.link == r.link &&
              totalLen <= MAX_ADU_LENGTH && buf[..totalLen] == r.bytes
    {
      totalLen := 2;
      ReadExactLength(CODES, line.link, 1);
      rc := line.Receive(CODES, buf, 2, 1);
      if rc != 0 {
        return;
      }
      ghost var three := Extend(CODES, two, 1);
      assert buf[..3] == buf[..2] + buf[2..3] == three.bytes;
      var frameLen := 3 + buf[2] as nat + 2;
      if frameLen > 256 {
        return IO_FRAME_ERROR, 3;
      }
      rc, totalLen := FinishResponse(buf, 3, unit, frameLen, three);
    }

    /** Read the local echo of the request back and compare it. */
    method CheckEcho(req: array<byte>, reqLen: nat) returns (ok: bool)
      requires reqLen <= req.Length && reqLen <= MAX_ADU_LENGTH
      modifies line
      ensures var e := AfterEcho(old(line.link), req[..reqLen], localEcho);
              line.link == e.link && ok == (e.rc == 0)
    {
      if !localEcho {
        return true;
      }
      ReadExactLength(CODES, line.link, reqLen);
      var echo := new byte[256];
      var rc := line.Receive(CODES, echo, 0, reqLen);
      return rc == 0 && echo[..reqLen] == req[..reqLen];
    }

    /** transact: waiting is what tcflush throws away, sending how write_all ends. */
    method DoTransact(pdu: array<byte>, pduLen: nat, resp: array<byte>, waiting: nat, sending: Sending)
      returns (rc: int, respLen: nat, ghost t: Transaction)
      requires 5 <= pduLen <= pdu.Length && pduLen <= Pdu.MAX_PDU_LENGTH
      requires resp.Length == MAX_ADU_LENGTH && pdu != resp
      modifies line, resp
      ensures t == Transact(connected, unitId, localEcho, pdu[..pduLen], Flushed(old(line.link), waiting), sending)
      ensures rc == t.rc
      ensures connected && !(unitId == 0 && !Pdu.IsWrite(pdu[0])) ==> line.link == t.link
      ensures respLen <= MAX_ADU_LENGTH && resp[..respLen] == t.resp
    {
      t := Transact(connected, unitId, localEcho, pdu[..pduLen], Flushed(line.link, waiting), sending);
      if !connected {
        return ERR_NOT_CONNECTED, 0, t;
      }
      if unitId == 0 && !Pdu.IsWrite(pdu[0]) {
        return ERR_ARG, 0, t;
      }
      line.link := Flushed(line.link, waiting);
      rc, respLen := DoExchange(pdu, pduLen, resp, sending);
    }

    /** The part of transact that runs under the locks. */
    method DoExchange(pdu: array<byte>, pduLen: nat, resp: array<byte>, sending: Sending)
      returns (rc: int, respLen: nat)
      requires 5 <= pduLen <= pdu.Length && pduLen <= Pdu.MAX_PDU_LENGTH
      requires resp.Length == MAX_ADU_LENGTH && pdu != resp
      modifies line, resp
      ensures var t := Exchange(unitId, localEcho, pdu[..pduLen], old(line.link), sending);
              rc == t.rc && line.link == t.link && respLen <= MAX_ADU_LENGTH && resp[..respLen] == t.resp
    {
      var req := BuildFrame(pdu, pduLen);
      if !sending.Delivered? {
        return ERR_TRANSPORT, 0;
      }
      var echoed := CheckEcho(req, pduLen + 3);
      if !echoed {
        return ERR_TRANSPORT, 0;
      }
      if unitId == 0 {
        return 0, 0;
      }
      rc, respLen := ReceiveReply(pdu, pduLen, resp, req[..pduLen + 3]);
    }

    /** From the response to the return code of transact. */
    method ReceiveReply(pdu: array<byte>, pduLen: nat, resp: array<byte>, ghost req: seq<byte>)
      returns (rc: int, respLen: nat)
      requires 5 <= pduLen <= pdu.Length && resp.Length == MAX_ADU_LENGTH && pdu != resp
      modifies line, resp
      ensures var t := AwaitReply(unitId, pdu[..pduLen], old(line.link), req);
              rc == t.rc && line.link == t.link && respLen <= MAX_ADU_LENGTH && resp[..respLen] == t.resp
    {
      ResponseIsFrame(line.link, unitId, pdu[0]);
      ghost var r := RecvResponse(line.link, unitId, pdu[0]);
      rc, respLen := ReceiveResponse(unitId, pdu[0], resp);
      if rc != 0 {
        return ClientError(rc), 0;
      }
      SliceOfPrefix(resp[..], r.bytes, 1, |r.bytes| - 2);
      assert resp[..][1..respLen - 2] == resp[1..respLen - 2];
      rc := Pdu.CheckResponse(pdu[..pduLen], resp[1..respLen - 2]);
      if rc == Pdu.ERR_FRAME {
        rc := ERR_FRAME;
      }
    }

    /** Unit id, PDU, CRC. */
    method BuildFrame(pdu: array<byte>, pduLen: nat) returns (req: array<byte>)
      requires 5 <= pduLen <= pdu.Length && pduLen <= Pdu.MAX_PDU_LENGTH
      ensures fresh(req) && req.Length == MAX_ADU_LENGTH
      ensures req[..pduLen + 3] == RtuFrames.SerialFrame(unitId, pdu[..pduLen])
    {
      req := new byte[256];
      req[0] := unitId;
      var i := 0;
      while i < pduLen
        invariant i <= pduLen && req[0] == unitId && req[1..i + 1] == pdu[..i]
      {
        req[i + 1] := pdu[i];
        i := i + 1;
      }
      assert req[..pduLen + 1] == [unitId] + pdu[..pduLen];
      var _ := Crc.AppendCrc(req, pduLen + 1, 256);
    }

    /** read_registers: FC03 and FC04 */
    method ReadRegisters(input: bool, addr: word, qty: word, out: array<word>, waiting: nat, sending: Sending)
      returns (rc: int, ghost t: Transaction)
      requires qty <= out.Length
      modifies line, out
      ensures var r := GetRegisters(input, addr, qty);
              if !r.InRange() then rc == -1 && line.link == old(line.link)
              else
                t == Transact(connected, unitId, localEcho, r.Encode(), Flushed(old(line.link), waiting), sending) &&
                rc == t.rc && (rc == 0 ==> AnswerOf(r, t) == Registers(out[..qty]))
      ensures rc != 0 ==> out[..] == old(out[..])
    {
      if qty == 0 || qty > 125 {
        return ERR_ARG, Transaction(ERR_ARG, [], line.link, []);
      }
      ghost var r := GetRegisters(input, addr, qty);
      ReadIsAnswered(r, connected, unitId, localEcho, Flushed(line.link, waiting), sending);
      var resp, respLen;
      rc, resp, respLen, t := SendFixed(RegistersFunction(input), addr, qty, waiting, sending);
      if rc == 0 {
        TakeRegisters(r, t, resp, respLen, qty, out);
      }
    }

    static method TakeRegisters(ghost r: Request, ghost t: Transaction, resp: array<byte>, respLen: nat,
                                qty: word, out: array<word>)
      requires r.GetRegisters? && r.InRange() && r.qty == qty <= out.Length && Answered(r, t)
      requires respLen <= resp.Length && resp[..respLen] == t.resp
      modifies out
      ensures AnswerOf(r, t) == Registers(out[..qty])
    {
      SliceOfPrefix(resp[..], t.resp, 1, |t.resp| - 2);
      assert resp[..][1..respLen - 2] == resp[1..respLen - 2];
      GetRegistersAt(r, t.resp[1..|t.resp| - 2], resp, 1, qty, out);
    }

    /** read_bits: FC01 and FC02 */
    method ReadCoils(discrete: bool, addr: word, qty: word, out: array<byte>, waiting: nat, sending: Sending)
      returns (rc: int, ghost t: Transaction)
      requires qty <= out.Length
      modifies line, out
      ensures var r := GetBits(discrete, addr, qty);
              if !r.InRange() then rc == -1 && line.link == old(line.link)
              else
                t == Transact(connected, unitId, localEcho, r.Encode(), Flushed(old(line.link), waiting), sending) &&
                rc == t.rc && (rc == 0 ==> AnswerOf(r, t) == Coils(out[..qty]))
      ensures rc != 0 ==> out[..] == old(out[..])
    {
      if qty == 0 || qty > 2000 {
        return ERR_ARG, Transaction(ERR_ARG, [], line.link, []);
      }
      ghost var r := GetBits(discrete, addr, qty);
      ReadIsAnswered(r, connected, unitId, localEcho, Flushed(line.link, waiting), sending);
      var resp, respLen;
      rc, resp, respLen, t := SendFixed(BitsFunction(discrete), addr, qty, waiting, sending);
      if rc == 0 {
        TakeCoils(r, t, resp, respLen, qty, out);
      }
    }

    static method TakeCoils(ghost r: Request, ghost t: Transaction, resp: array<byte>, respLen: nat,
                            qty: word, out: array<byte>)
      requires r.GetBits? && r.InRange() && r.qty == qty <= out.Length && Answered(r, t)
      requires respLen <= resp.Length && resp[..respLen] == t.resp && resp != out
      modifies out
      ensures AnswerOf(r, t) == Coils(out[..qty])
    {
      SliceOfPrefix(resp[..], t.resp, 1, |t.resp| - 2);
      assert resp[..][1..respLen - 2] == resp[1..respLen - 2];
      GetBitsAt(r, t.resp[1..|t.resp| - 2], resp, 1, qty, out);
    }

    /** write_single_register */
    method WriteRegister(addr: word, value: word, waiting: nat, sending: Sending)
      returns (rc: int, ghost t: Transaction)
      modifies line
      ensures t == Transact(connected, unitId, localEcho, SetRegister(addr, value).Encode(),
                            Flushed(old(line.link), waiting), sending)
      ensures rc == t.rc
    {
      var resp, respLen;
      rc, resp, respLen, t := SendFixed(Pdu.WRITE_SINGLE_REGISTER, addr, value, waiting, sending);
    }

    /** write_single_coil */
    method WriteCoil(addr: word, value: byte, waiting: nat, sending: Sending) returns (rc: int, ghost t: Transaction)
      modifies line
      ensures t == Transact(connected, unitId, localEcho, SetCoil(addr, value).Encode(),
                            Flushed(old(line.link), waiting), sending)
      ensures rc == t.rc
    {
      var resp, respLen;
      var wire: word := if value != 0 then 0xFF00 else 0x0000;
      rc, resp, respLen, t := SendFixed(Pdu.WRITE_SINGLE_COIL, addr, wire, waiting, sending);
    }

    /** write_multiple_registers */
    method WriteRegisters(addr: word, qty: word, data: array<word>, waiting: nat, sending: Sending)
      returns (rc: int, ghost t: Transaction)
      requires qty <= data.Length
      modifies line
      ensures var r := SetRegisters(addr, data[..qty]);
              if !r.InRange() then rc == -1 && line.link == old(line.link)
              else
                t == Transact(connected, unitId, localEcho, r.Encode(), Flushed(old(line.link), waiting), sending) &&
                rc == t.rc
    {
      if qty == 0 || qty > 123 {
        return ERR_ARG, Transaction(ERR_ARG, [], line.link, []);
      }
      var pdu, resp := new byte[253], new byte[256];
      var n := Pdu.BuildWriteRegisters(pdu, addr, qty, data);
      var respLen;
      rc, respLen, t := DoTransact(pdu, n, resp, waiting, sending);
    }

    /** write_multiple_coils */
    method WriteCoils(addr: word, qty: word, values: array<byte>, waiting: nat, sending: Sending)
      returns (rc: int, ghost t: Transaction)
      requires qty <= values.Length
      modifies line
      ensures var r := SetCoils(addr, values[..qty]);
              if !r.InRange() then rc == -1 && line.link == old(line.link)
              else
                t == Transact(connected, unitId, localEcho, r.Encode(), Flushed(old(line.link), waiting), sending) &&
                rc == t.rc
    {
      if qty == 0 || qty > 1968 {
        return ERR_ARG, Transaction(ERR_ARG, [], line.link, []);
      }
      var pdu, resp := new byte[253], new byte[256];
      var n := Pdu.BuildWriteCoils(pdu, addr, qty, values);
      var respLen;
      rc, respLen, t := DoTransact(pdu, n, resp, waiting, sending);
    }

    /** Build a request of the fixed layout in a local buffer and transact it. */
    method SendFixed(fc: byte, addr: word, qty: word, waiting: nat, sending: Sending)
      returns (rc: int, resp: array<byte>, respLen: nat, ghost t: Transaction)
      modifies line
      ensures t == Transact(connected, unitId, localEcho, Pdu.FixedRequest(fc, addr, qty),
                            Flushed(old(line.link), waiting), sending)
      ensures rc == t.rc && fresh(resp) && resp.Length == MAX_ADU_LENGTH
      ensures respLen <= MAX_ADU_LENGTH && resp[..respLen] == t.resp
    {
      var pdu := new byte[253];
      resp := new byte[256];
      var n := Pdu.BuildFixed(pdu, fc, addr, qty);
      assert pdu[..n] == Pdu.FixedRequest(fc, addr, qty);
      rc, respLen, t := DoTransact(pdu, n, resp, waiting, sending);
    }
  }

  predicate Answered(r: Request, t: Transaction)
    requires r.InRange()
  {
    t.rc == 0 && |t.resp| >= 5 && Pdu.CheckResponse(r.Encode(), t.resp[1..|t.resp| - 2]) == 0
  }

  /** A read that returns 0 holds a response PDU that passed the check. */
  lemma ReadIsAnswered(r: Request, connected: bool, unit: byte, localEcho: bool, link: Input, sending: Sending)
    requires (r.GetBits? || r.GetRegisters?) && r.InRange()
    ensures var t := Transact(connected, unit, localEcho, r.Encode(), link, sending);
            t.rc == 0 ==> Answered(r, t)
  {
    var t := Transact(connected, unit, localEcho, r.Encode(), link, sending);
    if t.rc == 0 {
      assert unit != 0;
      ResponseIsFrame(AfterEcho(link, RtuFrames.SerialFrame(unit, r.Encode()), localEcho).link, unit, r.Encode()[0]);
    }
  }
}
