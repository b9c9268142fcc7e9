/**
 * Request builders and the response check of src/modbus_pdu.c.  A PDU is the function code
 * and its data, without transport framing.
 */
module Pdu {
  import opened Bytes
  import opened Packing

  const READ_COILS: byte := 0x01
  const READ_DISCRETE_INPUTS: byte := 0x02
  const READ_HOLDING_REGISTERS: byte := 0x03
  const READ_INPUT_REGISTERS: byte := 0x04
  const WRITE_SINGLE_COIL: byte := 0x05
  const WRITE_SINGLE_REGISTER: byte := 0x06
  const WRITE_MULTIPLE_COILS: byte := 0x0F
  const WRITE_MULTIPLE_REGISTERS: byte := 0x10

  const MAX_PDU_LENGTH := 253
  const MAX_READ_REGISTERS := 125
  const MAX_WRITE_REGISTERS := 123
  const MAX_READ_BITS := 2000
  const MAX_WRITE_BITS := 1968
  const COIL_ON: word := 0xFF00
  const COIL_OFF: word := 0x0000

  const ILLEGAL_FUNCTION: byte := 0x01
  const ILLEGAL_DATA_ADDRESS: byte := 0x02
  const ILLEGAL_DATA_VALUE: byte := 0x03
  const SERVER_DEVICE_FAILURE: byte := 0x04

  const ERR_FRAME := -1

  predicate IsReadBits(fc: byte) { fc == READ_COILS || fc == READ_DISCRETE_INPUTS }

  predicate IsReadRegisters(fc: byte) { fc == READ_HOLDING_REGISTERS || fc == READ_INPUT_REGISTERS }

  predicate IsWriteMultiple(fc: byte) { fc == WRITE_MULTIPLE_COILS || fc == WRITE_MULTIPLE_REGISTERS }

  /** mb_pdu_is_write */
  predicate IsWrite(fc: byte) {
    fc == WRITE_SINGLE_COIL || fc == WRITE_SINGLE_REGISTER ||
    fc == WRITE_MULTIPLE_COILS || fc == WRITE_MULTIPLE_REGISTERS
  }

  predicate Supported(fc: byte) { IsReadBits(fc) || IsReadRegisters(fc) || IsWrite(fc) }

  /** fc | 0x80 */
  function ExceptionFunction(fc: byte): byte {
    if fc >= 0x80 then fc else fc + 0x80
  }

  /** Function code, address, and quantity or value: the layout of FC01-FC06. */
  function FixedRequest(fc: byte, addr: word, qty: word): (pdu: seq<byte>)
    ensures |pdu| == 5
  {
    [fc, Hi(addr), Lo(addr), Hi(qty), Lo(qty)]
  }

  /** Reading back the fields of a request that starts with the fixed layout. */
  lemma FixedFields(pdu: seq<byte>, fc: byte, addr: word, qty: word)
    requires |pdu| >= 5 && pdu[..5] == FixedRequest(fc, addr, qty)
    ensures pdu[0] == fc && GetU16(pdu, 1) == addr && GetU16(pdu, 3) == qty
  {
    var head := FixedRequest(fc, addr, qty);
    JoinOfParts(addr);
    JoinOfParts(qty);
    assert pdu[0] == head[0] && pdu[1] == head[1] && pdu[2] == head[2] && pdu[3] == head[3] && pdu[4] == head[4];
  }

  function WriteRegistersRequest(addr: word, data: seq<word>): (pdu: seq<byte>)
    requires |data| < 0x1_0000
    ensures |pdu| == 6 + 2 * |data|
  {
    FixedRequest(WRITE_MULTIPLE_REGISTERS, addr, |data|) + [TruncateByte(2 * |data|)] + EncodeWords(data)
  }

  function WriteCoilsRequest(addr: word, values: seq<byte>): (pdu: seq<byte>)
    requires |values| < 0x1_0000
    ensures |pdu| == 6 + BitByteCount(|values|)
  {
    FixedRequest(WRITE_MULTIPLE_COILS, addr, |values|) + [TruncateByte(BitByteCount(|values|))] + Pack(values)
  }

  /** mb_pdu_build_read, also used as mb_pdu_build_write_single */
  method BuildFixed(pdu: array<byte>, fc: byte, addr: word, qty: word) returns (n: nat)
    requires pdu.Length >= 5
    modifies pdu
    ensures n == 5 && pdu[..] == FixedRequest(fc, addr, qty) + old(pdu[5..])
  {
    pdu[0] := fc;
    pdu[1], pdu[2] := Hi(addr), Lo(addr);
    pdu[3], pdu[4] := Hi(qty), Lo(qty);
    return 5;
  }

  method BuildWriteRegisters(pdu: array<byte>, addr: word, qty: word, data: array<word>) returns (n: nat)
    requires qty <= data.Length && 6 + 2 * qty <= pdu.Length
    modifies pdu
    ensures n <= pdu.Length && pdu[..n] == WriteRegistersRequest(addr, data[..qty])
  {
    var _ := BuildFixed(pdu, WRITE_MULTIPLE_REGISTERS, addr, qty);
    pdu[5] := TruncateByte(2 * qty);
    ghost var head := pdu[..6];
    assert head == FixedRequest(WRITE_MULTIPLE_REGISTERS, addr, qty) + [TruncateByte(2 * qty)];
    PutWords(data, qty, pdu, 6);
    n := 6 + 2 * qty;
    assert pdu[..n] == head + EncodeWords(data[..qty]);
  }

  method BuildWriteCoils(pdu: array<byte>, addr: word, qty: word, values: array<byte>) returns (n: nat)
    requires qty <= values.Length && 6 + BitByteCount(qty) <= pdu.Length && values != pdu
    modifies pdu
    ensures n <= pdu.Length && pdu[..n] == WriteCoilsRequest(addr, values[..qty])
  {
    var count := BitByteCount(qty);
    var _ := BuildFixed(pdu, WRITE_MULTIPLE_COILS, addr, qty);
    pdu[5] := TruncateByte(count);
    PackBits(values, qty, pdu, 6);
    assert pdu[..6] == FixedRequest(WRITE_MULTIPLE_COILS, addr, qty) + [TruncateByte(count)];
    return 6 + count;
  }

  /** How many data bytes a read response must carry. */
  function ReadByteCount(fc: byte, qty: word): nat {
    if fc <= READ_DISCRETE_INPUTS then BitByteCount(qty) else 2 * qty
  }

  /** mb_pdu_check_response: 0 if valid, a positive exception code, or ERR_FRAME. */
  function CheckResponse(req: seq<byte>, resp: seq<byte>): int
    requires |req| >= 5
  {
    var fc, qty := req[0], GetU16(req, 3);
    if |resp| < 1 then ERR_FRAME
    else if resp[0] == ExceptionFunction(fc) then
      if |resp| != 2 || resp[1] == 0 then ERR_FRAME else resp[1]
    else if resp[0] != fc then ERR_FRAME
    else if IsReadBits(fc) || IsReadRegisters(fc) then
      var count := ReadByteCount(fc, qty);
      if |resp| != 2 + count || resp[1] != TruncateByte(count) then ERR_FRAME else 0
    else if IsWrite(fc) then
      if |resp| != 5 || resp[1..5] != req[1..5] then ERR_FRAME else 0
    else ERR_FRAME
  }

  /** A read-registers response PDU. */
  function ReadRegistersResponse(fc: byte, data: seq<word>): (pdu: seq<byte>)
    ensures |pdu| == 2 + 2 * |data|
  {
    [fc, TruncateByte(2 * |data|)] + EncodeWords(data)
  }

  // ---- Shared by the standalone builders and parsers of both transports ----

  /** The fields that a parser returns. */
  datatype Parsed = Rejected | Fields(fc: byte, addr: word, qty: word)

  /** FC06 carries a value where the others have a quantity; its quantity is 1. */
  function FieldsOf(pdu: seq<byte>): Parsed
    requires |pdu| >= 5
  {
    if pdu[0] == WRITE_SINGLE_REGISTER then Fields(pdu[0], GetU16(pdu, 1), 1)
    else Fields(pdu[0], GetU16(pdu, 1), GetU16(pdu, 3))
  }

  /** Write the five bytes of a fixed request at offset at. */
  method PutFixed(out: array<byte>, at: nat, fc: byte, addr: word, qty: word)
    requires at + 5 <= out.Length
    modifies out
    ensures out[..] == old(out[..at]) + FixedRequest(fc, addr, qty) + old(out[at + 5..])
  {
    out[at] := fc;
    out[at + 1], out[at + 2] := Hi(addr), Lo(addr);
    out[at + 3], out[at + 4] := Hi(qty), Lo(qty);
  }
}
