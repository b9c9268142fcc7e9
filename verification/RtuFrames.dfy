/**
 * The standalone request and response builders and the request parser of src/modbus_rtu.c.
 * They are a second encoder beside src/modbus_pdu.c; each builder produces the PDU layer's
 * bytes between the unit id and the CRC.
 */
module RtuFrames {
  import opened Bytes
  import opened Packing
  import opened Pdu
  import Crc

  const MAX_ADU_LENGTH := 256
  const MIN_REQUEST_LENGTH := 8

  /** A PDU framed for the serial line. */
  function SerialFrame(unit: byte, pdu: seq<byte>): (frame: seq<byte>)
    ensures |frame| == |pdu| + 3
  {
    Crc.WithCrc([unit] + pdu)
  }

  function ParseFrame(frame: seq<byte>): Parsed {
    if |frame| < MIN_REQUEST_LENGTH || !Crc.ValidFrame(frame) then Rejected else FieldsOf(frame[1..])
  }

  /** mb_rtu_build_request_basis; mb_rtu_build_fc06_request calls it with function code 6 */
  method BuildRequestBasis(unit: byte, code: int, addr: int, nb: word, req: array?<byte>, cap: nat) returns (rc: int)
    requires req != null ==> cap <= req.Length
    modifies req
    ensures rc == if req == null || cap < 8 || !(0 <= code <= 255) || !(0 <= addr <= 65535) then -1 else 8
    ensures rc == 8 ==> req[..8] == SerialFrame(unit, FixedRequest(code, addr, nb)) && req[8..] == old(req[8..])
    ensures rc != 8 && req != null ==> req[..] == old(req[..])
  {
    if req == null || cap < 8 {
      return -1;
    }
    if code < 0 || code > 255 || addr < 0 || addr > 65535 {
      return -1;
    }
    PutFixed(req, 1, code, addr, nb);
    ghost var tail := req[6..];
    req[0] := unit;
    assert req[..6] == [unit] + FixedRequest(code, addr, nb);
    var _ := Crc.AppendCrc(req, 6, cap);
    return 8;
  }

  method BuildFc16Request(unit: byte, addr: word, num: word, values: array?<word>, req: array?<byte>, cap: nat)
    returns (rc: int)
    requires (req != null ==> cap <= req.Length) && (values != null ==> num <= values.Length)
    modifies req
    ensures rc == if req == null || values == null || num == 0 || num > MAX_WRITE_REGISTERS || cap < 9 + 2 * num then -1
                  else 9 + 2 * num
    ensures rc > 0 ==> req[..rc] == SerialFrame(unit, WriteRegistersRequest(addr, values[..num]))
    ensures rc > 0 ==> req[rc..] == old(req[rc..])
    ensures rc < 0 && req != null ==> req[..] == old(req[..])
  {
    if req == null || values == null || num == 0 || num > 123 {
      return -1;
    }
    var byteCount := TruncateByte(num * 2);
    var total := 9 + byteCount as nat;
    if cap < total || total > 256 {
      return -1;
    }
    WriteFc16Request(unit, addr, num, byteCount, values, req, cap);
    return total;
  }

  method WriteFc16Request(unit: byte, addr: word, num: word, byteCount: byte, values: array<word>, req: array<byte>,
                          cap: nat)
    requires num <= values.Length && byteCount == 2 * num && 9 + 2 * num <= cap <= req.Length
    modifies req
    ensures req[..9 + 2 * num] == SerialFrame(unit, WriteRegistersRequest(addr, values[..num]))
    ensures forall k | 9 + 2 * num <= k < req.Length :: req[k] == old(req[k])
  {
    PutFc16Head(unit, addr, num, byteCount, req);
    Seal(req, 7, Fc16Head(unit, addr, num, byteCount), values, num, cap);
    Fc16Frame(unit, addr, values[..num], byteCount);
  }

  function Fc16Head(unit: byte, addr: word, num: word, byteCount: byte): seq<byte> {
    [unit] + (FixedRequest(WRITE_MULTIPLE_REGISTERS, addr, num) + [byteCount])
  }

  lemma Fc16Frame(unit: byte, addr: word, data: seq<word>, byteCount: byte)
    requires byteCount == 2 * |data|
    ensures Fc16Head(unit, addr, |data|, byteCount) + EncodeWords(data) == [unit] + WriteRegistersRequest(addr, data)
  {
    Associative([unit], FixedRequest(WRITE_MULTIPLE_REGISTERS, addr, |data|) + [byteCount], EncodeWords(data));
  }

  /** The seven bytes before the data of an FC16 request. */
  method PutFc16Head(unit: byte, addr: word, num: word, byteCount: byte, req: array<byte>)
    requires req.Length >= 7
    modifies req
    ensures req[..7] == Fc16Head(unit, addr, num, byteCount)
    ensures forall k | 7 <= k < req.Length :: req[k] == old(req[k])
  {
    PutFixed(req, 1, 0x10, addr, num);
    req[0], req[6] := unit, byteCount;
  }

  /** Append num registers and the CRC to the first at bytes of a frame. */
  method Seal(frame: array<byte>, at: nat, ghost head: seq<byte>, values: array<word>, num: word, cap: nat)
    requires num <= values.Length && at + 2 * num + 2 <= cap <= frame.Length && frame[..at] == head
    modifies frame
    ensures frame[..at + 2 * num + 2] == Crc.WithCrc(head + EncodeWords(values[..num]))
    ensures forall k | at + 2 * num + 2 <= k < frame.Length :: frame[k] == old(frame[k])
  {
    PutWords(values, num, frame, at);
    assert frame[..at + 2 * num] == head + EncodeWords(values[..num]);
    var _ := Crc.AppendCrc(frame, at + 2 * num, cap);
  }

  method ParseRequest(request: array?<byte>, length: nat) returns (rc: int, fc: byte, addr: word, qty: word)
    requires request != null ==> length <= request.Length
    ensures if request == null then rc == -1
            else match ParseFrame(request[..length])
              case Rejected => rc == -1
              case Fields(f, a, q) => rc == 0 && fc == f && addr == a && qty == q
  {
    fc, addr, qty := 0, 0, 0;
    if request == null || length < 8 {
      return -1, fc, addr, qty;
    }
    rc := Crc.ValidateCrc(request, length);
    if rc != 0 {
      return;
    }
    fc := request[1];
    addr := Join(request[2], request[3]);
    if fc == 0x06 {
      qty := 1;
    } else {
      qty := Join(request[4], request[5]);
    }
  }

  method BuildReadRegistersResponse(fc: byte, unit: byte, data: array?<word>, qty: word, resp: array?<byte>, cap: nat)
    returns (rc: int)
    requires (resp != null ==> cap <= resp.Length) && (data != null ==> qty <= data.Length)
    modifies resp
    ensures rc == if resp == null || data == null || qty > MAX_READ_REGISTERS || cap < 5 + 2 * qty
                  then -1 else 5 + 2 * qty
    ensures rc > 0 ==> resp[..rc] == SerialFrame(unit, ReadRegistersResponse(fc, data[..qty]))
    ensures rc > 0 ==> resp[rc..] == old(resp[rc..])
    ensures rc < 0 && resp != null ==> resp[..] == old(resp[..])
  {
    if resp == null || data == null || qty > 125 {
      return -1;
    }
    var total := 5 + qty * 2;
    if cap < total || total > 256 {
      return -1;
    }
    resp[0], resp[1], resp[2] := unit, fc, TruncateByte(qty * 2);
    ghost var head := [unit] + [fc, TruncateByte(qty * 2)];
    assert resp[..3] == head;
    Seal(resp, 3, head, data, qty, cap);
    ResponseFrame(unit, fc, data[..qty]);
    return total;
  }

  lemma ResponseFrame(unit: byte, fc: byte, data: seq<word>)
    ensures [unit] + [fc, TruncateByte(|data| * 2)] + EncodeWords(data) == [unit] + ReadRegistersResponse(fc, data)
  {
    Associative([unit], [fc, TruncateByte(|data| * 2)], EncodeWords(data));
  }

  // ---- Round trips ----

  /** A frame that starts with a fixed request, whatever data follows, parses to its fields. */
  lemma ParseOfFrame(unit: byte, pdu: seq<byte>, fc: byte, addr: word, qty: word)
    requires |pdu| >= 5 && pdu[..5] == FixedRequest(fc, addr, qty)
    ensures ParseFrame(SerialFrame(unit, pdu)) == Fields(fc, addr, if fc == WRITE_SINGLE_REGISTER then 1 else qty)
  {
    var frame := SerialFrame(unit, pdu);
    Crc.AppendThenValidate([unit] + pdu, frame);
    assert frame[1..][..5] == pdu[..5];
    FixedFields(frame[1..], fc, addr, qty);
  }

  /** Each request builder's frame is parsed to the arguments it was built from. */
  lemma ParseOfBuilt(unit: byte, fc: byte, addr: word, nb: word, values: seq<word>)
    requires |values| < 0x1_0000
    ensures ParseFrame(SerialFrame(unit, FixedRequest(fc, addr, nb))) ==
            Fields(fc, addr, if fc == WRITE_SINGLE_REGISTER then 1 else nb)
    ensures ParseFrame(SerialFrame(unit, WriteRegistersRequest(addr, values))) ==
            Fields(WRITE_MULTIPLE_REGISTERS, addr, |values|)
  {
    ParseOfFrame(unit, FixedRequest(fc, addr, nb), fc, addr, nb);
    ParseOfFrame(unit, WriteRegistersRequest(addr, values), WRITE_MULTIPLE_REGISTERS, addr, |values|);
  }
}
