/**
 * The standalone request and response builders and the request parser of src/modbus_tcp.c,
 * with their own transaction identifier counter.
 */
module TcpFrames {
  import opened Bytes
  import opened Packing
  import opened Pdu
  import opened Mbap
  import TcpClient

  /** mb_tcp_parse_request: a whole ADU of a length in range, and possibly more bytes. */
  function ParseAdu(s: seq<byte>): Parsed {
    if |s| < 6 then Rejected
    else
      var len := GetU16(s, 4);
      if len < 6 || len > MAX_ADU_LENGTH - HEADER_LENGTH || |s| < HEADER_LENGTH + len then Rejected
      else FieldsOf(s[7..])
  }

  /** The header and the first bytes of a PDU, written in place. */
  method PutHeader(out: array<byte>, tid: word, len: word, unit: byte)
    requires out.Length >= 7
    modifies out
    ensures out[..7] == [Hi(tid), Lo(tid), 0, 0, Hi(len), Lo(len), unit]
    ensures forall k | 7 <= k < out.Length :: out[k] == old(out[k])
  {
    out[0], out[1], out[2], out[3] := Hi(tid), Lo(tid), 0, 0;
    out[4], out[5], out[6] := Hi(len), Lo(len), unit;
  }

  class TcpContext {
    var tid: word

    constructor ()
      ensures tid == 0
    {
      tid := 0;
    }

    method NextTid() returns (t: word)
      modifies this
      ensures t == tid == TcpClient.NextTid(old(tid))
    {
      if tid < 65535 {
        tid := tid + 1;
      } else {
        tid := 1;
      }
      return tid;
    }

    /** mb_tcp_build_request_basis; the FC06 builder differs only in its types. */
    method BuildRequestBasis(unit: byte, code: int, addr: int, nb: word, req: array?<byte>, cap: nat) returns (rc: int)
      requires req != null ==> cap <= req.Length
      modifies this, req
      ensures rc == if req == null || cap < 12 || !(0 <= code <= 255) || !(0 <= addr <= 65535) then -1 else 0
      ensures rc == 0 ==> tid == TcpClient.NextTid(old(tid)) &&
                          req[..12] == Adu(tid, unit, FixedRequest(code, addr, nb)) &&
                          forall k | 12 <= k < req.Length :: req[k] == old(req[k])
      ensures rc != 0 ==> tid == old(tid) && (req != null ==> req[..] == old(req[..]))
    {
      if req == null || cap < 12 {
        return -1;
      }
      if code < 0 || code > 255 || addr < 0 || addr > 65535 {
        return -1;
      }
      var t := NextTid();
      PutHeader(req, t, 1 + 5, unit);
      PutFixed(req, 7, code, addr, nb);
      return 0;
    }

    method BuildFc16Request(unit: byte, addr: word, num: word, values: array?<word>, req: array?<byte>, cap: nat)
      returns (rc: int)
      requires (req != null ==> cap <= req.Length) && (values != null ==> num <= values.Length)
      modifies this, req
      ensures rc == if req == null || values == null || num == 0 || num > MAX_WRITE_REGISTERS || cap < 13 + 2 * num
                    then -1 else 13 + 2 * num
      ensures rc > 0 ==> tid == TcpClient.NextTid(old(tid)) &&
                         req[..rc] == Adu(tid, unit, WriteRegistersRequest(addr, values[..num])) &&
                         forall k | rc <= k < req.Length :: req[k] == old(req[k])
      ensures rc < 0 ==> tid == old(tid) && (req != null ==> req[..] == old(req[..]))
    {
      if req == null || values == null || num == 0 || num > 123 {
        return -1;
      }
      var byteCount := TruncateByte(num * 2);
      var mbapLen := 7 + byteCount as nat;
      var total := 6 + mbapLen;
      if cap < total {
        return -1;
      }
      var t := NextTid();
      WriteFc16(t, unit, addr, num, values, req);
      return total;
    }
  }

  /** The bytes of an FC16 request before its data. */
  function Fc16Start(tid: word, unit: byte, addr: word, num: word): seq<byte>
    requires num <= MAX_WRITE_REGISTERS
  {
    [Hi(tid), Lo(tid), 0, 0, Hi(7 + 2 * num), Lo(7 + 2 * num), unit] +
    FixedRequest(WRITE_MULTIPLE_REGISTERS, addr, num) + [TruncateByte(num * 2)]
  }

  lemma Fc16Adu(tid: word, unit: byte, addr: word, data: seq<word>)
    requires |data| <= MAX_WRITE_REGISTERS
    ensures Fc16Start(tid, unit, addr, |data|) + EncodeWords(data) == Adu(tid, unit, WriteRegistersRequest(addr, data))
  {
    var head := [Hi(tid), Lo(tid), 0, 0, Hi(7 + 2 * |data|), Lo(7 + 2 * |data|), unit];
    var start := FixedRequest(WRITE_MULTIPLE_REGISTERS, addr, |data|);
    Associative(head, start, [TruncateByte(|data| * 2)]);
    Associative(head, start + [TruncateByte(|data| * 2)], EncodeWords(data));
  }

  method PutFc16Start(tid: word, unit: byte, addr: word, num: word, req: array<byte>)
    requires num <= MAX_WRITE_REGISTERS && 13 <= req.Length
    modifies req
    ensures req[..13] == Fc16Start(tid, unit, addr, num)
    ensures forall k | 13 <= k < req.Length :: req[k] == old(req[k])
  {
    PutHeader(req, tid, 7 + 2 * num, unit);
    PutFixed(req, 7, WRITE_MULTIPLE_REGISTERS, addr, num);
    req[12] := TruncateByte(num * 2);
  }

  method WriteFc16(tid: word, unit: byte, addr: word, num: word, values: array<word>, req: array<byte>)
    requires 1 <= num <= MAX_WRITE_REGISTERS && num <= values.Length && 13 + 2 * num <= req.Length
    modifies req
    ensures req[..13 + 2 * num] == Adu(tid, unit, WriteRegistersRequest(addr, values[..num]))
    ensures forall k | 13 + 2 * num <= k < req.Length :: req[k] == old(req[k])
  {
    PutFc16Start(tid, unit, addr, num, req);
    PutWords(values, num, req, 13);
    assert req[..13 + 2 * num] == Fc16Start(tid, unit, addr, num) + EncodeWords(values[..num]);
    Fc16Adu(tid, unit, addr, values[..num]);
  }

  method ParseRequest(request: array?<byte>, length: nat) returns (rc: int, fc: byte, addr: word, qty: word)
    requires request != null ==> length <= request.Length
    ensures if request == null then rc == -1
            else match ParseAdu(request[..length])
              case Rejected => rc == -1
              case Fields(f, a, q) => rc == 0 && fc == f && addr == a && qty == q
  {
    fc, addr, qty := 0, 0, 0;
    if request == null || length < 6 {
      return -1, fc, addr, qty;
    }
    var len := Join(request[4], request[5]);
    if len < 6 || len > 260 - 6 || length < 6 + len {
      return -1, fc, addr, qty;
    }
    fc := request[7];
    addr := Join(request[8], request[9]);
    if fc == 0x06 {
      qty := 1;
    } else {
      qty := Join(request[10], request[11]);
    }
    return 0, fc, addr, qty;
  }

  method BuildReadRegistersResponse(tid: word, fc: byte, unit: byte, data: array?<word>, qty: word,
                                    resp: array?<byte>, cap: nat) returns (rc: int)
    requires (resp != null ==> cap <= resp.Length) && (data != null ==> qty <= data.Length)
    modifies resp
    ensures rc == if resp == null || data == null || qty > MAX_READ_REGISTERS || cap < 9 + 2 * qty
                  then -1 else 9 + 2 * qty
    ensures rc > 0 ==> resp[..rc] == Adu(tid, unit, ReadRegistersResponse(fc, data[..qty])) &&
                       forall k | rc <= k < resp.Length :: resp[k] == old(resp[k])
    ensures rc < 0 && resp != null ==> resp[..] == old(resp[..])
  {
    if resp == null || data == null || qty > 125 {
      return -1;
    }
    var pduLen := 1 + 1 + qty * 2;
    var total := 6 + 1 + pduLen;
    if cap < total {
      return -1;
    }
    PutHeader(resp, tid, 1 + pduLen, unit);
    resp[7], resp[8] := fc, TruncateByte(qty * 2);
    ghost var head := resp[..7];
    PutWords(data, qty, resp, 9);
    assert resp[7..total] == [fc, TruncateByte(2 * qty)] + EncodeWords(data[..qty]);
    assert resp[..7] == head;
    assert resp[..total] == resp[..7] + resp[7..total];
    return total;
  }

  // ---- Round trips ----

  /** Each request builder's ADU, whatever follows it, is parsed to the arguments it was built from. */
  lemma ParseOfBuilt(tid: word, unit: byte, fc: byte, addr: word, nb: word, values: seq<word>, rest: seq<byte>)
    requires 1 <= |values| <= MAX_WRITE_REGISTERS
    ensures ParseAdu(Adu(tid, unit, FixedRequest(fc, addr, nb)) + rest) ==
            Fields(fc, addr, if fc == WRITE_SINGLE_REGISTER then 1 else nb)
    ensures ParseAdu(Adu(tid, unit, WriteRegistersRequest(addr, values)) + rest) ==
            Fields(WRITE_MULTIPLE_REGISTERS, addr, |values|)
  {
    ParseOfAdu(tid, unit, FixedRequest(fc, addr, nb), fc, addr, nb, rest);
    ParseOfAdu(tid, unit, WriteRegistersRequest(addr, values), WRITE_MULTIPLE_REGISTERS, addr, |values|, rest);
  }

  lemma SameHead(adu: seq<byte>, rest: seq<byte>)
    requires |adu| >= 6
    ensures GetU16(adu + rest, 4) == GetU16(adu, 4)
  {
    assert (adu + rest)[4] == adu[4] && (adu + rest)[5] == adu[5];
  }

  lemma ParseOfAdu(tid: word, unit: byte, pdu: seq<byte>, fc: byte, addr: word, qty: word, rest: seq<byte>)
    requires 5 <= |pdu| <= MAX_PDU_LENGTH && pdu[..5] == FixedRequest(fc, addr, qty)
    ensures ParseAdu(Adu(tid, unit, pdu) + rest) == Fields(fc, addr, if fc == WRITE_SINGLE_REGISTER then 1 else qty)
  {
    var adu := Adu(tid, unit, pdu);
    var s := adu + rest;
    AduFields(tid, unit, pdu);
    SameHead(adu, rest);
    assert s[7..] == pdu + rest;
    assert s[7..][..5] == pdu[..5];
    FixedFields(s[7..], fc, addr, qty);
  }
}
