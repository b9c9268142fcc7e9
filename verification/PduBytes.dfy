/**
 * The PDU layer in numbers: what stands in the bytes of a request, which responses a client
 * takes and what it reads in them, and what a server answers, byte by byte.
 */
module PduBytes {
  import opened Bytes
  import opened Bits
  import opened Packing
  import opened Pdu
  import opened Dispatch
  import opened PduProperties

  // ---- Numbers in bytes ----

  function Number(s: seq<byte>, i: nat): word
    requires i + 1 < |s|
  {
    var hi: nat, lo: nat := s[i], s[i + 1];
    256 * hi + lo
  }

  function Weight(k: nat): nat
    requires k < 8
  {
    [1, 2, 4, 8, 16, 32, 64, 128][k]
  }

  /** Coil i of the data that starts at offset at. */
  predicate CoilOn(s: seq<byte>, at: nat, i: nat)
    requires at + i / 8 < |s|
  {
    s[at + i / 8] / Weight(i % 8) % 2 == 1
  }

  /** From offset at on s holds these coils, and the bits behind the last one are clear. */
  ghost predicate EndsWithCoils(s: seq<byte>, at: nat, values: seq<byte>) {
    |s| == at + (|values| + 7) / 8 &&
    forall i | 0 <= i < 8 * ((|values| + 7) / 8) :: CoilOn(s, at, i) <==> i < |values| && values[i] != 0
  }

  /** From offset at on s holds these registers. */
  ghost predicate EndsWithRegisters(s: seq<byte>, at: nat, data: seq<word>) {
    |s| == at + 2 * |data| && forall i | 0 <= i < |data| :: Number(s, at + 2 * i) == data[i]
  }

  lemma {:induction false} ShiftIsDivision(y: nat, k: nat)
    requires k < 8
    ensures ShiftRight(y, k) == y / Weight(k)
  {
    if k > 0 {
      ShiftIsDivision(y / 2, k - 1);
      HalfThenRest(y, k);
    }
  }

  lemma HalfThenRest(y: nat, k: nat)
    requires 0 < k < 8
    ensures y / 2 / Weight(k - 1) == y / Weight(k)
  {
    if {
      case k == 1 => assert y / 2 / 1 == y / 2;
      case k == 2 => assert y / 2 / 2 == y / 4;
      case k == 3 => assert y / 2 / 4 == y / 8;
      case k == 4 => assert y / 2 / 8 == y / 16;
      case k == 5 => assert y / 2 / 16 == y / 32;
      case k == 6 => assert y / 2 / 32 == y / 64;
      case k == 7 => assert y / 2 / 64 == y / 128;
    }
  }

  lemma CoilIsPackedBit(s: seq<byte>, at: nat, i: nat)
    requires at + i / 8 < |s|
    ensures PackedBit(s[at..], i) == if CoilOn(s, at, i) then 1 else 0
  {
    ShiftIsDivision(s[at + i / 8], i % 8);
  }

  lemma PackedEndsWithCoils(head: seq<byte>, values: seq<byte>)
    ensures EndsWithCoils(head + Pack(values), |head|, values)
  {
    var s := head + Pack(values);
    assert s[|head|..] == Pack(values);
    forall i | 0 <= i < 8 * ((|values| + 7) / 8) ensures CoilOn(s, |head|, i) <==> i < |values| && values[i] != 0 {
      CoilIsPackedBit(s, |head|, i);
      PackedBitOfPack(values, i);
    }
  }

  lemma EncodedEndsWithRegisters(head: seq<byte>, data: seq<word>)
    ensures EndsWithRegisters(head + EncodeWords(data), |head|, data)
  {
    var s := head + EncodeWords(data);
    forall i | 0 <= i < |data| ensures Number(s, |head| + 2 * i) == data[i] {
      RegisterBytes(data, i);
      NumberBehind(head, EncodeWords(data), 2 * i);
    }
  }

  lemma NumberBehind(head: seq<byte>, e: seq<byte>, k: nat)
    requires k + 1 < |e|
    ensures Number(head + e, |head| + k) == Number(e, k)
  {
  }

  lemma RegisterBytes(data: seq<word>, i: nat)
    requires i < |data|
    ensures Number(EncodeWords(data), 2 * i) == data[i]
  {
    assert EncodeWords(data)[2 * i] == Hi(data[i]) && EncodeWords(data)[2 * i + 1] == Lo(data[i]);
    JoinOfParts(data[i]);
  }

  // ---- Requests ----

  /** The bytes of each client request. */
  ghost predicate RequestBytes(r: Request, pdu: seq<byte>) {
    |pdu| >= 5 && Number(pdu, 1) == r.addr &&
    match r
    case GetBits(discrete, _, qty) => |pdu| == 5 && pdu[0] == (if discrete then 2 else 1) && Number(pdu, 3) == qty
    case GetRegisters(input, _, qty) => |pdu| == 5 && pdu[0] == (if input then 4 else 3) && Number(pdu, 3) == qty
    case SetCoil(_, on) => |pdu| == 5 && pdu[0] == 5 && Number(pdu, 3) == (if on != 0 then 0xFF00 else 0)
    case SetRegister(_, value) => |pdu| == 5 && pdu[0] == 6 && Number(pdu, 3) == value
    case SetCoils(_, values) =>
      |pdu| >= 6 && pdu[0] == 15 && Number(pdu, 3) == |values| && pdu[5] == (|values| + 7) / 8 &&
      EndsWithCoils(pdu, 6, values)
    case SetRegisters(_, data) =>
      |pdu| >= 6 && pdu[0] == 16 && Number(pdu, 3) == |data| && pdu[5] == 2 * |data| &&
      EndsWithRegisters(pdu, 6, data)
  }

  /** Which arguments a client function takes. */
  lemma ArgumentsExactly(r: Request)
    ensures r.InRange() <==>
            match r
            case GetBits(_, _, qty) => 1 <= qty <= 2000
            case GetRegisters(_, _, qty) => 1 <= qty <= 125
            case SetCoils(_, values) => 1 <= |values| <= 1968
            case SetRegisters(_, data) => 1 <= |data| <= 123
            case _ => true
  {
  }

  lemma FixedBytes(pdu: seq<byte>, fc: byte, addr: word, qty: word)
    requires |pdu| >= 5 && pdu[..5] == FixedRequest(fc, addr, qty)
    ensures pdu[0] == fc && Number(pdu, 1) == addr && Number(pdu, 3) == qty
  {
    FixedFields(pdu, fc, addr, qty);
  }

  /** What a client puts into its request PDU. */
  lemma EncodedBytes(r: Request)
    requires r.InRange()
    ensures RequestBytes(r, r.Encode())
  {
    match r
    case GetBits(discrete, addr, qty) => FixedBytes(r.Encode(), BitsFunction(discrete), addr, qty);
    case GetRegisters(input, addr, qty) => FixedBytes(r.Encode(), RegistersFunction(input), addr, qty);
    case SetCoil(addr, on) => FixedBytes(r.Encode(), WRITE_SINGLE_COIL, addr, CoilWire(on));
    case SetRegister(addr, value) => FixedBytes(r.Encode(), WRITE_SINGLE_REGISTER, addr, value);
    case SetCoils(addr, values) => CoilsRequestBytes(addr, values);
    case SetRegisters(addr, data) => RegistersRequestBytes(addr, data);
  }

  lemma CoilsRequestBytes(addr: word, values: seq<byte>)
    requires 1 <= |values| <= 1968
    ensures RequestBytes(SetCoils(addr, values), WriteCoilsRequest(addr, values))
  {
    var start := FixedRequest(WRITE_MULTIPLE_COILS, addr, |values|);
    var head := start + [TruncateByte(BitByteCount(|values|))];
    FixedBytes(head + Pack(values), WRITE_MULTIPLE_COILS, addr, |values|);
    PackedEndsWithCoils(head, values);
  }

  lemma RegistersRequestBytes(addr: word, data: seq<word>)
    requires 1 <= |data| <= 123
    ensures RequestBytes(SetRegisters(addr, data), WriteRegistersRequest(addr, data))
  {
    var start := FixedRequest(WRITE_MULTIPLE_REGISTERS, addr, |data|);
    var head := start + [TruncateByte(2 * |data|)];
    FixedBytes(head + EncodeWords(data), WRITE_MULTIPLE_REGISTERS, addr, |data|);
    EncodedEndsWithRegisters(head, data);
  }

  // ---- Responses, at the client ----

  /** fc with its top bit set. */
  function Marked(fc: byte): byte { if fc < 128 then fc + 128 else fc }

  /** A response that answers the request: an echo of a write, or as many data bytes as a read asks for. */
  predicate Answering(req: seq<byte>, resp: seq<byte>)
    requires |req| >= 5
  {
    if req[0] == 5 || req[0] == 6 || req[0] == 15 || req[0] == 16 then resp == req[..5]
    else
      var q: nat := Number(req, 3);
      var count := if req[0] == 1 || req[0] == 2 then (q + 7) / 8 else 2 * q;
      1 <= req[0] <= 4 && |resp| == 2 + count && resp[0] == req[0] && resp[1] == count % 256
  }

  /**
   * Which responses a client takes, for all bytes: 0 exactly for one that answers the request, a
   * positive code exactly for an exception with that code, and -1 for everything else.
   */
  lemma CheckResponseExactly(req: seq<byte>, resp: seq<byte>)
    requires |req| >= 5
    ensures var rc := CheckResponse(req, resp);
            (rc == 0 <==> Answering(req, resp)) &&
            (forall c: byte | c > 0 :: rc == c <==> resp == [Marked(req[0]), c]) &&
            (rc == -1 <==> !Answering(req, resp) && !(|resp| == 2 && resp[0] == Marked(req[0]) && resp[1] > 0)) &&
            -1 <= rc < 256
  {
    if resp == [] || resp[0] == Marked(req[0]) {
      CheckOfMarked(req, resp);
    } else {
      CheckOfUnmarked(req, resp);
    }
  }

  lemma CheckOfMarked(req: seq<byte>, resp: seq<byte>)
    requires |req| >= 5 && (resp == [] || resp[0] == Marked(req[0]))
    ensures !Answering(req, resp)
    ensures CheckResponse(req, resp) == if |resp| == 2 && resp[1] > 0 then resp[1] else -1
  {
    if req[0] < 128 && |resp| == 5 {
      assert req[..5][0] == req[0];
    }
  }

  lemma CheckOfUnmarked(req: seq<byte>, resp: seq<byte>)
    requires |req| >= 5 && resp != [] && resp[0] != Marked(req[0])
    ensures CheckResponse(req, resp) == if Answering(req, resp) then 0 else -1
  {
    if |resp| == 5 {
      assert resp == [resp[0]] + resp[1..5] && req[..5] == [req[0]] + req[1..5];
    }
  }

  /** What a client function makes of a response PDU. */
  lemma DecodedBytes(r: Request, resp: seq<byte>)
    requires r.InRange()
    ensures var rc, answer := CheckResponse(r.Encode(), resp), Decode(r, resp);
            (rc < 0 ==> answer == ClientFailure(rc)) && (rc > 0 ==> answer == Exception(rc)) &&
            (rc == 0 ==>
               match r
               case GetBits(_, _, qty) =>
                 |resp| == 2 + (qty + 7) / 8 && answer.Coils? && |answer.values| == qty &&
                 forall i | 0 <= i < qty :: answer.values[i] == if CoilOn(resp, 2, i) then 1 else 0
               case GetRegisters(_, _, qty) =>
                 |resp| == 2 + 2 * qty && answer.Registers? && |answer.data| == qty &&
                 forall i | 0 <= i < qty :: answer.data[i] == Number(resp, 2 + 2 * i)
               case _ => answer == Done)
  {
    CheckResponseExactly(r.Encode(), resp);
    if CheckResponse(r.Encode(), resp) == 0 {
      CheckedLength(r, resp);
      if r.GetBits? {
        forall i | 0 <= i < r.qty ensures Unpack(resp[2..], r.qty)[i] == if CoilOn(resp, 2, i) then 1 else 0 {
          CoilIsPackedBit(resp, 2, i);
        }
      }
    }
  }

  // ---- Requests, at the server ----

  predicate Known(fc: byte) { 1 <= fc <= 6 || fc == 15 || fc == 16 }

  predicate HandlerFor<S>(h: Handlers<S>, fc: byte) {
    if fc == 1 || fc == 2 then h.hasReadBits
    else if fc == 3 || fc == 4 then h.hasReadRegisters
    else if fc == 5 || fc == 15 then h.hasWriteBits
    else h.hasWriteRegisters
  }

  predicate DataFits(req: seq<byte>)
    requires |req| >= 5
  {
    var fc, q := req[0], Number(req, 3);
    if fc == 1 || fc == 2 then 1 <= q <= 2000
    else if fc == 3 || fc == 4 then 1 <= q <= 125
    else if fc == 5 then q == 0xFF00 || q == 0
    else if fc == 15 then 1 <= q <= 1968 && |req| == 6 + (q + 7) / 8 && req[5] == (q + 7) / 8
    else if fc == 16 then 1 <= q <= 123 && |req| == 6 + 2 * q && req[5] == 2 * q
    else true
  }

  predicate RangeFits(req: seq<byte>)
    requires |req| >= 5
  {
    req[0] == 5 || req[0] == 6 || Number(req, 1) + Number(req, 3) <= 65536
  }

  /** The exception with which a request is refused before any handler is called, or 0. */
  function RefusalCode<S>(h: Handlers<S>, req: seq<byte>): byte
    requires |req| >= 1
  {
    if !Known(req[0]) then 1
    else if |req| < 5 then 3
    else if !HandlerFor(h, req[0]) then 1
    else if !DataFits(req) then 3
    else if !RangeFits(req) then 2
    else 0
  }

  /** The call that the request's bytes ask for. */
  ghost predicate CallBytes(call: Call, req: seq<byte>)
    requires |req| >= 5
  {
    var fc, addr, q := req[0], Number(req, 1), Number(req, 3);
    if fc == 1 || fc == 2 then call == ReadBits(fc, addr, q)
    else if fc == 3 || fc == 4 then call == ReadRegisters(fc, addr, q)
    else if fc == 5 then call == WriteBits(addr, [if q == 0xFF00 then 1 else 0])
    else if fc == 6 then call == WriteRegisters(addr, [q])
    else if fc == 15 then
      call.WriteBits? && call.addr == addr && |call.bits| == q && |req| == 6 + (q + 7) / 8 &&
      forall i | 0 <= i < q :: call.bits[i] == if CoilOn(req, 6, i) then 1 else 0
    else
      call.WriteRegisters? && call.addr == addr && |call.data| == q && |req| == 6 + 2 * q &&
      forall i | 0 <= i < q :: call.data[i] == Number(req, 6 + 2 * i)
  }

  function FirstWords(words: nat -> word, q: nat): (data: seq<word>)
    ensures |data| == q && forall i | 0 <= i < q :: data[i] == words(i)
  {
    seq<word>(q, i requires 0 <= i < q => words(i))
  }

  function FirstBits(bits: nat -> byte, q: nat): (values: seq<byte>)
    ensures |values| == q && forall i | 0 <= i < q :: values[i] == bits(i)
  {
    seq<byte>(q, i requires 0 <= i < q => bits(i))
  }

  /** The response to a call that returned 0. */
  ghost predicate AnswerBytes<S>(reply: Reply<S>, req: seq<byte>, resp: seq<byte>)
    requires |req| >= 5
  {
    var fc, q: nat := req[0], Number(req, 3);
    if fc == 1 || fc == 2 then
      |resp| >= 2 && resp[0] == fc && resp[1] == (q + 7) / 8 &&
      EndsWithCoils(resp, 2, FirstBits(reply.bits, q))
    else if fc == 3 || fc == 4 then
      |resp| >= 2 && resp[0] == fc && resp[1] == 2 * q &&
      EndsWithRegisters(resp, 2, FirstWords(reply.words, q))
    else resp == req[..5]
  }

  /** The exception codes that a callback may return; any other nonzero code becomes 4. */
  function CallbackException(rc: int): byte {
    if 1 <= rc <= 6 || rc == 8 || rc == 10 || rc == 11 then rc else 4
  }

  /**
   * What a server makes of a request PDU, for all bytes, handlers and states: an exception
   * without a call, or exactly the call asked for and its answer or exception.
   */
  ghost predicate ServedByBytes<S>(h: Handlers<S>, s: S, req: seq<byte>, o: Outcome<S>)
    requires |req| >= 1
  {
    var code := RefusalCode(h, req);
    if code != 0 then o == Outcome([Marked(req[0]), code], s, [])
    else
      |o.calls| == 1 && CallBytes(o.calls[0], req) &&
      var reply := h.run(s, o.calls[0]);
      o.state == reply.state &&
      if reply.rc == 0 then AnswerBytes(reply, req, o.resp)
      else o.resp == [req[0] + 128, CallbackException(reply.rc)]
  }

  lemma BitsAnswer<S>(reply: Reply<S>, req: seq<byte>)
    requires |req| >= 5 && (req[0] == 1 || req[0] == 2) && DataFits(req)
    ensures var q: nat := Number(req, 3);
            AnswerBytes(reply, req, [req[0], TruncateByte(BitByteCount(q))] + Pack(BitsRead(reply, q)))
  {
    var q: nat := Number(req, 3);
    assert BitsRead(reply, q) == FirstBits(reply.bits, q);
    PackedEndsWithCoils([req[0], TruncateByte(BitByteCount(q))], BitsRead(reply, q));
  }

  lemma ReadBitsByBytes<S>(h: Handlers<S>, s: S, req: seq<byte>)
    requires |req| >= 5 && (req[0] == 1 || req[0] == 2)
    ensures ServedByBytes(h, s, req, HandleReadBits(h, s, req[0], Number(req, 1), Number(req, 3)))
  {
    if DataFits(req) {
      BitsAnswer(h.run(s, ReadBits(req[0], Number(req, 1), Number(req, 3))), req);
    }
  }

  lemma RegistersAnswer<S>(reply: Reply<S>, req: seq<byte>)
    requires |req| >= 5 && (req[0] == 3 || req[0] == 4) && DataFits(req)
    ensures AnswerBytes(reply, req, ReadRegistersResponse(req[0], WordsRead(reply, Number(req, 3))))
  {
    var q: nat := Number(req, 3);
    assert WordsRead(reply, q) == FirstWords(reply.words, q);
    EncodedEndsWithRegisters([req[0], TruncateByte(2 * q)], WordsRead(reply, q));
  }

  lemma ReadRegistersByBytes<S>(h: Handlers<S>, s: S, req: seq<byte>)
    requires |req| >= 5 && (req[0] == 3 || req[0] == 4)
    ensures ServedByBytes(h, s, req, HandleReadRegisters(h, s, req[0], Number(req, 1), Number(req, 3)))
  {
    if DataFits(req) {
      RegistersAnswer(h.run(s, ReadRegisters(req[0], Number(req, 1), Number(req, 3))), req);
    }
  }

  lemma WriteSingleByBytes<S>(h: Handlers<S>, s: S, req: seq<byte>)
    requires |req| >= 5
    ensures req[0] == 5 ==> ServedByBytes(h, s, req, HandleWriteSingleCoil(h, s, req))
    ensures req[0] == 6 ==> ServedByBytes(h, s, req, HandleWriteSingleRegister(h, s, req))
  {
  }

  lemma MultipleCallBytes(req: seq<byte>)
    requires |req| >= 6 && DataFits(req) && (req[0] == 15 || req[0] == 16)
    ensures CallBytes(WriteMultipleCall(req[0] == 15, Number(req, 1), Number(req, 3), req), req)
  {
    if req[0] == 15 {
      forall i | 0 <= i < Number(req, 3)
        ensures Unpack(req[6..], Number(req, 3))[i] == if CoilOn(req, 6, i) then 1 else 0
      {
        CoilIsPackedBit(req, 6, i);
      }
    }
  }

  lemma WriteMultipleByBytes<S>(h: Handlers<S>, s: S, req: seq<byte>)
    requires |req| >= 5 && (req[0] == 15 || req[0] == 16)
    ensures ServedByBytes(h, s, req, HandleWriteMultiple(h, s, req))
  {
    if DataFits(req) {
      MultipleCallBytes(req);
    }
  }

  /**
   * For every request PDU, handler set and state the server answers as `ServedByBytes` says.
   */
  lemma RequestServedByBytes<S>(h: Handlers<S>, s: S, req: seq<byte>)
    requires |req| >= 1
    ensures ServedByBytes(h, s, req, HandleRequest(h, s, req))
  {
    if |req| >= 5 && Known(req[0]) {
      if req[0] <= 2 {
        ReadBitsByBytes(h, s, req);
      } else if req[0] <= 4 {
        ReadRegistersByBytes(h, s, req);
      } else if req[0] <= 6 {
        WriteSingleByBytes(h, s, req);
      } else {
        WriteMultipleByBytes(h, s, req);
      }
    }
  }
}
