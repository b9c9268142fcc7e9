/**
 * What the dispatcher promises for every request PDU, and that a client request carried
 * through encode, dispatch, check and decode is a direct call of the handler.
 */
module PduProperties {
  import opened Bytes
  import opened Packing
  import opened Pdu
  import opened Dispatch

  // ---- Every request ----

  /** The call, if any, that a dispatch makes; at most one, in limits, to an installed handler. */
  ghost predicate CallsAreSound<S>(h: Handlers<S>, s: S, o: Outcome<S>) {
    match |o.calls|
    case 0 => o.state == s
    case 1 => HasHandler(h, o.calls[0]) && o.calls[0].InLimits() && o.state == h.run(s, o.calls[0]).state
    case _ => false
  }

  lemma DispatchIsSound<S>(h: Handlers<S>, s: S, req: seq<byte>)
    requires 1 <= |req|
    ensures var o := HandleRequest(h, s, req);
            2 <= |o.resp| <= MAX_PDU_LENGTH && CallsAreSound(h, s, o)
  {
  }

  /** The exception a dispatch answers with, or 0. */
  ghost predicate AnswersAsPromised<S>(h: Handlers<S>, s: S, o: Outcome<S>, rc: int) {
    if |o.calls| == 1 then
      var handlerRc := h.run(s, o.calls[0]).rc;
      rc == if handlerRc == 0 then 0 else ExceptionFromRc(handlerRc)
    else rc in {1, 2, 3}
  }

  /**
   * For every request of at least 5 bytes, every function code and every handler set: the
   * answer has 2 to 253 bytes, at most one handler is called, with a quantity and a range in
   * limits, and the client's check accepts the answer: it is 0 exactly when a handler was called
   * and returned 0, otherwise the exception code.
   */
  lemma CheckAcceptsDispatch<S>(h: Handlers<S>, s: S, req: seq<byte>)
    requires 5 <= |req|
    ensures var o := HandleRequest(h, s, req);
            var rc := CheckResponse(req, o.resp);
            2 <= |o.resp| <= MAX_PDU_LENGTH && CallsAreSound(h, s, o) &&
            rc >= 0 && rc != ERR_FRAME && AnswersAsPromised(h, s, o, rc) &&
            (rc == 0 <==> |o.calls| == 1 && h.run(s, o.calls[0]).rc == 0)
  {
    DispatchIsSound(h, s, req);
    if !Supported(req[0]) {
      CheckOfException(req, ILLEGAL_FUNCTION);
    } else if IsWrite(req[0]) {
      CheckOfWrite(h, s, req);
    } else {
      CheckOfRead(h, s, req);
    }
  }

  lemma CheckOfException(req: seq<byte>, code: byte)
    requires 5 <= |req| && code != 0
    ensures CheckResponse(req, ExceptionResponse(req[0], code)) == code
  {
  }

  lemma CheckOfEcho(req: seq<byte>)
    requires 5 <= |req| && IsWrite(req[0])
    ensures CheckResponse(req, req[..5]) == 0
  {
    assert req[..5][1..5] == req[1..5];
  }

  lemma CheckOfWrite<S>(h: Handlers<S>, s: S, req: seq<byte>)
    requires 5 <= |req| && IsWrite(req[0])
    ensures var o := HandleRequest(h, s, req);
            var rc := CheckResponse(req, o.resp);
            AnswersAsPromised(h, s, o, rc) && |o.calls| <= 1
  {
    CheckOfEcho(req);
    CheckOfException(req, ILLEGAL_FUNCTION);
    CheckOfException(req, ILLEGAL_DATA_VALUE);
    CheckOfException(req, ILLEGAL_DATA_ADDRESS);
    var o := HandleRequest(h, s, req);
    if o.calls != [] {
      CheckOfException(req, ExceptionFromRc(h.run(s, o.calls[0]).rc));
    }
  }

  lemma CheckOfRead<S>(h: Handlers<S>, s: S, req: seq<byte>)
    requires 5 <= |req| && Supported(req[0]) && !IsWrite(req[0])
    ensures var o := HandleRequest(h, s, req);
            var rc := CheckResponse(req, o.resp);
            AnswersAsPromised(h, s, o, rc) && |o.calls| <= 1
  {
    CheckOfException(req, ILLEGAL_FUNCTION);
    CheckOfException(req, ILLEGAL_DATA_VALUE);
    CheckOfException(req, ILLEGAL_DATA_ADDRESS);
    var o := HandleRequest(h, s, req);
    if o.calls != [] {
      CheckOfException(req, ExceptionFromRc(h.run(s, o.calls[0]).rc));
    }
  }

  /** The handler that a supported function code needs is installed. */
  predicate Installed<S>(h: Handlers<S>, fc: byte) {
    if IsReadBits(fc) then h.hasReadBits
    else if IsReadRegisters(fc) then h.hasReadRegisters
    else if fc == WRITE_SINGLE_COIL || fc == WRITE_MULTIPLE_COILS then h.hasWriteBits
    else h.hasWriteRegisters
  }

  predicate IsWriteSingle(fc: byte) { fc == WRITE_SINGLE_COIL || fc == WRITE_SINGLE_REGISTER }

  function MaxQuantity(fc: byte): nat {
    if IsReadBits(fc) then MAX_READ_BITS
    else if IsReadRegisters(fc) then MAX_READ_REGISTERS
    else if fc == WRITE_MULTIPLE_COILS then MAX_WRITE_BITS
    else MAX_WRITE_REGISTERS
  }

  /** The data field of a request of a supported function is well formed. */
  predicate DataOk(req: seq<byte>)
    requires 5 <= |req|
  {
    var fc, qty := req[0], GetU16(req, 3);
    if fc == WRITE_SINGLE_COIL then qty == COIL_ON || qty == COIL_OFF
    else if fc == WRITE_SINGLE_REGISTER then true
    else
      1 <= qty <= MaxQuantity(fc) &&
      (IsWriteMultiple(fc) ==>
         var count := if fc == WRITE_MULTIPLE_COILS then BitByteCount(qty) else 2 * qty;
         |req| == 6 + count && req[5] == TruncateByte(count))
  }

  /** The address range of a request ends within the address space. */
  predicate RangeOk(req: seq<byte>)
    requires 5 <= |req|
  {
    IsWriteSingle(req[0]) || !RangeOverflows(GetU16(req, 1), GetU16(req, 3))
  }

  /**
   * For every request of at least 5 bytes, exactly one of: exception 1 for an unsupported
   * function or missing handler, else 3 for malformed data, else 2 for a range past the end,
   * else one call.
   */
  lemma ExceptionTellsWhy<S>(h: Handlers<S>, s: S, req: seq<byte>)
    requires 5 <= |req|
    ensures var o := HandleRequest(h, s, req);
            if !Supported(req[0]) || !Installed(h, req[0]) then
              o.calls == [] && CheckResponse(req, o.resp) == ILLEGAL_FUNCTION
            else if !DataOk(req) then o.calls == [] && CheckResponse(req, o.resp) == ILLEGAL_DATA_VALUE
            else if !RangeOk(req) then o.calls == [] && CheckResponse(req, o.resp) == ILLEGAL_DATA_ADDRESS
            else |o.calls| == 1
  {
    CheckOfException(req, ILLEGAL_FUNCTION);
    CheckOfException(req, ILLEGAL_DATA_VALUE);
    CheckOfException(req, ILLEGAL_DATA_ADDRESS);
  }

  /** The call that a request asks for, read off its bytes. */
  ghost predicate CarriesFields(call: Call, req: seq<byte>)
    requires 5 <= |req|
  {
    call.addr == GetU16(req, 1) &&
    match call
    case ReadBits(fc, _, qty) => IsReadBits(fc) && fc == req[0] && qty == GetU16(req, 3)
    case ReadRegisters(fc, _, qty) => IsReadRegisters(fc) && fc == req[0] && qty == GetU16(req, 3)
    case WriteBits(_, bits) =>
      if req[0] == WRITE_SINGLE_COIL then
        (GetU16(req, 3) == COIL_ON && bits == [1]) || (GetU16(req, 3) == COIL_OFF && bits == [0])
      else req[0] == WRITE_MULTIPLE_COILS && |bits| == GetU16(req, 3) && 6 + BitByteCount(|bits|) == |req| &&
           forall i | 0 <= i < |bits| :: bits[i] == PackedBit(req[6..], i)
    case WriteRegisters(_, data) =>
      if req[0] == WRITE_SINGLE_REGISTER then data == [GetU16(req, 3)]
      else req[0] == WRITE_MULTIPLE_REGISTERS && |data| == GetU16(req, 3) && 6 + 2 * |data| == |req| &&
           forall i | 0 <= i < |data| :: data[i] == GetU16(req, 6 + 2 * i)
  }

  /** A handler is called with exactly what the request says, whoever sent it. */
  lemma CallCarriesFields<S>(h: Handlers<S>, s: S, req: seq<byte>)
    requires 5 <= |req| && HandleRequest(h, s, req).calls != []
    ensures CarriesFields(HandleRequest(h, s, req).calls[0], req)
  {
    if IsWriteMultiple(req[0]) {
      var qty, isCoils := GetU16(req, 3), req[0] == WRITE_MULTIPLE_COILS;
      assert |req| == 6 + if isCoils then BitByteCount(qty) else 2 * qty;
      assert HandleRequest(h, s, req).calls == [WriteMultipleCall(isCoils, GetU16(req, 1), qty, req)];
    }
  }

  // ---- Client requests ----

  function BitsFunction(discrete: bool): byte { if discrete then READ_DISCRETE_INPUTS else READ_COILS }

  function RegistersFunction(input: bool): byte { if input then READ_INPUT_REGISTERS else READ_HOLDING_REGISTERS }

  /** Any nonzero coil value is sent as FF00. */
  function CoilWire(value: byte): word { if value != 0 then COIL_ON else COIL_OFF }

  /** The operations of the client API, both transports. */
  datatype Request =
    | GetBits(discrete: bool, addr: word, qty: word)
    | GetRegisters(input: bool, addr: word, qty: word)
    | SetCoil(addr: word, on: byte)
    | SetRegister(addr: word, value: word)
    | SetCoils(addr: word, values: seq<byte>)
    | SetRegisters(addr: word, data: seq<word>)
  {
    /** The argument checks of the client functions. */
    predicate InRange() {
      match this
      case GetBits(_, _, qty) => 1 <= qty <= MAX_READ_BITS
      case GetRegisters(_, _, qty) => 1 <= qty <= MAX_READ_REGISTERS
      case SetCoil(_, _) => true
      case SetRegister(_, _) => true
      case SetCoils(_, values) => 1 <= |values| <= MAX_WRITE_BITS
      case SetRegisters(_, data) => 1 <= |data| <= MAX_WRITE_REGISTERS
    }

    /** The request PDU that is sent. */
    function Encode(): (pdu: seq<byte>)
      requires InRange()
      ensures 5 <= |pdu| <= MAX_PDU_LENGTH
    {
      match this
      case GetBits(discrete, addr, qty) => FixedRequest(BitsFunction(discrete), addr, qty)
      case GetRegisters(input, addr, qty) => FixedRequest(RegistersFunction(input), addr, qty)
      case SetCoil(addr, value) => FixedRequest(WRITE_SINGLE_COIL, addr, CoilWire(value))
      case SetRegister(addr, value) => FixedRequest(WRITE_SINGLE_REGISTER, addr, value)
      case SetCoils(addr, values) => WriteCoilsRequest(addr, values)
      case SetRegisters(addr, data) => WriteRegistersRequest(addr, data)
    }

    /** The handler call the request stands for. */
    function AsCall(): Call {
      match this
      case GetBits(discrete, addr, qty) => ReadBits(BitsFunction(discrete), addr, qty)
      case GetRegisters(input, addr, qty) => ReadRegisters(RegistersFunction(input), addr, qty)
      case SetCoil(addr, value) => if value != 0 then CoilCall(addr, 1) else CoilCall(addr, 0)
      case SetRegister(addr, value) => WriteRegisters(addr, [value])
      case SetCoils(addr, values) => WriteBits(addr, Normalised(values))
      case SetRegisters(addr, data) => WriteRegisters(addr, data)
    }
  }

  /** What the caller of a client function gets. */
  datatype Answer =
    | Registers(data: seq<word>)
    | Coils(values: seq<byte>)
    | Done
    | Exception(code: byte)
    | ClientFailure(rc: int)

  /** Calling the handler directly, with no wire in between. */
  function Direct<S>(h: Handlers<S>, s: S, r: Request): (S, Answer, seq<Call>) {
    var call := r.AsCall();
    if !HasHandler(h, call) then (s, Exception(ILLEGAL_FUNCTION), [])
    else if call.addr + call.Quantity() > 0x1_0000 then (s, Exception(ILLEGAL_DATA_ADDRESS), [])
    else
      var reply := h.run(s, call);
      var answer :=
        if reply.rc != 0 then Exception(ExceptionFromRc(reply.rc))
        else match r
          case GetBits(_, _, qty) => Coils(Normalised(BitsRead(reply, qty)))
          case GetRegisters(_, _, qty) => Registers(WordsRead(reply, qty))
          case _ => Done;
      (reply.state, answer, [call])
  }

  function Refusal(rc: int): Answer { if 0 < rc < 0x100 then Exception(rc) else ClientFailure(rc) }

  /** What the client makes of a response PDU that passed its check with rc. */
  function Decode(r: Request, resp: seq<byte>): Answer
    requires r.InRange()
  {
    var rc := CheckResponse(r.Encode(), resp);
    if rc != 0 then Refusal(rc)
    else
      CheckedLength(r, resp);
      match r
      case GetBits(_, _, qty) => Coils(Unpack(resp[2..], qty))
      case GetRegisters(_, _, qty) => Registers(DecodeWords(resp, 2, qty))
      case _ => Done
  }

  lemma CheckedLength(r: Request, resp: seq<byte>)
    requires r.InRange() && CheckResponse(r.Encode(), resp) == 0
    ensures r.GetBits? ==> |resp| == 2 + BitByteCount(r.qty)
    ensures r.GetRegisters? ==> |resp| == 2 + 2 * r.qty
  {
    if r.GetBits? {
      FixedFields(r.Encode(), BitsFunction(r.discrete), r.addr, r.qty);
    } else if r.GetRegisters? {
      FixedFields(r.Encode(), RegistersFunction(r.input), r.addr, r.qty);
    }
  }

  /** The wire form of r behaves like the direct call. */
  ghost predicate Transparent<S>(h: Handlers<S>, s: S, r: Request)
    requires r.InRange()
  {
    var o := HandleRequest(h, s, r.Encode());
    Direct(h, s, r) == (o.state, Decode(r, o.resp), o.calls)
  }

  lemma EncodedFields(r: Request, fc: byte, qty: word)
    requires r.InRange() && r.Encode()[..5] == FixedRequest(fc, r.addr, qty)
    ensures r.Encode()[0] == fc && GetU16(r.Encode(), 1) == r.addr && GetU16(r.Encode(), 3) == qty
  {
    FixedFields(r.Encode(), fc, r.addr, qty);
  }

  lemma GetBitsTransparent<S>(h: Handlers<S>, s: S, r: Request)
    requires r.InRange() && r.GetBits?
    ensures Transparent(h, s, r)
  {
    var o := HandleRequest(h, s, r.Encode());
    EncodedFields(r, BitsFunction(r.discrete), r.qty);
    CheckAcceptsDispatch(h, s, r.Encode());
    if o.calls != [] && h.run(s, r.AsCall()).rc == 0 {
      var bits := BitsRead(h.run(s, r.AsCall()), r.qty);
      assert o.resp[2..] == Pack(bits);
      UnpackOfPack(bits);
    }
  }

  lemma GetRegistersTransparent<S>(h: Handlers<S>, s: S, r: Request)
    requires r.InRange() && r.GetRegisters?
    ensures Transparent(h, s, r)
  {
    var pdu := r.Encode();
    var o := HandleRequest(h, s, pdu);
    EncodedFields(r, RegistersFunction(r.input), r.qty);
    CheckAcceptsDispatch(h, s, pdu);
    if o.calls != [] && h.run(s, r.AsCall()).rc == 0 {
      var data := WordsRead(h.run(s, r.AsCall()), r.qty);
      var head := [pdu[0], TruncateByte(2 * r.qty)];
      assert o.resp == head + EncodeWords(data) + [];
      DecodeOfEncode(head, data, []);
    }
  }

  /** A well-formed FC05 request of any origin reaches the handler with its coil value. */
  lemma CoilDispatched<S>(h: Handlers<S>, s: S, pdu: seq<byte>, value: word, bit: byte)
    requires |pdu| == 5 && pdu[0] == WRITE_SINGLE_COIL && GetU16(pdu, 3) == value
    requires (value == COIL_ON && bit == 1) || (value == COIL_OFF && bit == 0)
    ensures HandleRequest(h, s, pdu) ==
            if h.hasWriteBits then RunHandler(h, s, WRITE_SINGLE_COIL, CoilCall(GetU16(pdu, 1), bit), pdu)
            else Reject(s, WRITE_SINGLE_COIL, ILLEGAL_FUNCTION)
  {
    assert pdu[..5] == pdu;
  }

  lemma CoilReachesHandler<S>(h: Handlers<S>, s: S, r: Request, pdu: seq<byte>)
    requires r.SetCoil? && |pdu| == 5 && pdu[0] == WRITE_SINGLE_COIL && GetU16(pdu, 1) == r.addr
    requires GetU16(pdu, 3) == CoilWire(r.on)
    ensures HandleRequest(h, s, pdu) ==
            if h.hasWriteBits then RunHandler(h, s, WRITE_SINGLE_COIL, r.AsCall(), pdu)
            else Reject(s, WRITE_SINGLE_COIL, ILLEGAL_FUNCTION)
  {
    if r.on != 0 {
      CoilDispatched(h, s, pdu, COIL_ON, 1);
    } else {
      CoilDispatched(h, s, pdu, COIL_OFF, 0);
    }
  }

  /** The direct call in terms of the wire form, whatever its bytes. */
  lemma CoilAnswered<S>(h: Handlers<S>, s: S, r: Request, pdu: seq<byte>)
    requires r.SetCoil? && |pdu| == 5 && pdu[0] == WRITE_SINGLE_COIL && GetU16(pdu, 1) == r.addr
    requires GetU16(pdu, 3) == CoilWire(r.on)
    ensures var o := HandleRequest(h, s, pdu);
            var rc := CheckResponse(pdu, o.resp);
            Direct(h, s, r) == (o.state, if rc != 0 then Refusal(rc) else Done, o.calls)
  {
    CoilReachesHandler(h, s, r, pdu);
    CheckAcceptsDispatch(h, s, pdu);
  }

  lemma SetCoilTransparent<S>(h: Handlers<S>, s: S, r: Request)
    requires r.InRange() && r.SetCoil?
    ensures Transparent(h, s, r)
  {
    EncodedFields(r, WRITE_SINGLE_COIL, CoilWire(r.on));
    CoilAnswered(h, s, r, r.Encode());
  }

  lemma SetRegisterTransparent<S>(h: Handlers<S>, s: S, r: Request)
    requires r.InRange() && r.SetRegister?
    ensures Transparent(h, s, r)
  {
    EncodedFields(r, WRITE_SINGLE_REGISTER, r.value);
    CheckAcceptsDispatch(h, s, r.Encode());
    assert HandleRequest(h, s, r.Encode()) == HandleWriteSingleRegister(h, s, r.Encode());
  }

  lemma SetCoilsTransparent<S>(h: Handlers<S>, s: S, r: Request)
    requires r.InRange() && r.SetCoils?
    ensures Transparent(h, s, r)
  {
    var pdu := r.Encode();
    CheckAcceptsDispatch(h, s, pdu);
    EncodedFields(r, WRITE_MULTIPLE_COILS, |r.values|);
    assert pdu[6..] == Pack(r.values);
    UnpackOfPack(r.values);
  }

  lemma SetRegistersTransparent<S>(h: Handlers<S>, s: S, r: Request)
    requires r.InRange() && r.SetRegisters?
    ensures Transparent(h, s, r)
  {
    var pdu := r.Encode();
    CheckAcceptsDispatch(h, s, pdu);
    assert pdu == pdu[..6] + EncodeWords(r.data) + [];
    DecodeOfEncode(pdu[..6], r.data, []);
    EncodedFields(r, WRITE_MULTIPLE_REGISTERS, |r.data|);
  }

  /**
   * Transparency of the PDU layer: for every in-range client request, every handler set and
   * state, encode, dispatch, check and decode give exactly the direct handler result, and the
   * application state advances by exactly that one call.
   */
  lemma PduTransparent<S>(h: Handlers<S>, s: S, r: Request)
    requires r.InRange()
    ensures Transparent(h, s, r)
  {
    match r
    case GetBits(_, _, _) => GetBitsTransparent(h, s, r);
    case GetRegisters(_, _, _) => GetRegistersTransparent(h, s, r);
    case SetCoil(_, _) => SetCoilTransparent(h, s, r);
    case SetRegister(_, _) => SetRegisterTransparent(h, s, r);
    case SetCoils(_, _) => SetCoilsTransparent(h, s, r);
    case SetRegisters(_, _) => SetRegistersTransparent(h, s, r);
  }

  // ---- Taking the data out of a checked response ----

  /** mb_pdu_get_registers: the response PDU stands at offset at. */
  method GetRegistersAt(ghost r: Request, ghost pdu: seq<byte>, resp: array<byte>, at: nat, qty: word, out: array<word>)
    requires r.GetRegisters? && r.InRange() && r.qty == qty <= out.Length && CheckResponse(r.Encode(), pdu) == 0
    requires at + |pdu| <= resp.Length && resp[at..at + |pdu|] == pdu
    modifies out
    ensures Decode(r, pdu) == Registers(out[..qty]) && out[qty..] == old(out[qty..])
  {
    CheckedLength(r, pdu);
    DecodeShifted(resp[..], at, pdu, 2, qty);
    GetWords(resp, at + 2, qty, out);
  }

  lemma DecodeShifted(s: seq<byte>, at: nat, part: seq<byte>, i: nat, n: nat)
    requires at + |part| <= |s| && s[at..at + |part|] == part && i + 2 * n <= |part|
    ensures DecodeWords(s, at + i, n) == DecodeWords(part, i, n)
  {
    forall k | 0 <= k < n ensures GetU16(s, at + i + 2 * k) == GetU16(part, i + 2 * k) {
      assert part[i + 2 * k] == s[at..][i + 2 * k] && part[i + 2 * k + 1] == s[at..][i + 2 * k + 1];
    }
  }

  /** mb_pdu_get_bits */
  method GetBitsAt(ghost r: Request, ghost pdu: seq<byte>, resp: array<byte>, at: nat, qty: word, out: array<byte>)
    requires r.GetBits? && r.InRange() && r.qty == qty <= out.Length && CheckResponse(r.Encode(), pdu) == 0
    requires at + |pdu| <= resp.Length && resp[at..at + |pdu|] == pdu && resp != out
    modifies out
    ensures Decode(r, pdu) == Coils(out[..qty]) && out[qty..] == old(out[qty..])
  {
    CheckedLength(r, pdu);
    assert resp[at + 2..at + |pdu|] == pdu[2..];
    UnpackBits(resp, at + 2, qty, out);
  }
}
