/**
 * mb_pdu_handle_request and the handle_* functions of src/modbus_pdu.c.  The application's
 * callbacks are one function on an application state: given the state and a call it returns
 * the next state, the callback's return code and what it left in the output array.
 */
module Dispatch {
  import opened Bytes
  import opened Packing
  import opened Pdu

  datatype Call =
    | ReadRegisters(fc: byte, addr: word, qty: word)
    | WriteRegisters(addr: word, data: seq<word>)
    | ReadBits(fc: byte, addr: word, qty: word)
    | WriteBits(addr: word, bits: seq<byte>)
  {
    function Quantity(): nat {
      match this
      case ReadRegisters(_, _, qty) => qty
      case WriteRegisters(_, data) => |data|
      case ReadBits(_, _, qty) => qty
      case WriteBits(_, bits) => |bits|
    }

    /** The quantity is within the limit of its function and the range stays in the address space. */
    predicate InLimits() {
      1 <= Quantity() && addr + Quantity() <= 0x1_0000 &&
      match this
      case ReadRegisters(_, _, qty) => qty <= MAX_READ_REGISTERS
      case WriteRegisters(_, data) => |data| <= MAX_WRITE_REGISTERS
      case ReadBits(_, _, qty) => qty <= MAX_READ_BITS
      case WriteBits(_, bits) => |bits| <= MAX_WRITE_BITS
    }
  }

  /** What a callback did: next application state, return code, output array contents. */
  datatype Reply<S> = Reply(state: S, rc: int, words: nat -> word, bits: nat -> byte)

  /** The callbacks an application installed (a NULL callback is one that is not there). */
  datatype Handlers<!S> = Handlers(
    hasReadRegisters: bool, hasWriteRegisters: bool, hasReadBits: bool, hasWriteBits: bool,
    run: (S, Call) -> Reply<S>)

  predicate HasHandler<S>(h: Handlers<S>, call: Call) {
    match call
    case ReadRegisters(_, _, _) => h.hasReadRegisters
    case WriteRegisters(_, _) => h.hasWriteRegisters
    case ReadBits(_, _, _) => h.hasReadBits
    case WriteBits(_, _) => h.hasWriteBits
  }

  /** What a dispatch did: response PDU, next application state, callbacks run. */
  datatype Outcome<S> = Outcome(resp: seq<byte>, state: S, calls: seq<Call>)

  /** What a server does with one request ADU: next application state, response ADU (or none), calls. */
  datatype Served<S> = Served(app: S, resp: seq<byte>, calls: seq<Call>)

  function ExceptionResponse(fc: byte, code: byte): seq<byte> {
    [ExceptionFunction(fc), code]
  }

  /** exception_from_callback_rc: unknown return codes become device failure. */
  function ExceptionFromRc(rc: int): (code: byte)
    ensures code != 0
  {
    if rc in {1, 2, 3, 4, 5, 6, 8, 10, 11} then rc else SERVER_DEVICE_FAILURE
  }

  function Reject<S>(s: S, fc: byte, code: byte): Outcome<S> {
    Outcome(ExceptionResponse(fc, code), s, [])
  }

  function RangeOverflows(addr: word, qty: word): bool { addr + qty > 0x1_0000 }

  function WordAt<S>(r: Reply<S>, i: nat): word { r.words(i) }

  function BitAt<S>(r: Reply<S>, i: nat): byte { r.bits(i) }

  function WordsRead<S>(r: Reply<S>, qty: nat): (data: seq<word>)
    ensures |data| == qty
  {
    seq(qty, i requires 0 <= i < qty => WordAt(r, i))
  }

  function BitsRead<S>(r: Reply<S>, qty: nat): (bits: seq<byte>)
    ensures |bits| == qty
  {
    seq(qty, i requires 0 <= i < qty => BitAt(r, i))
  }

  /** Run a callback and answer with `data` if it returned 0. */
  function RunHandler<S>(h: Handlers<S>, s: S, fc: byte, call: Call, data: seq<byte>): Outcome<S> {
    var r := h.run(s, call);
    Outcome(if r.rc != 0 then ExceptionResponse(fc, ExceptionFromRc(r.rc)) else data, r.state, [call])
  }

  function HandleReadRegisters<S>(h: Handlers<S>, s: S, fc: byte, addr: word, qty: word): Outcome<S> {
    if !h.hasReadRegisters then Reject(s, fc, ILLEGAL_FUNCTION)
    else if qty == 0 || qty > MAX_READ_REGISTERS then Reject(s, fc, ILLEGAL_DATA_VALUE)
    else if RangeOverflows(addr, qty) then Reject(s, fc, ILLEGAL_DATA_ADDRESS)
    else
      var call := ReadRegisters(fc, addr, qty);
      var data := WordsRead(h.run(s, call), qty);
      RunHandler(h, s, fc, call, ReadRegistersResponse(fc, data))
  }

  function HandleReadBits<S>(h: Handlers<S>, s: S, fc: byte, addr: word, qty: word): Outcome<S> {
    if !h.hasReadBits then Reject(s, fc, ILLEGAL_FUNCTION)
    else if qty == 0 || qty > MAX_READ_BITS then Reject(s, fc, ILLEGAL_DATA_VALUE)
    else if RangeOverflows(addr, qty) then Reject(s, fc, ILLEGAL_DATA_ADDRESS)
    else
      var call := ReadBits(fc, addr, qty);
      var bits := BitsRead(h.run(s, call), qty);
      RunHandler(h, s, fc, call, [fc, TruncateByte(BitByteCount(qty))] + Pack(bits))
  }

  /** The callback call that one coil stands for. */
  function CoilCall(addr: word, bit: byte): Call { WriteBits(addr, [bit]) }

  function HandleWriteSingleCoil<S>(h: Handlers<S>, s: S, req: seq<byte>): Outcome<S>
    requires |req| >= 5
  {
    var fc, addr, value := req[0], GetU16(req, 1), GetU16(req, 3);
    if !h.hasWriteBits then Reject(s, fc, ILLEGAL_FUNCTION)
    else if value == COIL_ON then RunHandler(h, s, fc, CoilCall(addr, 1), req[..5])
    else if value == COIL_OFF then RunHandler(h, s, fc, CoilCall(addr, 0), req[..5])
    else Reject(s, fc, ILLEGAL_DATA_VALUE)
  }

  function HandleWriteSingleRegister<S>(h: Handlers<S>, s: S, req: seq<byte>): Outcome<S>
    requires |req| >= 5
  {
    if !h.hasWriteRegisters then Reject(s, req[0], ILLEGAL_FUNCTION)
    else RunHandler(h, s, req[0], WriteRegisters(GetU16(req, 1), [GetU16(req, 3)]), req[..5])
  }

  /** The callback call that an FC15 or FC16 request of the right length stands for. */
  function WriteMultipleCall(isCoils: bool, addr: word, qty: word, req: seq<byte>): Call
    requires |req| == 6 + (if isCoils then BitByteCount(qty) else 2 * qty)
  {
    if isCoils then WriteBits(addr, Unpack(req[6..], qty)) else WriteRegisters(addr, DecodeWords(req, 6, qty))
  }

  function HandleWriteMultiple<S>(h: Handlers<S>, s: S, req: seq<byte>): Outcome<S>
    requires |req| >= 5
  {
    var fc, addr, qty := req[0], GetU16(req, 1), GetU16(req, 3);
    var isCoils := fc == WRITE_MULTIPLE_COILS;
    var maxQty := if isCoils then MAX_WRITE_BITS else MAX_WRITE_REGISTERS;
    var count := if isCoils then BitByteCount(qty) else 2 * qty;
    if !(if isCoils then h.hasWriteBits else h.hasWriteRegisters) then Reject(s, fc, ILLEGAL_FUNCTION)
    else if |req| <= 5 || qty == 0 || qty > maxQty then Reject(s, fc, ILLEGAL_DATA_VALUE)
    else if req[5] != TruncateByte(count) || |req| != 6 + count then Reject(s, fc, ILLEGAL_DATA_VALUE)
    else if RangeOverflows(addr, qty) then Reject(s, fc, ILLEGAL_DATA_ADDRESS)
    else
      var call := WriteMultipleCall(isCoils, addr, qty, req);
      RunHandler(h, s, fc, call, req[..5])
  }

  /** mb_pdu_handle_request */
  function HandleRequest<S>(h: Handlers<S>, s: S, req: seq<byte>): Outcome<S>
    requires |req| >= 1
  {
    var fc := req[0];
    if !Supported(fc) then Reject(s, fc, ILLEGAL_FUNCTION)
    else if |req| < 5 then Reject(s, fc, ILLEGAL_DATA_VALUE)
    else
      var addr, qty := GetU16(req, 1), GetU16(req, 3);
      if IsReadBits(fc) then HandleReadBits(h, s, fc, addr, qty)
      else if IsReadRegisters(fc) then HandleReadRegisters(h, s, fc, addr, qty)
      else if fc == WRITE_SINGLE_COIL then HandleWriteSingleCoil(h, s, req)
      else if fc == WRITE_SINGLE_REGISTER then HandleWriteSingleRegister(h, s, req)
      else HandleWriteMultiple(h, s, req)
  }

  // ---- The same, writing into the caller's response buffer ----

  /** The n bytes written at offset at are o's response; nothing before them changed. */
  twostate predicate Wrote<S>(o: Outcome<S>, resp: array<byte>, at: nat, n: nat)
    reads resp
  {
    at + n <= resp.Length && n == |o.resp| && resp[at..at + n] == o.resp && resp[..at] == old(resp[..at])
  }

  method BuildException(resp: array<byte>, at: nat, fc: byte, code: byte) returns (n: nat)
    requires at + 2 <= resp.Length
    modifies resp
    ensures n == 2 && resp[at..at + n] == ExceptionResponse(fc, code) && resp[..at] == old(resp[..at])
  {
    resp[at] := ExceptionFunction(fc);
    resp[at + 1] := code;
    return 2;
  }

  method BuildWriteEcho(req: array<byte>, reqAt: nat, resp: array<byte>, at: nat) returns (n: nat)
    requires reqAt + 5 <= req.Length && at + 5 <= resp.Length && req != resp
    modifies resp
    ensures n == 5 && resp[at..at + n] == req[reqAt..reqAt + 5] && resp[..at] == old(resp[..at])
  {
    var i := 0;
    while i < 5
      invariant i <= 5
      invariant resp[at..at + i] == req[reqAt..reqAt + i] && resp[..at] == old(resp[..at])
    {
      resp[at + i] := req[reqAt + i];
      i := i + 1;
    }
    return 5;
  }

  method ServeReadRegisters<S>(h: Handlers<S>, s: S, fc: byte, addr: word, qty: word, resp: array<byte>, at: nat)
    returns (n: nat, s': S)
    requires at + MAX_PDU_LENGTH <= resp.Length
    modifies resp
    ensures var o := HandleReadRegisters(h, s, fc, addr, qty); s' == o.state && Wrote(o, resp, at, n)
  {
    s' := s;
    if !h.hasReadRegisters {
      n := BuildException(resp, at, fc, ILLEGAL_FUNCTION);
      return;
    }
    if qty == 0 || qty > 125 {
      n := BuildException(resp, at, fc, ILLEGAL_DATA_VALUE);
      return;
    }
    if RangeOverflows(addr, qty) {
      n := BuildException(resp, at, fc, ILLEGAL_DATA_ADDRESS);
      return;
    }
    var r := h.run(s, ReadRegisters(fc, addr, qty));
    s' := r.state;
    if r.rc != 0 {
      n := BuildException(resp, at, fc, ExceptionFromRc(r.rc));
      return;
    }
    var data := new word[125](i => WordAt(r, i));
    assert data[..qty] == WordsRead(r, qty);
    n := BuildReadRegisters(data, qty, fc, resp, at);
  }

  method BuildReadRegisters(data: array<word>, qty: word, fc: byte, resp: array<byte>, at: nat) returns (n: nat)
    requires qty <= data.Length && at + 2 + 2 * qty <= resp.Length
    modifies resp
    ensures n == 2 + 2 * qty && resp[at..at + n] == ReadRegistersResponse(fc, data[..qty])
    ensures resp[..at] == old(resp[..at])
  {
    resp[at] := fc;
    resp[at + 1] := TruncateByte(2 * qty);
    ghost var head := resp[..at + 2];
    assert head[..at] == old(resp[..at]) && head[at..] == [fc, TruncateByte(2 * qty)];
    PutWords(data, qty, resp, at + 2);
    assert resp[..at + 2] == head;
    return 2 + 2 * qty;
  }

  method ServeReadBits<S>(h: Handlers<S>, s: S, fc: byte, addr: word, qty: word, resp: array<byte>, at: nat)
    returns (n: nat, s': S)
    requires at + MAX_PDU_LENGTH <= resp.Length
    modifies resp
    ensures var o := HandleReadBits(h, s, fc, addr, qty); s' == o.state && Wrote(o, resp, at, n)
  {
    s' := s;
    if !h.hasReadBits {
      n := BuildException(resp, at, fc, ILLEGAL_FUNCTION);
      return;
    }
    if qty == 0 || qty > 2000 {
      n := BuildException(resp, at, fc, ILLEGAL_DATA_VALUE);
      return;
    }
    if RangeOverflows(addr, qty) {
      n := BuildException(resp, at, fc, ILLEGAL_DATA_ADDRESS);
      return;
    }
    var r := h.run(s, ReadBits(fc, addr, qty));
    s' := r.state;
    if r.rc != 0 {
      n := BuildException(resp, at, fc, ExceptionFromRc(r.rc));
      return;
    }
    var bits := new byte[2000](i => BitAt(r, i));
    assert bits[..qty] == BitsRead(r, qty);
    n := BuildReadBits(bits, qty, fc, resp, at);
  }

  method BuildReadBits(bits: array<byte>, qty: word, fc: byte, resp: array<byte>, at: nat) returns (n: nat)
    requires qty <= bits.Length && at + 2 + BitByteCount(qty) <= resp.Length && bits != resp
    modifies resp
    ensures n == 2 + BitByteCount(qty) && resp[at..at + n] == [fc, TruncateByte(BitByteCount(qty))] + Pack(bits[..qty])
    ensures resp[..at] == old(resp[..at])
  {
    var count := BitByteCount(qty);
    resp[at] := fc;
    resp[at + 1] := TruncateByte(count);
    ghost var head := resp[..at + 2];
    assert head[..at] == old(resp[..at]) && head[at..] == [fc, TruncateByte(count)];
    PackBits(bits, qty, resp, at + 2);
    assert resp[..at + 2] == head;
    return 2 + count;
  }

  /** Run a write callback; its response repeats the request's first five bytes. */
  method RunWrite<S>(h: Handlers<S>, s: S, fc: byte, call: Call, req: array<byte>, reqAt: nat, resp: array<byte>,
                     at: nat)
    returns (n: nat, s': S)
    requires reqAt + 5 <= req.Length && at + MAX_PDU_LENGTH <= resp.Length && req != resp
    modifies resp
    ensures var o := RunHandler(h, s, fc, call, req[reqAt..reqAt + 5]); s' == o.state && Wrote(o, resp, at, n)
  {
    var r := h.run(s, call);
    s' := r.state;
    if r.rc != 0 {
      n := BuildException(resp, at, fc, ExceptionFromRc(r.rc));
    } else {
      n := BuildWriteEcho(req, reqAt, resp, at);
    }
  }

  method ServeWriteSingleCoil<S>(h: Handlers<S>, s: S, req: array<byte>, reqAt: nat, resp: array<byte>, at: nat)
    returns (n: nat, s': S)
    requires reqAt + 5 <= req.Length && at + MAX_PDU_LENGTH <= resp.Length && req != resp
    modifies resp
    ensures var o := HandleWriteSingleCoil(h, s, req[reqAt..reqAt + 5]); s' == o.state && Wrote(o, resp, at, n)
  {
    var fc, value := req[reqAt], Join(req[reqAt + 3], req[reqAt + 4]);
    var bit: byte := 0;
    s' := s;
    if !h.hasWriteBits {
      n := BuildException(resp, at, fc, ILLEGAL_FUNCTION);
      return;
    }
    if value == 0xFF00 {
      bit := 1;
    } else if value == 0x0000 {
      bit := 0;
    } else {
      n := BuildException(resp, at, fc, ILLEGAL_DATA_VALUE);
      return;
    }
    n, s' := RunWrite(h, s, fc, CoilCall(Join(req[reqAt + 1], req[reqAt + 2]), bit), req, reqAt, resp, at);
  }

  method ServeWriteSingleRegister<S>(h: Handlers<S>, s: S, req: array<byte>, reqAt: nat, resp: array<byte>, at: nat)
    returns (n: nat, s': S)
    requires reqAt + 5 <= req.Length && at + MAX_PDU_LENGTH <= resp.Length && req != resp
    modifies resp
    ensures var o := HandleWriteSingleRegister(h, s, req[reqAt..reqAt + 5]); s' == o.state && Wrote(o, resp, at, n)
  {
    var fc, value := req[reqAt], Join(req[reqAt + 3], req[reqAt + 4]);
    s' := s;
    if !h.hasWriteRegisters {
      n := BuildException(resp, at, fc, ILLEGAL_FUNCTION);
      return;
    }
    n, s' := RunWrite(h, s, fc, WriteRegisters(Join(req[reqAt + 1], req[reqAt + 2]), [value]), req, reqAt, resp, at);
  }

  /** Unpack the payload into a local array for the callback. */
  method ReceiveWrite(isCoils: bool, addr: word, qty: word, req: array<byte>, reqAt: nat, reqLen: nat)
    returns (call: Call)
    requires reqAt + reqLen <= req.Length && qty <= if isCoils then MAX_WRITE_BITS else MAX_WRITE_REGISTERS
    requires reqLen == 6 + (if isCoils then BitByteCount(qty) else 2 * qty)
    ensures call == WriteMultipleCall(isCoils, addr, qty, req[reqAt..reqAt + reqLen])
  {
    ghost var pdu := req[reqAt..reqAt + reqLen];
    if isCoils {
      var bits := new byte[1968];
      UnpackBits(req, reqAt + 6, qty, bits);
      assert req[reqAt + 6..reqAt + 6 + BitByteCount(qty)] == pdu[6..];
      call := WriteBits(addr, bits[..qty]);
    } else {
      var data := new word[123];
      GetWords(req, reqAt + 6, qty, data);
      assert DecodeWords(req[..], reqAt + 6, qty) == DecodeWords(pdu, 6, qty);
      call := WriteRegisters(addr, data[..qty]);
    }
  }

  method ServeWriteMultiple<S>(h: Handlers<S>, s: S, req: array<byte>, reqAt: nat, reqLen: nat, resp: array<byte>,
                               at: nat)
    returns (n: nat, s': S)
    requires 5 <= reqLen && reqAt + reqLen <= req.Length && at + MAX_PDU_LENGTH <= resp.Length && req != resp
    modifies resp
    ensures var o := HandleWriteMultiple(h, s, req[reqAt..reqAt + reqLen]); s' == o.state && Wrote(o, resp, at, n)
  {
    ghost var pdu := req[reqAt..reqAt + reqLen];
    var fc, addr, qty := req[reqAt], Join(req[reqAt + 1], req[reqAt + 2]), Join(req[reqAt + 3], req[reqAt + 4]);
    var isCoils := fc == 0x0F;
    var maxQty := if isCoils then 1968 else 123;
    s' := s;
    if if isCoils then !h.hasWriteBits else !h.hasWriteRegisters {
      n := BuildException(resp, at, fc, ILLEGAL_FUNCTION);
      return;
    }
    if reqLen <= 5 || qty == 0 || qty > maxQty {
      n := BuildException(resp, at, fc, ILLEGAL_DATA_VALUE);
      return;
    }
    var count := if isCoils then BitByteCount(qty) else 2 * qty;
    if req[reqAt + 5] != TruncateByte(count) || reqLen != 6 + count {
      n := BuildException(resp, at, fc, ILLEGAL_DATA_VALUE);
      return;
    }
    if RangeOverflows(addr, qty) {
      n := BuildException(resp, at, fc, ILLEGAL_DATA_ADDRESS);
      return;
    }
    var call := ReceiveWrite(isCoils, addr, qty, req, reqAt, reqLen);
    assert pdu[..5] == req[reqAt..reqAt + 5];
    n, s' := RunWrite(h, s, fc, call, req, reqAt, resp, at);
  }

  method ServeRequest<S>(h: Handlers<S>, s: S, req: array<byte>, reqAt: nat, reqLen: nat, resp: array<byte>, at: nat)
    returns (n: nat, s': S)
    requires 1 <= reqLen && reqAt + reqLen <= req.Length && at + MAX_PDU_LENGTH <= resp.Length && req != resp
    modifies resp
    ensures var o := HandleRequest(h, s, req[reqAt..reqAt + reqLen]); s' == o.state && Wrote(o, resp, at, n)
  {
    ghost var pdu := req[reqAt..reqAt + reqLen];
    var fc := req[reqAt];
    s' := s;
    if !Supported(fc) {
      n := BuildException(resp, at, fc, ILLEGAL_FUNCTION);
      return;
    }
    if reqLen < 5 {
      n := BuildException(resp, at, fc, ILLEGAL_DATA_VALUE);
      return;
    }
    var addr, qty := Join(req[reqAt + 1], req[reqAt + 2]), Join(req[reqAt + 3], req[reqAt + 4]);
    if fc == 0x01 || fc == 0x02 {
      n, s' := ServeReadBits(h, s, fc, addr, qty, resp, at);
    } else if fc == 0x03 || fc == 0x04 {
      n, s' := ServeReadRegisters(h, s, fc, addr, qty, resp, at);
    } else if fc == 0x05 {
      n, s' := ServeWriteSingleCoil(h, s, req, reqAt, resp, at);
      assert req[reqAt..reqAt + 5] == pdu[..5];
    } else if fc == 0x06 {
      n, s' := ServeWriteSingleRegister(h, s, req, reqAt, resp, at);
      assert req[reqAt..reqAt + 5] == pdu[..5];
    } else {
      n, s' := ServeWriteMultiple(h, s, req, reqAt, reqLen, resp, at);
    }
  }
}
