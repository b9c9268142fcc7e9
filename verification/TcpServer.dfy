/**
 * src/modbus_tcp_server.c: one call of server_on_process takes one ADU off a client's socket
 * and answers it, and a connection is a run of such calls until one fails.
 */
module TcpServer {
  import opened Bytes
  import opened Transport
  import opened ExactRead
  import opened ExactSend
  import opened Mbap
  import opened Dispatch
  import opened PduProperties
  import opened ServeInOrder

  const UNIT_ID_ANY: byte := 0xFF
  const LEAST_REQUEST_LENGTH := 2

  /** recv_exact: -1 unless everything was read. */
  const SERVER_CODES: ErrorCodes := Codes(-1, -1, -1)

  /** Whether a request ADU is for this server; others are ignored without an answer. */
  predicate Accepts(own: byte, adu: seq<byte>) {
    |adu| >= 8 && IsModbus(adu) && (own == UNIT_ID_ANY || adu[6] == own)
  }

  /** The answer carries the request's transaction and unit identifiers. */
  function Serve<S>(own: byte, h: Handlers<S>, app: S, adu: seq<byte>): Served<S> {
    if !Accepts(own, adu) then Served(app, [], [])
    else
      DispatchIsSound(h, app, adu[7..]);
      var o := HandleRequest(h, app, adu[7..]);
      Served(o.state, Adu(Tid(adu), adu[6], o.resp), o.calls)
  }

  function Server<S>(own: byte, h: Handlers<S>): Service<S> {
    (app: S, adu: seq<byte>) => Serve(own, h, app, adu)
  }

  /** What one server_on_process did: return code, state, bytes sent, ADUs taken, calls. */
  datatype Turn<S> = Turn(rc: int, app: S, link: Input, sent: seq<byte>, taken: seq<seq<byte>>, calls: seq<Call>)

  /** server_on_process; sending says how sending a response ends, if there is one. */
  function OnProcess<S>(own: byte, h: Handlers<S>, app: S, link: Input, sending: Sending): Turn<S> {
    ReadAduTakesOne(SERVER_CODES, link, LEAST_REQUEST_LENGTH);
    var r := ReadAdu(SERVER_CODES, link, LEAST_REQUEST_LENGTH);
    if r.rc != 0 then Turn(-1, app, r.link, [], [], [])
    else
      var served := Serve(own, h, app, r.bytes);
      var rc := if served.resp != [] && !sending.Delivered? then -1 else 0;
      Turn(rc, served.app, r.link, Wire(sending, served.resp), [r.bytes], served.calls)
  }

  // ---- Connections ----

  datatype Connection<S> =
    Connection(open: bool, app: S, link: Input, sent: seq<byte>, taken: seq<seq<byte>>, calls: seq<Call>)

  /** Calls on one socket, which is closed after the first that fails; sends are how their answers go. */
  function Serving<S>(own: byte, h: Handlers<S>, app: S, link: Input, sends: seq<Sending>): Connection<S>
    decreases |sends|
  {
    if sends == [] then Connection(true, app, link, [], [], [])
    else
      var n := |sends| - 1;
      var c := Serving(own, h, app, link, sends[..n]);
      if !c.open then c
      else
        var t := OnProcess(own, h, c.app, c.link, sends[n]);
        Connection(t.rc == 0, t.app, t.link, c.sent + t.sent, c.taken + t.taken, c.calls + t.calls)
  }

  predicate AllDelivered(sends: seq<Sending>) { forall s | s in sends :: s.Delivered? }

  predicate AllRequests(adus: seq<seq<byte>>) { forall a | a in adus :: IsAdu(a) && 8 <= |a| <= MAX_ADU_LENGTH }

  /** What one call adds to a connection. */
  lemma TurnTakesOne<S>(own: byte, h: Handlers<S>, app: S, link: Input, sending: Sending)
    ensures var t := OnProcess(own, h, app, link, sending);
            if t.taken != [] then
              |t.taken| == 1 && AllRequests(t.taken) && t.taken[0] + t.link.incoming == link.incoming &&
              var served := Serve(own, h, app, t.taken[0]);
              t.app == served.app && t.calls == served.calls && t.sent == Wire(sending, served.resp) &&
              (t.rc == 0 <==> served.resp == [] || sending.Delivered?)
            else t == Turn(-1, app, t.link, [], [], [])
  {
    ReadAduTakesOne(SERVER_CODES, link, LEAST_REQUEST_LENGTH);
  }

  /**
   * The state of a connection after n calls, in terms of the ADUs taken; those are from the front
   * of the stream, and nothing else has been taken while the connection is open.
   */
  ghost predicate InOrder<S>(own: byte, h: Handlers<S>, app: S, stream: seq<byte>, c: Connection<S>, n: nat,
                             delivered: bool) {
    var all := ServeAll(Server(own, h), app, c.taken);
    AllRequests(c.taken) && c.app == all.app && c.calls == all.calls &&
    Cat(c.taken) <= stream && c.sent <= all.resp && (c.open || delivered ==> c.sent == all.resp) &&
    (c.open ==> Cat(c.taken) + c.link.incoming == stream && |c.taken| == n)
  }

  function Extended<S>(c: Connection<S>, t: Turn<S>): Connection<S> {
    Connection(t.rc == 0, t.app, t.link, c.sent + t.sent, c.taken + t.taken, c.calls + t.calls)
  }

  lemma TurnInOrder<S>(own: byte, h: Handlers<S>, app: S, stream: seq<byte>, c: Connection<S>, n: nat,
                       sending: Sending, delivered: bool)
    requires c.open && InOrder(own, h, app, stream, c, n, delivered) && (delivered ==> sending.Delivered?)
    ensures InOrder(own, h, app, stream, Extended(c, OnProcess(own, h, c.app, c.link, sending)), n + 1, delivered)
  {
    var t := OnProcess(own, h, c.app, c.link, sending);
    TurnTakesOne(own, h, c.app, c.link, sending);
    if t.taken != [] {
      assert t.taken == [t.taken[0]];
      ServeAllOneMore(Server(own, h), app, c.taken, t.taken[0]);
      TakenFromFront(c.taken, t.taken[0], t.link.incoming, c.link.incoming, stream);
      PartOfJoined(c.sent, Serve(own, h, c.app, t.taken[0]).resp, sending);
    } else {
      assert c.sent + [] == c.sent && c.taken + [] == c.taken && c.calls + [] == c.calls;
    }
  }

  lemma TakenFromFront(taken: seq<seq<byte>>, adu: seq<byte>, rest: seq<byte>, incoming: seq<byte>, stream: seq<byte>)
    requires Cat(taken) + incoming == stream && adu + rest == incoming
    ensures Cat(taken + [adu]) + rest == stream && Cat(taken + [adu]) <= stream
  {
    CatConcat(taken, [adu]);
    CatOne(adu);
    Associative(Cat(taken), adu, rest);
  }

  lemma PartOfJoined(a: seq<byte>, b: seq<byte>, sending: Sending)
    ensures a + Wire(sending, b) <= a + b
  {
  }

  /**
   * However a connection's bytes are cut, interrupted or ended, and however its answers are
   * sent: what was taken is a sequence of whole ADUs from the front of the stream; the calls
   * and the application state are those of serving exactly those in order; and what was sent
   * is their answers, all of them unless the last send failed.
   */
  lemma {:induction false} ConnectionServesInOrder<S>(own: byte, h: Handlers<S>, app: S, link: Input,
                                                      sends: seq<Sending>)
    ensures InOrder(own, h, app, link.incoming, Serving(own, h, app, link, sends), |sends|, AllDelivered(sends))
    decreases |sends|
  {
    if sends != [] {
      var n := |sends| - 1;
      ConnectionServesInOrder(own, h, app, link, sends[..n]);
      var c := Serving(own, h, app, link, sends[..n]);
      assert AllDelivered(sends) ==> AllDelivered(sends[..n]) && sends[n] in sends;
      if c.open {
        TurnInOrder(own, h, app, link.incoming, c, n, sends[n], AllDelivered(sends));
      }
    }
  }

  /** On a clean socket every request of the stream is taken, and the connection stays open. */
  lemma {:induction false} AllRequestsTaken<S>(own: byte, h: Handlers<S>, app: S, link: Input,
                                               adus: seq<seq<byte>>, rest: seq<byte>, sends: seq<Sending>)
    requires AllRequests(adus) && link.Clean() && link.incoming == Cat(adus) + rest
    requires |sends| == |adus| && AllDelivered(sends)
    ensures var c := Serving(own, h, app, link, sends);
            c.open && c.taken == adus && c.link.incoming == rest && c.link.Clean()
    decreases |adus|
  {
    var n := |adus|;
    if n > 0 {
      var before, last := adus[..n - 1], adus[n - 1];
      assert adus == before + [last] && sends[n - 1] in sends;
      CatConcat(before, [last]);
      CatOne(last);
      Associative(Cat(before), last, rest);
      AllRequestsTaken(own, h, app, link, before, last + rest, sends[..n - 1]);
      var c := Serving(own, h, app, link, sends[..n - 1]);
      AduArrives(SERVER_CODES, c.link, LEAST_REQUEST_LENGTH, last, rest);
    } else {
      assert [] + rest == rest;
    }
  }

  // ---- Answers ----

  /** An answer is one whole ADU with the request's transaction and unit identifiers. */
  lemma AnswerEchoes<S>(own: byte, h: Handlers<S>, app: S, adu: seq<byte>)
    ensures var resp := Serve(own, h, app, adu).resp;
            (resp == [] <==> !Accepts(own, adu)) &&
            (resp != [] ==> |adu| >= 8 && IsAdu(resp) && 9 <= |resp| <= MAX_ADU_LENGTH &&
                            resp[..4] == adu[..4] && resp[6] == adu[6] && Tid(resp) == Tid(adu))
  {
    if Accepts(own, adu) {
      DispatchIsSound(h, app, adu[7..]);
      AduFields(Tid(adu), adu[6], HandleRequest(h, app, adu[7..]).resp);
      PartsOfJoin(adu[0], adu[1]);
    }
  }

  class TcpServer<S> {
    const own: byte
    const h: Handlers<S>
    var app: S

    constructor (own: byte, h: Handlers<S>, app: S)
      ensures this.own == own && this.h == h && this.app == app
    {
      this.own, this.h, this.app := own, h, app;
    }

    /** One call of server_on_process on the socket `line`. */
    method ProcessOnce(line: Line, sending: Sending) returns (rc: int, sent: seq<byte>, ghost turn: Turn<S>)
      modifies this, line
      ensures turn == OnProcess(own, h, old(app), old(line.link), sending)
      ensures rc == turn.rc && sent == turn.sent && app == turn.app && line.link == turn.link
    {
      turn := OnProcess(own, h, app, line.link, sending);
      ghost var r := ReadAdu(SERVER_CODES, line.link, LEAST_REQUEST_LENGTH);
      ReadAduTakesOne(SERVER_CODES, line.link, LEAST_REQUEST_LENGTH);
      var adu := new byte[260];
      var total;
      rc, total := ReceiveAdu(line, SERVER_CODES, 2, adu);
      if rc != 0 {
        return -1, [], turn;
      }
      assert adu[..total] == r.bytes;
      var unitId := adu[6];
      if adu[2] != 0 || adu[3] != 0 {
        return 0, [], turn;
      }
      if own != UNIT_ID_ANY && unitId != own {
        return 0, [], turn;
      }
      var resp := BuildResponse(adu, total);
      return if sending.Delivered? then 0 else -1, Wire(sending, resp), turn;
    }

    /** Dispatch the PDU and frame the response with the request's header. */
    method BuildResponse(adu: array<byte>, total: nat) returns (frame: seq<byte>)
      requires adu.Length == MAX_ADU_LENGTH && 8 <= total <= MAX_ADU_LENGTH && IsModbus(adu[..])
      modifies this
      ensures var o := HandleRequest(h, old(app), adu[..total][7..]);
              app == o.state && |o.resp| < 0xFFFF && frame == Adu(Join(adu[0], adu[1]), adu[6], o.resp)
    {
      var resp := new byte[260];
      assert adu[7..total] == adu[..total][7..];
      var n, app' := ServeRequest(h, app, adu, 7, total - 7, resp, 7);
      DispatchIsSound(h, app, adu[7..total]);
      app := app';
      WriteHeader(adu, resp, n);
      return resp[..7 + n];
    }

    /** The seven bytes before the response PDU. */
    static method WriteHeader(adu: array<byte>, resp: array<byte>, n: nat)
      requires adu.Length >= 8 && IsModbus(adu[..]) && resp != adu && 7 + n <= resp.Length <= MAX_ADU_LENGTH
      modifies resp
      ensures resp[..7 + n] == Adu(Join(adu[0], adu[1]), adu[6], old(resp[7..7 + n]))
    {
      ghost var pdu := resp[7..7 + n];
      PartsOfJoin(adu[0], adu[1]);
      resp[0], resp[1], resp[2], resp[3] := adu[0], adu[1], adu[2], adu[3];
      resp[4], resp[5], resp[6] := Hi(1 + n), Lo(1 + n), adu[6];
      assert resp[7..7 + n] == pdu;
      assert resp[..7 + n] == resp[..7] + pdu;
    }
  }
}
