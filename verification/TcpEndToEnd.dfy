/**
 * Modbus TCP end to end: a client call over the wire equals a direct call of the handler, for
 * one request and over whole runs of client and server.
 */
module TcpEndToEnd {
  import opened Bytes
  import opened Transport
  import opened ExactSend
  import opened Mbap
  import opened TcpServer
  import opened TcpClient
  import opened Dispatch
  import opened PduProperties
  import opened ServeInOrder
  import Pdu

  // ---- One request ----

  /** Late replies that are skipped: whole Modbus ADUs with other identifiers. */
  predicate Stale(adus: seq<seq<byte>>, tid: word) {
    forall a | a in adus :: IsAdu(a) && 7 <= |a| <= MAX_ADU_LENGTH && IsModbus(a) && Tid(a) != tid
  }

  /** Data comes before the deadline, n times in a row. */
  predicate ReadyFor(waits: seq<Wait>, n: nat) { |waits| >= n && forall i | 0 <= i < n :: waits[i] == Ready }

  /** The next ADU is received whole, however it is cut. */
  lemma NextArrives(s: Socket, adu: seq<byte>, rest: seq<byte>)
    requires s.link.Clean() && s.link.incoming == adu + rest && s.waits != [] && s.waits[0] == Ready
    requires IsAdu(adu) && 7 <= |adu| <= MAX_ADU_LENGTH && IsModbus(adu)
    ensures var r := RecvResponse(s);
            r.rc == 0 && r.adu == adu && r.socket.link.incoming == rest && r.socket.link.Clean() &&
            r.socket.waits == s.waits[1..]
  {
    AduArrives(CLIENT_CODES, s.link, LEAST_RESPONSE_LENGTH, adu, rest);
  }

  /** One round of the receive loop on an awaited ADU. */
  lemma CollectsReply(tid: word, s: Socket, adu: seq<byte>, rest: seq<byte>)
    requires s.link.Clean() && s.link.incoming == adu + rest && s.waits != [] && s.waits[0] == Ready
    requires IsAdu(adu) && 7 <= |adu| <= MAX_ADU_LENGTH && IsModbus(adu) && Tid(adu) == tid
    ensures Collect(tid, s) == Collected(0, adu, false, [adu], Collect(tid, s).socket)
    ensures Collect(tid, s).socket.link.incoming == rest
  {
    NextArrives(s, adu, rest);
  }

  /** One round on a stale ADU: the loop goes on from the socket that follows. */
  lemma CollectSkips(tid: word, s: Socket, adu: seq<byte>, rest: seq<byte>) returns (next: Socket)
    requires s.link.Clean() && s.link.incoming == adu + rest && s.waits != [] && s.waits[0] == Ready
    requires IsAdu(adu) && 7 <= |adu| <= MAX_ADU_LENGTH && IsModbus(adu) && Tid(adu) != tid
    ensures next.link.Clean() && next.link.incoming == rest && next.waits == s.waits[1..]
    ensures var more := Collect(tid, next);
            Collect(tid, s) == Collected(more.rc, more.adu, true, [adu] + more.taken, more.socket)
  {
    NextArrives(s, adu, rest);
    next := RecvResponse(s).socket;
  }

  /** The awaited reply was returned whole, behind the stale ones. */
  ghost predicate GotReply(got: Collected, stale: seq<seq<byte>>, reply: seq<byte>, rest: seq<byte>) {
    got.rc == 0 && got.adu == reply && got.taken == stale + [reply] && got.socket.link.incoming == rest
  }

  lemma HeadOfSnoc<T>(s: seq<T>, last: T)
    requires s != []
    ensures s + [last] == [s[0]] + (s[1..] + [last])
  {
  }

  /** However the bytes are cut, stale replies are skipped and the awaited one is returned whole. */
  lemma {:induction false} ReplyCollected(tid: word, s: Socket, stale: seq<seq<byte>>, reply: seq<byte>,
                                          rest: seq<byte>)
    requires Stale(stale, tid) && ReadyFor(s.waits, |stale| + 1)
    requires IsAdu(reply) && 7 <= |reply| <= MAX_ADU_LENGTH && IsModbus(reply) && Tid(reply) == tid
    requires s.link.Clean() && s.link.incoming == Cat(stale) + (reply + rest)
    ensures GotReply(Collect(tid, s), stale, reply, rest)
    decreases |stale|
  {
    if stale == [] {
      assert Cat(stale) + (reply + rest) == reply + rest;
      CollectsReply(tid, s, reply, rest);
    } else {
      var first, later := stale[0], stale[1..];
      assert first in stale;
      Associative(first, Cat(later), reply + rest);
      var next := CollectSkips(tid, s, first, Cat(later) + (reply + rest));
      ReplyCollected(tid, next, later, reply, rest);
      HeadOfSnoc(stale, reply);
    }
  }

  /** The server, given a request ADU in any pieces, answers it. */
  lemma RequestAnswered<S>(own: byte, h: Handlers<S>, app: S, tid: word, unit: byte, pdu: seq<byte>, up: Input)
    requires 5 <= |pdu| <= Pdu.MAX_PDU_LENGTH && (own == UNIT_ID_ANY || own == unit)
    requires up.Clean() && up.incoming == Adu(tid, unit, pdu)
    ensures var o, turn := HandleRequest(h, app, pdu), OnProcess(own, h, app, up, Delivered);
            2 <= |o.resp| <= Pdu.MAX_PDU_LENGTH && turn.rc == 0 && turn.app == o.state && turn.calls == o.calls &&
            turn.sent == Adu(tid, unit, o.resp) && turn.taken == [up.incoming]
  {
    AduFields(tid, unit, pdu);
    assert up.incoming + [] == up.incoming;
    AduArrives(SERVER_CODES, up, LEAST_REQUEST_LENGTH, up.incoming, []);
    ServedAdu(own, h, app, tid, unit, pdu);
  }

  lemma ServedAdu<S>(own: byte, h: Handlers<S>, app: S, tid: word, unit: byte, pdu: seq<byte>)
    requires 1 <= |pdu| <= Pdu.MAX_PDU_LENGTH && (own == UNIT_ID_ANY || own == unit)
    ensures var o := HandleRequest(h, app, pdu);
            2 <= |o.resp| <= Pdu.MAX_PDU_LENGTH &&
            Serve(own, h, app, Adu(tid, unit, pdu)) == Served(o.state, Adu(tid, unit, o.resp), o.calls)
  {
    AduFields(tid, unit, pdu);
    DispatchIsSound(h, app, pdu);
  }

  /** What a transaction makes of a collected reply. */
  lemma CollectedAnswer(c: Client, unit: byte, r: Request, resp: seq<byte>, s: Socket, stale: seq<seq<byte>>,
                        adu: seq<byte>,
                        t: Transaction)
    requires r.InRange() && c.initialized && c.open && 2 <= |resp| <= Pdu.MAX_PDU_LENGTH
    requires Pdu.CheckResponse(r.Encode(), resp) >= 0 && |adu| >= 7 && adu[7..] == resp
    requires GotReply(Collect(NextTid(c.tid), s), stale, adu, []) && t == Transact(c, unit, r.Encode(), s, Delivered)
    ensures ReturnedAnswer(c, unit, r, resp, t)
  {
  }

  /** The transaction returned the decoded response and left the connection open and empty. */
  ghost predicate ReturnedAnswer(c: Client, unit: byte, r: Request, resp: seq<byte>, t: Transaction)
    requires r.InRange()
  {
    |t.resp| >= 7 && AnswerOf(r, t) == Decode(r, resp) && t.sent == Adu(NextTid(c.tid), unit, r.Encode()) &&
    t.client == Client(true, true, NextTid(c.tid)) && t.socket.link.incoming == []
  }

  /** The client, given the answer behind any stale replies, decodes it. */
  lemma AnswerDecoded(c: Client, unit: byte, r: Request, resp: seq<byte>, s: Socket, stale: seq<seq<byte>>,
                      t: Transaction)
    requires r.InRange() && c.initialized && c.open && 2 <= |resp| <= Pdu.MAX_PDU_LENGTH
    requires Pdu.CheckResponse(r.Encode(), resp) >= 0
    requires Stale(stale, NextTid(c.tid)) && ReadyFor(s.waits, |stale| + 1)
    requires s.link.Clean() && s.link.incoming == Cat(stale) + Adu(NextTid(c.tid), unit, resp)
    requires t == Transact(c, unit, r.Encode(), s, Delivered)
    ensures ReturnedAnswer(c, unit, r, resp, t)
  {
    var adu := Adu(NextTid(c.tid), unit, resp);
    AduFields(NextTid(c.tid), unit, resp);
    assert adu + [] == adu;
    ReplyCollected(NextTid(c.tid), s, stale, adu, []);
    CollectedAnswer(c, unit, r, resp, s, stale, adu, t);
  }

  /**
   * End-to-end transparency over TCP.  A connected client makes an in-range request to a server
   * that accepts its unit identifier; the server reads it in any pieces, and the client, past
   * any stale replies, reads the answer in any pieces before its deadline.  Then the caller
   * gets exactly what a direct call of the handler gives, the application state advances by
   * exactly that call, and the connection stays open with nothing left over.
   */
  lemma TcpTransparent<S>(own: byte, h: Handlers<S>, app: S, c: Client, unit: byte, r: Request,
                          up: Input, s: Socket, stale: seq<seq<byte>>)
    requires r.InRange() && c.initialized && c.open && (own == UNIT_ID_ANY || own == unit)
    requires up.Clean() && up.incoming == Adu(NextTid(c.tid), unit, r.Encode())
    requires Stale(stale, NextTid(c.tid)) && ReadyFor(s.waits, |stale| + 1)
    requires s.link.Clean() && s.link.incoming == Cat(stale) + OnProcess(own, h, app, up, Delivered).sent
    ensures var turn, t := OnProcess(own, h, app, up, Delivered), Transact(c, unit, r.Encode(), s, Delivered);
            t.sent == up.incoming && |t.resp| >= 7 &&
            Direct(h, app, r) == (turn.app, AnswerOf(r, t), turn.calls) &&
            t.client == Client(true, true, NextTid(c.tid)) && t.socket.link.incoming == []
  {
    RequestAnswered(own, h, app, NextTid(c.tid), unit, r.Encode(), up);
    CheckAcceptsDispatch(h, app, r.Encode());
    AnswerDecoded(c, unit, r, HandleRequest(h, app, r.Encode()).resp, s, stale,
                  Transact(c, unit, r.Encode(), s, Delivered));
    PduTransparent(h, app, r);
  }

  // ---- Whole runs ----

  /** The whole request ADUs that a run put on the wire. */
  function Sent(s: Socket, asks: seq<Ask>): seq<seq<byte>>
    requires AllFit(asks)
    decreases |asks|
  {
    if asks == [] then []
    else
      var before, t := Sent(s, asks[..|asks| - 1]), LastOf(s, asks);
      if IsAdu(t.sent) then before + [t.sent] else before
  }

  /** All bytes that a run put on the wire: a send that fails leaves a part of its request there. */
  function OnWire(s: Socket, asks: seq<Ask>): seq<byte>
    requires AllFit(asks)
    decreases |asks|
  {
    if asks == [] then [] else OnWire(s, asks[..|asks| - 1]) + LastOf(s, asks).sent
  }

  /** The n-th request ADU has the n-th identifier. */
  predicate InTidOrder(adus: seq<seq<byte>>) {
    AllRequests(adus) && forall i | 0 <= i < |adus| :: TidOf(i + 1) == TidAt(adus, i)
  }

  function TidAt(adus: seq<seq<byte>>, i: nat): word
    requires AllRequests(adus) && i < |adus|
  {
    assert adus[i] in adus;
    Tid(adus[i])
  }

  lemma LastSent(s: Socket, asks: seq<Ask>)
    requires asks != [] && AllFit(asks)
    ensures var c, t := Requests(s, asks[..|asks| - 1]).client, LastOf(s, asks);
            (IsAdu(t.sent) ==> c.open && AllRequests([t.sent]) && |t.sent| >= 8 && Tid(t.sent) == TidOf(|asks|)) &&
            (t.client.open ==> IsAdu(t.sent)) && (!c.open ==> t.sent == []) &&
            (!IsAdu(t.sent) ==> NoAduAtFront(t.sent))
  {
    var ask := asks[|asks| - 1];
    assert ask in asks;
    var c := Requests(s, asks[..|asks| - 1]).client;
    RunCountsTids(s, asks[..|asks| - 1]);
    NextTidCounts(|asks| - 1);
    SentBy(c, ask.unit, ask.pdu, Requests(s, asks[..|asks| - 1]).socket, ask.sending);
    if c.open {
      WholeOrPart(TidOf(|asks|), ask.unit, ask.pdu, ask.sending);
    }
  }

  /** A sent request is a whole ADU, or nothing that a server can take. */
  lemma WholeOrPart(tid: word, unit: byte, pdu: seq<byte>, sending: Sending)
    requires 5 <= |pdu| <= Pdu.MAX_PDU_LENGTH
    ensures var sent := Wire(sending, Adu(tid, unit, pdu));
            (IsAdu(sent) ==> AllRequests([sent]) && |sent| >= 8 && Tid(sent) == tid) &&
            (!IsAdu(sent) ==> NoAduAtFront(sent)) && (sending.Delivered? ==> IsAdu(sent))
  {
    AduFields(tid, unit, pdu);
    PartIsNoAdu(Adu(tid, unit, pdu), sending);
  }

  /** What one transaction puts on the wire. */
  lemma SentBy(c: Client, unit: byte, pdu: seq<byte>, s: Socket, sending: Sending)
    requires 5 <= |pdu| <= Pdu.MAX_PDU_LENGTH && c.initialized
    ensures var t := Transact(c, unit, pdu, s, sending);
            if c.open then
              t.sent == Wire(sending, Adu(NextTid(c.tid), unit, pdu)) && (t.client.open ==> sending.Delivered?)
            else t.sent == [] && !t.client.open
  {
  }

  /** No whole ADU starts with or without the last of these bytes. */
  ghost predicate NoAduAtFront(bytes: seq<byte>) { forall k | 0 <= k <= |bytes| :: !IsAdu(bytes[..k]) }

  /** What a failed send puts on the wire is a whole ADU only if it is all of it. */
  lemma PartIsNoAdu(adu: seq<byte>, sending: Sending)
    requires IsAdu(adu)
    ensures IsAdu(Wire(sending, adu)) ==> Wire(sending, adu) == adu
    ensures !IsAdu(Wire(sending, adu)) ==> NoAduAtFront(Wire(sending, adu))
  {
    var part := Wire(sending, adu);
    forall k | 0 <= k <= |part| && IsAdu(part[..k]) ensures k == |part| && part == adu {
      assert GetU16(part[..k], 4) == GetU16(adu, 4);
    }
    assert part[..|part|] == part;
  }

  lemma {:induction false} SentInTidOrder(s: Socket, asks: seq<Ask>)
    requires AllFit(asks)
    ensures InTidOrder(Sent(s, asks)) && (Requests(s, asks).client.open ==> |Sent(s, asks)| == |asks|)
    decreases |asks|
  {
    if asks != [] {
      SentInTidOrder(s, asks[..|asks| - 1]);
      LastSent(s, asks);
      RequestsStep(s, asks);
      var before, t := Sent(s, asks[..|asks| - 1]), LastOf(s, asks);
      if IsAdu(t.sent) {
        AppendInTidOrder(before, t.sent);
      }
    }
  }

  lemma AppendInTidOrder(adus: seq<seq<byte>>, adu: seq<byte>)
    requires InTidOrder(adus) && AllRequests([adu]) && |adu| >= 8 && Tid(adu) == TidOf(|adus| + 1)
    ensures InTidOrder(adus + [adu])
  {
    assert adu in [adu];
    forall i | 0 <= i < |adus| ensures TidOf(i + 1) == TidAt(adus + [adu], i) {
      assert TidAt(adus, i) == TidAt(adus + [adu], i);
    }
  }

  /** The server answers with whole ADUs that have the identifiers of their requests. */
  ghost predicate Echoes<S(!new)>(serve: Service<S>) {
    forall app: S, adu: seq<byte> :: EchoesOne(adu, serve(app, adu).resp)
  }

  predicate EchoesOne(adu: seq<byte>, resp: seq<byte>) {
    resp != [] ==> |adu| >= 2 && IsAdu(resp) && Tid(resp) == Tid(adu)
  }

  lemma ServerEchoes<S(!new)>(own: byte, h: Handlers<S>)
    ensures Echoes(Server(own, h))
  {
    forall app: S, adu: seq<byte> ensures EchoesOne(adu, Server(own, h)(app, adu).resp) {
      AnswerEchoes(own, h, app, adu);
    }
  }

  /**
   * The server's echo of transaction identifiers: what it sends is a sequence of whole replies,
   * each with the identifier of the request it answers.
   */
  lemma {:induction false} RepliesEchoTids<S(!new)>(serve: Service<S>, app: S, adus: seq<seq<byte>>)
    requires Echoes(serve) && InTidOrder(adus)
    ensures var replies := Replies(serve, app, adus);
            EchoTids(replies) && Cat(Adus(replies)) == ServeAll(serve, app, adus).resp
    decreases |adus|
  {
    if adus != [] {
      var n := |adus| - 1;
      PrefixInTidOrder(adus, n);
      RepliesEchoTids(serve, app, adus[..n]);
      var resp := serve(ServeAll(serve, app, adus[..n]).app, adus[n]).resp;
      assert EchoesOne(adus[n], resp);
      assert TidAt(adus, n) == TidOf(n + 1);
      OneMoreReply(Replies(serve, app, adus[..n]), Tagged(n + 1, resp));
    } else {
      assert Adus([]) == [];
    }
  }

  lemma OneMoreReply(replies: seq<Tagged>, r: Tagged)
    requires EchoTids(replies) && (r.adu != [] ==> EchoTids([r]))
    ensures r.adu != [] ==> EchoTids(replies + [r])
    ensures Cat(Adus(replies + [r])) == Cat(Adus(replies)) + r.adu
  {
    assert Adus(replies + [r]) == Adus(replies) + [r.adu];
    CatConcat(Adus(replies), [r.adu]);
    CatOne(r.adu);
  }

  /** The returned reply is the server's answer to the request it originates from; which one that is. */
  ghost predicate AnswerUnlessMistaken<S>(serve: Service<S>, app: S, adus: seq<seq<byte>>, taken: seq<Tagged>, n: nat,
                                          resp: seq<byte>) {
    taken != [] &&
    var last := taken[|taken| - 1];
    last.adu == resp && Answers(serve, app, adus, last) && (last.origin == n <==> NoneMistakable(taken, n))
  }

  /** A run put whole request ADUs on the wire, then perhaps a part of one. */
  lemma {:induction false} WireIsSent(s: Socket, asks: seq<Ask>) returns (rest: seq<byte>)
    requires AllFit(asks)
    ensures OnWire(s, asks) == Cat(Sent(s, asks)) + rest && NoAduAtFront(rest)
    ensures Requests(s, asks).client.open ==> rest == []
    decreases |asks|
  {
    rest := [];
    if asks != [] {
      rest := WireIsSent(s, asks[..|asks| - 1]);
      LastSent(s, asks);
      RequestsStep(s, asks);
      rest := OneMoreOnWire(Sent(s, asks[..|asks| - 1]), rest, LastOf(s, asks).sent);
    }
  }

  lemma OneMoreOnWire(sent: seq<seq<byte>>, rest: seq<byte>, now: seq<byte>) returns (rest': seq<byte>)
    requires NoAduAtFront(rest) && (rest == [] || now == []) && (!IsAdu(now) ==> NoAduAtFront(now))
    ensures NoAduAtFront(rest') && (IsAdu(now) ==> rest' == [])
    ensures Cat(sent) + rest + now == Cat(if IsAdu(now) then sent + [now] else sent) + rest'
  {
    CatConcat(sent, [now]);
    CatOne(now);
    assert rest + [] == rest && [] + now == now;
    rest' := if IsAdu(now) then [] else if rest == [] then now else rest;
    Associative(Cat(sent), rest, now);
  }

  /** Whole ADUs read off the wire are the first ones that were sent. */
  lemma TakenAreSent(taken: seq<seq<byte>>, x: seq<byte>, sent: seq<seq<byte>>, rest: seq<byte>)
    requires AllAdus(taken) && AllAdus(sent) && NoAduAtFront(rest) && Cat(taken) + x == Cat(sent) + rest
    ensures taken <= sent
  {
    if |taken| <= |sent| {
      CutIsUnique(taken, sent, x, rest);
    } else {
      CutIsUnique(sent, taken, rest, x);
      var more := taken[|sent|..];
      assert taken == sent + more;
      CatConcat(sent, more);
      Associative(Cat(sent), Cat(more), x);
      SameRest(Cat(sent), Cat(more) + x, rest);
      assert more[0] in taken;
      StartsWithAdu(more, x);
    }
  }

  lemma StartsWithAdu(adus: seq<seq<byte>>, x: seq<byte>)
    requires adus != [] && IsAdu(adus[0])
    ensures !NoAduAtFront(Cat(adus) + x)
  {
    assert (Cat(adus) + x)[..|adus[0]|] == adus[0];
  }

  lemma SameRest(a: seq<byte>, b: seq<byte>, c: seq<byte>)
    requires a + b == a + c
    ensures b == c
  {
    assert b == (a + b)[|a|..] == (a + c)[|a|..] == c;
  }

  /**
   * Client and server on one connection: the server reads a first part of what the client puts
   * on the wire, in any pieces, and the client is delivered a first part of what the server
   * sends.
   */
  ghost predicate Connected<S>(own: byte, h: Handlers<S>, app: S, s: Socket, asks: seq<Ask>, up: Input,
                               sends: seq<Sending>)
    requires AllFit(asks)
  {
    up.incoming <= OnWire(s, asks) && s.link.incoming <= Serving(own, h, app, up, sends).sent
  }

  /** Then the server takes the first requests of the run, and the client reads their answers. */
  lemma ServerTakesSent<S>(own: byte, h: Handlers<S>, app: S, s: Socket, asks: seq<Ask>, up: Input,
                           sends: seq<Sending>)
    requires AllFit(asks) && Connected(own, h, app, s, asks, up, sends)
    ensures var taken := Serving(own, h, app, up, sends).taken;
            taken <= Sent(s, asks) && InTidOrder(taken) &&
            s.link.incoming <= ServeAll(Server(own, h), app, taken).resp
  {
    var c := Serving(own, h, app, up, sends);
    ConnectionServesInOrder(own, h, app, up, sends);
    OrderedParts(own, h, app, up.incoming, c, |sends|, AllDelivered(sends));
    ReadAreSent(c.taken, up.incoming, s, asks);
    PrefixOfPrefix(s.link.incoming, c.sent, ServeAll(Server(own, h), app, c.taken).resp);
  }

  lemma ReadAreSent(taken: seq<seq<byte>>, incoming: seq<byte>, s: Socket, asks: seq<Ask>)
    requires AllFit(asks) && AllAdus(taken) && Cat(taken) <= incoming <= OnWire(s, asks)
    ensures taken <= Sent(s, asks) && InTidOrder(taken)
  {
    SentInTidOrder(s, asks);
    var rest := WireIsSent(s, asks);
    FirstOfWire(taken, incoming, OnWire(s, asks), Sent(s, asks), rest);
    FirstInTidOrder(taken, Sent(s, asks));
  }

  lemma FirstOfWire(taken: seq<seq<byte>>, incoming: seq<byte>, wire: seq<byte>, sent: seq<seq<byte>>, rest: seq<byte>)
    requires AllAdus(taken) && AllRequests(sent) && NoAduAtFront(rest)
    requires Cat(taken) <= incoming <= wire && wire == Cat(sent) + rest
    ensures taken <= sent
  {
    PrefixOfPrefix(Cat(taken), incoming, wire);
    var x := RestOf(Cat(taken), wire);
    TakenAreSent(taken, x, sent, rest);
  }

  lemma FirstInTidOrder(taken: seq<seq<byte>>, sent: seq<seq<byte>>)
    requires taken <= sent && InTidOrder(sent)
    ensures InTidOrder(taken)
  {
    assert taken == sent[..|taken|];
    PrefixInTidOrder(sent, |taken|);
  }

  lemma RestOf(a: seq<byte>, b: seq<byte>) returns (x: seq<byte>)
    requires a <= b
    ensures a + x == b
  {
    x := b[|a|..];
  }

  lemma OrderedParts<S>(own: byte, h: Handlers<S>, app: S, stream: seq<byte>, c: Connection<S>, n: nat, delivered: bool)
    requires InOrder(own, h, app, stream, c, n, delivered)
    ensures AllAdus(c.taken) && Cat(c.taken) <= stream && c.sent <= ServeAll(Server(own, h), app, c.taken).resp
  {
  }

  lemma PrefixOfPrefix(a: seq<byte>, b: seq<byte>, c: seq<byte>)
    requires a <= b <= c
    ensures a <= c
  {
  }

  /**
   * Client and server over a whole run, of which the server may have taken any first part: the
   * n-th transaction, if it succeeds or gets an exception, returns one of the server's answers;
   * it is the answer to the n-th request if and only if no answer taken there is to another
   * request a multiple of 65535 away.
   */
  lemma RunTakesOwnAnswers<S(!new)>(own: byte, h: Handlers<S>, app: S, s: Socket, asks: seq<Ask>, n: nat, up: Input,
                                    sends: seq<Sending>)
    requires AllFit(asks) && Connected(own, h, app, s, asks, up, sends)
    requires 1 <= n <= |asks| && LastOf(s, asks[..n]).rc >= 0
    ensures var taken := Serving(own, h, app, up, sends).taken;
            var replies := Replies(Server(own, h), app, taken);
            AnswerUnlessMistaken(Server(own, h), app, taken, TakenLast(s, asks[..n], replies), n,
                                 LastOf(s, asks[..n]).resp)
  {
    var taken := Serving(own, h, app, up, sends).taken;
    ServerEchoes(own, h);
    ServerTakesSent(own, h, app, s, asks, up, sends);
    EchoingServerAnswers(Server(own, h), app, s, asks[..n], taken);
  }

  lemma EchoingServerAnswers<S(!new)>(serve: Service<S>, app: S, s: Socket, asks: seq<Ask>, adus: seq<seq<byte>>)
    requires Echoes(serve) && asks != [] && AllFit(asks) && LastOf(s, asks).rc >= 0
    requires InTidOrder(adus) && s.link.incoming <= ServeAll(serve, app, adus).resp
    ensures AnswerUnlessMistaken(serve, app, adus, TakenLast(s, asks, Replies(serve, app, adus)), |asks|,
                                 LastOf(s, asks).resp)
  {
    var replies, resp := Replies(serve, app, adus), ServeAll(serve, app, adus).resp;
    var lost := resp[|s.link.incoming|..];
    assert resp == s.link.incoming + lost;
    RepliesEchoTids(serve, app, adus);
    OwnReplyOnly(s, asks, replies, lost);
    var taken := TakenLast(s, asks, replies);
    RepliesAnswer(serve, app, adus, taken[|taken| - 1]);
  }

  lemma PrefixInTidOrder(adus: seq<seq<byte>>, n: nat)
    requires InTidOrder(adus) && n <= |adus|
    ensures InTidOrder(adus[..n])
  {
    forall i | 0 <= i < n ensures TidOf(i + 1) == TidAt(adus[..n], i) {
      assert TidAt(adus[..n], i) == TidAt(adus, i);
    }
  }

  // ---- A whole run equals direct calls ----

  /** In a run, the last request that succeeds or gets an exception is the last ADU sent. */
  lemma LastIsSent(s: Socket, asks: seq<Ask>)
    requires asks != [] && AllFit(asks) && LastOf(s, asks).rc >= 0
    ensures var n, ask := |asks| - 1, asks[|asks| - 1];
            |Sent(s, asks)| == n + 1 && 5 <= |ask.pdu| <= Pdu.MAX_PDU_LENGTH &&
            Sent(s, asks)[n] == Adu(TidOf(n + 1), ask.unit, ask.pdu)
  {
    var ask := asks[|asks| - 1];
    assert ask in asks;
    SuccessTook(s, asks);
    SentInTidOrder(s, asks);
    SentInTidOrder(s, asks[..|asks| - 1]);
    LastSent(s, asks);
    RequestsStep(s, asks);
    RunCountsTids(s, asks[..|asks| - 1]);
    NextTidCounts(|asks| - 1);
    PartIsNoAdu(Adu(TidOf(|asks|), ask.unit, ask.pdu), ask.sending);
  }

  /** A request that was answered was dispatched. */
  lemma AnsweredServe<S>(own: byte, h: Handlers<S>, app: S, tid: word, unit: byte, pdu: seq<byte>)
    requires 1 <= |pdu| <= Pdu.MAX_PDU_LENGTH && Serve(own, h, app, Adu(tid, unit, pdu)).resp != []
    ensures var o, now := HandleRequest(h, app, pdu), Serve(own, h, app, Adu(tid, unit, pdu));
            now.app == o.state && now.calls == o.calls && |now.resp| >= 7 && now.resp[7..] == o.resp
  {
    AduFields(tid, unit, pdu);
    ServedAdu(own, h, app, tid, unit, pdu);
    AduFields(tid, unit, HandleRequest(h, app, pdu).resp);
  }

  /** A served request whose answer is returned: the caller gets what a direct call gives. */
  lemma ServedIsDirect<S>(own: byte, h: Handlers<S>, app: S, tid: word, unit: byte, r: Request, t: Transaction)
    requires r.InRange() && |t.resp| >= 7 && t.resp == Serve(own, h, app, Adu(tid, unit, r.Encode())).resp
    requires t.rc >= 0 && t.rc == Pdu.CheckResponse(r.Encode(), t.resp[7..])
    ensures var now := Serve(own, h, app, Adu(tid, unit, r.Encode()));
            Direct(h, app, r) == (now.app, AnswerOf(r, t), now.calls)
  {
    AnsweredServe(own, h, app, tid, unit, r.Encode());
    PduTransparent(h, app, r);
  }

  lemma LastIsAnswered(s: Socket, asks: seq<Ask>, r: Request)
    requires asks != [] && AllFit(asks) && LastOf(s, asks).rc >= 0
    requires r.InRange() && asks[|asks| - 1].pdu == r.Encode()
    ensures var t := LastOf(s, asks);
            |t.resp| >= 7 && t.rc == Pdu.CheckResponse(r.Encode(), t.resp[7..])
  {
    var before, ask := Requests(s, asks[..|asks| - 1]), asks[|asks| - 1];
    assert ask in asks;
    Answered(before.client, ask.unit, r, before.socket, ask.sending);
  }

  /** What serving one request more adds. */
  lemma ServeNext<S>(serve: Service<S>, app: S, adus: seq<seq<byte>>, n: nat)
    requires 1 <= n <= |adus|
    ensures var before, after := ServeAll(serve, app, adus[..n - 1]), ServeAll(serve, app, adus[..n]);
            var now := serve(before.app, adus[n - 1]);
            after.app == now.app && after.calls == before.calls + now.calls
  {
    assert adus[..n] == adus[..n - 1] + [adus[n - 1]];
    ServeAllOneMore(serve, app, adus[..n - 1], adus[n - 1]);
  }

  /** The requests of a run begin with those of each first part of it. */
  lemma {:induction false} SentOfPrefix(s: Socket, asks: seq<Ask>, n: nat)
    requires AllFit(asks) && n <= |asks|
    ensures Sent(s, asks[..n]) <= Sent(s, asks)
    decreases |asks|
  {
    if n < |asks| {
      assert asks[..|asks| - 1][..n] == asks[..n];
      SentOfPrefix(s, asks[..|asks| - 1], n);
    } else {
      assert asks[..n] == asks;
    }
  }

  lemma {:induction false} SentAtMost(s: Socket, asks: seq<Ask>)
    requires AllFit(asks)
    ensures |Sent(s, asks)| <= |asks|
    decreases |asks|
  {
    if asks != [] {
      SentAtMost(s, asks[..|asks| - 1]);
    }
  }

  /** The transaction gave what a direct call gives in the state that the requests before it left. */
  ghost predicate ActsDirectly<S>(serve: Service<S>, h: Handlers<S>, app: S, sent: seq<seq<byte>>, n: nat, r: Request,
                                  t: Transaction)
    requires r.InRange() && 1 <= n <= |sent| && (t.rc >= 0 ==> |t.resp| >= 7)
  {
    var before, after := ServeAll(serve, app, sent[..n - 1]), ServeAll(serve, app, sent[..n]);
    var (app', answer, calls) := Direct(h, before.app, r);
    AnswerOf(r, t) == answer && after.app == app' && after.calls == before.calls + calls
  }

  /**
   * Transparency over a whole run, whatever happens to the requests before and after: unless an
   * answer can be mistaken, a success or exception of the n-th transaction says that the server
   * has taken the n-th request, and is what a direct call of the handler gives in the state that
   * serving the first n - 1 requests left; serving the n-th advances the state by exactly that
   * call.
   */
  lemma RunTransparent<S(!new)>(own: byte, h: Handlers<S>, app: S, s: Socket, asks: seq<Ask>, n: nat, up: Input,
                                sends: seq<Sending>, r: Request)
    requires AllFit(asks) && Connected(own, h, app, s, asks, up, sends)
    requires 1 <= n <= |asks| && LastOf(s, asks[..n]).rc >= 0 && r.InRange() && asks[n - 1].pdu == r.Encode()
    requires var replies := Replies(Server(own, h), app, Serving(own, h, app, up, sends).taken);
             NoneMistakable(TakenLast(s, asks[..n], replies), n)
    ensures var t, taken := LastOf(s, asks[..n]), Serving(own, h, app, up, sends).taken;
            n <= |taken| && taken <= Sent(s, asks) && |t.resp| >= 7 &&
            ActsDirectly(Server(own, h), h, app, taken, n, r, t)
  {
    var t, taken := LastOf(s, asks[..n]), Serving(own, h, app, up, sends).taken;
    RunTakesOwnAnswers(own, h, app, s, asks, n, up, sends);
    ServerTakesSent(own, h, app, s, asks, up, sends);
    LastIsSent(s, asks[..n]);
    LastIsAnswered(s, asks[..n], r);
    SentOfPrefix(s, asks, n);
    assert taken[n - 1] == Sent(s, asks[..n])[n - 1];
    DirectlyServed(own, h, app, taken, n, asks[n - 1].unit, r, t);
  }

  /** On a connection with at most 65535 requests nothing can be mistaken. */
  lemma ShortRunTransparent<S(!new)>(own: byte, h: Handlers<S>, app: S, s: Socket, asks: seq<Ask>, n: nat, up: Input,
                                     sends: seq<Sending>, r: Request)
    requires AllFit(asks) && |asks| <= 65535 && Connected(own, h, app, s, asks, up, sends)
    requires 1 <= n <= |asks| && LastOf(s, asks[..n]).rc >= 0 && r.InRange() && asks[n - 1].pdu == r.Encode()
    ensures var t, taken := LastOf(s, asks[..n]), Serving(own, h, app, up, sends).taken;
            n <= |taken| && taken <= Sent(s, asks) && |t.resp| >= 7 &&
            ActsDirectly(Server(own, h), h, app, taken, n, r, t)
  {
    var taken := Serving(own, h, app, up, sends).taken;
    var last := TakenLast(s, asks[..n], Replies(Server(own, h), app, taken));
    ServerTakesSent(own, h, app, s, asks, up, sends);
    SentAtMost(s, asks);
    forall x | x in last ensures -65535 < n - x.origin < 65535 {
      RepliesAnswer(Server(own, h), app, taken, x);
    }
    NearbyUnmistakable(last, n);
    RunTransparent(own, h, app, s, asks, n, up, sends, r);
  }

  lemma DirectlyServed<S>(own: byte, h: Handlers<S>, app: S, sent: seq<seq<byte>>, n: nat, unit: byte, r: Request,
                          t: Transaction)
    requires r.InRange() && 1 <= n <= |sent| && sent[n - 1] == Adu(TidOf(n), unit, r.Encode())
    requires |t.resp| >= 7
    requires t.resp == Serve(own, h, ServeAll(Server(own, h), app, sent[..n - 1]).app, sent[n - 1]).resp
    requires t.rc >= 0 && t.rc == Pdu.CheckResponse(r.Encode(), t.resp[7..])
    ensures ActsDirectly(Server(own, h), h, app, sent, n, r, t)
  {
    ServeNext(Server(own, h), app, sent, n);
    ServedIsDirect(own, h, ServeAll(Server(own, h), app, sent[..n - 1]).app, TidOf(n), unit, r, t);
  }

  // ---- Closed connections ----

  /**
   * A closed connection stays as it is: whatever is asked for afterwards is refused, nothing
   * more is taken or sent, and no identifier is used up.
   */
  lemma {:induction false} ClosedStaysClosed(s: Socket, asks: seq<Ask>, more: seq<Ask>)
    requires AllFit(asks) && AllFit(more) && !Requests(s, asks).client.open
    ensures AllFit(asks + more)
    ensures Requests(s, asks + more) == Requests(s, asks) && Sent(s, asks + more) == Sent(s, asks)
    ensures more != [] ==> LastOf(s, asks + more).rc == ERR_NOT_CONNECTED
    decreases |more|
  {
    if more == [] {
      assert asks + more == asks;
    } else {
      var n := |more| - 1;
      InitOfConcat(asks, more);
      ClosedStaysClosed(s, asks, more[..n]);
      RequestsStep(s, asks + more);
      assert Requests(s, asks).taken + [] == Requests(s, asks).taken;
    }
  }
}
