/**
 * Modbus TCP in numbers: the bytes of an ADU, which ones are taken off a stream, which requests
 * a server answers, and what each return code of a client says.
 */
module TcpBytes {
  import opened Bytes
  import opened Transport
  import opened ExactRead
  import opened ExactSend
  import opened ShortReads
  import opened Mbap
  import opened Dispatch
  import opened PduProperties
  import opened PduBytes
  import TcpFrames
  import TcpServer
  import TcpClient
  import Pdu

  // ---- ADUs ----

  /** Section 3.1.3 of MODBUS Messaging on TCP/IP, byte by byte. */
  predicate AduBytes(tid: nat, unit: byte, pdu: seq<byte>, adu: seq<byte>) {
    |adu| == 7 + |pdu| && Number(adu, 0) == tid && Number(adu, 2) == 0 && Number(adu, 4) == 1 + |pdu| &&
    adu[6] == unit && adu[7..] == pdu
  }

  lemma AduExactly(tid: word, unit: byte, pdu: seq<byte>)
    requires |pdu| < 0xFFFF
    ensures AduBytes(tid, unit, pdu, Adu(tid, unit, pdu))
  {
    AduFields(tid, unit, pdu);
  }

  /** The length field of a stream that starts with a header. */
  function Announced(s: seq<byte>): nat
    requires |s| >= 6
  {
    Number(s, 4)
  }

  /** On a clean stream: a length out of range ends it, too few bytes time out, else one ADU is taken. */
  lemma ReadAduExactly(codes: ErrorCodes, link: Input, least: nat)
    requires link.Clean()
    ensures var r, s := ReadAdu(codes, link, least), link.incoming;
            if |s| < 6 then r.rc == codes.onNoData
            else if Announced(s) < least || Announced(s) > 254 then r.rc == -1 && r.link.incoming == s[6..]
            else if |s| < 6 + Announced(s) then r.rc == codes.onNoData
            else
              r.rc == 0 && r.bytes == s[..6 + Announced(s)] && r.link.incoming == s[6 + Announced(s)..] &&
              r.link.Clean()
  {
    var s := link.incoming;
    if |s| < 6 {
      ReadExactShort(codes, link, 6);
    } else {
      ReadExactClean(codes, link, 6);
      var header := ReadExact(codes, link, 6);
      assert GetU16(header.bytes, 4) == Announced(s);
      BodyExactly(codes, header, s, Announced(s));
    }
  }

  lemma BodyExactly(codes: ErrorCodes, header: Received, s: seq<byte>, len: nat)
    requires |s| >= 6 && header.link.Clean() && header.bytes == s[..6] && header.link.incoming == s[6..]
    ensures var r := Extend(codes, header, len);
            if |s| < 6 + len then r.rc == codes.onNoData
            else r.rc == 0 && r.bytes == s[..6 + len] && r.link.incoming == s[6 + len..] && r.link.Clean()
  {
    if |s| < 6 + len {
      ReadExactShort(codes, header.link, len);
    } else {
      ReadExactClean(codes, header.link, len);
      assert s[..6] + s[6..][..len] == s[..6 + len] && s[6..][len..] == s[6 + len..];
    }
  }

  // ---- The server ----

  /**
   * An ADU that is too short, not Modbus or for another unit is ignored without a call; any other
   * is dispatched, and answered in an ADU with its identifier and unit.
   */
  lemma ServesExactly<S>(own: byte, h: Handlers<S>, app: S, adu: seq<byte>)
    ensures var served := TcpServer.Serve(own, h, app, adu);
            if |adu| < 8 || adu[2] != 0 || adu[3] != 0 || (own != 255 && adu[6] != own) then
              served == Served(app, [], [])
            else
              var o := HandleRequest(h, app, adu[7..]);
              served.app == o.state && served.calls == o.calls &&
              AduBytes(Number(adu, 0), adu[6], o.resp, served.resp)
  {
    if TcpServer.Accepts(own, adu) {
      DispatchIsSound(h, app, adu[7..]);
      AduExactly(Tid(adu), adu[6], HandleRequest(h, app, adu[7..]).resp);
    }
  }

  /** One call of the server on a clean socket: it takes the first ADU, or fails on a bad or missing one. */
  lemma TurnExactly<S>(own: byte, h: Handlers<S>, app: S, link: Input, sending: Sending)
    requires link.Clean()
    ensures var turn, s := TcpServer.OnProcess(own, h, app, link, sending), link.incoming;
            if |s| < 6 || Announced(s) < 2 || Announced(s) > 254 || |s| < 6 + Announced(s) then
              turn.rc == -1 && turn.app == app && turn.sent == [] && turn.taken == [] && turn.calls == []
            else
              var served := TcpServer.Serve(own, h, app, s[..6 + Announced(s)]);
              turn.taken == [s[..6 + Announced(s)]] && turn.app == served.app && turn.calls == served.calls &&
              turn.sent == Wire(sending, served.resp) &&
              turn.rc == if served.resp == [] || sending.Delivered? then 0 else -1
  {
    ReadAduExactly(TcpServer.SERVER_CODES, link, TcpServer.LEAST_REQUEST_LENGTH);
  }

  // ---- The client ----

  /** Before anything is received. */
  lemma NotSent(c: TcpClient.Client, unit: byte, pdu: seq<byte>, s: TcpClient.Socket, sending: Sending)
    requires 5 <= |pdu| <= 253
    ensures var t := TcpClient.Transact(c, unit, pdu, s, sending);
            var next := if c.tid < 65535 then c.tid + 1 else 1;
            if !c.initialized || !c.open then t.rc == -2 && t.client == c && t.socket == s && t.sent == []
            else
              t.client.tid == next &&
              (sending.Cut? ==> t.rc == -3 && t.client == TcpClient.Client(true, false, next) && t.socket == s) &&
              (sending.Delivered? ==> AduBytes(next, unit, pdu, t.sent))
  {
    if c.initialized && c.open {
      AduExactly(TcpClient.NextTid(c.tid), unit, pdu);
    }
  }

  /** What a transaction on an open connection gives when the first wait for a reply ends. */
  ghost predicate Gives(c: TcpClient.Client, unit: byte, pdu: seq<byte>, s: TcpClient.Socket, rc: int, open: bool)
    requires 5 <= |pdu| <= 253
  {
    c.initialized && c.open ==>
      var t := TcpClient.Transact(c, unit, pdu, s, Delivered);
      t.rc == rc && t.client.open == open
  }

  /** No reply in time, or a failing wait: only the first leaves the connection open. */
  lemma NoReply(c: TcpClient.Client, unit: byte, pdu: seq<byte>, s: TcpClient.Socket)
    requires 5 <= |pdu| <= 253
    ensures s.waits == [] || s.waits[0].Deadline? ==> Gives(c, unit, pdu, s, -4, true)
    ensures s.waits != [] && s.waits[0].WaitError? ==> Gives(c, unit, pdu, s, -3, false)
  {
  }

  predicate Readable(s: TcpClient.Socket) { s.waits != [] && s.waits[0].Ready? }

  /** A reply that breaks off closes the connection: with a timeout, or a transport error. */
  lemma ReplyStops(c: TcpClient.Client, unit: byte, pdu: seq<byte>, s: TcpClient.Socket)
    requires 5 <= |pdu| <= 253 && Readable(s) && s.link.schedule != []
    ensures s.link.schedule[0].NoData? ==> Gives(c, unit, pdu, s, -4, false)
    ensures s.link.schedule[0].Closed? || s.link.schedule[0].Failed? ==> Gives(c, unit, pdu, s, -3, false)
  {
    ReadExactStopped(TcpClient.CLIENT_CODES, s.link, 6);
  }

  /** On a clean stream, for replies that are short, of a bad length, or of another protocol. */
  lemma BadReply(c: TcpClient.Client, unit: byte, pdu: seq<byte>, s: TcpClient.Socket)
    requires 5 <= |pdu| <= 253 && Readable(s) && s.link.Clean()
    ensures var b := s.link.incoming;
            if |b| < 6 then Gives(c, unit, pdu, s, -4, false)
            else if Announced(b) < 1 || Announced(b) > 254 then Gives(c, unit, pdu, s, -3, false)
            else if |b| < 6 + Announced(b) then Gives(c, unit, pdu, s, -4, false)
            else Number(b, 2) != 0 ==> Gives(c, unit, pdu, s, -5, true)
  {
    ReadAduExactly(TcpClient.CLIENT_CODES, s.link, TcpClient.LEAST_RESPONSE_LENGTH);
  }

  /** A whole Modbus ADU on a clean stream. */
  predicate HasReply(s: TcpClient.Socket) {
    var b := s.link.incoming;
    Readable(s) && s.link.Clean() && |b| >= 6 && 1 <= Announced(b) <= 254 && |b| >= 6 + Announced(b) &&
    Number(b, 2) == 0
  }

  /** With the identifier of the request it is checked; with another one it is skipped. */
  lemma ReplyTaken(c: TcpClient.Client, unit: byte, pdu: seq<byte>, s: TcpClient.Socket)
    requires 5 <= |pdu| <= 253 && HasReply(s) && c.initialized && c.open
    ensures var t, b := TcpClient.Transact(c, unit, pdu, s, Delivered), s.link.incoming;
            var adu, next := b[..6 + Announced(b)], if c.tid < 65535 then c.tid + 1 else 1;
            if Number(adu, 0) == next then
              t.resp == adu && t.client.open && t.socket.link.incoming == b[|adu|..] &&
              t.rc == if |adu| == 7 || Pdu.CheckResponse(pdu, adu[7..]) == -1 then -5
                      else Pdu.CheckResponse(pdu, adu[7..])
            else |s.waits| < 2 || s.waits[1].Deadline? ==> t.rc == -6 && t.client.open
  {
    ReadAduExactly(TcpClient.CLIENT_CODES, s.link, TcpClient.LEAST_RESPONSE_LENGTH);
    var r, next := TcpClient.RecvResponse(s), TcpClient.NextTid(c.tid);
    if Tid(r.adu) != next && (|s.waits| < 2 || s.waits[1].Deadline?) {
      assert TcpClient.Collect(next, r.socket).rc == TcpClient.NO_DATA;
      assert TcpClient.Collect(next, s).stale;
    }
  }

  /** A transaction returns 0 only with a reply that answers its request, c only with that exception. */
  lemma ReplyAnswers(c: TcpClient.Client, unit: byte, pdu: seq<byte>, s: TcpClient.Socket, sending: Sending)
    requires 5 <= |pdu| <= 253
    ensures var t := TcpClient.Transact(c, unit, pdu, s, sending);
            (t.rc == 0 ==> |t.resp| > 7 && Answering(pdu, t.resp[7..])) &&
            (t.rc > 0 ==> |t.resp| > 7 && t.rc < 256 && t.resp[7..] == [Marked(pdu[0]), t.rc])
  {
    var t := TcpClient.Transact(c, unit, pdu, s, sending);
    if t.rc >= 0 {
      CheckResponseExactly(pdu, t.resp[7..]);
    }
  }

  /** The identifiers of a connection: 1 to 65535, then from 1 again. */
  lemma TidExactly(s: TcpClient.Socket, asks: seq<TcpClient.Ask>)
    requires TcpClient.AllFit(asks)
    ensures var c := TcpClient.Requests(s, asks).client;
            c.open ==> c.tid == if asks == [] then 0 else (|asks| - 1) % 65535 + 1
  {
    TcpClient.RunCountsTids(s, asks);
  }

  // ---- The standalone parser ----

  /** Which buffers the parser takes, and what it reads in them. */
  lemma ParseExactly(s: seq<byte>)
    ensures TcpFrames.ParseAdu(s) ==
            if |s| < 6 || Announced(s) < 6 || Announced(s) > 254 || |s| < 6 + Announced(s) then Pdu.Rejected
            else Pdu.Fields(s[7], Number(s, 8), if s[7] == 6 then 1 else Number(s, 10))
  {
  }
}
