/**
 * src/modbus_tcp_client.c: the client context, its transactions, and whole runs of requests
 * on one connection.
 */
module TcpClient {
  import opened Bytes
  import opened Transport
  import opened ExactRead
  import opened ExactSend
  import opened Mbap
  import opened PduProperties
  import opened ServeInOrder
  import Pdu

  const ERR_ARG := -1
  const ERR_NOT_CONNECTED := -2
  const ERR_TRANSPORT := -3
  const ERR_TIMEOUT := -4
  const ERR_FRAME := -5
  const ERR_TID := -6

  const NO_DATA := -2
  const PROTOCOL_ID_ERROR := -3
  const PARTIAL_TIMEOUT := -4
  const LEAST_RESPONSE_LENGTH := 1

  /** recv_exact: -2 on a timeout, -1 on an error or at end of file. */
  const CLIENT_CODES: ErrorCodes := Codes(-2, -1, -1)

  /** What wait_readable returns: 0, -2 at the deadline, -1 on an error. */
  datatype Wait = Ready | Deadline | WaitError

  /** A socket: the bytes to come, and how the waits for a first byte will end. */
  datatype Socket = Socket(link: Input, waits: seq<Wait>)

  function NextWait(waits: seq<Wait>): Wait { if waits == [] then Deadline else waits[0] }

  function LaterWaits(waits: seq<Wait>): seq<Wait> { if waits == [] then [] else waits[1..] }

  /** next_tid */
  function NextTid(tid: word): word { if tid < 65535 then tid + 1 else 1 }

  /** The return code for an ADU read or not: a timeout inside an ADU loses alignment. */
  function ReceiveCode(r: Received): int
    requires r.rc == 0 ==> |r.bytes| >= 4
  {
    if r.rc == NO_DATA then PARTIAL_TIMEOUT
    else if r.rc != 0 then r.rc
    else if !IsModbus(r.bytes) then PROTOCOL_ID_ERROR
    else 0
  }

  datatype Response = Response(rc: int, adu: seq<byte>, socket: Socket)

  /** recv_response */
  function RecvResponse(s: Socket): Response {
    match NextWait(s.waits)
    case Deadline => Response(NO_DATA, [], s.(waits := LaterWaits(s.waits)))
    case WaitError => Response(-1, [], s.(waits := LaterWaits(s.waits)))
    case Ready =>
      ReadAduTakesOne(CLIENT_CODES, s.link, LEAST_RESPONSE_LENGTH);
      var r := ReadAdu(CLIENT_CODES, s.link, LEAST_RESPONSE_LENGTH);
      Response(ReceiveCode(r), r.bytes, Socket(r.link, LaterWaits(s.waits)))
  }

  /** A whole ADU was taken, whether or not it is Modbus. */
  predicate TookOne(rc: int) { rc == 0 || rc == PROTOCOL_ID_ERROR }

  function Taken(r: Response): seq<seq<byte>> { if TookOne(r.rc) then [r.adu] else [] }

  datatype Collected = Collected(rc: int, adu: seq<byte>, stale: bool, taken: seq<seq<byte>>, socket: Socket)

  /** The loop of transact: skip replies with another transaction identifier. */
  function Collect(tid: word, s: Socket): Collected
    decreases |s.waits|
  {
    ResponseTakes(s);
    var r := RecvResponse(s);
    if r.rc != 0 || Tid(r.adu) == tid then
      Collected(r.rc, r.adu, false, Taken(r), r.socket)
    else
      var more := Collect(tid, r.socket);
      Collected(more.rc, more.adu, true, Taken(r) + more.taken, more.socket)
  }

  /** recv_err_to_client_err */
  function ClientError(rc: int): int {
    if rc == NO_DATA || rc == PARTIAL_TIMEOUT then ERR_TIMEOUT
    else if rc == PROTOCOL_ID_ERROR then ERR_FRAME
    else ERR_TRANSPORT
  }

  /** The return code of transact once the socket has been dealt with. */
  function Verdict(pdu: seq<byte>, got: Collected): int
    requires |pdu| >= 5
  {
    if got.rc == NO_DATA && got.stale then ERR_TID
    else if got.rc != 0 then ClientError(got.rc)
    else if |got.adu| <= 7 then ERR_FRAME
    else
      var rc := Pdu.CheckResponse(pdu, got.adu[7..]);
      if rc == Pdu.ERR_FRAME then ERR_FRAME else rc
  }

  /** The context: between connect and disconnect, socket open, last transaction identifier. */
  datatype Client = Client(initialized: bool, open: bool, tid: word)

  datatype Transaction =
    Transaction(rc: int, client: Client, socket: Socket, resp: seq<byte>, taken: seq<seq<byte>>, sent: seq<byte>)

  function Refused(c: Client, s: Socket): Transaction { Transaction(ERR_NOT_CONNECTED, c, s, [], [], []) }

  /** The socket stays open unless the byte stream can no longer be followed. */
  predicate KeepsSocket(rc: int) { rc != -1 && rc != PARTIAL_TIMEOUT }

  /** transact; sending says how mb_tcp_send_all ends. */
  function Transact(c: Client, unit: byte, pdu: seq<byte>, s: Socket, sending: Sending): Transaction
    requires 5 <= |pdu| <= Pdu.MAX_PDU_LENGTH
  {
    if !c.initialized || !c.open then Refused(c, s)
    else
      var tid := NextTid(c.tid);
      if !sending.Delivered? then
        Transaction(ERR_TRANSPORT, Client(true, false, tid), s, [], [], Wire(sending, Adu(tid, unit, pdu)))
      else
        var got := Collect(tid, s);
        Transaction(Verdict(pdu, got), Client(true, KeepsSocket(got.rc), tid), got.socket, got.adu, got.taken,
                    Adu(tid, unit, pdu))
  }

  // ---- One transaction ----

  /** One receive takes one whole ADU, or nothing, or the stream cannot be followed any more. */
  lemma ResponseTakes(s: Socket)
    ensures var r := RecvResponse(s);
            (TookOne(r.rc) ==> IsAdu(r.adu) && 7 <= |r.adu| <= MAX_ADU_LENGTH &&
                               r.adu + r.socket.link.incoming == s.link.incoming) &&
            (r.rc == NO_DATA ==> r.socket.link == s.link) &&
            (r.rc == 0 ==> IsModbus(r.adu)) &&
            (KeepsSocket(r.rc) <==> TookOne(r.rc) || r.rc == NO_DATA) &&
            |r.socket.waits| <= |s.waits| && (r.rc == 0 ==> |r.socket.waits| < |s.waits|)
  {
    ReadAduTakesOne(CLIENT_CODES, s.link, LEAST_RESPONSE_LENGTH);
  }

  lemma OneTaken(r: Response)
    ensures Cat(Taken(r)) == if TookOne(r.rc) then r.adu else []
  {
    CatOne(r.adu);
  }

  /** A whole transaction takes whole ADUs; the last one of a successful one has its identifier. */
  lemma {:induction false} CollectTakes(tid: word, s: Socket)
    ensures var got := Collect(tid, s);
            AllAdus(got.taken) &&
            (KeepsSocket(got.rc) ==> Cat(got.taken) + got.socket.link.incoming == s.link.incoming) &&
            (got.rc == 0 ==> 7 <= |got.adu| <= MAX_ADU_LENGTH && Tid(got.adu) == tid &&
                             got.taken != [] && got.taken[|got.taken| - 1] == got.adu)
    decreases |s.waits|
  {
    var r := RecvResponse(s);
    ResponseTakes(s);
    OneTaken(r);
    if r.rc == 0 && Tid(r.adu) != tid {
      CollectTakes(tid, r.socket);
      var more := Collect(tid, r.socket);
      CatConcat(Taken(r), more.taken);
      Associative(r.adu, Cat(more.taken), more.socket.link.incoming);
    }
  }

  /** All replies taken had other identifiers. */
  ghost predicate AllStale(adus: seq<seq<byte>>, tid: word) {
    forall a | a in adus :: |a| >= 2 && Tid(a) != tid
  }

  /** Before the accepted reply only others were taken. */
  lemma {:induction false} SkipsStale(tid: word, s: Socket)
    ensures var got := Collect(tid, s);
            got.rc == 0 ==> got.taken != [] && AllStale(got.taken[..|got.taken| - 1], tid)
    decreases |s.waits|
  {
    ResponseTakes(s);
    var r := RecvResponse(s);
    if r.rc == 0 && Tid(r.adu) != tid {
      SkipsStale(tid, r.socket);
      var more := Collect(tid, r.socket).taken;
      if more != [] && AllStale(more[..|more| - 1], tid) {
        StaleBefore(r.adu, more, tid);
      }
    }
  }

  lemma StaleBefore(adu: seq<byte>, more: seq<seq<byte>>, tid: word)
    requires |adu| >= 2 && Tid(adu) != tid && more != [] && AllStale(more[..|more| - 1], tid)
    ensures AllStale(([adu] + more)[..|more|], tid)
  {
    InitOfConcat([adu], more);
  }

  /** A deadline between replies: only stale ones were taken, and none at all if none was seen. */
  lemma {:induction false} DeadlineTakesStale(tid: word, s: Socket)
    ensures var got := Collect(tid, s);
            got.rc == NO_DATA ==> AllStale(got.taken, tid) && (got.stale <==> got.taken != []) &&
                                  (!got.stale ==> got.socket.link == s.link)
    decreases |s.waits|
  {
    ResponseTakes(s);
    var r := RecvResponse(s);
    if r.rc == 0 && Tid(r.adu) != tid {
      DeadlineTakesStale(tid, r.socket);
    }
  }

  /**
   * What a timeout means for the connection: ERR_TID says that it is open and only replies with
   * other identifiers came; ERR_TIMEOUT with the connection open says that nothing came at all,
   * so a late reply can still be told by its identifier.
   */
  lemma TimeoutMeaning(c: Client, unit: byte, pdu: seq<byte>, s: Socket)
    requires 5 <= |pdu| <= Pdu.MAX_PDU_LENGTH && c.initialized && c.open
    ensures var t := Transact(c, unit, pdu, s, Delivered);
            (t.rc == ERR_TID ==> t.client.open && t.taken != [] && AllStale(t.taken, t.client.tid)) &&
            (t.rc == ERR_TIMEOUT && t.client.open ==> t.taken == [] && t.socket.link == s.link)
  {
    CollectTakes(NextTid(c.tid), s);
    DeadlineTakesStale(NextTid(c.tid), s);
  }

  // ---- Runs on one connection ----

  datatype Ask = Ask(unit: byte, pdu: seq<byte>, sending: Sending)

  predicate AllFit(asks: seq<Ask>) { forall a | a in asks :: 5 <= |a.pdu| <= Pdu.MAX_PDU_LENGTH }

  datatype Run = Run(client: Client, socket: Socket, taken: seq<seq<byte>>)

  /** A connection just made: mb_tcp_client_connect. */
  const CONNECTED := Client(true, true, 0)

  /** The last transaction of a run. */
  function LastOf(s: Socket, asks: seq<Ask>): Transaction
    requires asks != [] && AllFit(asks)
    decreases |asks|
  {
    var ask := asks[|asks| - 1];
    assert ask in asks;
    var before := Requests(s, asks[..|asks| - 1]);
    Transact(before.client, ask.unit, ask.pdu, before.socket, ask.sending)
  }

  /** The state after a run of requests (from any threads: the context lock puts them in order). */
  function Requests(s: Socket, asks: seq<Ask>): Run
    requires AllFit(asks)
    decreases |asks|
  {
    if asks == [] then Run(CONNECTED, s, [])
    else
      var before := Requests(s, asks[..|asks| - 1]);
      var ask := asks[|asks| - 1];
      assert ask in asks;
      var t := Transact(before.client, ask.unit, ask.pdu, before.socket, ask.sending);
      Run(t.client, t.socket, before.taken + t.taken)
  }

  lemma RequestsStep(s: Socket, asks: seq<Ask>)
    requires asks != [] && AllFit(asks)
    ensures var before, t, run := Requests(s, asks[..|asks| - 1]), LastOf(s, asks), Requests(s, asks);
            run == Run(t.client, t.socket, before.taken + t.taken)
  {
  }

  /** Aligned: what was taken, followed by what is still to come, is the whole stream. */
  ghost predicate Aligned(stream: seq<byte>, run: Run) {
    AllAdus(run.taken) && (run.client.open ==> Cat(run.taken) + run.socket.link.incoming == stream)
  }

  lemma TransactAligned(stream: seq<byte>, before: Run, ask: Ask)
    requires Aligned(stream, before) && AllFit([ask])
    ensures ask in [ask]
    ensures var t := Transact(before.client, ask.unit, ask.pdu, before.socket, ask.sending);
            Aligned(stream, Run(t.client, t.socket, before.taken + t.taken))
  {
    assert ask in [ask];
    var t := Transact(before.client, ask.unit, ask.pdu, before.socket, ask.sending);
    assert before.taken + [] == before.taken;
    var tid := NextTid(before.client.tid);
    CollectTakes(tid, before.socket);
    if t.client.open {
      CatConcat(before.taken, t.taken);
      Associative(Cat(before.taken), Cat(t.taken), t.socket.link.incoming);
    }
  }

  /**
   * Aligned or closed: after every run of requests, whatever the short reads, interrupts,
   * timeouts and errors, either the socket is closed or exactly a sequence of whole ADUs has
   * been taken off the stream.
   */
  lemma {:induction false} AlignedOrClosed(s: Socket, asks: seq<Ask>)
    requires AllFit(asks)
    ensures Aligned(s.link.incoming, Requests(s, asks))
    decreases |asks|
  {
    if asks != [] {
      var ask := asks[|asks| - 1];
      assert ask in asks;
      AlignedOrClosed(s, asks[..|asks| - 1]);
      TransactAligned(s.link.incoming, Requests(s, asks[..|asks| - 1]), ask);
    }
  }

  // ---- Transaction identifiers ----

  /** The identifier of the n-th request on a connection: 1 to 65535, then again from 1. */
  function TidOf(n: nat): word { if n == 0 then 0 else (n - 1) % 65535 + 1 }

  lemma NextTidCounts(n: nat)
    ensures NextTid(TidOf(n)) == TidOf(n + 1)
  {
    if n > 0 {
      var q, r := (n - 1) / 65535, (n - 1) % 65535;
      assert n - 1 == 65535 * q + r;
      if r < 65534 {
        QuotientIsUnique(n, q, r + 1);
      } else {
        QuotientIsUnique(n, q + 1, 0);
      }
    }
  }

  lemma QuotientIsUnique(n: nat, q: nat, r: nat)
    requires n == 65535 * q + r && r < 65535
    ensures n % 65535 == r
  {
  }

  /** Two requests have the same identifier exactly when a multiple of 65535 apart. */
  lemma SameTid(i: nat, j: nat)
    requires 1 <= i && 1 <= j
    ensures TidOf(i) == TidOf(j) <==> (i - j) % 65535 == 0
  {
    var qi, ri := (i - 1) / 65535, (i - 1) % 65535;
    var qj, rj := (j - 1) / 65535, (j - 1) % 65535;
    assert i - 1 == 65535 * qi + ri && j - 1 == 65535 * qj + rj;
    assert i - j == 65535 * (qi - qj) + (ri - rj);
  }

  /** While the socket is open, the n-th request has had the n-th identifier. */
  lemma {:induction false} RunCountsTids(s: Socket, asks: seq<Ask>)
    requires AllFit(asks)
    ensures var c := Requests(s, asks).client; c.initialized && (c.open ==> c.tid == TidOf(|asks|))
    decreases |asks|
  {
    if asks != [] {
      var ask := asks[|asks| - 1];
      assert ask in asks;
      RunCountsTids(s, asks[..|asks| - 1]);
      NextTidCounts(|asks| - 1);
    }
  }

  function Adus(replies: seq<Tagged>): (adus: seq<seq<byte>>)
    ensures |adus| == |replies|
    ensures forall i | 0 <= i < |adus| :: adus[i] == replies[i].adu
  {
    seq(|replies|, i requires 0 <= i < |replies| => replies[i].adu)
  }

  /** Every reply carries the identifier of the request it answers. */
  predicate EchoTids(replies: seq<Tagged>) {
    forall r | r in replies :: IsAdu(r.adu) && r.origin >= 1 && Tid(r.adu) == TidOf(r.origin)
  }

  /** The reply to another request that has the identifier of request n. */
  predicate Mistakable(r: Tagged, n: nat) { r.origin != n && (n - r.origin) % 65535 == 0 }

  predicate NoneMistakable(replies: seq<Tagged>, n: nat) { forall r | r in replies :: !Mistakable(r, n) }

  lemma EchoedAreAdus(replies: seq<Tagged>)
    requires EchoTids(replies)
    ensures AllAdus(Adus(replies))
  {
    forall a | a in Adus(replies) ensures IsAdu(a) {
      var i :| 0 <= i < |replies| && Adus(replies)[i] == a;
      assert replies[i] in replies;
    }
  }

  /** What a run has taken is a first part of the replies that were sent. */
  lemma TakenAreReplies(taken: seq<seq<byte>>, x: seq<byte>, replies: seq<Tagged>, lost: seq<byte>)
    requires AllAdus(taken) && EchoTids(replies) && Cat(Adus(replies)) == (Cat(taken) + x) + lost
    ensures |taken| <= |replies| && taken == Adus(replies)[..|taken|]
  {
    var all := Adus(replies);
    EchoedAreAdus(replies);
    Associative(Cat(taken), x, lost);
    assert Cat(all) + [] == Cat(all);
    if |taken| <= |all| {
      CutIsUnique(taken, all, x + lost, []);
    } else {
      CutIsUnique(all, taken, [], x + lost);
      LongerTakesMore(all, taken);
    }
  }

  lemma LongerTakesMore(all: seq<seq<byte>>, taken: seq<seq<byte>>)
    requires AllAdus(taken) && |all| < |taken| && taken[..|all|] == all
    ensures |Cat(taken)| > |Cat(all)|
  {
    var more := taken[|all|..];
    assert taken == all + more;
    CatConcat(all, more);
    assert more[0] in taken;
  }

  /** The n replies from number k on: those that a transaction took. */
  function Span(replies: seq<Tagged>, k: nat, n: nat): seq<Tagged> {
    if k + n <= |replies| then replies[k..k + n] else []
  }

  /** Of some replies of which only the last has the identifier of request n, it is the reply to n or mistakable. */
  lemma OwnOrMistakable(span: seq<Tagged>, n: nat)
    requires EchoTids(span) && span != [] && n >= 1
    requires forall i | 0 <= i < |span| :: HasTid(span[i].adu, TidOf(n)) <==> i == |span| - 1
    ensures span[|span| - 1].origin == n <==> NoneMistakable(span, n)
  {
    forall i | 0 <= i < |span| ensures (n - span[i].origin) % 65535 == 0 <==> i == |span| - 1 {
      assert span[i] in span;
      SameTid(n, span[i].origin);
    }
    assert Mistakable(span[|span| - 1], n) <==> span[|span| - 1].origin != n;
  }

  lemma SpanAt(replies: seq<Tagged>, before: seq<seq<byte>>, taken: seq<seq<byte>>, i: nat)
    requires |before| + |taken| <= |replies| && before + taken == Adus(replies)[..|before| + |taken|] && i < |taken|
    ensures Span(replies, |before|, |taken|)[i].adu == taken[i]
  {
    assert taken[i] == (before + taken)[|before| + i] == Adus(replies)[|before| + i];
  }

  /** Whether an ADU has identifier tid. */
  predicate HasTid(adu: seq<byte>, tid: word) { |adu| >= 2 && Tid(adu) == tid }

  lemma OnlyLastHasTid(taken: seq<seq<byte>>, tid: word, i: nat)
    requires i < |taken| && AllStale(taken[..|taken| - 1], tid) && HasTid(taken[|taken| - 1], tid)
    ensures HasTid(taken[i], tid) <==> i == |taken| - 1
  {
    if i < |taken| - 1 {
      assert taken[..|taken| - 1][i] in taken[..|taken| - 1];
    }
  }

  /** Of the replies taken, only the last has the identifier of request n. */
  lemma LastHasTid(replies: seq<Tagged>, before: seq<seq<byte>>, taken: seq<seq<byte>>, tid: word)
    requires taken != [] && |before| + |taken| <= |replies|
    requires before + taken == Adus(replies)[..|before| + |taken|]
    requires AllStale(taken[..|taken| - 1], tid) && HasTid(taken[|taken| - 1], tid)
    ensures var span := Span(replies, |before|, |taken|);
            |span| == |taken| && span[|span| - 1].adu == taken[|taken| - 1] &&
            forall i | 0 <= i < |span| :: span[i] in replies && (HasTid(span[i].adu, tid) <==> i == |span| - 1)
  {
    forall i | 0 <= i < |taken|
      ensures Span(replies, |before|, |taken|)[i].adu == taken[i] && (HasTid(taken[i], tid) <==> i == |taken| - 1)
    {
      SpanAt(replies, before, taken, i);
      OnlyLastHasTid(taken, tid, i);
    }
  }

  /** The replies that the last transaction of a run took. */
  function TakenLast(s: Socket, asks: seq<Ask>, replies: seq<Tagged>): seq<Tagged>
    requires asks != [] && AllFit(asks)
  {
    Span(replies, |Requests(s, asks[..|asks| - 1]).taken|, |LastOf(s, asks).taken|)
  }

  /** The last reply taken is the one returned, and answers request n exactly if none can be mistaken. */
  ghost predicate OwnUnlessMistaken(taken: seq<Tagged>, replies: seq<Tagged>, n: nat, resp: seq<byte>) {
    taken != [] &&
    var last := taken[|taken| - 1];
    last in replies && last.adu == resp && (last.origin == n <==> NoneMistakable(taken, n))
  }

  lemma AlignedTakesOwn(run: Run, stream: seq<byte>, lost: seq<byte>, replies: seq<Tagged>,
                        before: seq<seq<byte>>, taken: seq<seq<byte>>, n: nat)
    requires Aligned(stream, run) && run.client.open && run.taken == before + taken
    requires EchoTids(replies) && Cat(Adus(replies)) == stream + lost
    requires n >= 1 && taken != [] && |taken[|taken| - 1]| >= 2 && Tid(taken[|taken| - 1]) == TidOf(n)
    requires AllStale(taken[..|taken| - 1], TidOf(n))
    ensures OwnUnlessMistaken(Span(replies, |before|, |taken|), replies, n, taken[|taken| - 1])
  {
    TakenAreReplies(run.taken, run.socket.link.incoming, replies, lost);
    LastHasTid(replies, before, taken, TidOf(n));
    OwnOrMistakable(Span(replies, |before|, |taken|), n);
  }

  lemma SuccessTook(s: Socket, asks: seq<Ask>)
    requires asks != [] && AllFit(asks) && LastOf(s, asks).rc >= 0
    ensures var t := LastOf(s, asks);
            Requests(s, asks[..|asks| - 1]).client.open && t.client.open &&
            t.taken != [] && t.taken[|t.taken| - 1] == t.resp && |t.resp| >= 7 && Tid(t.resp) == TidOf(|asks|) &&
            AllStale(t.taken[..|t.taken| - 1], TidOf(|asks|))
  {
    var before, ask := Requests(s, asks[..|asks| - 1]), asks[|asks| - 1];
    assert ask in asks;
    RunCountsTids(s, asks[..|asks| - 1]);
    NextTidCounts(|asks| - 1);
    SuccessOf(before.client, ask.unit, ask.pdu, before.socket, ask.sending);
  }

  /** A success or exception used the socket, and took the reply with its own identifier last. */
  lemma SuccessOf(c: Client, unit: byte, pdu: seq<byte>, s: Socket, sending: Sending)
    requires 5 <= |pdu| <= Pdu.MAX_PDU_LENGTH && Transact(c, unit, pdu, s, sending).rc >= 0
    ensures var t := Transact(c, unit, pdu, s, sending);
            c.open && t.client.open && t.taken != [] && t.taken[|t.taken| - 1] == t.resp && |t.resp| >= 7 &&
            Tid(t.resp) == NextTid(c.tid) && AllStale(t.taken[..|t.taken| - 1], NextTid(c.tid))
  {
    CollectTakes(NextTid(c.tid), s);
    SkipsStale(NextTid(c.tid), s);
  }

  /**
   * Over every run of requests on a connection whose incoming bytes are replies (the last ones
   * may be lost or cut off), each with the identifier of its request: the reply with which the
   * n-th transaction succeeds or gets an exception is the reply to the n-th request if and only
   * if the transaction takes no reply to another request that is a multiple of 65535 away.
   */
  lemma OwnReplyOnly(s: Socket, asks: seq<Ask>, replies: seq<Tagged>, lost: seq<byte>)
    requires asks != [] && AllFit(asks)
    requires EchoTids(replies) && Cat(Adus(replies)) == s.link.incoming + lost
    requires LastOf(s, asks).rc >= 0
    ensures OwnUnlessMistaken(TakenLast(s, asks, replies), replies, |asks|, LastOf(s, asks).resp)
  {
    var before, t := Requests(s, asks[..|asks| - 1]), LastOf(s, asks);
    RequestsStep(s, asks);
    AlignedOrClosed(s, asks);
    SuccessTook(s, asks);
    AlignedTakesOwn(Requests(s, asks), s.link.incoming, lost, replies, before.taken, t.taken, |asks|);
  }

  /** Of fewer than 65536 requests no two have replies that can be mistaken for each other. */
  lemma NearbyUnmistakable(replies: seq<Tagged>, n: nat)
    requires forall r | r in replies :: -65535 < n - r.origin < 65535
    ensures NoneMistakable(replies, n)
  {
    forall r | r in replies ensures !Mistakable(r, n) {
      if Mistakable(r, n) {
        SmallRemainder(n - r.origin);
      }
    }
  }

  lemma SmallRemainder(x: int)
    requires -65535 < x < 65535 && x % 65535 == 0
    ensures x == 0
  {
  }

  /**
   * So on a connection that answers at most 65535 requests, or if replies are never so late,
   * a success or exception of the n-th transaction always comes from the reply to the n-th
   * request.
   */
  lemma EarlyRepliesAreOwn(s: Socket, asks: seq<Ask>, replies: seq<Tagged>, lost: seq<byte>)
    requires asks != [] && AllFit(asks)
    requires EchoTids(replies) && Cat(Adus(replies)) == s.link.incoming + lost
    requires LastOf(s, asks).rc >= 0
    requires forall r | r in replies :: -65535 < |asks| - r.origin < 65535
    ensures Tagged(|asks|, LastOf(s, asks).resp) in replies
  {
    OwnReplyOnly(s, asks, replies, lost);
    assert forall r | r in TakenLast(s, asks, replies) :: r in replies;
    NearbyUnmistakable(TakenLast(s, asks, replies), |asks|);
  }

  /** The reply to a request some multiple of 65535 requests ago is taken for an answer and checked as one. */
  lemma LateReplyAccepted(c: Client, unit: byte, pdu: seq<byte>, s: Socket, n: nat, late: Tagged, rest: seq<byte>)
    requires 5 <= |pdu| <= Pdu.MAX_PDU_LENGTH && 1 <= late.origin < n && Mistakable(late, n)
    requires c == Client(true, true, TidOf(n - 1)) && EchoTids([late])
    requires 7 <= |late.adu| <= MAX_ADU_LENGTH && IsModbus(late.adu)
    requires s.link.Clean() && s.link.incoming == late.adu + rest && NextWait(s.waits) == Ready
    ensures var t := Transact(c, unit, pdu, s, Delivered);
            t.resp == late.adu && t.client.open &&
            t.rc == if |late.adu| == 7 || Pdu.CheckResponse(pdu, late.adu[7..]) == Pdu.ERR_FRAME then ERR_FRAME
                    else Pdu.CheckResponse(pdu, late.adu[7..])
  {
    assert late in [late];
    NextTidCounts(n - 1);
    SameTid(n, late.origin);
    AduArrives(CLIENT_CODES, s.link, LEAST_RESPONSE_LENGTH, late.adu, rest);
  }

  // ---- The client context ----

  /** The loop so far: skipping replies again from here gives what the whole loop gives. */
  ghost predicate Continues(whole: Collected, stale: bool, taken: seq<seq<byte>>, more: Collected) {
    whole == Collected(more.rc, more.adu, stale || more.stale, taken + more.taken, more.socket)
  }

  lemma SkipOne(whole: Collected, stale: bool, taken: seq<seq<byte>>, tid: word, s: Socket)
    requires Continues(whole, stale, taken, Collect(tid, s))
    ensures var r := RecvResponse(s);
            if r.rc == 0 && |r.adu| >= 2 && Tid(r.adu) != tid then
              Continues(whole, true, taken + Taken(r), Collect(tid, r.socket))
            else whole == Collected(r.rc, r.adu, stale, taken + Taken(r), r.socket)
  {
    var r := RecvResponse(s);
    ResponseTakes(s);
    if r.rc == 0 && Tid(r.adu) != tid {
      Associative(taken, Taken(r), Collect(tid, r.socket).taken);
    }
  }

  /** What the caller of a client function is given after its transaction. */
  function AnswerOf(r: Request, t: Transaction): Answer
    requires r.InRange() && (t.rc >= 0 ==> |t.resp| >= 7)
  {
    if t.rc < 0 then ClientFailure(t.rc) else Decode(r, t.resp[7..])
  }

  /** A return code that is not an error is that of a reply that passed the check. */
  lemma Answered(c: Client, unit: byte, r: Request, s: Socket, sending: Sending)
    requires r.InRange()
    ensures var t := Transact(c, unit, r.Encode(), s, sending);
            t.rc >= 0 ==> |t.resp| >= 7 && t.rc == Pdu.CheckResponse(r.Encode(), t.resp[7..])
  {
    CollectTakes(NextTid(c.tid), s);
  }

  class TcpClient {
    var initialized: bool
    var open: bool
    var tid: word
    var unitId: byte
    var waits: seq<Wait>
    const line: Line

    /** The context and its socket as values. */
    ghost function State(): Client
      reads this
    {
      Client(initialized, open, tid)
    }

    ghost function Sock(): Socket
      reads this, line
    {
      Socket(line.link, waits)
    }

    /** mb_tcp_client_connect, once the socket is connected. */
    constructor (unitId: byte, line: Line, waits: seq<Wait>)
      ensures State() == CONNECTED && this.unitId == unitId && this.line == line && this.waits == waits
    {
      initialized, open, tid, this.unitId, this.line, this.waits := true, true, 0, unitId, line, waits;
    }

    method NextTransactionId() returns (t: word)
      modifies this`tid
      ensures t == tid == NextTid(old(tid))
    {
      if tid < 65535 {
        tid := tid + 1;
      } else {
        tid := 1;
      }
      return tid;
    }

    method WaitReadable() returns (w: Wait)
      modifies this`waits
      ensures w == NextWait(old(waits)) && waits == LaterWaits(old(waits))
    {
      w, waits := NextWait(waits), LaterWaits(waits);
    }

    /** recv_response */
    method ReceiveResponse(buf: array<byte>) returns (rc: int, total: nat)
      requires buf.Length == MAX_ADU_LENGTH
      modifies this`waits, line, buf
      ensures var r := RecvResponse(old(Sock()));
              rc == r.rc && Sock() == r.socket && (TookOne(rc) ==> total <= MAX_ADU_LENGTH && buf[..total] == r.adu)
    {
      ReadAduTakesOne(CLIENT_CODES, line.link, LEAST_RESPONSE_LENGTH);
      var w := WaitReadable();
      match w {
        case Deadline => return -2, 0;
        case WaitError => return -1, 0;
        case Ready =>
          ghost var r := ReadAdu(CLIENT_CODES, line.link, LEAST_RESPONSE_LENGTH);
          rc, total := ReceiveAdu(line, CLIENT_CODES, 1, buf);
          if rc == -2 {
            return PARTIAL_TIMEOUT, total;
          }
          if rc != 0 {
            return;
          }
          assert buf[2] == r.bytes[2] && buf[3] == r.bytes[3];
          if buf[2] != 0 || buf[3] != 0 {
            return PROTOCOL_ID_ERROR, total;
          }
      }
    }

    /** The receive loop of transact. */
    method CollectReply(expected: word, buf: array<byte>) returns (rc: int, total: nat, stale: bool)
      requires buf.Length == MAX_ADU_LENGTH
      modifies this`waits, line, buf
      ensures var got := Collect(expected, old(Sock()));
              rc == got.rc && stale == got.stale && Sock() == got.socket &&
              (rc == 0 ==> total <= MAX_ADU_LENGTH && buf[..total] == got.adu)
    {
      ghost var whole, taken := Collect(expected, Sock()), [];
      stale := false;
      assert taken + whole.taken == whole.taken;
      while true
        invariant Continues(whole, stale, taken, Collect(expected, Sock()))
        decreases |waits|
      {
        ghost var r := RecvResponse(Sock());
        ResponseTakes(Sock());
        SkipOne(whole, stale, taken, expected, Sock());
        rc, total := ReceiveResponse(buf);
        if rc != 0 {
          return;
        }
        assert buf[0] == r.adu[0] && buf[1] == r.adu[1];
        if Join(buf[0], buf[1]) == expected {
          return;
        }
        stale, taken := true, taken + Taken(r);
      }
    }

    /** transact: sending is how mb_tcp_send_all ends. */
    method DoTransact(pdu: array<byte>, pduLen: nat, resp: array<byte>, sending: Sending)
      returns (rc: int, ghost t: Transaction)
      requires 5 <= pduLen <= pdu.Length && pduLen <= Pdu.MAX_PDU_LENGTH
      requires resp.Length == MAX_ADU_LENGTH && pdu != resp
      modifies this`open, this`tid, this`waits, line, resp
      ensures t == Transact(old(State()), unitId, pdu[..pduLen], old(Sock()), sending)
      ensures rc == t.rc && State() == t.client && Sock() == t.socket
      ensures rc >= 0 ==> |t.resp| <= MAX_ADU_LENGTH && resp[..|t.resp|] == t.resp
    {
      t := Transact(State(), unitId, pdu[..pduLen], Sock(), sending);
      if !initialized || !open {
        return ERR_NOT_CONNECTED, t;
      }
      var id := NextTransactionId();
      if !sending.Delivered? {
        open := false;
        return ERR_TRANSPORT, t;
      }
      CollectTakes(id, Sock());
      var total, stale;
      rc, total, stale := CollectReply(id, resp);
      if rc == -1 || rc == PARTIAL_TIMEOUT {
        open := false;
      }
      if rc == -2 && stale {
        return ERR_TID, t;
      }
      if rc != 0 {
        return ClientError(rc), t;
      }
      rc := CheckReply(pdu[..pduLen], resp, total, t.resp);
    }

    /** The length test and mb_pdu_check_response at the end of transact. */
    static method CheckReply(pdu: seq<byte>, resp: array<byte>, total: nat, ghost adu: seq<byte>) returns (rc: int)
      requires |pdu| >= 5 && total <= resp.Length && resp[..total] == adu
      ensures rc == if |adu| <= 7 then ERR_FRAME
                    else if Pdu.CheckResponse(pdu, adu[7..]) == Pdu.ERR_FRAME then ERR_FRAME
                    else Pdu.CheckResponse(pdu, adu[7..])
    {
      if total <= 7 {
        return ERR_FRAME;
      }
      assert resp[7..total] == adu[7..];
      rc := Pdu.CheckResponse(pdu, resp[7..total]);
      if rc == Pdu.ERR_FRAME {
        return ERR_FRAME;
      }
    }

    /** Build a request of the fixed layout in a local buffer and transact it. */
    method SendFixed(fc: byte, addr: word, qty: word, sending: Sending)
      returns (rc: int, resp: array<byte>, ghost t: Transaction)
      modifies this`open, this`tid, this`waits, line
      ensures t == Transact(old(State()), unitId, Pdu.FixedRequest(fc, addr, qty), old(Sock()), sending)
      ensures rc == t.rc && State() == t.client && Sock() == t.socket && fresh(resp) && resp.Length == MAX_ADU_LENGTH
      ensures rc >= 0 ==> |t.resp| <= MAX_ADU_LENGTH && resp[..|t.resp|] == t.resp
    {
      var pdu := new byte[253];
      resp := new byte[260];
      var n := Pdu.BuildFixed(pdu, fc, addr, qty);
      assert pdu[..n] == Pdu.FixedRequest(fc, addr, qty);
      rc, t := DoTransact(pdu, n, resp, sending);
    }

    /** read_registers: FC03 and FC04 */
    method ReadRegisters(input: bool, addr: word, qty: word, out: array<word>, sending: Sending)
      returns (rc: int, ghost t: Transaction)
      requires qty <= out.Length
      modifies this`open, this`tid, this`waits, line, out
      ensures var r := GetRegisters(input, addr, qty);
              if !r.InRange() then rc == -1 && State() == old(State()) && Sock() == old(Sock())
              else
                t == Transact(old(State()), unitId, r.Encode(), old(Sock()), sending) &&
                rc == t.rc && State() == t.client && Sock() == t.socket &&
                (rc == 0 ==> |t.resp| >= 7 && AnswerOf(r, t) == Registers(out[..qty]))
      ensures rc != 0 ==> out[..] == old(out[..])
    {
      if qty == 0 || qty > 125 {
        return ERR_ARG, Refused(State(), Sock());
      }
      ghost var r := GetRegisters(input, addr, qty);
      Answered(State(), unitId, r, Sock(), sending);
      var resp;
      rc, resp, t := SendFixed(RegistersFunction(input), addr, qty, sending);
      if rc == 0 {
        GetRegistersAt(r, t.resp[7..], resp, 7, qty, out);
      }
    }

    /** read_bits: FC01 and FC02 */
    method ReadCoils(discrete: bool, addr: word, qty: word, out: array<byte>, sending: Sending)
      returns (rc: int, ghost t: Transaction)
      requires qty <= out.Length
      modifies this`open, this`tid, this`waits, line, out
      ensures var r := GetBits(discrete, addr, qty);
              if !r.InRange() then rc == -1 && State() == old(State()) && Sock() == old(Sock())
              else
                t == Transact(old(State()), unitId, r.Encode(), old(Sock()), sending) &&
                rc == t.rc && State() == t.client && Sock() == t.socket &&
                (rc == 0 ==> |t.resp| >= 7 && AnswerOf(r, t) == Coils(out[..qty]))
      ensures rc != 0 ==> out[..] == old(out[..])
    {
      if qty == 0 || qty > 2000 {
        return ERR_ARG, Refused(State(), Sock());
      }
      ghost var r := GetBits(discrete, addr, qty);
      Answered(State(), unitId, r, Sock(), sending);
      var resp;
      rc, resp, t := SendFixed(BitsFunction(discrete), addr, qty, sending);
      if rc == 0 {
        GetBitsAt(r, t.resp[7..], resp, 7, qty, out);
      }
    }

    /** write_single_register */
    method WriteRegister(addr: word, value: word, sending: Sending) returns (rc: int, ghost t: Transaction)
      modifies this`open, this`tid, this`waits, line
      ensures t == Transact(old(State()), unitId, SetRegister(addr, value).Encode(), old(Sock()), sending)
      ensures rc == t.rc && State() == t.client && Sock() == t.socket
    {
      var resp;
      rc, resp, t := SendFixed(Pdu.WRITE_SINGLE_REGISTER, addr, value, sending);
    }

    /** write_single_coil */
    method WriteCoil(addr: word, value: byte, sending: Sending) returns (rc: int, ghost t: Transaction)
      modifies this`open, this`tid, this`waits, line
      ensures t == Transact(old(State()), unitId, SetCoil(addr, value).Encode(), old(Sock()), sending)
      ensures rc == t.rc && State() == t.client && Sock() == t.socket
    {
      var resp;
      var wire: word := if value != 0 then 0xFF00 else 0x0000;
      rc, resp, t := SendFixed(Pdu.WRITE_SINGLE_COIL, addr, wire, sending);
    }

    /** write_multiple_registers */
    method WriteRegisters(addr: word, qty: word, data: array<word>, sending: Sending)
      returns (rc: int, ghost t: Transaction)
      requires qty <= data.Length
      modifies this`open, this`tid, this`waits, line
      ensures var r := SetRegisters(addr, data[..qty]);
              if !r.InRange() then rc == -1 && State() == old(State()) && Sock() == old(Sock())
              else
                t == Transact(old(State()), unitId, r.Encode(), old(Sock()), sending) &&
                rc == t.rc && State() == t.client && Sock() == t.socket
    {
      if qty == 0 || qty > 123 {
        return ERR_ARG, Refused(State(), Sock());
      }
      var pdu, resp := new byte[253], new byte[260];
      var n := Pdu.BuildWriteRegisters(pdu, addr, qty, data);
      rc, t := DoTransact(pdu, n, resp, sending);
    }

    /** write_multiple_coils */
    method WriteCoils(addr: word, qty: word, values: array<byte>, sending: Sending)
      returns (rc: int, ghost t: Transaction)
      requires qty <= values.Length
      modifies this`open, this`tid, this`waits, line
      ensures var r := SetCoils(addr, values[..qty]);
              if !r.InRange() then rc == -1 && State() == old(State()) && Sock() == old(Sock())
              else
                t == Transact(old(State()), unitId, r.Encode(), old(Sock()), sending) &&
                rc == t.rc && State() == t.client && Sock() == t.socket
    {
      if qty == 0 || qty > 1968 {
        return ERR_ARG, Refused(State(), Sock());
      }
      var pdu, resp := new byte[253], new byte[260];
      var n := Pdu.BuildWriteCoils(pdu, addr, qty, values);
      rc, t := DoTransact(pdu, n, resp, sending);
    }
  }
}
