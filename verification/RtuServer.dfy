/**
 * src/modbus_rtu_server.c: the server context with its in-place receive buffer, and one call
 * of server_on_process, proved against the polling of RtuFramer and the PDU dispatcher.
 */
module RtuServer {
  import opened Bytes
  import opened Transport
  import opened ExactSend
  import opened StreamScan
  import opened RtuFramer
  import opened Dispatch
  import opened PduProperties
  import opened ServeInOrder
  import Crc
  import Pdu
  import RtuFrames

  const BROADCAST_ADDRESS: byte := 0x00
  const UNIT_ID_ANY: byte := 0xFF

  /** Times are in microseconds; interFrame is the silence before a response. */
  datatype Config = Config(unitId: byte, timeout: nat, localEcho: bool, interFrame: nat)

  /** unit_id_matches */
  predicate UnitMatches(own: byte, unit: byte) {
    unit == BROADCAST_ADDRESS || own == UNIT_ID_ANY || unit == own
  }

  /** A whole request frame is served if it is for this unit and not a broadcast read. */
  predicate Accepts(own: byte, adu: seq<byte>) {
    |adu| >= 4 && UnitMatches(own, adu[0]) && (adu[0] == BROADCAST_ADDRESS ==> Pdu.IsWrite(adu[1]))
  }

  function Serve<S>(own: byte, h: Handlers<S>, app: S, adu: seq<byte>): Served<S> {
    if !Accepts(own, adu) then Served(app, [], [])
    else
      var unit := adu[0];
      var o := HandleRequest(h, app, adu[1..|adu| - 2]);
      Served(o.state, if unit == BROADCAST_ADDRESS then [] else RtuFrames.SerialFrame(unit, o.resp), o.calls)
  }

  function RtuService<S>(own: byte, h: Handlers<S>): Service<S> {
    (app: S, adu: seq<byte>) => Serve(own, h, app, adu)
  }

  /** discard_echo: read and throw away up to n bytes, until the deadline. */
  function DiscardEcho(link: Input, n: nat): Input
    decreases link.Size()
  {
    if n == 0 then link
    else
      var (r, link') := Read(link, n);
      match r
      case Data(bytes) => DiscardEcho(link', n - |bytes|)
      case NotRead(e) => if e.Interrupted? then DiscardEcho(link', n) else link'
  }

  /** At most n bytes are thrown away. */
  lemma {:induction false} EchoDiscardBounded(link: Input, n: nat) returns (k: nat)
    ensures k <= n && k <= |link.incoming| && DiscardEcho(link, n).incoming == link.incoming[k..]
    decreases link.Size()
  {
    k := 0;
    if n > 0 {
      var (r, link') := Read(link, n);
      if r.Data? {
        k := EchoDiscardBounded(link', n - |r.bytes|);
        DropTwice(link.incoming, r.bytes, link'.incoming, k);
        k := |r.bytes| + k;
      } else if r.event.Interrupted? {
        k := EchoDiscardBounded(link', n);
      }
    }
  }

  lemma DropTwice<T>(s: seq<T>, a: seq<T>, b: seq<T>, k: nat)
    requires s == a + b && k <= |b|
    ensures s[|a| + k..] == b[k..]
  {
  }

  /** If a clean line has the n echoed bytes, exactly those are thrown away, however they are cut. */
  lemma {:induction false} EchoDiscarded(link: Input, n: nat)
    requires link.Clean() && |link.incoming| >= n
    ensures DiscardEcho(link, n).incoming == link.incoming[n..]
    decreases link.Size()
  {
    if n > 0 {
      var (r, link') := Read(link, n);
      ReadOfClean(link, n);
      if r.Data? {
        EchoDiscarded(link', n - |r.bytes|);
        DropTwice(link.incoming, r.bytes, link'.incoming, n - |r.bytes|);
      } else {
        EchoDiscarded(link', n);
      }
    }
  }

  // ---- Which requests are served, in numbers ----

  /**
   * A frame for another unit, or a broadcast of a read, is ignored without a call.  Any other is
   * dispatched, and answered unless it is a broadcast, in a valid frame from the unit asked.
   */
  lemma ServesExactly<S>(own: byte, h: Handlers<S>, app: S, adu: seq<byte>)
    requires |adu| >= 4
    ensures var served := Serve(own, h, app, adu);
            var mine := adu[0] == 0 || own == 255 || adu[0] == own;
            var isWrite := adu[1] == 5 || adu[1] == 6 || adu[1] == 15 || adu[1] == 16;
            if !mine || (adu[0] == 0 && !isWrite) then served == Served(app, [], [])
            else
              var o := HandleRequest(h, app, adu[1..|adu| - 2]);
              served.app == o.state && served.calls == o.calls &&
              if adu[0] == 0 then served.resp == [] else FramedBy(adu[0], o.resp, served.resp)
  {
    if |adu| > 3 {
      FramedExactly(adu[0], HandleRequest(h, app, adu[1..|adu| - 2]).resp);
    }
  }

  /** A unit id, a PDU and a checksum that fits. */
  predicate FramedBy(unit: byte, pdu: seq<byte>, frame: seq<byte>) {
    |frame| == |pdu| + 3 && frame[0] == unit && frame[1..|pdu| + 1] == pdu && Crc.ValidFrame(frame)
  }

  lemma FramedExactly(unit: byte, pdu: seq<byte>)
    ensures FramedBy(unit, pdu, RtuFrames.SerialFrame(unit, pdu))
  {
    var frame := RtuFrames.SerialFrame(unit, pdu);
    Crc.AppendThenValidate([unit] + pdu, frame);
    assert frame[..|pdu| + 1] == [unit] + pdu;
  }

  // ---- One call ----

  /** wait_response_silence: how long it sleeps if the clock then shows `clock`. */
  function ResponseSleep(since: nat, required: nat, clock: nat): nat {
    if since == 0 || clock < since then required
    else if clock - since < required then required - (clock - since)
    else 0
  }

  /** The time that the silence is counted from: when the last poll that read bytes began. */
  function RequestEnd(rx: Rx, link: Input, now: nat, timeout: nat): nat {
    var kept := Kept(rx, now, timeout);
    TimeAfterFill(kept, Fill(kept.buf, link), now)
  }

  lemma SleepExactly(since: nat, required: nat, clock: nat, end: nat)
    requires 0 < since <= end <= clock
    ensures var send := clock + ResponseSleep(since, required, clock);
            send >= since + required && (send == since + required || send == clock) &&
            (send < end + required <==> since < end && clock < end + required)
  {
  }

  /** Without a usable time of the last byte the whole silence is waited out. */
  lemma UnknownEndWaits(since: nat, required: nat, clock: nat)
    requires since == 0 || clock < since
    ensures ResponseSleep(since, required, clock) == required
  {
  }

  /**
   * How a transmission ends, the clock before it, and what the line brings meanwhile: its bytes, and what the reads
   * of discard_echo report, which wait for a deadline where those of a poll do not.
   */
  datatype Transmission = Transmission(sending: Sending, clock: nat, echo: Input)

  /** The line after a transmission: what it brought meanwhile comes first. */
  function Echoed(tx: Transmission, link: Input): Input { link.(incoming := tx.echo.incoming + link.incoming) }

  function EchoSkipped(tx: Transmission, link: Input, n: nat): Input {
    link.(incoming := DiscardEcho(Echoed(tx, link).(schedule := tx.echo.schedule), n).incoming)
  }

  datatype Server<S> = Server(rx: Rx, app: S)

  /** What one server_on_process did; it slept before it sent. */
  datatype Turn<S> =
    Turn(server: Server<S>, link: Input, rc: int, log: seq<Event>, sent: seq<byte>, calls: seq<Call>, slept: nat)

  function AfterFrame<S>(cfg: Config, h: Handlers<S>, app: S, p: Polled, end: nat, adu: seq<byte>,
                         tx: Transmission): Turn<S>
    requires |adu| >= 4
  {
    var served := Serve(cfg.unitId, h, app, adu);
    var server := Server(p.rx, served.app);
    var slept := ResponseSleep(end, cfg.interFrame, tx.clock);
    if served.resp == [] then Turn(server, p.link, 0, p.log, [], served.calls, 0)
    else if !tx.sending.Delivered? then
      Turn(server, Echoed(tx, p.link), -1, p.log, Wire(tx.sending, served.resp), served.calls, slept)
    else
      var link := if cfg.localEcho then EchoSkipped(tx, p.link, |served.resp|) else Echoed(tx, p.link);
      Turn(server, link, 0, p.log, served.resp, served.calls, slept)
  }

  /** server_on_process; tx says how the transmission of a response goes, if there is one. */
  function OnProcess<S>(cfg: Config, h: Handlers<S>, sv: Server<S>, link: Input, now: nat, tx: Transmission): Turn<S> {
    var p := Poll(Decide, sv.rx, link, now, cfg.timeout);
    if p.failed then Turn(Server(p.rx, sv.app), p.link, -1, p.log, [], [], 0)
    else if Frames(p.log) == [] || |Frames(p.log)[0]| < 4 then
      Turn(Server(p.rx, sv.app), p.link, 0, p.log, [], [], 0)
    else
      AfterFrame(cfg, h, sv.app, p, RequestEnd(sv.rx, link, now, cfg.timeout), Frames(p.log)[0], tx)
  }

  lemma {:induction false} CleanFillGrows(buf: seq<byte>, link: Input)
    requires link.Clean() && link.incoming != [] && |buf| < BUFFER_SIZE
    ensures |Fill(buf, link).buf| > |buf|
    decreases link.Size()
  {
    var (r, link') := Read(link, BUFFER_SIZE - |buf|);
    ReadOfClean(link, BUFFER_SIZE - |buf|);
    if r.Data? {
      FillReads(buf + r.bytes, link');
    } else {
      CleanFillGrows(buf, link');
    }
  }

  /** A poll that reads bytes on a clean line sets that time; one that finds none leaves it. */
  lemma RequestEndExactly(rx: Rx, link: Input, now: nat, timeout: nat)
    requires |rx.buf| < BUFFER_SIZE
    ensures link.Clean() && link.incoming != [] ==> RequestEnd(rx, link, now, timeout) == now
    ensures link.incoming == [] && !TimeoutFires(rx, now, timeout) ==> RequestEnd(rx, link, now, timeout) == rx.last
  {
    var kept := Kept(rx, now, timeout);
    FillReads(kept.buf, link);
    if link.Clean() && link.incoming != [] {
      CleanFillGrows(kept.buf, link);
    }
    if link.incoming == [] {
      assert kept.buf + [] == kept.buf;
    }
  }

  /**
   * A response goes out when the silence since the beginning of the poll that read last is over,
   * and no later than needed for that.  This is not the silence since the end of the request: if
   * the last byte came at `end`, during or after that poll, the response is too early if and only
   * if `end` is after the beginning of the poll and the clock is not past the silence anyway.
   */
  lemma ResponseShortfallExactly<S>(cfg: Config, h: Handlers<S>, sv: Server<S>, link: Input, now: nat,
                                    tx: Transmission, end: nat)
    requires var since := RequestEnd(sv.rx, link, now, cfg.timeout); 0 < since <= end <= tx.clock
    requires OnProcess(cfg, h, sv, link, now, tx).sent != []
    ensures var since := RequestEnd(sv.rx, link, now, cfg.timeout);
            var send := tx.clock + OnProcess(cfg, h, sv, link, now, tx).slept;
            send >= since + cfg.interFrame && (send == since + cfg.interFrame || send == tx.clock) &&
            (send < end + cfg.interFrame <==> since < end && tx.clock < end + cfg.interFrame)
  {
    SleepExactly(RequestEnd(sv.rx, link, now, cfg.timeout), cfg.interFrame, tx.clock, end);
  }

  // ---- Single rounds of the resynchronisation loop ----

  lemma WaitRound(s: seq<byte>)
    requires RequestLength(s).Incomplete?
    ensures ScanOne(Decide, s) == Scanned([], s)
  {
  }

  lemma DropRound(s: seq<byte>)
    requires Decide(s).Reject?
    ensures s != []
    ensures ScanOne(Decide, s) == Scanned([Dropped(s[0])] + ScanOne(Decide, s[1..]).events, ScanOne(Decide,
        s[1..]).rest)
  {
  }

  lemma AcceptRound(s: seq<byte>)
    requires Decide(s).Accept?
    ensures 8 <= Decide(s).len <= Min(|s|, BUFFER_SIZE)
    ensures ScanOne(Decide, s) == Scanned([Frame(s[..Decide(s).len])], s[Decide(s).len..])
  {
    DecisionStable(s, []);
  }

  lemma {:induction false} FramesOfDropped(log: seq<Event>)
    requires forall e | e in log :: !e.Frame?
    ensures Frames(log) == []
  {
    if log != [] {
      FramesOfDropped(log[1..]);
    }
  }

  /** From start the loop has dropped bytes and stands at s. */
  ghost predicate Skipped(start: seq<byte>, dropped: seq<Event>, s: seq<byte>) {
    (forall e | e in dropped :: e.Dropped?) &&
    ScanOne(Decide, start) == Scanned(dropped + ScanOne(Decide, s).events, ScanOne(Decide, s).rest)
  }

  lemma NothingSkipped(s: seq<byte>)
    ensures Skipped(s, [], s)
  {
    assert [] + ScanOne(Decide, s).events == ScanOne(Decide, s).events;
  }

  lemma OneMoreSkipped(start: seq<byte>, dropped: seq<Event>, s: seq<byte>)
    requires Skipped(start, dropped, s) && Decide(s).Reject?
    ensures s != [] && Skipped(start, dropped + [Dropped(s[0])], s[1..])
  {
    DropRound(s);
    Associative(dropped, [Dropped(s[0])], ScanOne(Decide, s[1..]).events);
  }

  /** A timeout at the start of a poll adds no frames. */
  lemma PolledFrames(rx: Rx, link: Input, now: nat, timeout: nat)
    ensures var p, filled := Poll(Decide, rx, link, now, timeout), Fill(Kept(rx, now, timeout).buf, link);
            !p.failed ==> Frames(p.log) == Frames(ScanOne(Decide, filled.buf).events)
  {
    var filled := Fill(Kept(rx, now, timeout).buf, link);
    FramesConcat(Timed(rx, now, timeout), ScanOne(Decide, filled.buf).events);
    FramesOfDropped(Timed(rx, now, timeout));
  }

  // ---- The server context ----

  class RtuServer<S> {
    const cfg: Config
    const h: Handlers<S>
    const rxBuffer: array<byte>
    var rxLen: nat
    var lastRx: nat
    var app: S
    var link: Input

    ghost predicate Valid()
      reads this
    {
      rxBuffer.Length == BUFFER_SIZE && rxLen <= BUFFER_SIZE
    }

    /** The receive state as a value. */
    ghost function RxState(): Rx
      requires Valid()
      reads this, rxBuffer
    {
      Rx(rxBuffer[..rxLen], lastRx)
    }

    constructor (cfg: Config, h: Handlers<S>, app: S, link: Input)
      ensures Valid() && fresh(rxBuffer) && RxState() == Rx([], 0)
      ensures this.cfg == cfg && this.h == h && this.app == app && this.link == link
    {
      this.cfg, this.h, this.app, this.link := cfg, h, app, link;
      rxBuffer := new byte[256];
      rxLen, lastRx := 0, 0;
    }

    method ReadAvailableBytes(now: nat) returns (rc: int)
      requires Valid()
      modifies this`rxLen, this`lastRx, this`link, rxBuffer
      ensures Valid()
      ensures var f := Fill(old(rxBuffer[..rxLen]), old(link));
              rxBuffer[..rxLen] == f.buf && link == f.link && rc == (if f.failed then -1 else 0) &&
              lastRx == if |f.buf| > old(rxLen) then now else old(lastRx)
    {
      ghost var f := Fill(rxBuffer[..rxLen], link);
      FillReads(rxBuffer[..rxLen], link);
      while rxLen < 256
        invariant Valid() && old(rxLen) <= rxLen
        invariant Fill(rxBuffer[..rxLen], link) == f
        invariant lastRx == if rxLen > old(rxLen) then now else old(lastRx)
        decreases link.Size()
      {
        var (r, link') := Read(link, 256 - rxLen);
        link := link';
        if r.Data? {
          StoreBytes(r.bytes);
          lastRx := now;
        } else if !r.event.Interrupted? {
          return if r.event.Failed? then -1 else 0;
        }
      }
      return 0;
    }

    /** The kernel's copy into rx_buffer + rx_len. */
    method StoreBytes(bytes: seq<byte>)
      requires Valid() && rxLen + |bytes| <= BUFFER_SIZE
      modifies this`rxLen, rxBuffer
      ensures Valid() && rxLen == old(rxLen) + |bytes|
      ensures rxBuffer[..rxLen] == old(rxBuffer[..rxLen]) + bytes
    {
      var i := 0;
      while i < |bytes|
        invariant i <= |bytes| && rxLen == old(rxLen)
        invariant rxBuffer[..rxLen + i] == old(rxBuffer[..rxLen]) + bytes[..i]
      {
        rxBuffer[rxLen + i] := bytes[i];
        i := i + 1;
      }
      rxLen := rxLen + |bytes|;
    }

    /** drop_rx_bytes: compact the buffer in place. */
    method DropRxBytes(count: nat)
      requires Valid() && count <= rxLen
      modifies this`rxLen, rxBuffer
      ensures Valid() && rxLen == old(rxLen) - count
      ensures rxBuffer[..rxLen] == old(rxBuffer[..rxLen])[count..]
    {
      var remaining := rxLen - count;
      var i := 0;
      while i < remaining
        invariant i <= remaining
        invariant forall k | 0 <= k < i :: rxBuffer[k] == old(rxBuffer[count + k])
        invariant forall k | i <= k < BUFFER_SIZE :: rxBuffer[k] == old(rxBuffer[k])
      {
        rxBuffer[i] := rxBuffer[i + count];
        i := i + 1;
      }
      rxLen := remaining;
    }

    /** The loop of extract_request_frame: drop bytes until a frame or an undecided candidate. */
    method Resync() returns (found: bool, frameLen: nat, ghost dropped: seq<Event>)
      requires Valid()
      modifies this`rxLen, rxBuffer
      ensures Valid()
      ensures Skipped(old(rxBuffer[..rxLen]), dropped, rxBuffer[..rxLen])
      ensures if found then Decide(rxBuffer[..rxLen]) == Accept(frameLen)
              else RequestLength(rxBuffer[..rxLen]).Incomplete?
    {
      ghost var start := rxBuffer[..rxLen];
      dropped := [];
      NothingSkipped(start);
      while true
        invariant Valid()
        invariant Skipped(start, dropped, rxBuffer[..rxLen])
        decreases rxLen
      {
        ghost var s := rxBuffer[..rxLen];
        var length := RequestLength(rxBuffer[..rxLen]);
        if length.Incomplete? {
          return false, 0, dropped;
        }
        if length.Complete? {
          var rc := Crc.ValidateCrc(rxBuffer, length.len);
          assert s[..length.len] == rxBuffer[..length.len];
          if rc == 0 {
            return true, length.len, dropped;
          }
        }
        assert Decide(s).Reject?;
        OneMoreSkipped(start, dropped, s);
        DropRxBytes(1);
        dropped := dropped + [Dropped(s[0])];
      }
    }

    /** extract_request_frame */
    method ExtractRequestFrame(adu: array<byte>) returns (found: bool, totalLen: nat, ghost log: seq<Event>)
      requires Valid() && adu.Length == BUFFER_SIZE && adu != rxBuffer
      modifies this`rxLen, this`lastRx, rxBuffer, adu
      ensures Valid()
      ensures var one := ScanOne(Decide, old(rxBuffer[..rxLen]));
              log == one.events && rxBuffer[..rxLen] == one.rest && lastRx == LastTime(one.rest, old(lastRx))
      ensures found ==> 8 <= totalLen <= BUFFER_SIZE && Frames(log) == [adu[..totalLen]]
      ensures !found ==> Frames(log) == []
    {
      found, totalLen, log := Resync();
      ghost var s := rxBuffer[..rxLen];
      FramesOfDropped(log);
      if !found {
        WaitRound(s);
        assert log + [] == log;
      } else {
        AcceptRound(s);
        CopyFrame(adu, totalLen);
        assert adu[..totalLen] == s[..totalLen];
        DropRxBytes(totalLen);
        ghost var frame := Frame(adu[..totalLen]);
        FramesConcat(log, [frame]);
        assert [frame][1..] == [];
        log := log + [frame];
      }
      if rxLen == 0 {
        lastRx := 0;
      }
    }

    /** memcpy(adu, rx_buffer, n) */
    method CopyFrame(adu: array<byte>, n: nat)
      requires Valid() && n <= BUFFER_SIZE && adu.Length == BUFFER_SIZE && adu != rxBuffer
      modifies adu
      ensures adu[..n] == rxBuffer[..n]
    {
      var i := 0;
      while i < n
        invariant i <= n && adu[..i] == rxBuffer[..i]
      {
        adu[i] := rxBuffer[i];
        i := i + 1;
      }
    }

    /** The echo of n transmitted bytes is read into a scratch buffer and forgotten. */
    method SkipEcho(n: nat, schedule: seq<IoEvent>)
      modifies this`link
      ensures link == old(link).(incoming := DiscardEcho(old(link).(schedule := schedule), n).incoming)
    {
      var got, echo := 0, link.(schedule := schedule);
      while got < n
        invariant got <= n
        invariant link.schedule == old(link.schedule) && link.incoming == echo.incoming
        invariant DiscardEcho(echo, n - got) == DiscardEcho(old(link).(schedule := schedule), n)
        decreases echo.Size()
      {
        var (r, echo') := Read(echo, n - got);
        echo := echo';
        link := link.(incoming := echo.incoming);
        match r {
          case Data(bytes) => got := got + |bytes|;
          case NotRead(e) =>
            if !e.Interrupted? {
              return;
            }
        }
      }
    }

    /** Dispatch the PDU and frame the response (which a broadcast leaves unsent). */
    method BuildResponse(adu: array<byte>, totalLen: nat) returns (frame: seq<byte>)
      requires adu.Length == BUFFER_SIZE && 4 <= totalLen <= BUFFER_SIZE
      modifies this`app
      ensures var o := HandleRequest(h, old(app), adu[1..totalLen - 2]);
              app == o.state && frame == RtuFrames.SerialFrame(adu[0], o.resp)
    {
      var resp := new byte[256];
      var n, app' := ServeRequest(h, app, adu, 1, totalLen - 3, resp, 1);
      DispatchIsSound(h, app, adu[1..totalLen - 2]);
      app := app';
      FrameResponse(adu[0], resp, n);
      return resp[..n + 3];
    }

    /** Put the unit id before and the CRC behind a response PDU. */
    static method FrameResponse(unit: byte, resp: array<byte>, n: nat)
      requires resp.Length == BUFFER_SIZE && n <= Pdu.MAX_PDU_LENGTH
      modifies resp
      ensures resp[..n + 3] == RtuFrames.SerialFrame(unit, old(resp[1..n + 1]))
    {
      ghost var pdu := resp[1..n + 1];
      resp[0] := unit;
      assert resp[..n + 1] == [unit] + pdu;
      var _ := Crc.AppendCrc(resp, n + 1, 256);
    }

    /** wait_response_silence up to its sleep, which takes the time returned. */
    static method WaitResponseSilence(since: nat, required: nat, clock: nat) returns (us: nat)
      ensures us == ResponseSleep(since, required, clock)
    {
      if required == 0 {
        return 0;
      }
      if since == 0 {
        return required;
      }
      if clock < since {
        return required;
      }
      var elapsed := clock - since;
      if elapsed < required {
        return required - elapsed;
      }
      return 0;
    }

    /** From the unit check to the transmitted response. */
    method Respond(adu: array<byte>, totalLen: nat, requestEnd: nat, tx: Transmission)
      returns (rc: int, sent: seq<byte>, slept: nat, ghost calls: seq<Call>)
      requires adu.Length == BUFFER_SIZE && 4 <= totalLen <= BUFFER_SIZE
      modifies this`app, this`link
      ensures var served := Serve(cfg.unitId, h, old(app), adu[..totalLen]);
              app == served.app && calls == served.calls &&
              slept == (if served.resp == [] then 0 else ResponseSleep(requestEnd, cfg.interFrame, tx.clock)) &&
              sent == Wire(tx.sending, served.resp) &&
              rc == (if served.resp != [] && !tx.sending.Delivered? then -1 else 0) &&
              link == (if served.resp == [] then old(link)
                       else if rc == 0 && cfg.localEcho then EchoSkipped(tx, old(link), |served.resp|)
                       else Echoed(tx, old(link)))
    {
      var unit, fc := adu[0], adu[1];
      ghost var served := Serve(cfg.unitId, h, app, adu[..totalLen]);
      calls := served.calls;
      assert adu[..totalLen][1..totalLen - 2] == adu[1..totalLen - 2];
      if !UnitMatches(cfg.unitId, unit) {
        return 0, [], 0, calls;
      }
      if unit == BROADCAST_ADDRESS && !Pdu.IsWrite(fc) {
        return 0, [], 0, calls;
      }
      var frame := BuildResponse(adu, totalLen);
      if unit == BROADCAST_ADDRESS {
        return 0, [], 0, calls;
      }
      slept := WaitResponseSilence(requestEnd, cfg.interFrame, tx.clock);
      link := Echoed(tx, link);
      if !tx.sending.Delivered? {
        return -1, Wire(tx.sending, frame), slept, calls;
      }
      if cfg.localEcho {
        SkipEcho(|frame|, tx.echo.schedule);
      }
      return 0, frame, slept, calls;
    }

    /** The receiving half: assembly timeout, reads, extraction of at most one frame. */
    method PollOnce(now: nat, adu: array<byte>)
      returns (failed: bool, found: bool, totalLen: nat, requestEnd: nat, ghost p: Polled)
      requires Valid() && adu.Length == BUFFER_SIZE && adu != rxBuffer
      modifies this`rxLen, this`lastRx, this`link, rxBuffer, adu
      ensures Valid()
      ensures p == Poll(Decide, old(RxState()), old(link), now, cfg.timeout)
      ensures RxState() == p.rx && link == p.link && failed == p.failed
      ensures requestEnd == RequestEnd(old(RxState()), old(link), now, cfg.timeout)
      ensures !failed && found ==> 8 <= totalLen <= BUFFER_SIZE && Frames(p.log) == [adu[..totalLen]]
      ensures !failed && !found ==> Frames(p.log) == []
    {
      ghost var rx := RxState();
      p := Poll(Decide, rx, link, now, cfg.timeout);
      PolledFrames(rx, link, now, cfg.timeout);
      if rxLen > 0 && lastRx > 0 && now >= lastRx && now - lastRx > cfg.timeout {
        rxLen, lastRx := 0, 0;
      }
      assert RxState() == Kept(rx, now, cfg.timeout);
      var rc := ReadAvailableBytes(now);
      if rc < 0 {
        return true, false, 0, lastRx, p;
      }
      failed, requestEnd := false, lastRx;
      ghost var log;
      found, totalLen, log := ExtractRequestFrame(adu);
    }

    /** One call of server_on_process. */
    method ProcessOnce(now: nat, tx: Transmission)
      returns (rc: int, sent: seq<byte>, slept: nat, ghost turn: Turn<S>)
      requires Valid()
      modifies this`rxLen, this`lastRx, this`app, this`link, rxBuffer
      ensures Valid()
      ensures turn == OnProcess(cfg, h, Server(old(RxState()), old(app)), old(link), now, tx)
      ensures turn.server == Server(RxState(), app) && turn.link == link
      ensures turn.rc == rc && turn.sent == sent && turn.slept == slept
    {
      turn := OnProcess(cfg, h, Server(RxState(), app), link, now, tx);
      var adu := new byte[256];
      var failed, found, totalLen, requestEnd, p := PollOnce(now, adu);
      if failed {
        return -1, [], 0, turn;
      }
      if !found {
        return 0, [], 0, turn;
      }
      ghost var calls;
      rc, sent, slept, calls := Respond(adu, totalLen, requestEnd, tx);
    }
  }
}
