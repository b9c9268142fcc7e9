/**
 * RTU end to end.  A whole run of the server, over any byte stream cut into reads in any way,
 * is: find the frames with the simple scanner, then serve them one after the other.  With one
 * client request on the line this makes a client call equal to a direct call of the handler.
 */
module RtuEndToEnd {
  import opened Bytes
  import opened ExactRead
  import opened ExactSend
  import opened Transport
  import opened StreamScan
  import opened RtuFramer
  import opened RtuFrameSpec
  import opened RtuServer
  import opened RtuClient
  import opened Dispatch
  import opened PduProperties
  import opened ServeInOrder
  import Crc
  import Pdu
  import RtuFrames

  // ---- Whole runs of the server ----

  datatype Session<S> = Session(server: Server<S>, link: Input, log: seq<Event>, sent: seq<byte>, calls: seq<Call>)

  /** server_on_process called at the given times; txs[i] is how a transmission at times[i] goes. */
  function ServerRun<S>(cfg: Config, h: Handlers<S>, sv: Server<S>, link: Input, times: seq<nat>,
                        txs: seq<Transmission>): Session<S>
    requires |txs| == |times|
    decreases |times|
  {
    if times == [] then Session(sv, link, [], [], [])
    else
      var n := |times| - 1;
      var before := ServerRun(cfg, h, sv, link, times[..n], txs[..n]);
      var turn := OnProcess(cfg, h, before.server, before.link, times[n], txs[n]);
      Session(turn.server, turn.link, before.log + turn.log, before.sent + turn.sent, before.calls + turn.calls)
  }

  predicate AllDelivered(txs: seq<Transmission>) { forall tx | tx in txs :: tx.sending.Delivered? }

  lemma {:induction false} ScannedFramesAreLong(s: seq<byte>)
    ensures var frames := Frames(ScanOne(Decide, s).events);
            frames == [] || (|frames| == 1 && |frames[0]| >= MIN_REQUEST_LENGTH)
    decreases |s|
  {
    if Decide(s).Accept? {
      AcceptRound(s);
      LogCons(Frame(s[..Decide(s).len]), []);
      assert [Frame(s[..Decide(s).len])] + [] == [Frame(s[..Decide(s).len])];
    } else if Decide(s).Reject? {
      DropRound(s);
      ScannedFramesAreLong(s[1..]);
      LogCons(Dropped(s[0]), ScanOne(Decide, s[1..]).events);
    }
  }

  lemma PolledFramesAreLong(rx: Rx, link: Input, now: nat, timeout: nat)
    ensures var frames := Frames(Poll(Decide, rx, link, now, timeout).log);
            frames == [] || (|frames| == 1 && |frames[0]| >= MIN_REQUEST_LENGTH)
    ensures Poll(Decide, rx, link, now, timeout).failed ==> Frames(Poll(Decide, rx, link, now, timeout).log) == []
  {
    PolledFrames(rx, link, now, timeout);
    ScannedFramesAreLong(Fill(Kept(rx, now, timeout).buf, link).buf);
    FramesOfDropped(Timed(rx, now, timeout));
  }

  /** What one turn adds to a run: the poll's log, and at most one served frame. */
  lemma TurnServes<S>(cfg: Config, h: Handlers<S>, sv: Server<S>, link: Input, now: nat, tx: Transmission)
    ensures var t := OnProcess(cfg, h, sv, link, now, tx);
            var p := Poll(Decide, sv.rx, link, now, cfg.timeout);
            var frames := Frames(p.log);
            t.server.rx == p.rx && t.log == p.log &&
            (frames == [] ==> t.link == p.link && t.server.app == sv.app && t.sent == [] && t.calls == []) &&
            (frames != [] ==>
               |frames| == 1 && |frames[0]| >= 4 &&
               var served := Serve(cfg.unitId, h, sv.app, frames[0]);
               t.server.app == served.app && t.sent == Wire(tx.sending, served.resp) && t.calls == served.calls &&
               (EchoFits(cfg, served.resp, tx) ==> t.link == p.link))
  {
    PolledFramesAreLong(sv.rx, link, now, cfg.timeout);
    var p := Poll(Decide, sv.rx, link, now, cfg.timeout);
    if Frames(p.log) != [] {
      FittingEchoGone(cfg, Serve(cfg.unitId, h, sv.app, Frames(p.log)[0]).resp, tx, p.link);
    }
  }

  /** A transmission brings nothing back, or an echo of its length in time for discard_echo. */
  predicate EchoFits(cfg: Config, resp: seq<byte>, tx: Transmission) {
    resp == [] ||
    if cfg.localEcho && tx.sending.Delivered? then tx.echo.Clean() && |tx.echo.incoming| == |resp|
    else tx.echo.incoming == []
  }

  lemma FittingEchoGone(cfg: Config, resp: seq<byte>, tx: Transmission, link: Input)
    ensures EchoFits(cfg, resp, tx) && resp != [] ==>
            if cfg.localEcho && tx.sending.Delivered? then EchoSkipped(tx, link, |resp|) == link
            else Echoed(tx, link) == link
  {
    if !EchoFits(cfg, resp, tx) || resp == [] {
      return;
    }
    if cfg.localEcho && tx.sending.Delivered? {
      EchoDiscarded(Echoed(tx, link).(schedule := tx.echo.schedule), |resp|);
    } else {
      assert [] + link.incoming == link.incoming;
    }
  }

  /**
   * For every byte stream, however it is read, interrupted or delayed, and however transmissions
   * and echoes go: what the server calls and leaves in the application state is what serving
   * the extracted frames in order gives, and so is what it sends if no transmission fails.
   */
  lemma {:induction false} ServerRunServesFrames<S>(cfg: Config, h: Handlers<S>, app: S, link: Input, times: seq<nat>,
                                                    txs: seq<Transmission>)
    requires |txs| == |times|
    ensures var run := ServerRun(cfg, h, Server(Rx([], 0), app), link, times, txs);
            ServedBy(RtuService(cfg.unitId, h), app, run, AllDelivered(txs))
    decreases |times|
  {
    if times != [] {
      var n := |times| - 1;
      ServerRunServesFrames(cfg, h, app, link, times[..n], txs[..n]);
      var before := ServerRun(cfg, h, Server(Rx([], 0), app), link, times[..n], txs[..n]);
      var turn := OnProcess(cfg, h, before.server, before.link, times[n], txs[n]);
      TurnServes(cfg, h, before.server, before.link, times[n], txs[n]);
      assert AllDelivered(txs) ==> AllDelivered(txs[..n]) && txs[n] in txs;
      if Frames(turn.log) == [] {
        NothingServed(RtuService(cfg.unitId, h), app, before, turn, AllDelivered(txs));
      } else {
        FrameServed(RtuService(cfg.unitId, h), app, before, turn, AllDelivered(txs), txs[n].sending);
      }
    }
  }

  /** The server serves nothing but requests with a valid checksum, over every run. */
  lemma {:induction false} ServesOnlyRequests<S>(cfg: Config, h: Handlers<S>, app: S, link: Input, times: seq<nat>,
                                                 txs: seq<Transmission>)
    requires |txs| == |times|
    ensures forall adu | adu in Frames(ServerRun(cfg, h, Server(Rx([], 0), app), link, times, txs).log) ::
              RequestFrame(adu)
    decreases |times|
  {
    if times != [] {
      var n := |times| - 1;
      ServesOnlyRequests(cfg, h, app, link, times[..n], txs[..n]);
      var before := ServerRun(cfg, h, Server(Rx([], 0), app), link, times[..n], txs[..n]);
      var turn := OnProcess(cfg, h, before.server, before.link, times[n], txs[n]);
      TurnServes(cfg, h, before.server, before.link, times[n], txs[n]);
      PollFramesAreRequests(before.server.rx, before.link, times[n], cfg.timeout);
      FramesConcat(before.log, turn.log);
    }
  }

  /** State and calls are those of serving the frames of the log; the answers too, if all went out. */
  ghost predicate ServedBy<S>(serve: Service<S>, app: S, run: Session<S>, delivered: bool) {
    var all := ServeAll(serve, app, Frames(run.log));
    run.server.app == all.app && run.calls == all.calls && |run.sent| <= |all.resp| &&
    (delivered ==> run.sent == all.resp)
  }

  function Extended<S>(run: Session<S>, t: Turn<S>): Session<S> {
    Session(t.server, t.link, run.log + t.log, run.sent + t.sent, run.calls + t.calls)
  }

  lemma NothingServed<S>(serve: Service<S>, app: S, before: Session<S>, turn: Turn<S>, delivered: bool)
    requires ServedBy(serve, app, before, delivered)
    requires Frames(turn.log) == [] && turn.server.app == before.server.app && turn.sent == [] && turn.calls == []
    ensures ServedBy(serve, app, Extended(before, turn), delivered)
  {
    FramesConcat(before.log, turn.log);
    assert Frames(before.log) + [] == Frames(before.log);
    assert before.sent + [] == before.sent && before.calls + [] == before.calls;
  }

  lemma FrameServed<S>(serve: Service<S>, app: S, before: Session<S>, turn: Turn<S>, delivered: bool, sending: Sending)
    requires ServedBy(serve, app, before, delivered) && |Frames(turn.log)| == 1 && (delivered ==> sending.Delivered?)
    requires var served := serve(before.server.app, Frames(turn.log)[0]);
             turn.server.app == served.app && turn.sent == Wire(sending, served.resp) && turn.calls == served.calls
    ensures ServedBy(serve, app, Extended(before, turn), delivered)
  {
    FramesConcat(before.log, turn.log);
    ServeAllOneMore(serve, app, Frames(before.log), Frames(turn.log)[0]);
    assert [Frames(turn.log)[0]] == Frames(turn.log);
  }

  /** The response that a turn would transmit. */
  function Response<S>(cfg: Config, h: Handlers<S>, sv: Server<S>, link: Input, now: nat): seq<byte> {
    OnProcess(cfg, h, sv, link, now, Transmission(Delivered, 0, Input([], []))).sent
  }

  /** A call of the server fails exactly on a read error or if a response that is due does not go out. */
  lemma TurnFailsExactly<S>(cfg: Config, h: Handlers<S>, sv: Server<S>, link: Input, now: nat, tx: Transmission)
    ensures var turn := OnProcess(cfg, h, sv, link, now, tx);
            turn.rc in {0, -1} &&
            (turn.rc == -1 <==>
               Poll(Decide, sv.rx, link, now, cfg.timeout).failed ||
               (Response(cfg, h, sv, link, now) != [] && !tx.sending.Delivered?))
  {
    PolledFramesAreLong(sv.rx, link, now, cfg.timeout);
  }

  /** No transmission of the run leaves bytes of its own on the line. */
  ghost predicate OnlyEchoes<S>(cfg: Config, h: Handlers<S>, sv: Server<S>, link: Input, times: seq<nat>,
                                txs: seq<Transmission>)
    requires |txs| == |times|
    decreases |times|
  {
    times == [] ||
    var n := |times| - 1;
    var before := ServerRun(cfg, h, sv, link, times[..n], txs[..n]);
    OnlyEchoes(cfg, h, sv, link, times[..n], txs[..n]) &&
    EchoFits(cfg, Response(cfg, h, before.server, before.link, times[n]), txs[n])
  }

  /** Then the receive side of a run, with or without local echo, is the framer's. */
  lemma {:induction false} ServerRunPolls<S>(cfg: Config, h: Handlers<S>, sv: Server<S>, link: Input, times: seq<nat>,
                                             txs: seq<Transmission>)
    requires |txs| == |times| && OnlyEchoes(cfg, h, sv, link, times, txs)
    ensures var run, polls := ServerRun(cfg, h, sv, link, times, txs), Polls(Decide, sv.rx, link, times, cfg.timeout);
            run.server.rx == polls.rx && run.link == polls.link && run.log == polls.log
    decreases |times|
  {
    if times != [] {
      var n := |times| - 1;
      ServerRunPolls(cfg, h, sv, link, times[..n], txs[..n]);
      var before := ServerRun(cfg, h, sv, link, times[..n], txs[..n]);
      TurnServes(cfg, h, before.server, before.link, times[n], txs[n]);
      TurnServes(cfg, h, before.server, before.link, times[n], Transmission(Delivered, 0, Input([], [])));
    }
  }

  // ---- One request on the line ----

  lemma EncodedLength(r: Request)
    requires r.InRange()
    ensures var pdu := r.Encode();
            if Pdu.IsWriteMultiple(pdu[0]) then |pdu| > 6 && pdu[5] as nat + 6 == |pdu| else |pdu| == 5
    ensures Pdu.Supported(r.Encode()[0])
  {
  }

  /** The parts of a serial frame. */
  lemma FrameParts(unit: byte, pdu: seq<byte>)
    ensures var adu := RtuFrames.SerialFrame(unit, pdu);
            |adu| == |pdu| + 3 && adu[0] == unit && adu[1..|adu| - 2] == pdu && Crc.ValidFrame(adu) &&
            forall i | 0 <= i < |pdu| :: adu[i + 1] == pdu[i]
  {
    var adu := RtuFrames.SerialFrame(unit, pdu);
    Crc.AppendThenValidate([unit] + pdu, adu);
    assert forall i | 0 <= i < |pdu| :: adu[i + 1] == pdu[i];
  }

  /** The request frame is one complete candidate. */
  lemma RequestIsFrame(unit: byte, r: Request)
    requires r.InRange()
    ensures var adu := RtuFrames.SerialFrame(unit, r.Encode());
            Decide(adu) == Accept(|adu|) && |adu| == |r.Encode()| + 3 && adu[0] == unit &&
            adu[1..|adu| - 2] == r.Encode()
  {
    EncodedLength(r);
    FrameParts(unit, r.Encode());
    WholeCandidate(RtuFrames.SerialFrame(unit, r.Encode()), r.Encode());
  }

  /** A valid frame whose PDU has the length that it announces. */
  lemma WholeCandidate(adu: seq<byte>, pdu: seq<byte>)
    requires 5 <= |pdu| <= Pdu.MAX_PDU_LENGTH && |adu| == |pdu| + 3 && Crc.ValidFrame(adu)
    requires if Pdu.IsWriteMultiple(pdu[0]) then |pdu| > 6 && pdu[5] as nat + 6 == |pdu| else |pdu| == 5
    requires forall i | 0 <= i < |pdu| :: adu[i + 1] == pdu[i]
    ensures Decide(adu) == Accept(|adu|)
  {
    assert adu[1] == pdu[0] && (|pdu| > 5 ==> adu[6] == pdu[5]);
    assert adu[..|adu|] == adu;
  }

  lemma ScanOfOneFrame(adu: seq<byte>)
    requires Decide(adu) == Accept(|adu|)
    ensures Scan(Decide, adu) == Scanned([Frame(adu)], [])
  {
    DecisionStable(adu, []);
    assert adu[..|adu|] == adu && adu[|adu|..] == [];
    assert Scan(Decide, []) == Scanned([], []);
  }

  /** A run that has taken no frame at all has an undecided buffer. */
  lemma {:induction false} NoFrameUndecided(link: Input, times: seq<nat>, timeout: nat)
    requires link.Working()
    ensures var run := Polls(Decide, Rx([], 0), link, times, timeout);
            run.link.Working() && (Frames(run.log) == [] ==> !Decided(Decide, run.rx.buf))
    decreases |times|
  {
    if times != [] {
      var n := |times| - 1;
      NoFrameUndecided(link, times[..n], timeout);
      var before := Polls(Decide, Rx([], 0), link, times[..n], timeout);
      var kept := Kept(before.rx, times[n], timeout).buf;
      var p := Poll(Decide, before.rx, before.link, times[n], timeout);
      FillOfWorking(kept, before.link);
      FramesConcat(before.log, p.log);
      PolledFrames(before.rx, before.link, times[n], timeout);
      ScanOneWithoutFrame(Decide, Fill(kept, before.link).buf);
    }
  }

  /** However a single frame is cut into reads and polls, it is extracted at most once, and whole. */
  lemma AtMostOneFrame(adu: seq<byte>, link: Input, times: seq<nat>, timeout: nat)
    requires Decide(adu) == Accept(|adu|) && link.incoming == adu
    requires NothingDiscarded(Polls(Decide, Rx([], 0), link, times, timeout).log)
    ensures Frames(Polls(Decide, Rx([], 0), link, times, timeout).log) in {[], [adu]}
  {
    var run := Polls(Decide, Rx([], 0), link, times, timeout);
    ScanOfOneFrame(adu);
    DecideIsStable();
    RunRefinesScan(Decide, link, times, timeout);
    RunConserves(Decide, link, times, timeout);
    SinceOfPlain(run.log);
    Associative(LogBytes(run.log), run.rx.buf, run.link.incoming);
    ScanExtends(Decide, LogBytes(run.log) + run.rx.buf, run.link.incoming);
    var more := Scan(Decide, run.rx.buf);
    var last := Scan(Decide, more.rest + run.link.incoming);
    Associative(run.log, more.events, last.events);
    OneEventSplit(run.log, more.events + last.events, Frame(adu));
  }

  /** Once all of it has been read, it has been extracted. */
  lemma FrameArrives(adu: seq<byte>, link: Input, times: seq<nat>, timeout: nat)
    requires Decide(adu) == Accept(|adu|) && link.incoming == adu && link.Working() && |times| >= link.Size()
    requires NothingDiscarded(Polls(Decide, Rx([], 0), link, times, timeout).log)
    ensures Frames(Polls(Decide, Rx([], 0), link, times, timeout).log) == [adu]
  {
    var run := Polls(Decide, Rx([], 0), link, times, timeout);
    AtMostOneFrame(adu, link, times, timeout);
    RunReadsAll(link, times, timeout);
    NoFrameUndecided(link, times, timeout);
    if Frames(run.log) == [] {
      ScanOfOneFrame(adu);
      DecideIsStable();
      FinishedRunScans(Decide, link, times, timeout);
      LogCons(Frame(adu), []);
      assert false;
    }
  }

  /**
   * However the request is cut into reads and polls, as many polls as the line has bytes and
   * schedule events extract it once, whole, if no assembly timeout fires.
   */
  lemma RequestArrives(unit: byte, r: Request, link: Input, times: seq<nat>, timeout: nat)
    requires r.InRange() && link.Working() && link.incoming == RtuFrames.SerialFrame(unit, r.Encode())
    requires |times| >= link.Size() && NothingDiscarded(Polls(Decide, Rx([], 0), link, times, timeout).log)
    ensures Frames(Polls(Decide, Rx([], 0), link, times, timeout).log) == [link.incoming]
  {
    RequestIsFrame(unit, r);
    FrameArrives(link.incoming, link, times, timeout);
  }

  lemma ResponseToPolled<S>(cfg: Config, h: Handlers<S>, sv: Server<S>, link: Input, now: nat)
    ensures var frames := Frames(Poll(Decide, sv.rx, link, now, cfg.timeout).log);
            Response(cfg, h, sv, link, now) ==
            if frames == [] then [] else Serve(cfg.unitId, h, sv.app, frames[0]).resp
  {
    TurnServes(cfg, h, sv, link, now, Transmission(Delivered, 0, Input([], [])));
  }

  lemma OneOfTwo(a: seq<seq<byte>>, b: seq<seq<byte>>, adu: seq<byte>)
    requires a + b in {[], [adu]}
    ensures b == [] || (a == [] && b == [adu])
  {
    if b != [] {
      assert (a + b)[|a|] == b[0];
    }
  }

  /** While one frame arrives, it is enough that the echo of its response fits. */
  lemma {:induction false} OneRequestEchoes<S>(cfg: Config, h: Handlers<S>, app: S, link: Input, times: seq<nat>,
                                               txs: seq<Transmission>)
    requires Decide(link.incoming) == Accept(|link.incoming|) && |txs| == |times|
    requires NothingDiscarded(Polls(Decide, Rx([], 0), link, times, cfg.timeout).log)
    requires forall tx | tx in txs :: EchoFits(cfg, Serve(cfg.unitId, h, app, link.incoming).resp, tx)
    ensures OnlyEchoes(cfg, h, Server(Rx([], 0), app), link, times, txs)
    decreases |times|
  {
    if times != [] {
      var n := |times| - 1;
      var polls := Polls(Decide, Rx([], 0), link, times[..n], cfg.timeout);
      var p := Poll(Decide, polls.rx, polls.link, times[n], cfg.timeout);
      PartsDiscardNothing(polls.log, p.log);
      OneRequestEchoes(cfg, h, app, link, times[..n], txs[..n]);
      ServerRunPolls(cfg, h, Server(Rx([], 0), app), link, times[..n], txs[..n]);
      ServerRunServesFrames(cfg, h, app, link, times[..n], txs[..n]);
      var before := ServerRun(cfg, h, Server(Rx([], 0), app), link, times[..n], txs[..n]);
      AtMostOneFrame(link.incoming, link, times, cfg.timeout);
      FramesConcat(polls.log, p.log);
      ResponseToPolled(cfg, h, before.server, before.link, times[n]);
      OneOfTwo(Frames(polls.log), Frames(p.log), link.incoming);
      assert txs[n] in txs;
    }
  }

  lemma OneEventSplit(a: seq<Event>, b: seq<Event>, e: Event)
    requires a + b == [e] && e.Frame?
    ensures (a == [e] && Frames(a) == [e.adu]) || (a == [] && b == [e] && Frames(a) == [])
  {
    LogCons(e, []);
    assert [e] + [] == [e];
    if a != [] {
      assert a[0] == (a + b)[0];
    }
  }

  // ---- The response on the way back ----

  /** A response frame of the length that its function code, or byte count, announces. */
  predicate WellShaped(fc: byte, frame: seq<byte>) {
    |frame| >= 5 &&
    if frame[1] == Pdu.ExceptionFunction(fc) then |frame| == 5
    else frame[1] == fc && if fc <= 4 then |frame| == ReadFrameLength(frame) <= MAX_ADU_LENGTH else |frame| == 8
  }

  lemma FinishOfClean(r: Received, unit: byte, frame: seq<byte>)
    requires 2 <= |r.bytes| <= |frame| && r.rc == 0 && r.link.Clean()
    requires r.bytes + r.link.incoming == frame && IsFrame(frame, unit, |frame|)
    ensures FinishFrame(r, unit, |frame|).rc == 0 && FinishFrame(r, unit, |frame|).bytes == frame
  {
    ReadExactClean(CODES, r.link, |frame| - |r.bytes|);
    assert r.link.incoming[..|frame| - |r.bytes|] == r.link.incoming;
  }

  /** However a well-shaped valid frame is cut into reads, recv_response returns it whole. */
  lemma ResponseArrives(link: Input, unit: byte, fc: byte)
    requires link.Clean() && WellShaped(fc, link.incoming) && IsFrame(link.incoming, unit, |link.incoming|)
    ensures RecvResponse(link, unit, fc).rc == 0 && RecvResponse(link, unit, fc).bytes == link.incoming
  {
    var frame := link.incoming;
    ReadExactClean(CODES, link, 2);
    var two := ReadExact(CODES, link, 2);
    assert two.bytes[1] == frame[1];
    assert two.bytes + two.link.incoming == frame;
    FinishOfClean(two, unit, frame);
    if frame[1] != Pdu.ExceptionFunction(fc) && fc <= 4 {
      ReadResponseArrives(two, unit, fc, frame);
    }
  }

  lemma ReadResponseArrives(two: Received, unit: byte, fc: byte, frame: seq<byte>)
    requires two.rc == 0 && |two.bytes| == 2 && two.link.Clean() && two.bytes + two.link.incoming == frame
    requires |frame| >= 5 && |frame| == ReadFrameLength(frame) <= MAX_ADU_LENGTH && IsFrame(frame, unit, |frame|)
    ensures RecvReadResponse(two, unit, fc).rc == 0 && RecvReadResponse(two, unit, fc).bytes == frame
  {
    ThirdByteArrives(two, frame);
    FinishOfClean(Extend(CODES, two, 1), unit, frame);
  }

  lemma ThirdByteArrives(two: Received, frame: seq<byte>)
    requires two.rc == 0 && |two.bytes| == 2 && two.link.Clean() && two.bytes + two.link.incoming == frame
    requires |frame| >= 5
    ensures var three := Extend(CODES, two, 1);
            three.rc == 0 && three.link.Clean() && |three.bytes| == 3 && three.bytes[2] == frame[2] &&
            three.bytes + three.link.incoming == frame
  {
    ReadExactClean(CODES, two.link, 1);
    var three := Extend(CODES, two, 1);
    assert three.bytes + three.link.incoming == frame;
  }

  /** A response that passes the check, framed for the wire, is well shaped. */
  lemma CheckedIsWellShaped(r: Request, resp: seq<byte>, frame: seq<byte>)
    requires r.InRange() && Pdu.CheckResponse(r.Encode(), resp) >= 0
    requires |frame| == |resp| + 3 && frame[1..|frame| - 2] == resp
    ensures WellShaped(r.Encode()[0], frame)
  {
    EncodedLength(r);
    var pdu := r.Encode();
    assert frame[1] == resp[0];
    if |resp| > 1 {
      assert frame[2] == resp[1];
    }
    if resp[0] == pdu[0] && pdu[0] <= 4 {
      ReadCountFits(r);
    }
  }

  lemma ReadCountFits(r: Request)
    requires r.InRange() && r.Encode()[0] <= 4
    ensures Pdu.ReadByteCount(r.Encode()[0], GetU16(r.Encode(), 3)) <= 250
  {
    var fc := r.Encode()[0];
    match r
    case GetBits(_, addr, qty) => Pdu.FixedFields(r.Encode(), fc, addr, qty);
    case GetRegisters(_, addr, qty) => Pdu.FixedFields(r.Encode(), fc, addr, qty);
    case _ =>
  }

  /** Serving the request frame dispatches its PDU and frames the answer. */
  lemma RequestServed<S>(own: byte, h: Handlers<S>, app: S, unit: byte, r: Request)
    requires r.InRange() && unit != 0 && UnitMatches(own, unit)
    ensures var o := HandleRequest(h, app, r.Encode());
            ServeAll(RtuService(own, h), app, [RtuFrames.SerialFrame(unit, r.Encode())]) ==
            Served(o.state, RtuFrames.SerialFrame(unit, o.resp), o.calls)
  {
    var adu := RtuFrames.SerialFrame(unit, r.Encode());
    RequestIsFrame(unit, r);
    ServeAllOfOne(RtuService(own, h), app, adu);
  }

  /** What the client's transceiver puts in front of the answer. */
  function Echo(localEcho: bool, req: seq<byte>): seq<byte> { if localEcho then req else [] }

  /** An intact echo is read away, however it is cut. */
  lemma EchoReadAway(link: Input, req: seq<byte>, localEcho: bool, rest: seq<byte>)
    requires link.Clean() && link.incoming == Echo(localEcho, req) + rest
    ensures var after := AfterEcho(link, req, localEcho);
            after.rc == 0 && after.link.Clean() && after.link.incoming == rest
  {
    if localEcho {
      ReadExactClean(CODES, link, |req|);
    } else {
      assert [] + rest == rest;
    }
  }

  /** A corrupted echo, as after a collision, fails the transaction. */
  lemma EchoCorrupted(link: Input, unit: byte, pdu: seq<byte>)
    requires link.Clean() && 5 <= |pdu| && (unit != 0 || Pdu.IsWrite(pdu[0]))
    requires var req := RtuFrames.SerialFrame(unit, pdu); |link.incoming| >= |req| && link.incoming[..|req|] != req
    ensures Transact(true, unit, true, pdu, link, Delivered).rc == ERR_TRANSPORT
  {
    ReadExactClean(CODES, link, |RtuFrames.SerialFrame(unit, pdu)|);
  }

  /** The client, given the framed answer on a clean line, decodes it. */
  lemma AnswerReturns(r: Request, unit: byte, resp: seq<byte>, link: Input)
    requires r.InRange() && unit != 0 && link.Clean() && link.incoming == RtuFrames.SerialFrame(unit, resp)
    requires Pdu.CheckResponse(r.Encode(), resp) >= 0
    ensures var got := RecvResponse(link, unit, r.Encode()[0]);
            got.rc == 0 && |got.bytes| == |resp| + 3 && got.bytes[1..|got.bytes| - 2] == resp
  {
    var frame := link.incoming;
    Crc.AppendThenValidate([unit] + resp, frame);
    assert frame[1..|frame| - 2] == resp;
    CheckedIsWellShaped(r, resp, frame);
    ResponseArrives(link, unit, r.Encode()[0]);
  }

  lemma AnswerDecoded(r: Request, unit: byte, resp: seq<byte>, down: Input, localEcho: bool)
    requires r.InRange() && unit != 0 && Pdu.CheckResponse(r.Encode(), resp) >= 0 && 2 <= |resp|
    requires down.Clean()
    requires down.incoming ==
             Echo(localEcho, RtuFrames.SerialFrame(unit, r.Encode())) + RtuFrames.SerialFrame(unit, resp)
    ensures var t := Transact(true, unit, localEcho, r.Encode(), down, Delivered);
            AnswerOf(r, t) == Decode(r, resp) && t.sent == RtuFrames.SerialFrame(unit, r.Encode())
  {
    var req := RtuFrames.SerialFrame(unit, r.Encode());
    EchoReadAway(down, req, localEcho, RtuFrames.SerialFrame(unit, resp));
    AnswerReturns(r, unit, resp, AfterEcho(down, req, localEcho).link);
  }

  /**
   * End-to-end transparency.  A client sends an in-range request to a matching nonzero unit;
   * the server reads it from an empty buffer in any pieces over enough polls (no assembly
   * timeout, no read error), its response goes out, an echo of it at the server is read away,
   * and the client reads the answer in any pieces before its deadline.  Then the caller gets
   * exactly what a direct call of the handler gives, the application state advances by exactly
   * that call, and a missing handler or an address range past the end yields its exception
   * without a call.
   */
  lemma RtuTransparent<S>(cfg: Config, h: Handlers<S>, app: S, unit: byte, r: Request, up: Input, times: seq<nat>,
                          txs: seq<Transmission>, down: Input, localEcho: bool)
    requires r.InRange() && unit != 0 && UnitMatches(cfg.unitId, unit)
    requires up.Working() && up.incoming == RtuFrames.SerialFrame(unit, r.Encode())
    requires |txs| == |times| >= up.Size() && NothingDiscarded(Polls(Decide, Rx([], 0), up, times, cfg.timeout).log)
    requires AllDelivered(txs)
    requires forall tx | tx in txs :: EchoFits(cfg, Serve(cfg.unitId, h, app, up.incoming).resp, tx)
    requires var run := ServerRun(cfg, h, Server(Rx([], 0), app), up, times, txs);
             down.Clean() && down.incoming == Echo(localEcho, up.incoming) + run.sent
    ensures var run := ServerRun(cfg, h, Server(Rx([], 0), app), up, times, txs);
            var t := Transact(true, unit, localEcho, r.Encode(), down, Delivered);
            t.sent == up.incoming && Direct(h, app, r) == (run.server.app, AnswerOf(r, t), run.calls)
  {
    OneRequestRun(cfg, h, app, unit, r, up, times, txs);
    RequestServed(cfg.unitId, h, app, unit, r);
    CheckAcceptsDispatch(h, app, r.Encode());
    DispatchIsSound(h, app, r.Encode());
    AnswerDecoded(r, unit, HandleRequest(h, app, r.Encode()).resp, down, localEcho);
    PduTransparent(h, app, r);
  }

  /** A run on one request serves it. */
  lemma OneRequestRun<S>(cfg: Config, h: Handlers<S>, app: S, unit: byte, r: Request, up: Input, times: seq<nat>,
                         txs: seq<Transmission>)
    requires r.InRange() && up.Working() && up.incoming == RtuFrames.SerialFrame(unit, r.Encode())
    requires |txs| == |times| >= up.Size() && NothingDiscarded(Polls(Decide, Rx([], 0), up, times, cfg.timeout).log)
    requires forall tx | tx in txs :: EchoFits(cfg, Serve(cfg.unitId, h, app, up.incoming).resp, tx)
    ensures var run := ServerRun(cfg, h, Server(Rx([], 0), app), up, times, txs);
            Frames(run.log) == [up.incoming] && ServedBy(RtuService(cfg.unitId, h), app, run, AllDelivered(txs))
  {
    RequestIsFrame(unit, r);
    OneRequestEchoes(cfg, h, app, up, times, txs);
    ServerRunPolls(cfg, h, Server(Rx([], 0), app), up, times, txs);
    ServerRunServesFrames(cfg, h, app, up, times, txs);
    RequestArrives(unit, r, up, times, cfg.timeout);
  }

  // ---- Broadcasts ----

  lemma BroadcastServed<S>(own: byte, h: Handlers<S>, app: S, r: Request)
    requires r.InRange()
    ensures var o := HandleRequest(h, app, r.Encode());
            ServeAll(RtuService(own, h), app, [RtuFrames.SerialFrame(0, r.Encode())]) ==
            if Pdu.IsWrite(r.Encode()[0]) then Served(o.state, [], o.calls) else Served(app, [], [])
  {
    var adu := RtuFrames.SerialFrame(0, r.Encode());
    RequestIsFrame(0, r);
    assert adu[1] == adu[1..|adu| - 2][0];
    ServeAllOfOne(RtuService(own, h), app, adu);
  }

  lemma BroadcastUnanswered<S>(own: byte, h: Handlers<S>, app: S, r: Request)
    requires r.InRange()
    ensures Serve(own, h, app, RtuFrames.SerialFrame(0, r.Encode())).resp == []
  {
    RequestIsFrame(0, r);
  }

  /** The client's part of a broadcast. */
  lemma BroadcastSent(r: Request, down: Input, localEcho: bool)
    requires r.InRange()
    requires down.Clean() && down.incoming == Echo(localEcho, RtuFrames.SerialFrame(0, r.Encode()))
    ensures var t := Transact(true, 0, localEcho, r.Encode(), down, Delivered);
            if r.GetBits? || r.GetRegisters? then t == Transaction(ERR_ARG, [], down, [])
            else t.sent == RtuFrames.SerialFrame(0, r.Encode()) && AnswerOf(r, t) == Done
  {
    assert down.incoming + [] == down.incoming;
    EchoReadAway(down, RtuFrames.SerialFrame(0, r.Encode()), localEcho, []);
  }

  /**
   * A broadcast reaches every server, whatever its unit id: a write is done as by a direct call
   * and never answered, so the client returns success once it is sent; a read is refused by the
   * client, and a server ignores it.
   */
  lemma BroadcastTransparent<S>(cfg: Config, h: Handlers<S>, app: S, r: Request, up: Input, times: seq<nat>,
                                txs: seq<Transmission>, down: Input, localEcho: bool)
    requires r.InRange() && up.Working() && up.incoming == RtuFrames.SerialFrame(0, r.Encode())
    requires |txs| == |times| >= up.Size() && NothingDiscarded(Polls(Decide, Rx([], 0), up, times, cfg.timeout).log)
    requires down.Clean() && down.incoming == Echo(localEcho, up.incoming)
    ensures var run := ServerRun(cfg, h, Server(Rx([], 0), app), up, times, txs);
            var t := Transact(true, 0, localEcho, r.Encode(), down, Delivered);
            run.sent == [] &&
            if r.GetBits? || r.GetRegisters? then
              t == Transaction(ERR_ARG, [], down, []) && run.server.app == app && run.calls == []
            else t.sent == up.incoming && AnswerOf(r, t) == Done &&
                 run.server.app == Direct(h, app, r).0 && run.calls == Direct(h, app, r).2
  {
    BroadcastUnanswered(cfg.unitId, h, app, r);
    OneRequestRun(cfg, h, app, 0, r, up, times, txs);
    BroadcastServed(cfg.unitId, h, app, r);
    PduTransparent(h, app, r);
    BroadcastSent(r, down, localEcho);
  }
}
