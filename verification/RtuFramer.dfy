/**
 * The receive side of src/modbus_rtu_server.c on values: which candidate at the front of the
 * receive buffer is a frame, and what one poll reads, discards and extracts.
 */
module RtuFramer {
  import opened Bytes
  import opened Transport
  import opened StreamScan
  import Crc
  import Pdu

  const BUFFER_SIZE := 256
  const MIN_REQUEST_LENGTH := 8

  // ---- Candidates ----

  datatype Length = Incomplete | Malformed | Complete(len: nat)

  /** get_complete_request_len with the buffer size as capacity. */
  function RequestLength(s: seq<byte>): Length {
    if |s| < 2 then Incomplete
    else if Pdu.IsWriteMultiple(s[1]) then
      if |s| <= 6 then Incomplete
      else if s[6] == 0 || s[6] as nat + 9 > BUFFER_SIZE then Malformed
      else if |s| < s[6] as nat + 9 then Incomplete
      else Complete(s[6] as nat + 9)
    else if |s| < MIN_REQUEST_LENGTH then Incomplete
    else Complete(MIN_REQUEST_LENGTH)
  }

  /** One round of the loop in extract_request_frame: wait, drop a byte, or accept. */
  function Decide(s: seq<byte>): Verdict {
    match RequestLength(s)
    case Incomplete => NeedMore
    case Malformed => Reject
    case Complete(n) => if Crc.ValidFrame(s[..n]) then Accept(n) else Reject
  }

  /** Once decided, a candidate stays decided, the same way, under any extension. */
  lemma DecideIsStable()
    ensures Stable(Decide)
  {
    forall s: seq<byte>, t: seq<byte> | Decided(Decide, s)
      ensures Decide(s + t) == Decide(s) && (Decide(s).Accept? ==> 1 <= Decide(s).len <= |s|)
    {
      DecisionStable(s, t);
    }
  }

  lemma DecisionStable(s: seq<byte>, t: seq<byte>)
    requires !Decide(s).NeedMore?
    ensures Decide(s + t) == Decide(s)
    ensures Decide(s).Accept? ==> MIN_REQUEST_LENGTH <= Decide(s).len <= Min(|s|, BUFFER_SIZE)
  {
    assert RequestLength(s + t) == RequestLength(s);
    if RequestLength(s).Complete? {
      assert (s + t)[..RequestLength(s).len] == s[..RequestLength(s).len];
    }
  }

  /** A full buffer is never undecided, so a candidate waits for at most 255 more bytes. */
  lemma FullBufferDecided(s: seq<byte>)
    requires |s| >= BUFFER_SIZE
    ensures Decided(Decide, s)
  {
  }

  // ---- One poll ----

  /** The receive buffer's contents and the time of the last byte (0 when unknown). */
  datatype Rx = Rx(buf: seq<byte>, last: nat)

  datatype Filled = Filled(buf: seq<byte>, link: Input, failed: bool)

  /** read_available_bytes: read until nothing is there, the buffer is full, or an error. */
  function Fill(buf: seq<byte>, link: Input): Filled
    decreases link.Size()
  {
    if |buf| >= BUFFER_SIZE then Filled(buf, link, false)
    else
      var (r, link') := Read(link, BUFFER_SIZE - |buf|);
      match r
      case Data(bytes) => Fill(buf + bytes, link')
      case NotRead(e) => if e.Interrupted? then Fill(buf, link') else Filled(buf, link', e.Failed?)
  }

  /** The assembly timeout at the start of a poll. */
  predicate TimeoutFires(rx: Rx, now: nat, timeout: nat) {
    |rx.buf| > 0 && rx.last > 0 && now >= rx.last && now - rx.last > timeout
  }

  function LastTime(buf: seq<byte>, last: nat): nat { if buf == [] then 0 else last }

  datatype Polled = Polled(rx: Rx, link: Input, failed: bool, log: seq<Event>)

  /** The bytes kept at the start of a poll, and what is discarded. */
  function Kept(rx: Rx, now: nat, timeout: nat): Rx {
    if TimeoutFires(rx, now, timeout) then Rx([], 0) else rx
  }

  function Timed(rx: Rx, now: nat, timeout: nat): seq<Event> {
    if TimeoutFires(rx, now, timeout) then [Discarded(rx.buf)] else []
  }

  function TimeAfterFill(before: Rx, filled: Filled, now: nat): nat {
    if |filled.buf| > |before.buf| then now else before.last
  }

  /** The receiving half of server_on_process. */
  function Poll(d: Rule, rx: Rx, link: Input, now: nat, timeout: nat): Polled {
    var kept, timed := Kept(rx, now, timeout), Timed(rx, now, timeout);
    var filled := Fill(kept.buf, link);
    var last := TimeAfterFill(kept, filled, now);
    if filled.failed then Polled(Rx(filled.buf, last), filled.link, true, timed)
    else
      var one := ScanOne(d, filled.buf);
      Polled(Rx(one.rest, LastTime(one.rest, last)), filled.link, false, timed + one.events)
  }

  /** What is read is appended to the buffer, which never overflows. */
  lemma {:induction false} FillReads(buf: seq<byte>, link: Input)
    ensures var f := Fill(buf, link);
            |f.buf| >= |buf| && f.buf[..|buf|] == buf && f.buf + f.link.incoming == buf + link.incoming &&
            (|buf| <= BUFFER_SIZE ==> |f.buf| <= BUFFER_SIZE) && (f.failed ==> |f.buf| < BUFFER_SIZE)
    decreases link.Size()
  {
    if |buf| < BUFFER_SIZE {
      var (r, link') := Read(link, BUFFER_SIZE - |buf|);
      if r.Data? {
        FillReads(buf + r.bytes, link');
        Associative(buf, r.bytes, link'.incoming);
        var f := Fill(buf + r.bytes, link');
        assert f.buf[..|buf|] == f.buf[..|buf + r.bytes|][..|buf|];
      } else if r.event.Interrupted? {
        FillReads(buf, link');
      }
    }
  }

  lemma {:induction false} FillOfWorking(buf: seq<byte>, link: Input)
    requires link.Working()
    ensures !Fill(buf, link).failed && Fill(buf, link).link.Working()
    decreases link.Size()
  {
    if |buf| < BUFFER_SIZE {
      var (r, link') := Read(link, BUFFER_SIZE - |buf|);
      ReadOfWorking(link, BUFFER_SIZE - |buf|);
      if r.Data? {
        FillOfWorking(buf + r.bytes, link');
      } else if r.event.Interrupted? {
        FillOfWorking(buf, link');
      }
    }
  }

  /** A read error is reported where there is room for a read. */
  lemma FillOfFailing(buf: seq<byte>, link: Input)
    requires |buf| < BUFFER_SIZE && link.schedule != [] && link.schedule[0].Failed?
    ensures Fill(buf, link).failed && Fill(buf, link).buf == buf
  {
  }

  lemma FillOfNothing(buf: seq<byte>, link: Input)
    requires link.Working() && link.incoming == []
    ensures var f := Fill(buf, link);
            f.buf == buf && !f.failed && f.link.Working() && f.link.incoming == []
  {
    FillReads(buf, link);
    FillOfWorking(buf, link);
    assert buf + link.incoming == buf;
  }

  // ---- Runs ----

  datatype Run = Run(rx: Rx, link: Input, log: seq<Event>, failed: bool)

  /** The state after polling at the given times, and everything logged on the way. */
  function Polls(d: Rule, rx: Rx, link: Input, times: seq<nat>, timeout: nat): Run
    decreases |times|
  {
    if times == [] then Run(rx, link, [], false)
    else
      var before := Polls(d, rx, link, times[..|times| - 1], timeout);
      var p := Poll(d, before.rx, before.link, times[|times| - 1], timeout);
      Run(p.rx, p.link, before.log + p.log, before.failed || p.failed)
  }

  /** The events since bytes were last discarded by a timeout. */
  function Since(log: seq<Event>): seq<Event> {
    if log == [] then []
    else if log[|log| - 1].Discarded? then []
    else Since(log[..|log| - 1]) + [log[|log| - 1]]
  }

  predicate NothingDiscarded(log: seq<Event>) { forall e | e in log :: !e.Discarded? }

  /** The log so far, followed by a scan of the buffer, is the scan of all bytes since. */
  ghost predicate Refines(d: Rule, log: seq<Event>, buf: seq<byte>) {
    var more := Scan(d, buf);
    Scan(d, LogBytes(Since(log)) + buf) == Scanned(Since(log) + more.events, more.rest)
  }

  lemma {:induction false} SinceOfPlain(log: seq<Event>)
    requires NothingDiscarded(log)
    ensures Since(log) == log
  {
    if log != [] {
      var n := |log| - 1;
      assert log[n] in log;
      SinceOfPlain(log[..n]);
      assert log == log[..n] + [log[n]];
    }
  }

  lemma {:induction false} SinceConcat(a: seq<Event>, b: seq<Event>)
    requires NothingDiscarded(b)
    ensures Since(a + b) == Since(a) + b
    decreases |b|
  {
    if b == [] {
      assert a + b == a;
    } else {
      var n := |b| - 1;
      assert b[n] in b;
      SinceConcat(a, b[..n]);
      InitOfConcat(a, b);
      Associative(Since(a), b[..n], [b[n]]);
      InitAndLast(b);
    }
  }

  lemma {:induction false} ScanOneDiscardsNothing(d: Rule, s: seq<byte>)
    ensures NothingDiscarded(ScanOne(d, s).events)
    decreases |s|
  {
    if Decided(d, s) && !d(s).Accept? {
      ScanOneDiscardsNothing(d, s[1..]);
    }
  }

  lemma ReadingRefines(d: Rule, log: seq<Event>, buf: seq<byte>, more: seq<byte>)
    requires Stable(d) && Refines(d, log, buf)
    ensures Refines(d, log, buf + more)
  {
    var old', all := Scan(d, buf), LogBytes(Since(log)) + buf;
    var next := Scan(d, old'.rest + more);
    ScanExtends(d, buf, more);
    ScanExtends(d, all, more);
    Associative(LogBytes(Since(log)), buf, more);
    Associative(Since(log), old'.events, next.events);
  }

  lemma ExtractingRefines(d: Rule, log: seq<Event>, buf: seq<byte>)
    requires Refines(d, log, buf)
    ensures Refines(d, log + ScanOne(d, buf).events, ScanOne(d, buf).rest)
  {
    var one := ScanOne(d, buf);
    var more := Scan(d, one.rest);
    ScanOneDiscardsNothing(d, buf);
    SinceConcat(log, one.events);
    LogBytesConcat(Since(log), one.events);
    ScanOneConserves(d, buf);
    Associative(LogBytes(Since(log)), LogBytes(one.events), one.rest);
    ScanOneThenScan(d, buf);
    Associative(Since(log), one.events, more.events);
  }

  lemma DiscardingRefines(d: Rule, log: seq<Event>, bytes: seq<byte>)
    ensures Refines(d, log + [Discarded(bytes)], [])
  {
    assert Since(log + [Discarded(bytes)]) == [];
  }

  lemma EmptyRefines(d: Rule)
    ensures Refines(d, [], [])
  {
  }

  lemma PollRefines(d: Rule, log: seq<Event>, rx: Rx, link: Input, now: nat, timeout: nat)
    requires Stable(d) && Refines(d, log, rx.buf)
    ensures var p := Poll(d, rx, link, now, timeout);
            Refines(d, log + p.log, p.rx.buf)
  {
    var kept, timed := Kept(rx, now, timeout), Timed(rx, now, timeout);
    var filled := Fill(kept.buf, link);
    if TimeoutFires(rx, now, timeout) {
      DiscardingRefines(d, log, rx.buf);
    } else {
      assert log + timed == log;
    }
    FillingRefines(d, log + timed, kept.buf, link);
    if !filled.failed {
      ExtractingRefines(d, log + timed, filled.buf);
      Associative(log, timed, ScanOne(d, filled.buf).events);
    }
  }

  lemma FillingRefines(d: Rule, log: seq<Event>, buf: seq<byte>, link: Input)
    requires Stable(d) && Refines(d, log, buf)
    ensures Refines(d, log, Fill(buf, link).buf)
  {
    var filled := Fill(buf, link).buf;
    FillReads(buf, link);
    assert filled == buf + filled[|buf|..];
    ReadingRefines(d, log, buf, filled[|buf|..]);
  }

  lemma PollConserves(d: Rule, rx: Rx, link: Input, now: nat, timeout: nat)
    ensures var p := Poll(d, rx, link, now, timeout);
            LogBytes(p.log) + p.rx.buf + p.link.incoming == rx.buf + link.incoming
  {
    var kept, timed := Kept(rx, now, timeout), Timed(rx, now, timeout);
    var filled := Fill(kept.buf, link);
    var one := ScanOne(d, filled.buf);
    LogCons(Discarded(rx.buf), []);
    assert [Discarded(rx.buf)] + [] == [Discarded(rx.buf)];
    assert LogBytes(timed) + kept.buf == rx.buf;
    FillReads(kept.buf, link);
    Associative(LogBytes(timed), kept.buf, link.incoming);
    Associative(LogBytes(timed), filled.buf, filled.link.incoming);
    if !filled.failed {
      ScanOneConserves(d, filled.buf);
      LogBytesConcat(timed, one.events);
      Associative(LogBytes(timed), LogBytes(one.events), one.rest);
    }
  }

  /** Every byte taken from the line is dropped, in a frame, discarded or buffered, in order. */
  lemma {:induction false} RunConserves(d: Rule, link: Input, times: seq<nat>, timeout: nat)
    ensures var run := Polls(d, Rx([], 0), link, times, timeout);
            LogBytes(run.log) + (run.rx.buf + run.link.incoming) == link.incoming
    decreases |times|
  {
    if times != [] {
      var n := |times| - 1;
      RunConserves(d, link, times[..n], timeout);
      var before := Polls(d, Rx([], 0), link, times[..n], timeout);
      var p := Poll(d, before.rx, before.link, times[n], timeout);
      PollConserves(d, before.rx, before.link, times[n], timeout);
      LogBytesConcat(before.log, p.log);
      Associative(LogBytes(before.log), LogBytes(p.log), p.rx.buf + p.link.incoming);
      Associative(LogBytes(p.log), p.rx.buf, p.link.incoming);
    }
  }

  /**
   * Over every run of polls, whatever the reads, errors and timeouts: since the last discard,
   * the log followed by a scan of the buffer is the scan of the whole stream.
   */
  lemma {:induction false} RunRefinesScan(d: Rule, link: Input, times: seq<nat>, timeout: nat)
    requires Stable(d)
    ensures var run := Polls(d, Rx([], 0), link, times, timeout);
            Refines(d, run.log, run.rx.buf)
    decreases |times|
  {
    if times == [] {
      EmptyRefines(d);
    } else {
      var n := |times| - 1;
      RunRefinesScan(d, link, times[..n], timeout);
      var before := Polls(d, Rx([], 0), link, times[..n], timeout);
      PollRefines(d, before.log, before.rx, before.link, times[n], timeout);
    }
  }

  /**
   * Without a discard, a run that has taken the whole stream and left an undecided buffer has
   * logged exactly the events of the simple scanner.
   */
  lemma FinishedRunScans(d: Rule, link: Input, times: seq<nat>, timeout: nat)
    requires Stable(d)
    requires var run := Polls(d, Rx([], 0), link, times, timeout);
             NothingDiscarded(run.log) && run.link.incoming == [] && !Decided(d, run.rx.buf)
    ensures var run := Polls(d, Rx([], 0), link, times, timeout);
            Scan(d, link.incoming) == Scanned(run.log, run.rx.buf)
  {
    var run := Polls(d, Rx([], 0), link, times, timeout);
    RunRefinesScan(d, link, times, timeout);
    RunConserves(d, link, times, timeout);
    SinceOfPlain(run.log);
    assert run.rx.buf + [] == run.rx.buf;
    assert run.log + [] == run.log;
  }

  /** Every poll leaves room in the buffer, so every read asks for at least one byte. */
  lemma {:induction false} RunLeavesRoom(link: Input, times: seq<nat>, timeout: nat)
    ensures |Polls(Decide, Rx([], 0), link, times, timeout).rx.buf| < BUFFER_SIZE
    decreases |times|
  {
    if times != [] {
      var n := |times| - 1;
      RunLeavesRoom(link, times[..n], timeout);
      var before := Polls(Decide, Rx([], 0), link, times[..n], timeout);
      PollLeavesRoom(before.rx, before.link, times[n], timeout);
    }
  }

  lemma PollLeavesRoom(rx: Rx, link: Input, now: nat, timeout: nat)
    requires |rx.buf| < BUFFER_SIZE
    ensures |Poll(Decide, rx, link, now, timeout).rx.buf| < BUFFER_SIZE
  {
    var filled := Fill(Kept(rx, now, timeout).buf, link);
    FillReads(Kept(rx, now, timeout).buf, link);
    ScanOneWithoutFrame(Decide, filled.buf);
    if |filled.buf| == BUFFER_SIZE {
      FullBufferDecided(filled.buf);
    }
  }

  // ---- Draining ----

  /** A poll of a quiet line in which no timeout fires takes the next buffered frame. */
  lemma QuietPoll(d: Rule, rx: Rx, link: Input, now: nat, timeout: nat)
    requires link.Working() && link.incoming == [] && |rx.buf| <= BUFFER_SIZE
    requires NothingDiscarded(Poll(d, rx, link, now, timeout).log)
    ensures var p, all := Poll(d, rx, link, now, timeout), Frames(Scan(d, rx.buf).events);
            p.link.Working() && p.link.incoming == [] && |p.rx.buf| <= BUFFER_SIZE &&
            Frames(p.log) == (if all == [] then [] else [all[0]]) &&
            Frames(Scan(d, p.rx.buf).events) == (if all == [] then [] else all[1..]) &&
            (all == [] ==> !Decided(d, p.rx.buf))
  {
    TimeoutIsLogged(d, rx, link, now, timeout);
    FillOfNothing(rx.buf, link);
    ScanOneTakesFirst(d, rx.buf);
    ScanOneWithoutFrame(d, rx.buf);
    assert [] + ScanOne(d, rx.buf).events == ScanOne(d, rx.buf).events;
  }

  lemma TimeoutIsLogged(d: Rule, rx: Rx, link: Input, now: nat, timeout: nat)
    ensures TimeoutFires(rx, now, timeout) ==> !NothingDiscarded(Poll(d, rx, link, now, timeout).log)
  {
    var p := Poll(d, rx, link, now, timeout);
    if TimeoutFires(rx, now, timeout) {
      assert p.log[0].Discarded? && p.log[0] in p.log;
    }
  }

  /** Splitting one element off a list cut in two at k. */
  lemma CutNext<T>(all: seq<T>, k: nat)
    requires k <= |all|
    ensures all[..k] + (if all[k..] == [] then [] else [all[k..][0]]) == all[..Min(k + 1, |all|)]
    ensures (if all[k..] == [] then [] else all[k..][1..]) == all[Min(k + 1, |all|)..]
  {
  }

  /**
   * Each poll takes the next frame.  Once nothing more arrives, polling once more often than
   * there are complete frames buffered extracts them all, in order, and nothing else.
   */
  lemma {:induction false} PollsDrain(d: Rule, rx: Rx, link: Input, times: seq<nat>, timeout: nat)
    requires link.Working() && link.incoming == [] && |rx.buf| <= BUFFER_SIZE
    requires NothingDiscarded(Polls(d, rx, link, times, timeout).log)
    ensures var run, all := Polls(d, rx, link, times, timeout), Frames(Scan(d, rx.buf).events);
            var k := Min(|times|, |all|);
            run.link.Working() && run.link.incoming == [] && |run.rx.buf| <= BUFFER_SIZE &&
            Frames(run.log) == all[..k] && Frames(Scan(d, run.rx.buf).events) == all[k..] &&
            (|times| > |all| ==> !Decided(d, run.rx.buf))
    decreases |times|
  {
    if times != [] {
      var n := |times| - 1;
      var before := Polls(d, rx, link, times[..n], timeout);
      var p := Poll(d, before.rx, before.link, times[n], timeout);
      PartsDiscardNothing(before.log, p.log);
      PollsDrain(d, rx, link, times[..n], timeout);
      QuietPoll(d, before.rx, before.link, times[n], timeout);
      FramesConcat(before.log, p.log);
      CutNext(Frames(Scan(d, rx.buf).events), Min(n, |Frames(Scan(d, rx.buf).events)|));
    }
  }

  lemma PartsDiscardNothing(a: seq<Event>, b: seq<Event>)
    requires NothingDiscarded(a + b)
    ensures NothingDiscarded(a) && NothingDiscarded(b)
  {
    assert forall e | e in a :: e in a + b;
    assert forall e | e in b :: e in a + b;
  }

  // ---- How many polls it takes ----

  /** Reading into a buffer with room uses up some of what the line has left to do. */
  lemma {:induction false} FillShrinks(buf: seq<byte>, link: Input)
    ensures var after := Fill(buf, link).link;
            after.Size() <= link.Size() && (|buf| < BUFFER_SIZE && link.Size() > 0 ==> after.Size() < link.Size())
    decreases link.Size()
  {
    if |buf| < BUFFER_SIZE {
      var (r, link') := Read(link, BUFFER_SIZE - |buf|);
      if r.Data? {
        FillShrinks(buf + r.bytes, link');
      } else if r.event.Interrupted? {
        FillShrinks(buf, link');
      }
    }
  }

  /** Every poll brings the end of the line's input nearer, so that many polls read it all. */
  lemma {:induction false} RunReadsAll(link: Input, times: seq<nat>, timeout: nat)
    ensures var run := Polls(Decide, Rx([], 0), link, times, timeout);
            (run.link.Size() + |times| <= link.Size() || run.link.Size() == 0) &&
            (|times| >= link.Size() ==> run.link.incoming == [])
    decreases |times|
  {
    if times != [] {
      var n := |times| - 1;
      RunReadsAll(link, times[..n], timeout);
      RunLeavesRoom(link, times[..n], timeout);
      var before := Polls(Decide, Rx([], 0), link, times[..n], timeout);
      FillShrinks(Kept(before.rx, times[n], timeout).buf, before.link);
    }
  }

  lemma {:induction false} PollsConcat(d: Rule, rx: Rx, link: Input, a: seq<nat>, b: seq<nat>, timeout: nat)
    ensures var first := Polls(d, rx, link, a, timeout);
            var second := Polls(d, first.rx, first.link, b, timeout);
            Polls(d, rx, link, a + b, timeout) ==
            Run(second.rx, second.link, first.log + second.log, first.failed || second.failed)
    decreases |b|
  {
    var first := Polls(d, rx, link, a, timeout);
    if b == [] {
      assert a + b == a;
      assert first.log + [] == first.log;
    } else {
      var n := |b| - 1;
      PollsConcat(d, rx, link, a, b[..n], timeout);
      InitOfConcat(a, b);
      var middle := Polls(d, first.rx, first.link, b[..n], timeout);
      Associative(first.log, middle.log, Poll(d, middle.rx, middle.link, b[n], timeout).log);
    }
  }

  lemma {:induction false} RunOfWorking(d: Rule, link: Input, times: seq<nat>, timeout: nat)
    requires link.Working()
    ensures Polls(d, Rx([], 0), link, times, timeout).link.Working()
    decreases |times|
  {
    if times != [] {
      var n := |times| - 1;
      RunOfWorking(d, link, times[..n], timeout);
      var before := Polls(d, Rx([], 0), link, times[..n], timeout);
      FillOfWorking(Kept(before.rx, times[n], timeout).buf, before.link);
    }
  }

  /** The frames still buffered are among those of the whole stream. */
  lemma FramesLeft(d: Rule, link: Input, times: seq<nat>, timeout: nat)
    requires Stable(d)
    requires var run := Polls(d, Rx([], 0), link, times, timeout);
             NothingDiscarded(run.log) && run.link.incoming == []
    ensures var run := Polls(d, Rx([], 0), link, times, timeout);
            |Frames(Scan(d, run.rx.buf).events)| <= |Frames(Scan(d, link.incoming).events)|
  {
    var run := Polls(d, Rx([], 0), link, times, timeout);
    RunRefinesScan(d, link, times, timeout);
    RunConserves(d, link, times, timeout);
    SinceOfPlain(run.log);
    assert run.rx.buf + [] == run.rx.buf;
    FramesConcat(run.log, Scan(d, run.rx.buf).events);
  }

  /**
   * On a line without read errors, however the stream is cut into reads and polls: if there are
   * more polls than the line has bytes and schedule events and the stream has frames, and no
   * assembly timeout fires, the run logs exactly the events, and so extracts exactly the frames,
   * of the simple scanner.
   */
  lemma RunExtractsScannerFrames(link: Input, times: seq<nat>, timeout: nat)
    requires link.Working() && |times| > link.Size() + |Frames(Scan(Decide, link.incoming).events)|
    requires NothingDiscarded(Polls(Decide, Rx([], 0), link, times, timeout).log)
    ensures var run := Polls(Decide, Rx([], 0), link, times, timeout);
            run.link.incoming == [] && Scan(Decide, link.incoming) == Scanned(run.log, run.rx.buf)
  {
    var a, b := times[..link.Size()], times[link.Size()..];
    var first := Polls(Decide, Rx([], 0), link, a, timeout);
    DecideIsStable();
    assert times == a + b;
    PollsConcat(Decide, Rx([], 0), link, a, b, timeout);
    PartsDiscardNothing(first.log, Polls(Decide, first.rx, first.link, b, timeout).log);
    RunReadsAll(link, a, timeout);
    RunLeavesRoom(link, a, timeout);
    RunOfWorking(Decide, link, a, timeout);
    FramesLeft(Decide, link, a, timeout);
    PollsDrain(Decide, first.rx, first.link, b, timeout);
    FinishedRunScans(Decide, link, times, timeout);
  }

  // ---- The assembly timeout ----

  /** Every poll from number j to number k - 1 leaves bytes in the buffer. */
  ghost predicate LeavesBytes(d: Rule, link: Input, times: seq<nat>, timeout: nat, j: nat, k: nat)
    requires k <= |times|
  {
    forall m | j <= m < k :: BufferedAfter(d, link, times, timeout, m) != []
  }

  function BufferedAfter(d: Rule, link: Input, times: seq<nat>, timeout: nat, m: nat): seq<byte>
    requires m < |times|
  {
    Polls(d, Rx([], 0), link, times[..m + 1], timeout).rx.buf
  }

  /** While bytes stay buffered, polls come within the timeout; there is no bound on other gaps. */
  ghost predicate Prompt(d: Rule, link: Input, times: seq<nat>, timeout: nat) {
    forall j, k | 0 <= j < k < |times| && LeavesBytes(d, link, times, timeout, j, k) :: times[k] <= times[j] + timeout
  }

  /** Then the timeout does not fire, however long the run is. */
  lemma PromptPolls(d: Rule, link: Input, times: seq<nat>, timeout: nat)
    requires Prompt(d, link, times, timeout)
    ensures NothingDiscarded(Polls(d, Rx([], 0), link, times, timeout).log)
  {
    var _ := PromptUpTo(d, link, times, timeout, |times|);
    assert times[..|times|] == times;
  }

  /** The time of the last byte is that of a poll since which bytes have been buffered all along. */
  ghost predicate LastSeen(d: Rule, link: Input, times: seq<nat>, timeout: nat, n: nat, rx: Rx, j: nat)
    requires n <= |times|
  {
    (rx.buf == [] ==> rx.last == 0) &&
    (rx.last == 0 || (j < n && times[j] == rx.last && LeavesBytes(d, link, times, timeout, j, n)))
  }

  lemma {:induction false} PromptUpTo(d: Rule, link: Input, times: seq<nat>, timeout: nat, n: nat) returns (j: nat)
    requires Prompt(d, link, times, timeout) && n <= |times|
    ensures var run := Polls(d, Rx([], 0), link, times[..n], timeout);
            NothingDiscarded(run.log) && LastSeen(d, link, times, timeout, n, run.rx, j)
    decreases n
  {
    j := 0;
    if n > 0 {
      j := PromptUpTo(d, link, times, timeout, n - 1);
      var before := Polls(d, Rx([], 0), link, times[..n - 1], timeout);
      var p := Poll(d, before.rx, before.link, times[n - 1], timeout);
      OnePollMore(d, link, times, timeout, n);
      PollInTime(d, before.rx, before.link, times[n - 1], timeout);
      BothDiscardNothing(before.log, p.log);
      j := SeenOneMore(d, link, times, timeout, n, before.rx, p.rx, j);
    }
  }

  lemma OnePollMore(d: Rule, link: Input, times: seq<nat>, timeout: nat, n: nat)
    requires 0 < n <= |times|
    ensures var before := Polls(d, Rx([], 0), link, times[..n - 1], timeout);
            var p := Poll(d, before.rx, before.link, times[n - 1], timeout);
            Polls(d, Rx([], 0), link, times[..n], timeout) ==
            Run(p.rx, p.link, before.log + p.log, before.failed || p.failed)
  {
    assert times[..n][..n - 1] == times[..n - 1];
  }

  lemma SeenOneMore(d: Rule, link: Input, times: seq<nat>, timeout: nat, n: nat, rx: Rx, rx': Rx, j: nat)
    returns (j': nat)
    requires 0 < n <= |times| && LastSeen(d, link, times, timeout, n - 1, rx, j)
    requires rx' == Polls(d, Rx([], 0), link, times[..n], timeout).rx
    requires rx'.last in {0, times[n - 1], rx.last} && (rx'.buf == [] ==> rx'.last == 0)
    ensures LastSeen(d, link, times, timeout, n, rx', j')
  {
    j' := if rx'.last == rx.last then j else n - 1;
    assert BufferedAfter(d, link, times, timeout, n - 1) == rx'.buf;
  }

  /** A poll in which the timeout does not fire keeps the time of the last byte, sets or clears it. */
  lemma PollInTime(d: Rule, rx: Rx, link: Input, now: nat, timeout: nat)
    requires !TimeoutFires(rx, now, timeout) && (rx.buf == [] ==> rx.last == 0)
    ensures var p := Poll(d, rx, link, now, timeout);
            NothingDiscarded(p.log) && p.rx.last in {0, now, rx.last} && (p.rx.buf == [] ==> p.rx.last == 0)
  {
    ScanOneDiscardsNothing(d, Fill(rx.buf, link).buf);
    FillReads(rx.buf, link);
  }

  lemma BothDiscardNothing(a: seq<Event>, b: seq<Event>)
    requires NothingDiscarded(a) && NothingDiscarded(b)
    ensures NothingDiscarded(a + b)
  {
  }

  /**
   * The timeout is meant for a frame still being assembled (its log message says so), but a
   * complete frame queued behind an earlier one is discarded too: the next poll of a quiet
   * line extracts it if and only if the timeout does not fire there.
   */
  lemma QueuedFrameFate(rx: Rx, link: Input, now: nat, timeout: nat)
    requires Decide(rx.buf).Accept? && |rx.buf| <= BUFFER_SIZE && link.Working() && link.incoming == []
    ensures var p := Poll(Decide, rx, link, now, timeout);
            if TimeoutFires(rx, now, timeout) then p.log == [Discarded(rx.buf)] && p.rx.buf == []
            else p.log == [Frame(rx.buf[..Decide(rx.buf).len])]
  {
    DecisionStable(rx.buf, []);
    assert rx.buf + [] == rx.buf;
    FillOfNothing(Kept(rx, now, timeout).buf, link);
  }

  lemma {:induction false} FillOfClean(buf: seq<byte>, link: Input)
    requires link.Clean() && |buf| + |link.incoming| <= BUFFER_SIZE
    ensures var f := Fill(buf, link);
            f.buf == buf + link.incoming && !f.failed && f.link.Clean() && f.link.incoming == []
    decreases link.Size()
  {
    if |buf| < BUFFER_SIZE {
      var (r, link') := Read(link, BUFFER_SIZE - |buf|);
      ReadOfClean(link, BUFFER_SIZE - |buf|);
      if r.Data? {
        Associative(buf, r.bytes, link'.incoming);
        FillOfClean(buf + r.bytes, link');
      } else if r.event.Interrupted? {
        FillOfClean(buf, link');
      }
    }
  }

  /** Two complete frames arrive together: the first poll reads both and takes one. */
  lemma FirstOfTwo(d: Rule, a: seq<byte>, b: seq<byte>, link: Input, now: nat, timeout: nat)
    requires a != [] && b != [] && d(a) == d(a + b) == Accept(|a|) && |a| + |b| <= BUFFER_SIZE
    requires link.Clean() && link.incoming == a + b
    ensures var p := Poll(d, Rx([], 0), link, now, timeout);
            p.log == [Frame(a)] && p.rx == Rx(b, now) && p.link.Working() && p.link.incoming == []
  {
    FillOfClean([], link);
    assert [] + link.incoming == a + b;
    ScanOneOfTwo(d, a, b);
    assert [] + [Frame(a)] == [Frame(a)];
  }

  lemma WholeFrame(a: seq<byte>, b: seq<byte>)
    requires Decide(a) == Accept(|a|)
    ensures a != [] && Decide(a + b) == Accept(|a|)
  {
    DecisionStable(a, b);
  }

  lemma ScanOneOfTwo(d: Rule, a: seq<byte>, b: seq<byte>)
    requires a != [] && d(a) == d(a + b) == Accept(|a|)
    ensures ScanOne(d, a + b) == Scanned([Frame(a)], b)
  {
    assert (a + b)[..|a|] == a && (a + b)[|a|..] == b;
  }

  /**
   * So of any two frames that arrive together on a clean line, the server serves the second if
   * and only if its next poll comes within the timeout; otherwise it throws the frame away.
   */
  lemma QueuedFrameLost(a: seq<byte>, b: seq<byte>, link: Input, t1: nat, t2: nat, timeout: nat)
    requires Decide(a) == Accept(|a|) && Decide(b) == Accept(|b|) && |a| + |b| <= BUFFER_SIZE
    requires link.Clean() && link.incoming == a + b && t1 > 0
    ensures Polls(Decide, Rx([], 0), link, [t1, t2], timeout).log ==
            [Frame(a), if t2 > t1 + timeout then Discarded(b) else Frame(b)]
  {
    var p := Poll(Decide, Rx([], 0), link, t1, timeout);
    WholeFrame(a, b);
    WholeFrame(b, []);
    FirstOfTwo(Decide, a, b, link, t1, timeout);
    SecondOfTwo(b, p.link, t1, t2, timeout);
    TwoPolls(Decide, link, t1, t2, timeout);
  }

  lemma SecondOfTwo(b: seq<byte>, link: Input, t1: nat, t2: nat, timeout: nat)
    requires Decide(b) == Accept(|b|) && b != [] && |b| <= BUFFER_SIZE
    requires link.Working() && link.incoming == [] && t1 > 0
    ensures Poll(Decide, Rx(b, t1), link, t2, timeout).log == [if t2 > t1 + timeout then Discarded(b) else Frame(b)]
  {
    QueuedFrameFate(Rx(b, t1), link, t2, timeout);
    assert b[..|b|] == b;
  }

  lemma TwoPolls(d: Rule, link: Input, t1: nat, t2: nat, timeout: nat)
    ensures var p := Poll(d, Rx([], 0), link, t1, timeout);
            Polls(d, Rx([], 0), link, [t1, t2], timeout).log == p.log + Poll(d, p.rx, p.link, t2, timeout).log
  {
    assert [t1, t2][..1] == [t1] && [t1][..0] == [];
    var p := Poll(d, Rx([], 0), link, t1, timeout);
    assert Polls(d, Rx([], 0), link, [t1], timeout) == Run(p.rx, p.link, [] + p.log, p.failed);
    assert [] + p.log == p.log;
  }
}
