/**
 * What the RTU server takes for a request, in terms of the bytes alone: every frame that a run
 * extracts is a request with a valid checksum, every byte that it drops has no such request
 * behind it, and it waits only for bytes that can still complete one.
 */
module RtuFrameSpec {
  import opened Bytes
  import opened Transport
  import opened StreamScan
  import opened RtuFramer
  import Crc

  /** A request as long as its function code, or its byte count, says. */
  predicate Shape(adu: seq<byte>) {
    8 <= |adu| <= 256 &&
    if adu[1] == 15 || adu[1] == 16 then adu[6] != 0 && |adu| == 9 + adu[6] as nat else |adu| == 8
  }

  /** The last two bytes are the checksum of the others, low byte first. */
  predicate ChecksumFits(adu: seq<byte>) {
    |adu| >= 2 &&
    var n := |adu| - 2;
    var lo: nat, hi: nat := adu[n], adu[n + 1];
    Crc.CrcOf(adu[..n]) == 256 * hi + lo
  }

  predicate RequestFrame(adu: seq<byte>) { Shape(adu) && ChecksumFits(adu) }

  ghost predicate NoFrameAt(s: seq<byte>) { forall n | 0 <= n <= |s| :: !RequestFrame(s[..n]) }

  /** More bytes can complete a request within the buffer. */
  ghost predicate CanBecome(s: seq<byte>) { exists t: seq<byte> :: t != [] && Shape(s + t) }

  // ---- One candidate ----

  lemma AcceptsRequests(s: seq<byte>, n: nat)
    requires n <= |s|
    ensures Decide(s) == Accept(n) <==> RequestFrame(s[..n])
  {
    if n >= 2 {
      assert s[..n][..n - 2] == s[..n - 2];
    }
  }

  lemma WaitingCanBecome(s: seq<byte>)
    requires Decide(s).NeedMore?
    ensures CanBecome(s)
  {
    var zeros := (n: nat) => seq(n, _ => 0);
    var t: seq<byte>;
    if |s| >= 2 && (s[1] == 15 || s[1] == 16) {
      t := if |s| <= 6 then zeros(6 - |s|) + [1] + zeros(3) else zeros(s[6] as nat + 9 - |s|);
    } else {
      t := zeros(8 - |s|);
    }
    assert t != [] && Shape(s + t);
  }

  lemma BecomingWaits(s: seq<byte>, t: seq<byte>)
    requires t != [] && Shape(s + t)
    ensures Decide(s).NeedMore?
  {
    assert |s| >= 2 ==> (s + t)[1] == s[1];
    assert |s| > 6 ==> (s + t)[6] == s[6];
  }

  /**
   * The three verdicts on the bytes at the front, for all bytes: a frame exactly if a request
   * stands there, waiting exactly if more bytes can make one, and a drop exactly otherwise.
   */
  lemma DecideExactly(s: seq<byte>)
    ensures Decide(s).Accept? <==> !NoFrameAt(s)
    ensures Decide(s).Accept? ==> Decide(s).len <= |s| && RequestFrame(s[..Decide(s).len])
    ensures Decide(s).NeedMore? <==> CanBecome(s)
  {
    if Decide(s).Accept? {
      DecisionStable(s, []);
      AcceptsRequests(s, Decide(s).len);
    }
    forall n | 0 <= n <= |s| && RequestFrame(s[..n]) ensures Decide(s).Accept? {
      AcceptsRequests(s, n);
    }
    if Decide(s).NeedMore? {
      WaitingCanBecome(s);
    } else if CanBecome(s) {
      var t: seq<byte> :| t != [] && Shape(s + t);
      BecomingWaits(s, t);
    }
  }

  // ---- Runs ----

  /** A log of events fits the stream that they were read from, from its front on. */
  ghost predicate Explains(log: seq<Event>, stream: seq<byte>)
    decreases |log|
  {
    log == [] ||
    (EventBytes(log[0]) <= stream &&
     (log[0].Dropped? ==> NoFrameAt(stream)) &&
     (log[0].Frame? ==> RequestFrame(log[0].adu)) &&
     Explains(log[1..], stream[|EventBytes(log[0])|..]))
  }

  lemma ExplainsCons(e: Event, log: seq<Event>, rest: seq<byte>)
    requires e.Dropped? ==> NoFrameAt(EventBytes(e) + rest)
    requires (e.Frame? ==> RequestFrame(e.adu)) && Explains(log, rest)
    ensures Explains([e] + log, EventBytes(e) + rest)
  {
    assert ([e] + log)[1..] == log && (EventBytes(e) + rest)[|EventBytes(e)|..] == rest;
  }

  lemma {:induction false} ExplainsConcat(a: seq<Event>, b: seq<Event>, rest: seq<byte>)
    requires Explains(a, LogBytes(a) + rest) && Explains(b, rest)
    ensures Explains(a + b, LogBytes(a) + rest)
    decreases |a|
  {
    if a == [] {
      assert a + b == b && LogBytes(a) + rest == rest;
    } else {
      var first, later := EventBytes(a[0]), LogBytes(a[1..]) + rest;
      Associative(first, LogBytes(a[1..]), rest);
      assert (first + later)[|first|..] == later;
      ExplainsConcat(a[1..], b, rest);
      ExplainsCons(a[0], a[1..] + b, later);
      Associative([a[0]], a[1..], b);
      assert [a[0]] + a[1..] == a;
    }
  }

  lemma {:induction false} ScanOneExplains(s: seq<byte>, more: seq<byte>)
    ensures Explains(ScanOne(Decide, s).events, s + more)
    decreases |s|
  {
    if Decided(Decide, s) {
      DecisionStable(s, more);
      DecideExactly(s);
      DecideExactly(s + more);
      if Decide(s).Accept? {
        AcceptedExplains(s, more);
      } else {
        ScanOneExplains(s[1..], more);
        DroppedExplains(s, more);
      }
    }
  }

  lemma AcceptedExplains(s: seq<byte>, more: seq<byte>)
    requires Decide(s).Accept? && Decide(s).len <= |s| && RequestFrame(s[..Decide(s).len])
    ensures Explains(ScanOne(Decide, s).events, s + more)
  {
    var adu := s[..Decide(s).len];
    assert adu <= s + more;
    assert ScanOne(Decide, s).events == [Frame(adu)];
  }

  lemma FirstApart(s: seq<byte>, more: seq<byte>)
    requires s != []
    ensures s + more == EventBytes(Dropped(s[0])) + (s[1..] + more)
  {
  }

  lemma DropEvents(d: Rule, s: seq<byte>)
    requires Decided(d, s) && d(s).Reject?
    ensures ScanOne(d, s).events == [Dropped(s[0])] + ScanOne(d, s[1..]).events
  {
  }

  lemma DroppedExplains(s: seq<byte>, more: seq<byte>)
    requires Decided(Decide, s) && Decide(s).Reject? && NoFrameAt(s + more)
    requires Explains(ScanOne(Decide, s[1..]).events, s[1..] + more)
    ensures Explains(ScanOne(Decide, s).events, s + more)
  {
    FirstApart(s, more);
    DropEvents(Decide, s);
    ExplainsCons(Dropped(s[0]), ScanOne(Decide, s[1..]).events, s[1..] + more);
  }

  lemma PollExplains(rx: Rx, link: Input, now: nat, timeout: nat)
    ensures Explains(Poll(Decide, rx, link, now, timeout).log, rx.buf + link.incoming)
  {
    var kept, timed := Kept(rx, now, timeout), Timed(rx, now, timeout);
    var filled := Fill(kept.buf, link);
    FillReads(kept.buf, link);
    TimedExplains(rx, link.incoming, now, timeout);
    if !filled.failed {
      ScanOneExplains(filled.buf, filled.link.incoming);
      ExplainsConcat(timed, ScanOne(Decide, filled.buf).events, kept.buf + link.incoming);
    }
  }

  lemma TimedExplains(rx: Rx, incoming: seq<byte>, now: nat, timeout: nat)
    ensures var kept, timed := Kept(rx, now, timeout), Timed(rx, now, timeout);
            LogBytes(timed) + (kept.buf + incoming) == rx.buf + incoming && Explains(timed, rx.buf + incoming)
  {
    if TimeoutFires(rx, now, timeout) {
      LogCons(Discarded(rx.buf), []);
      assert [Discarded(rx.buf)] + [] == [Discarded(rx.buf)];
      assert [] + incoming == incoming;
    }
  }

  /**
   * Over every run of polls, whatever the reads, errors and timeouts, the log is that of the
   * stream: every frame in it is a request with a valid checksum, and no request starts at a
   * byte that was dropped, whatever came after it.
   */
  lemma {:induction false} RunExplains(link: Input, times: seq<nat>, timeout: nat)
    ensures Explains(Polls(Decide, Rx([], 0), link, times, timeout).log, link.incoming)
    decreases |times|
  {
    if times != [] {
      var n := |times| - 1;
      var before := Polls(Decide, Rx([], 0), link, times[..n], timeout);
      RunExplains(link, times[..n], timeout);
      RunConserves(Decide, link, times[..n], timeout);
      PollExplains(before.rx, before.link, times[n], timeout);
      ExplainsConcat(before.log, Poll(Decide, before.rx, before.link, times[n], timeout).log,
                     before.rx.buf + before.link.incoming);
    }
  }

  lemma {:induction false} ExplainedFrames(log: seq<Event>, stream: seq<byte>)
    requires Explains(log, stream)
    ensures forall adu | adu in Frames(log) :: RequestFrame(adu)
    decreases |log|
  {
    if log != [] {
      ExplainedFrames(log[1..], stream[|EventBytes(log[0])|..]);
    }
  }

  lemma PollFramesAreRequests(rx: Rx, link: Input, now: nat, timeout: nat)
    ensures forall adu | adu in Frames(Poll(Decide, rx, link, now, timeout).log) :: RequestFrame(adu)
  {
    PollExplains(rx, link, now, timeout);
    ExplainedFrames(Poll(Decide, rx, link, now, timeout).log, rx.buf + link.incoming);
  }

  /** So every frame that any run extracts is a request with a valid checksum. */
  lemma RunFramesAreRequests(link: Input, times: seq<nat>, timeout: nat)
    ensures forall adu | adu in Frames(Polls(Decide, Rx([], 0), link, times, timeout).log) :: RequestFrame(adu)
  {
    RunExplains(link, times, timeout);
    ExplainedFrames(Polls(Decide, Rx([], 0), link, times, timeout).log, link.incoming);
  }

  /** A poll that finds no frame waits only for what can become one. */
  lemma PollWaits(rx: Rx, link: Input, now: nat, timeout: nat)
    ensures var p := Poll(Decide, rx, link, now, timeout);
            !p.failed && Frames(p.log) == [] ==> CanBecome(p.rx.buf)
  {
    var p := Poll(Decide, rx, link, now, timeout);
    var timed, s := Timed(rx, now, timeout), Fill(Kept(rx, now, timeout).buf, link).buf;
    FramesConcat(timed, ScanOne(Decide, s).events);
    ScanOneWithoutFrame(Decide, s);
    if !p.failed && Frames(p.log) == [] {
      DecideExactly(p.rx.buf);
    }
  }

  // ---- A request that comes in parts ----

  /**
   * A first part that can still become a request waits for the poll that brings more: within the
   * timeout the two parts are put together, after it the first is thrown away.
   */
  lemma PartialFrameFate(part: seq<byte>, more: seq<byte>, first: Input, second: Input, t1: nat, t2: nat, timeout: nat)
    requires CanBecome(part) && part != [] && |part| + |more| <= 256 && t1 > 0
    requires first.Clean() && first.incoming == part && second.Clean() && second.incoming == more
    ensures var p := Poll(Decide, Rx([], 0), first, t1, timeout);
            var q := Poll(Decide, p.rx, second, t2, timeout);
            var late := t2 > t1 + timeout;
            var s := if late then more else part + more;
            p.rx == Rx(part, t1) && p.log == [] &&
            q.log == (if late then [Discarded(part)] else []) + ScanOne(Decide, s).events &&
            q.rx.buf == ScanOne(Decide, s).rest &&
            (more != [] && q.rx.buf != [] ==> q.rx.last == t2)
  {
    DecideExactly(part);
    FillOfClean([], first);
    assert [] + part == part;
    assert ScanOne(Decide, part) == Scanned([], part);
    var kept := if t2 > t1 + timeout then [] else part;
    FillOfClean(kept, second);
    assert [] + more == more;
  }
}
