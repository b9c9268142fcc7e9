/**
 * Finding frames in an unbounded byte stream, for any rule d that looks at the bytes so far
 * and says: more are needed, the candidate at the front is rejected, or it is a frame.
 */
module StreamScan {
  import opened Bytes

  datatype Verdict = NeedMore | Reject | Accept(len: nat)

  type Rule = seq<byte> -> Verdict

  datatype Event = Dropped(b: byte) | Frame(adu: seq<byte>) | Discarded(bytes: seq<byte>)

  predicate Decided(d: Rule, s: seq<byte>) { s != [] && !d(s).NeedMore? }

  /** How many bytes the decided candidate at the front takes: a whole frame, or one byte. */
  function Take(d: Rule, s: seq<byte>): (n: nat)
    requires s != []
    ensures 1 <= n <= |s|
  {
    if d(s).Accept? && 1 <= d(s).len <= |s| then d(s).len else 1
  }

  function FirstEvent(d: Rule, s: seq<byte>): Event
    requires s != []
  {
    if d(s).Accept? then Frame(s[..Take(d, s)]) else Dropped(s[0])
  }

  /** The events found in s, in order, and the undecided bytes left over. */
  datatype Scanned = Scanned(events: seq<Event>, rest: seq<byte>)

  /** The simple reading of a whole stream. */
  function Scan(d: Rule, s: seq<byte>): Scanned
    decreases |s|
  {
    if !Decided(d, s) then Scanned([], s)
    else
      var more := Scan(d, s[Take(d, s)..]);
      Scanned([FirstEvent(d, s)] + more.events, more.rest)
  }

  /** The same, stopping after the first frame: what one poll does. */
  function ScanOne(d: Rule, s: seq<byte>): Scanned
    decreases |s|
  {
    if !Decided(d, s) then Scanned([], s)
    else if d(s).Accept? then Scanned([FirstEvent(d, s)], s[Take(d, s)..])
    else
      var more := ScanOne(d, s[1..]);
      Scanned([FirstEvent(d, s)] + more.events, more.rest)
  }

  function EventBytes(e: Event): seq<byte> {
    match e
    case Dropped(b) => [b]
    case Frame(adu) => adu
    case Discarded(bytes) => bytes
  }

  /** The bytes that a log of events accounts for. */
  function LogBytes(log: seq<Event>): seq<byte> {
    if log == [] then [] else EventBytes(log[0]) + LogBytes(log[1..])
  }

  function EventFrames(e: Event): seq<seq<byte>> { if e.Frame? then [e.adu] else [] }

  /** The frames in a log. */
  function Frames(log: seq<Event>): seq<seq<byte>> {
    if log == [] then [] else EventFrames(log[0]) + Frames(log[1..])
  }

  /** Once decided, a candidate stays decided, the same way, under any extension. */
  ghost predicate Stable(d: Rule) {
    forall s: seq<byte>, t: seq<byte> :: Decided(d, s) ==> d(s + t) == d(s) && (d(s).Accept? ==> 1 <= d(s).len <= |s|)
  }

  // ---- Logs ----

  lemma {:induction false} LogBytesConcat(a: seq<Event>, b: seq<Event>)
    ensures LogBytes(a + b) == LogBytes(a) + LogBytes(b)
  {
    if a == [] {
      assert a + b == b;
    } else {
      LogBytesConcat(a[1..], b);
      assert (a + b)[1..] == a[1..] + b && (a + b)[0] == a[0];
      Associative(EventBytes(a[0]), LogBytes(a[1..]), LogBytes(b));
    }
  }

  lemma {:induction false} FramesConcat(a: seq<Event>, b: seq<Event>)
    ensures Frames(a + b) == Frames(a) + Frames(b)
  {
    if a == [] {
      assert a + b == b;
    } else {
      FramesConcat(a[1..], b);
      assert (a + b)[1..] == a[1..] + b && (a + b)[0] == a[0];
      Associative(EventFrames(a[0]), Frames(a[1..]), Frames(b));
    }
  }

  lemma LogCons(e: Event, log: seq<Event>)
    ensures LogBytes([e] + log) == EventBytes(e) + LogBytes(log)
    ensures Frames([e] + log) == EventFrames(e) + Frames(log)
  {
    assert ([e] + log)[1..] == log;
  }

  lemma FirstEventBytes(d: Rule, s: seq<byte>)
    requires Decided(d, s)
    ensures d(s).Accept? || Take(d, s) == 1
    ensures EventBytes(FirstEvent(d, s)) == s[..Take(d, s)]
  {
  }

  // ---- Scanning ----

  /** Every byte is dropped, in a frame, or left over, in order. */
  lemma {:induction false} ScanConserves(d: Rule, s: seq<byte>)
    ensures LogBytes(Scan(d, s).events) + Scan(d, s).rest == s
    decreases |s|
  {
    if Decided(d, s) {
      var t := s[Take(d, s)..];
      ScanConserves(d, t);
      LogCons(FirstEvent(d, s), Scan(d, t).events);
      FirstEventBytes(d, s);
      Associative(s[..Take(d, s)], LogBytes(Scan(d, t).events), Scan(d, t).rest);
    }
  }

  lemma {:induction false} ScanOneConserves(d: Rule, s: seq<byte>)
    ensures LogBytes(ScanOne(d, s).events) + ScanOne(d, s).rest == s
    decreases |s|
  {
    if Decided(d, s) {
      FirstEventBytes(d, s);
      if d(s).Accept? {
        LogCons(FirstEvent(d, s), []);
        assert [FirstEvent(d, s)] + [] == [FirstEvent(d, s)];
      } else {
        var t := s[1..];
        ScanOneConserves(d, t);
        LogCons(FirstEvent(d, s), ScanOne(d, t).events);
        Associative(s[..1], LogBytes(ScanOne(d, t).events), ScanOne(d, t).rest);
      }
    }
  }

  /** What a scan leaves is undecided. */
  lemma {:induction false} ScanLeavesUndecided(d: Rule, s: seq<byte>)
    ensures !Decided(d, Scan(d, s).rest)
    decreases |s|
  {
    if Decided(d, s) {
      ScanLeavesUndecided(d, s[Take(d, s)..]);
    }
  }

  lemma FirstEventStable(d: Rule, s: seq<byte>, t: seq<byte>)
    requires Stable(d) && Decided(d, s)
    ensures Decided(d, s + t) && Take(d, s + t) == Take(d, s) && FirstEvent(d, s + t) == FirstEvent(d, s)
    ensures (s + t)[Take(d, s)..] == s[Take(d, s)..] + t
  {
    assert d(s + t) == d(s);
  }

  /** Scanning is incremental: scan a part, then scan what it left with the rest appended. */
  lemma {:induction false} ScanExtends(d: Rule, s: seq<byte>, t: seq<byte>)
    requires Stable(d)
    ensures var first := Scan(d, s);
            var second := Scan(d, first.rest + t);
            Scan(d, s + t) == Scanned(first.events + second.events, second.rest)
    decreases |s|
  {
    if Decided(d, s) {
      var u := s[Take(d, s)..];
      FirstEventStable(d, s, t);
      ScanExtends(d, u, t);
      Associative([FirstEvent(d, s)], Scan(d, u).events, Scan(d, Scan(d, u).rest + t).events);
    } else {
      assert Scan(d, s) == Scanned([], s);
    }
  }

  /** Taking one frame first and scanning on gives the same as scanning. */
  lemma {:induction false} ScanOneThenScan(d: Rule, s: seq<byte>)
    ensures var one := ScanOne(d, s);
            Scan(d, s) == Scanned(one.events + Scan(d, one.rest).events, Scan(d, one.rest).rest)
    decreases |s|
  {
    if Decided(d, s) && !d(s).Accept? {
      var t := s[1..];
      ScanOneThenScan(d, t);
      Associative([FirstEvent(d, s)], ScanOne(d, t).events, Scan(d, ScanOne(d, t).rest).events);
    }
  }

  /** A poll that finds no frame leaves an undecided candidate. */
  lemma {:induction false} ScanOneWithoutFrame(d: Rule, s: seq<byte>)
    ensures Frames(ScanOne(d, s).events) == [] ==> !Decided(d, ScanOne(d, s).rest)
    ensures |ScanOne(d, s).rest| < |s| || ScanOne(d, s) == Scanned([], s)
    decreases |s|
  {
    if Decided(d, s) {
      LogCons(FirstEvent(d, s), if d(s).Accept? then [] else ScanOne(d, s[1..]).events);
      if d(s).Accept? {
        assert [FirstEvent(d, s)] + [] == [FirstEvent(d, s)];
      } else {
        ScanOneWithoutFrame(d, s[1..]);
      }
    }
  }

  /** One poll takes at most one frame, and takes the first one there is. */
  lemma {:induction false} ScanOneTakesFirst(d: Rule, s: seq<byte>)
    ensures var all, one := Frames(Scan(d, s).events), ScanOne(d, s);
            Frames(one.events) == (if all == [] then [] else [all[0]]) &&
            Frames(Scan(d, one.rest).events) == (if all == [] then [] else all[1..])
    decreases |s|
  {
    if Decided(d, s) {
      var e, t := FirstEvent(d, s), s[Take(d, s)..];
      LogCons(e, Scan(d, t).events);
      if d(s).Accept? {
        LogCons(e, []);
        assert [e] + [] == [e];
      } else {
        ScanOneTakesFirst(d, t);
        LogCons(e, ScanOne(d, t).events);
      }
    }
  }
}
