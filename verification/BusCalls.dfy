/**
 * What each call of the RTU client does when nothing else goes on: the runs of one thread from
 * its call to its return, and two contexts that come to share a device.
 */
module BusCalls {
  import opened Bytes
  import opened BusSilence
  import opened BusRegistry
  import opened BusProtocol
  import opened BusSafety
  import opened BusObligation

  /** Nobody is in a call, and all locks that exist are free. */
  ghost predicate Calm(s: State) {
    (forall t | 0 <= t < |s.pcs| :: s.pcs[t].Idle?) && s.regLock.Free? &&
    (forall c | 0 <= c < |s.ctxs| :: !s.ctxs[c].lock.Held?) &&
    forall b | b in s.reg.recs :: s.reg.recs[b].mutex.Free?
  }

  /** The context is connected to the record. */
  predicate ConnectedTo(s: State, c: nat, b: nat) {
    c < |s.ctxs| && s.ctxs[c].initialized && s.ctxs[c].lock.Free? && s.ctxs[c].bus == Some(b) && b in s.reg.recs
  }

  lemma CallBegins(s: State, t: nat, c: nat, op: Op) returns (moves: seq<Move>)
    requires Calm(s) && t < |s.pcs| && c < |s.ctxs|
    ensures LegalRun(s, moves) && Final(s, moves) == s.(pcs := s.pcs[t := At(c, Entered(op))])
  {
    OneMove(s, t, Enter(c, op));
    moves := [Move(t, Enter(c, op))];
  }

  // ---- Timing, in numbers ----

  /** The silence of 3.5 characters, rounded up to whole microseconds; 1750 above 19200 baud. */
  lemma CharacterSilence(s: Settings)
    requires s.baudRate > 0
    ensures if s.baudRate > 19200 then T35Us(s) == 1750
            else
              var bits := 1 + s.dataBits as nat + s.stopBits as nat + if s.parity == 0 then 0 else 1;
              (T35Us(s) - 1) * s.baudRate < 3_500_000 * bits <= T35Us(s) * s.baudRate
  {
    if s.baudRate <= 19200 {
      var bits := 1 + s.dataBits as nat + s.stopBits as nat + if s.parity == 0 then 0 else 1;
      RoundedUp(3_500_000 * bits, s.baudRate);
    }
  }

  lemma RoundedUp(n: nat, d: nat)
    requires d > 0
    ensures var q := (n + d - 1) / d; (q - 1) * d < n <= q * d
  {
    var q, r := (n + d - 1) / d, (n + d - 1) % d;
    assert n + d - 1 == q * d + r;
  }

  /** A configured time: 0 stands for the default, the largest value for none. */
  function Configured(value: nat, byDefault: nat): nat {
    if value == 0 then byDefault else if value == 4_294_967_295 then 0 else value
  }

  /** The silence that a configuration asks for, after a transaction with the same or another unit. */
  lemma ConfiguredSilence(cfg: ClientConfig, bus: Bus)
    ensures bus.last.None? ==> SilenceUs(cfg, bus) == 0
    ensures bus.last.Some? ==>
              var interFrame, handoff := Configured(cfg.interFrameDelay, T35Us(bus.settings)),
                                         1000 * Configured(cfg.handoffSilence, 30);
              SilenceUs(cfg, bus) ==
              if bus.last.value.unit != cfg.unit && handoff > interFrame then handoff else interFrame
  {
  }

  // ---- set_unit_id ----

  /** It changes the unit id of its context, and nothing else. */
  lemma SetUnitCall(s: State, t: nat, c: nat, b: nat, unit: byte) returns (moves: seq<Move>)
    requires Calm(s) && t < |s.pcs| && ConnectedTo(s, c, b)
    ensures LegalRun(s, moves)
    ensures Final(s, moves) == s.(ctxs := s.ctxs[c := s.ctxs[c].(cfg := s.ctxs[c].cfg.(unit := unit))])
  {
    moves := CallBegins(s, t, c, SetUnit(unit));
    moves := JoinMoves(s, moves, t, Go(Test));
    moves := JoinMoves(s, moves, t, Go(LockCtx));
    moves := JoinMoves(s, moves, t, Go(ChangeUnit));
    moves := JoinMoves(s, moves, t, Go(UnlockCtx));
    var s' := Final(s, moves);
    assert s'.pcs == s.pcs;
    assert s'.ctxs == s.ctxs[c := s.ctxs[c].(cfg := s.ctxs[c].cfg.(unit := unit))];
  }

  // ---- Requests ----

  /** A broadcast of a read is refused, and leaves everything as it was. */
  lemma RefusedCall(s: State, t: nat, c: nat, b: nat) returns (moves: seq<Move>)
    requires Calm(s) && t < |s.pcs| && ConnectedTo(s, c, b) && s.ctxs[c].cfg.unit == 0
    ensures LegalRun(s, moves) && Final(s, moves) == s
  {
    moves := CallBegins(s, t, c, Request(false));
    moves := JoinMoves(s, moves, t, Go(Test));
    moves := JoinMoves(s, moves, t, Go(LockCtx));
    moves := JoinMoves(s, moves, t, Go(RefuseBroadcast));
    moves := JoinMoves(s, moves, t, Go(UnlockCtx));
    assert Final(s, moves).pcs == s.pcs && Final(s, moves).ctxs == s.ctxs;
  }

  /**
   * Any other request waits out the silence that its configuration asks for, sends, and notes the
   * unit id and the time of its end on the record.
   */
  lemma RequestCall(s: State, t: nat, c: nat, b: nat, isWrite: bool) returns (moves: seq<Move>)
    requires Calm(s) && t < |s.pcs| && ConnectedTo(s, c, b) && (s.ctxs[c].cfg.unit != 0 || isWrite)
    ensures LegalRun(s, moves)
    ensures var x, bus := s.ctxs[c], s.reg.recs[b];
            var end := SilentUntil(x.cfg, bus, s.clock);
            Final(s, moves) == s.(reg := Updated(s.reg, b, bus.(last := Some(Release(x.cfg.unit, end)))), clock := end)
  {
    moves := RequestBegins(s, t, c, b, isWrite);
    var waiting := Final(s, moves);
    var rest := RequestEnds(waiting, t, c, b);
    JoinRuns(s, moves, rest);
    moves := moves + rest;
    var s' := Final(s, moves);
    assert s'.pcs == s.pcs && s'.ctxs == s.ctxs;
  }

  lemma RequestBegins(s: State, t: nat, c: nat, b: nat, isWrite: bool) returns (moves: seq<Move>)
    requires Calm(s) && t < |s.pcs| && ConnectedTo(s, c, b) && (s.ctxs[c].cfg.unit != 0 || isWrite)
    ensures LegalRun(s, moves)
    ensures var x, bus := s.ctxs[c], s.reg.recs[b];
            var p := Silent(b, x.cfg.unit, SilenceUs(x.cfg, bus), SilentUntil(x.cfg, bus, s.clock));
            Final(s, moves) == s.(pcs := s.pcs[t := At(c, p)], ctxs := s.ctxs[c := x.(lock := Held(t))],
                                  reg := Updated(s.reg, b, bus.(mutex := Held(t))))
  {
    moves := CallBegins(s, t, c, Request(isWrite));
    moves := JoinMoves(s, moves, t, Go(Test));
    moves := JoinMoves(s, moves, t, Go(LockCtx));
    moves := JoinMoves(s, moves, t, Go(LockBus));
    moves := JoinMoves(s, moves, t, Go(ReadClock));
  }

  lemma RequestEnds(s: State, t: nat, c: nat, b: nat) returns (moves: seq<Move>)
    requires StandsAt(s, t) && s.pcs[t].c == c && s.pcs[t].p.Silent? && s.pcs[t].p.bus == b && b in s.reg.recs
    requires s.pcs[t].p.until >= s.clock
    ensures LegalRun(s, moves)
    ensures var x, bus, end := s.ctxs[c], s.reg.recs[b], s.pcs[t].p.until;
            Final(s, moves) == s.(pcs := s.pcs[t := Idle], ctxs := s.ctxs[c := x.(lock := Free)], clock := end,
                                  reg := Updated(s.reg, b, bus.(mutex := Free, last := Some(Release(x.cfg.unit, end)))))
  {
    OneMove(s, t, Tick(s.pcs[t].p.until - s.clock));
    moves := [Move(t, Tick(s.pcs[t].p.until - s.clock))];
    moves := JoinMoves(s, moves, t, Go(Send));
    moves := JoinMoves(s, moves, t, Go(End));
    moves := JoinMoves(s, moves, t, Go(UnlockCtx));
  }

  /** When that silence ends: at once, or less than a microsecond after it is over. */
  lemma SilenceEnds(cfg: ClientConfig, bus: Bus, now: nat)
    requires bus.last.Some? ==> bus.last.value.time <= now
    ensures var end := SilentUntil(cfg, bus, now);
            end >= now && (bus.last.None? ==> end == now) &&
            (bus.last.Some? && end > now ==> end - bus.last.value.time < 1000 * SilenceUs(cfg, bus) + 1000)
  {
    NoLongerThanNeeded(bus.last, cfg.unit, InterFrameUs(cfg, bus), HandoffMs(cfg), now);
  }

  /** No read is broadcast: a request that takes the bus asks for a unit, or writes. */
  lemma OnlyWritesAreBroadcast(s: State, t: nat)
    requires Enabled(s, t, Go(LockBus))
    ensures s.ctxs[s.pcs[t].c].cfg.unit == 0 ==> s.pcs[t].p.op == Request(true)
  {
  }

  // ---- connect and disconnect ----

  /** A connect takes what the registry gives it: connected to that record, or not at all. */
  lemma ConnectCall(s: State, t: nat, c: nat, cfg: ClientConfig, port: Option<int>) returns (moves: seq<Move>)
    requires Calm(s) && WellLinked(s.reg) && (port.Some? ==> port.value !in s.reg.openFds)
    requires t < |s.pcs| && c < |s.ctxs| && !s.ctxs[c].initialized
    ensures LegalRun(s, moves)
    ensures var (got, reg) := Attach(s.reg, cfg.key, cfg.settings, port);
            var x := if got.None? then Ctx(Gone, None, false, cfg, t) else Ctx(Free, got, true, cfg, t);
            Final(s, moves) == s.(ctxs := s.ctxs[c := x], reg := reg, att := AfterAttach(s.att, c, got, cfg))
  {
    moves := CallBegins(s, t, c, Connect(cfg));
    moves := JoinMoves(s, moves, t, Go(Test));
    moves := JoinMoves(s, moves, t, Go(LockRegistry));
    moves := JoinMoves(s, moves, t, Go(AttachBus(port)));
    moves := JoinMoves(s, moves, t, Go(Publish));
    assert Final(s, moves).pcs == s.pcs;
  }

  /** A disconnect gives the reference back, and leaves its context without a lock or a record. */
  lemma DisconnectCall(s: State, t: nat, c: nat, b: nat) returns (moves: seq<Move>)
    requires Calm(s) && t < |s.pcs| && ConnectedTo(s, c, b)
    ensures LegalRun(s, moves)
    ensures var x := s.ctxs[c].(lock := Gone, bus := None, initialized := false);
            Final(s, moves) == s.(ctxs := s.ctxs[c := x], reg := Detach(s.reg, b), att := s.att - {c})
  {
    moves := CallBegins(s, t, c, Disconnect);
    moves := JoinMoves(s, moves, t, Go(Test));
    moves := JoinMoves(s, moves, t, Go(LockCtx));
    moves := JoinMoves(s, moves, t, Go(LockRegistry));
    moves := JoinMoves(s, moves, t, Go(DetachBus));
    var rest := DisconnectEnds(Final(s, moves), t, c);
    JoinRuns(s, moves, rest);
    moves := moves + rest;
    assert Final(s, moves).pcs == s.pcs;
  }

  lemma DisconnectEnds(s: State, t: nat, c: nat) returns (moves: seq<Move>)
    requires StandsAt(s, t) && s.pcs[t] == At(c, Detached)
    ensures LegalRun(s, moves)
    ensures var x := s.ctxs[c].(lock := Gone, bus := None, initialized := false);
            Final(s, moves) == s.(pcs := s.pcs[t := Idle], ctxs := s.ctxs[c := x])
  {
    OneMove(s, t, Go(Clear));
    moves := JoinMoves(s, [Move(t, Go(Clear))], t, Go(UnlockLast));
    moves := JoinMoves(s, moves, t, Go(Destroy));
  }

  // ---- Sharing ----

  /** From every initial state two contexts can come to share one record and one open port. */
  lemma SharingReachable(s: State, t: nat, c: nat, d: nat, first: ClientConfig, second: ClientConfig, fd: int,
                         port: Option<int>)
    returns (moves: seq<Move>)
    requires Initial(s) && t < |s.pcs| && c < |s.ctxs| && d < |s.ctxs| && c != d && (port.Some? ==> port.value != fd)
    requires first.key == second.key && first.settings == second.settings
    ensures LegalRun(s, moves) && exists b: nat :: Share(Final(s, moves), c, d, b, fd)
  {
    moves := ConnectCall(s, t, c, first, Some(fd));
    var s1 := Final(s, moves);
    AttachExactly(s.reg, first.key, first.settings, Some(fd));
    var more := SecondConnects(s1, t, c, d, s1.ctxs[c].bus.value, first, second, fd, port);
    JoinRuns(s, moves, more);
    moves := moves + more;
  }

  /** Both contexts are connected to the only record, which counts them and has the only open port. */
  ghost predicate Share(s: State, c: nat, d: nat, b: nat, fd: int) {
    ConnectedTo(s, c, b) && ConnectedTo(s, d, b) && s.reg.recs.Keys == {b} && s.reg.recs[b].refcnt == 2 &&
    s.reg.openFds == {fd}
  }

  lemma SecondConnects(s: State, t: nat, c: nat, d: nat, b: nat, first: ClientConfig, second: ClientConfig, fd: int,
                       port: Option<int>)
    returns (moves: seq<Move>)
    requires Calm(s) && WellLinked(s.reg) && Distinct(s.reg) && ConnectedTo(s, c, b) && t < |s.pcs|
    requires s.reg.recs.Keys == {b} && s.reg.openFds == {fd} && s.reg.recs[b].refcnt == 1
    requires s.reg.recs[b].key == first.key == second.key && Matches(s.reg.recs[b].settings, second.settings)
    requires c != d && d < |s.ctxs| && !s.ctxs[d].initialized && (port.Some? ==> port.value != fd)
    ensures LegalRun(s, moves) && Share(Final(s, moves), c, d, b, fd)
  {
    AttachExactly(s.reg, second.key, second.settings, port);
    moves := ConnectCall(s, t, d, second, port);
  }
}
