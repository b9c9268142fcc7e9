/**
 * The obligation of a disconnect's caller, exactly.  The header asks that no thread starts a
 * request on the context during or after the disconnect.  That is not enough: a call that was
 * started before and has not got the context's lock yet can come after the disconnect and find
 * the lock destroyed.  It is enough, and needed, that no call on a connected context is on its
 * way to the lock when its disconnect is called.
 */
module BusObligation {
  import opened BusSilence
  import opened BusProtocol
  import opened BusSafety

  /** The context points to no bus record, or to one that has been freed. */
  predicate NoBus(s: State, x: Ctx) { x.bus.None? || x.bus.value !in s.reg.recs }

  /**
   * A thread waits for a destroyed mutex, or is about to lock or detach a bus record that is not
   * there, or is in a transaction on one.
   */
  predicate BadAt(s: State, t: nat) {
    StandsAt(s, t) &&
    var p, x := s.pcs[t].p, s.ctxs[s.pcs[t].c];
    (p.Await? && x.lock.Gone?) ||
    (((p.Hold? && (p.op.Request? || p.op.Disconnect?)) || p.Detaching?) && NoBus(s, x)) ||
    (p.InBus() && p.bus !in s.reg.recs)
  }

  ghost predicate Bad(s: State) { exists t: nat :: BadAt(s, t) }

  lemma InvIsNotBad(s: State)
    requires Inv(s)
    ensures !Bad(s)
  {
    forall t: nat | StandsAt(s, t) ensures !BadAt(s, t) {
      assert CtxOk(s, s.pcs[t].c) && BusThreadOk(s, t, s.pcs[t].p);
    }
  }

  lemma {:induction false} RunKeepsInvOnly(s: State, moves: seq<Move>)
    requires Inv(s) && LegalRun(s, moves)
    ensures Inv(Final(s, moves))
    decreases |moves|
  {
    if moves != [] {
      StepKeepsInv(s, moves[0].t, moves[0].a);
      RunKeepsInvOnly(Do(s, moves[0].t, moves[0].a), moves[1..]);
    }
  }

  /** If callers meet their obligations, no thread ever uses a mutex or bus record that is gone. */
  lemma NeverBad(s: State, moves: seq<Move>)
    requires Initial(s) && LegalRun(s, moves)
    ensures !Bad(Final(s, moves))
  {
    InitialInv(s);
    RunKeepsInv(s, moves);
    InvIsNotBad(Final(s, moves));
  }

  // ---- Putting runs together ----

  lemma OneMove(s: State, t: nat, a: Action)
    requires Enabled(s, t, a) && Allowed(s, a)
    ensures LegalRun(s, [Move(t, a)]) && Final(s, [Move(t, a)]) == Do(s, t, a)
  {
    assert LegalRun(Do(s, t, a), [Move(t, a)][1..]);
  }

  lemma {:induction false} JoinRuns(s: State, a: seq<Move>, b: seq<Move>)
    requires LegalRun(s, a) && LegalRun(Final(s, a), b)
    ensures LegalRun(s, a + b) && Final(s, a + b) == Final(Final(s, a), b)
    decreases |a|
  {
    if a == [] {
      assert a + b == b;
    } else {
      JoinRuns(Do(s, a[0].t, a[0].a), a[1..], b);
      assert (a + b)[0] == a[0] && (a + b)[1..] == a[1..] + b;
    }
  }

  // ---- Letting every call that has got its lock run to its end ----

  /** How many steps a thread takes at most until its call ends. */
  function Rank(pc: Pc): nat {
    if pc.Idle? then 0
    else match pc.p
      case Entered(_) => 8
      case Await(_) => 7
      case Hold(_) => 6
      case BusHeld(_, _) => 5
      case Silent(_, _, _, _) => 4
      case Talking(_, _) => 3
      case Leaving => 2
      case Detaching => 5
      case Detached => 4
      case Cleared => 3
      case Destroying => 2
      case Connecting(_) => 4
      case Attaching(_) => 3
      case Attached(_) => 2
  }

  function TotalRank(pcs: seq<Pc>): nat { if pcs == [] then 0 else Rank(pcs[0]) + TotalRank(pcs[1..]) }

  lemma {:induction false} RankOfUpdate(pcs: seq<Pc>, t: nat, pc: Pc)
    requires t < |pcs|
    ensures TotalRank(pcs[t := pc]) + Rank(pcs[t]) == TotalRank(pcs) + Rank(pc)
  {
    if t > 0 {
      assert pcs[t := pc][1..] == pcs[1..][t - 1 := pc];
      RankOfUpdate(pcs[1..], t - 1, pc);
    } else {
      assert pcs[t := pc][1..] == pcs[1..];
    }
  }

  /** A step inside a call changes its own thread's place only, to one nearer the end. */
  lemma StepDescends(s: State, t: nat, step: Step)
    requires Enabled(s, t, Go(step))
    ensures var pc := Do(s, t, Go(step)).pcs[t];
            Do(s, t, Go(step)).pcs == s.pcs[t := pc] && Rank(pc) < Rank(s.pcs[t])
  {
  }

  /** A step inside a call, taken after some time by a thread that is past its wait. */
  lemma TickAndGo(s: State, u: nat, ns: nat, step: Step) returns (moves: seq<Move>)
    requires Inv(s) && CanGoAfter(s, u, ns, step) && u < |s.pcs| && s.pcs[u].At? && !s.pcs[u].p.Pending()
    ensures LegalRun(s, moves) && Inv(Final(s, moves)) && OnlyInside(moves, s.pcs)
    ensures KeepsConnected(s, Final(s, moves))
    ensures var pcs := Final(s, moves).pcs;
            |pcs| == |s.pcs| && pcs == s.pcs[u := pcs[u]] && TotalRank(pcs) < TotalRank(s.pcs)
  {
    var later := Do(s, u, Tick(ns));
    OneMove(s, u, Tick(ns));
    OneMove(later, u, Go(step));
    moves := [Move(u, Tick(ns))] + [Move(u, Go(step))];
    JoinRuns(s, [Move(u, Tick(ns))], [Move(u, Go(step))]);
    RunKeepsInvOnly(s, moves);
    StepDescends(later, u, step);
    StepKeepsConnected(later, u, step);
    RankOfUpdate(s.pcs, u, Final(s, moves).pcs[u]);
  }

  /** The moves are steps inside calls and waiting times, by threads past their wait. */
  ghost predicate OnlyInside(moves: seq<Move>, pcs: seq<Pc>) {
    forall m | m in moves :: m.t < |pcs| && pcs[m.t].At? && !pcs[m.t].p.Pending() && (m.a.Go? || m.a.Tick?)
  }

  /** Every call in progress is on its way to the lock of its context. */
  ghost predicate Drained(s: State) { forall t | 0 <= t < |s.pcs| && s.pcs[t].At? :: s.pcs[t].p.Pending() }

  ghost predicate Connected(s: State, c: nat) {
    ConnectedAt(s, c) && forall t | 0 <= t < |s.pcs| && s.pcs[t].At? && s.pcs[t].c == c :: !s.pcs[t].p.TearsDown()
  }

  ghost predicate KeepsConnected(s: State, s': State) { forall c: nat | Connected(s, c) :: Connected(s', c) }

  /** Only a disconnect that has the lock takes a context's connection away. */
  lemma StepKeepsConnected(s: State, t: nat, step: Step)
    requires Enabled(s, t, Go(step)) && !s.pcs[t].p.Pending()
    ensures KeepsConnected(s, Do(s, t, Go(step)))
  {
    forall c: nat | Connected(s, c) ensures Connected(Do(s, t, Go(step)), c) {
      StaysConnected(s, t, step, c, Do(s, t, Go(step)));
    }
  }

  lemma StaysConnected(s: State, t: nat, step: Step, c: nat, s': State)
    requires Enabled(s, t, Go(step)) && !s.pcs[t].p.Pending() && Connected(s, c) && s' == Do(s, t, Go(step))
    ensures Connected(s', c)
  {
  }

  /** Idle threads and those on their way to a lock are where they were. */
  ghost predicate SameWaiters(pcs: seq<Pc>, pcs': seq<Pc>) {
    |pcs'| == |pcs| && forall t | 0 <= t < |pcs| && (pcs[t].Idle? || pcs[t].p.Pending()) :: pcs'[t] == pcs[t]
  }

  ghost predicate Drains(s: State, moves: seq<Move>) {
    LegalRun(s, moves) && Inv(Final(s, moves)) && Drained(Final(s, moves)) &&
    SameWaiters(s.pcs, Final(s, moves).pcs) && OnlyInside(moves, s.pcs) && KeepsConnected(s, Final(s, moves))
  }

  /** From every state that satisfies the invariant, all calls that have got their lock can finish. */
  lemma {:induction false} Drain(s: State) returns (moves: seq<Move>)
    requires Inv(s)
    ensures Drains(s, moves)
    decreases TotalRank(s.pcs)
  {
    if Drained(s) {
      moves := [];
    } else {
      var t: nat :| t < |s.pcs| && s.pcs[t].At? && !s.pcs[t].p.Pending();
      var u, ns, step := HolderProgress(s, t);
      var first := TickAndGo(s, u, ns, step);
      var rest := Drain(Final(s, first));
      JoinDrains(s, u, first, rest);
      moves := first + rest;
    }
  }

  lemma JoinDrains(s: State, u: nat, first: seq<Move>, rest: seq<Move>)
    requires u < |s.pcs| && s.pcs[u].At? && !s.pcs[u].p.Pending()
    requires LegalRun(s, first) && OnlyInside(first, s.pcs) && KeepsConnected(s, Final(s, first))
    requires Drains(Final(s, first), rest)
    requires var pcs := Final(s, first).pcs; |pcs| == |s.pcs| && pcs == s.pcs[u := pcs[u]]
    ensures Drains(s, first + rest)
  {
    JoinRuns(s, first, rest);
    StillInside(s.pcs, Final(s, first).pcs, u, rest);
    JoinInside(first, rest, s.pcs);
    JoinWaiters(s.pcs, Final(s, first).pcs, u, Final(s, first + rest).pcs);
  }

  lemma JoinInside(a: seq<Move>, b: seq<Move>, pcs: seq<Pc>)
    requires OnlyInside(a, pcs) && OnlyInside(b, pcs)
    ensures OnlyInside(a + b, pcs)
  {
    assert forall m | m in a + b :: m in a || m in b;
  }

  lemma JoinWaiters(pcs: seq<Pc>, next: seq<Pc>, u: nat, last: seq<Pc>)
    requires u < |pcs| == |next| && pcs[u].At? && !pcs[u].p.Pending() && next == pcs[u := next[u]] &&
             SameWaiters(next, last)
    ensures SameWaiters(pcs, last)
  {
  }

  lemma StillInside(pcs: seq<Pc>, pcs': seq<Pc>, u: nat, moves: seq<Move>)
    requires u < |pcs| == |pcs'| && pcs[u].At? && !pcs[u].p.Pending() && pcs' == pcs[u := pcs'[u]] &&
             OnlyInside(moves, pcs')
    ensures OnlyInside(moves, pcs)
  {
  }

  // ---- A disconnect that starts while somebody waits ----

  function With(s: State, d: nat, pc: Pc): State
    requires d < |s.pcs|
  {
    s.(pcs := s.pcs[d := pc])
  }

  /** Steps inside other threads' calls do not depend on where thread d stands. */
  lemma MoveCommutes(s: State, d: nat, pc: Pc, m: Move)
    requires d < |s.pcs| && m.t != d && (m.a.Go? || m.a.Tick?) && Enabled(s, m.t, m.a)
    ensures Enabled(With(s, d, pc), m.t, m.a) && |Do(s, m.t, m.a).pcs| == |s.pcs|
    ensures Do(With(s, d, pc), m.t, m.a) == With(Do(s, m.t, m.a), d, pc)
  {
    if m.a.Go? {
      assert s.pcs[d := pc][m.t := Do(s, m.t, m.a).pcs[m.t]] == s.pcs[m.t := Do(s, m.t, m.a).pcs[m.t]][d := pc];
    }
  }

  lemma {:induction false} RunCommutes(s: State, d: nat, pc: Pc, moves: seq<Move>)
    requires d < |s.pcs| && LegalRun(s, moves) && forall m | m in moves :: m.t != d && (m.a.Go? || m.a.Tick?)
    ensures LegalRun(With(s, d, pc), moves) && |Final(s, moves).pcs| == |s.pcs|
    ensures Final(With(s, d, pc), moves) == With(Final(s, moves), d, pc)
    decreases |moves|
  {
    if moves != [] {
      assert moves[0] in moves;
      MoveCommutes(s, d, pc, moves[0]);
      RunCommutes(Do(s, moves[0].t, moves[0].a), d, pc, moves[1..]);
    }
  }

  /** Thread d can go from its call to the point where its reference is dropped. */
  lemma DropsReference(s: State, d: nat, c: nat) returns (moves: seq<Move>)
    requires StandsAt(s, d) && s.pcs[d] == At(c, Entered(Disconnect)) && s.ctxs[c].initialized
    requires s.ctxs[c].lock.Free? && s.regLock.Free? && s.ctxs[c].bus.Some? && s.ctxs[c].bus.value in s.reg.recs
    ensures LegalRun(s, moves)
    ensures var s' := Final(s, moves);
            s'.pcs == s.pcs[d := At(c, Detached)] && |s'.ctxs| == |s.ctxs| && s'.ctxs[c].initialized
  {
    var s1 := Do(s, d, Go(Test));
    OneMove(s, d, Go(Test));
    var s2 := Do(s1, d, Go(LockCtx));
    OneMove(s1, d, Go(LockCtx));
    var s3 := Do(s2, d, Go(LockRegistry));
    OneMove(s2, d, Go(LockRegistry));
    OneMove(s3, d, Go(DetachBus));
    moves := JoinMoves(s, [Move(d, Go(Test))], d, Go(LockCtx));
    moves := JoinMoves(s, moves, d, Go(LockRegistry));
    moves := JoinMoves(s, moves, d, Go(DetachBus));
  }

  /** One step more at the end of a run. */
  lemma JoinMoves(s: State, moves: seq<Move>, t: nat, a: Action) returns (longer: seq<Move>)
    requires LegalRun(s, moves) && Enabled(Final(s, moves), t, a) && Allowed(Final(s, moves), a)
    ensures LegalRun(s, longer) && Final(s, longer) == Do(Final(s, moves), t, a)
  {
    OneMove(Final(s, moves), t, a);
    JoinRuns(s, moves, [Move(t, a)]);
    longer := moves + [Move(t, a)];
  }

  /** And from there to its end, which destroys the lock. */
  lemma DestroysLock(s: State, d: nat, c: nat) returns (moves: seq<Move>)
    requires StandsAt(s, d) && s.pcs[d] == At(c, Detached)
    ensures LegalRun(s, moves)
    ensures var s' := Final(s, moves);
            s'.pcs == s.pcs[d := Idle] && |s'.ctxs| == |s.ctxs| && s'.ctxs[c].lock.Gone?
  {
    OneMove(s, d, Go(Clear));
    moves := JoinMoves(s, [Move(d, Go(Clear))], d, Go(UnlockLast));
    moves := JoinMoves(s, moves, d, Go(Destroy));
  }

  /** A thread that has not made its test yet still finds the context connected. */
  lemma LateTest(s: State, w: nat, c: nat) returns (moves: seq<Move>)
    requires PlacedAt(s, w, c) && ConnectedAt(s, c) && s.pcs[w].p.Pending() && !s.pcs[w].p.op.Connect?
    ensures LegalRun(s, moves)
    ensures Final(s, moves) == With(s, w, At(c, Await(s.pcs[w].p.op)))
  {
    moves := [];
    if s.pcs[w].p.Entered? {
      OneMove(s, w, Go(Test));
      moves := [Move(w, Go(Test))];
    }
  }

  lemma WaiterStranded(s: State, d: nat, c: nat, w: nat) returns (moves: seq<Move>)
    requires StandsAt(s, d) && s.pcs[d] == At(c, Entered(Disconnect)) && s.ctxs[c].initialized
    requires s.ctxs[c].lock.Free? && s.regLock.Free? && s.ctxs[c].bus.Some? && s.ctxs[c].bus.value in s.reg.recs
    requires w != d && PlacedAt(s, w, c) && s.pcs[w].p.Pending() && !s.pcs[w].p.op.Connect?
    ensures LegalRun(s, moves) && Bad(Final(s, moves))
  {
    var first := DropsReference(s, d, c);
    var late := LateTest(Final(s, first), w, c);
    JoinRuns(s, first, late);
    var next := Final(s, first + late);
    var rest := DestroysLock(next, d, c);
    JoinRuns(s, first + late, rest);
    moves := first + late + rest;
    assert BadAt(Final(s, moves), w);
  }

  /** Where nobody holds a context's lock, all locks that exist are free. */
  lemma DrainedIsFree(s: State, c: nat)
    requires Inv(s) && Drained(s) && Connected(s, c)
    ensures s.ctxs[c].lock.Free? && s.regLock.Free?
    ensures s.ctxs[c].bus.Some? && s.ctxs[c].bus.value in s.reg.recs
  {
    assert CtxOk(s, c);
  }

  lemma WaiterLeadsToBad(s: State, d: nat, c: nat, w: nat) returns (moves: seq<Move>)
    requires Inv(s) && d < |s.pcs| && s.pcs[d].Idle? && Connected(s, c)
    requires PlacedAt(s, w, c) && s.pcs[w].p.Pending() && !s.pcs[w].p.op.Connect?
    ensures LegalRun(With(s, d, At(c, Entered(Disconnect))), moves)
    ensures Bad(Final(With(s, d, At(c, Entered(Disconnect))), moves))
  {
    var pc := At(c, Entered(Disconnect));
    var drain := Drain(s);
    var calm := Final(s, drain);
    DrainedIsFree(calm, c);
    RunCommutes(s, d, pc, drain);
    var rest := WaiterStranded(With(calm, d, pc), d, c, w);
    JoinRuns(With(s, d, pc), drain, rest);
    moves := drain + rest;
  }

  /** Some run in which callers meet their obligations uses a mutex or a bus that is gone. */
  ghost predicate CanGoBad(s: State) { exists moves :: LegalRun(s, moves) && Bad(Final(s, moves)) }

  /** A request or set_unit_id on its way to the lock can be stranded, whatever else is in progress. */
  lemma PendingStranded(s: State, d: nat, c: nat, w: nat)
    requires Inv(s) && Enabled(s, d, Enter(c, Disconnect)) && NoDisconnect(s, c) && s.ctxs[c].initialized
    requires PlacedAt(s, w, c) && s.pcs[w].p.Pending() && !s.pcs[w].p.op.Connect?
    ensures CanGoBad(Do(s, d, Enter(c, Disconnect)))
  {
    var s' := Do(s, d, Enter(c, Disconnect));
    var moves := WaiterLeadsToBad(s, d, c, w);
    assert With(s, d, At(c, Entered(Disconnect))) == s';
    assert LegalRun(s', moves) && Bad(Final(s', moves));
  }

  lemma SomebodyPending(s: State, c: nat) returns (w: nat)
    requires !NobodyPending(s, c) && NoConnect(s, c)
    ensures PlacedAt(s, w, c) && s.pcs[w].p.Pending() && !s.pcs[w].p.InConnect()
  {
    w :| PlacedAt(s, w, c) && s.pcs[w].p.Pending();
  }

  /**
   * The exact obligation: let a disconnect be called, as the header allows, with no other
   * connect or disconnect of the context in progress.  A later use of a mutex or bus that is
   * gone is possible, with all other callers meeting their obligations, if and only if the
   * context is connected and some other call on it has not got the context's lock yet.
   */
  lemma DisconnectSafeExactly(s: State, d: nat, c: nat)
    requires Inv(s) && Enabled(s, d, Enter(c, Disconnect)) && NoDisconnect(s, c) && NoConnect(s, c)
    ensures CanGoBad(Do(s, d, Enter(c, Disconnect))) <==> s.ctxs[c].initialized && !NobodyPending(s, c)
  {
    var s' := Do(s, d, Enter(c, Disconnect));
    if s.ctxs[c].initialized && !NobodyPending(s, c) {
      var w := SomebodyPending(s, c);
      PendingStranded(s, d, c, w);
    } else {
      StepKeepsInv(s, d, Enter(c, Disconnect));
      forall moves | LegalRun(s', moves) ensures !Bad(Final(s', moves)) {
        RunKeepsInvOnly(s', moves);
        InvIsNotBad(Final(s', moves));
      }
    }
  }

  // ---- The misuse happens ----

  /** One thread connects a context, another enters a request and has not made its test. */
  lemma ConnectAndRequest(s: State, d: nat, w: nat, c: nat, cfg: ClientConfig, fd: int) returns (moves: seq<Move>)
    requires Initial(s) && d < |s.pcs| && w < |s.pcs| && d != w && c < |s.ctxs|
    ensures LegalRun(s, moves)
    ensures var s' := Final(s, moves);
            s'.pcs == s.pcs[w := At(c, Entered(Request(true)))] && ConnectedAt(s', c)
  {
    OneMove(s, d, Enter(c, Connect(cfg)));
    moves := JoinMoves(s, [Move(d, Enter(c, Connect(cfg)))], d, Go(Test));
    moves := JoinMoves(s, moves, d, Go(LockRegistry));
    moves := JoinMoves(s, moves, d, Go(AttachBus(Some(fd))));
    moves := JoinMoves(s, moves, d, Go(Publish));
    assert Final(s, moves).pcs == s.pcs;
    moves := JoinMoves(s, moves, w, Enter(c, Request(true)));
  }

  /**
   * From every initial state with two threads and a context there is a run in which all callers
   * meet their obligations, and after it a disconnect that the header allows and that can strand
   * a request which was started before it.
   */
  lemma MisuseReachable(s: State, d: nat, w: nat, c: nat, cfg: ClientConfig, fd: int) returns (moves: seq<Move>)
    requires Initial(s) && d < |s.pcs| && w < |s.pcs| && d != w && c < |s.ctxs|
    ensures LegalRun(s, moves)
    ensures var s' := Final(s, moves);
            Enabled(s', d, Enter(c, Disconnect)) && NoDisconnect(s', c) && NoConnect(s', c) &&
            CanGoBad(Do(s', d, Enter(c, Disconnect)))
  {
    moves := ConnectAndRequest(s, d, w, c, cfg, fd);
    InitialInv(s);
    RunKeepsInv(s, moves);
    assert PlacedAt(Final(s, moves), w, c);
    DisconnectSafeExactly(Final(s, moves), d, c);
  }
}
