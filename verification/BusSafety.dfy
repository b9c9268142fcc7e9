/**
 * What holds over every interleaving of requests, set_unit_id, connect and disconnect by any
 * number of threads on any number of contexts, if callers meet their obligations.
 */
module BusSafety {
  import opened BusSilence
  import opened BusRegistry
  import opened BusProtocol

  // ---- Runs ----

  datatype Move = Move(t: nat, a: Action)

  ghost predicate LegalRun(s: State, moves: seq<Move>)
    decreases |moves|
  {
    moves == [] ||
    (Enabled(s, moves[0].t, moves[0].a) && Allowed(s, moves[0].a) &&
      LegalRun(Do(s, moves[0].t, moves[0].a), moves[1..]))
  }

  ghost function Final(s: State, moves: seq<Move>): State
    requires LegalRun(s, moves)
    decreases |moves|
  {
    if moves == [] then s else Final(Do(s, moves[0].t, moves[0].a), moves[1..])
  }

  /** Nobody is in a call and no context is connected. */
  ghost predicate Initial(s: State) {
    (forall t | 0 <= t < |s.pcs| :: s.pcs[t].Idle?) &&
    (forall c | 0 <= c < |s.ctxs| :: s.ctxs[c].lock.Gone? && !s.ctxs[c].initialized) &&
    s.reg == EMPTY && s.regLock.Free? && s.att == map[]
  }

  lemma InitialInv(s: State)
    requires Initial(s)
    ensures Inv(s) && TimingOk(s)
  {
    EmptyOk();
  }

  /** A waiting request keeps the silence for the settings its context has all along. */
  predicate SilenceOf(s: State, c: nat, p: Phase) {
    p.Silent? ==> c < |s.ctxs| && p.bus in s.reg.recs && p.us == SilenceUs(s.ctxs[c].cfg, s.reg.recs[p.bus])
  }

  ghost predicate TimingOk(s: State) {
    forall t | 0 <= t < |s.pcs| && s.pcs[t].At? :: SilenceOf(s, s.pcs[t].c, s.pcs[t].p)
  }

  /** A step of another thread leaves a thread on a bus its context, its unit and its record. */
  lemma OthersLeaveTransaction(s: State, t: nat, a: Action, u: nat)
    requires Inv(s) && Enabled(s, t, a) && Allowed(s, a) && u < |s.pcs| && s.pcs[u].At? && s.pcs[u].p.InBus()
    requires t != u || a.Tick?
    ensures var s', c, b := Do(s, t, a), s.pcs[u].c, s.pcs[u].p.bus;
            c < |s.ctxs| && |s'.pcs| == |s.pcs| && |s'.ctxs| == |s.ctxs| && s'.pcs[u] == s.pcs[u] &&
            s'.ctxs[c].cfg == s.ctxs[c].cfg && b in s.reg.recs && b in s'.reg.recs &&
            s'.reg.recs[b] == s.reg.recs[b].(refcnt := s'.reg.recs[b].refcnt)
  {
    assert BusThreadOk(s, u, s.pcs[u].p);
    match a
    case Tick(_) =>
    case Enter(_, _) =>
    case Go(step) =>
      OthersLeaveContext(s, t, step, u);
      OthersLeaveRecord(s, t, step, u);
  }

  lemma OthersLeaveContext(s: State, t: nat, step: Step, u: nat)
    requires Placed(s) && Enabled(s, t, Go(step)) && u < |s.pcs| && s.pcs[u].At? && s.pcs[u].p.InBus() && t != u
    ensures var s' := Do(s, t, Go(step));
            s.pcs[u].c < |s.ctxs| && |s'.pcs| == |s.pcs| && |s'.ctxs| == |s.ctxs| && s'.pcs[u] == s.pcs[u] &&
            s'.ctxs[s.pcs[u].c].cfg == s.ctxs[s.pcs[u].c].cfg
  {
    OnlyTestsBeside(s, t, step, u);
  }

  /** On the context of a thread that is on a bus, other threads can at most test `initialized`. */
  lemma OnlyTestsBeside(s: State, t: nat, step: Step, u: nat)
    requires Placed(s) && Enabled(s, t, Go(step)) && u < |s.pcs| && s.pcs[u].At? && s.pcs[u].p.InBus() && t != u
    ensures s.pcs[t].c == s.pcs[u].c ==> step.Test? && s.ctxs[s.pcs[u].c].initialized
  {
    CompatibleAt(s, u, t);
  }

  lemma OthersLeaveRecord(s: State, t: nat, step: Step, u: nat)
    requires Inv(s) && Enabled(s, t, Go(step)) && u < |s.pcs| && s.pcs[u].At? && s.pcs[u].p.InBus() && t != u
    ensures var s', b := Do(s, t, Go(step)), s.pcs[u].p.bus;
            b in s.reg.recs && b in s'.reg.recs && s'.reg.recs[b] == s.reg.recs[b].(refcnt := s'.reg.recs[b].refcnt)
  {
    if step.DetachBus? || step.AttachBus? {
      RegistryStepReshapes(s, t, step, Do(s, t, Go(step)));
      assert BusThreadOk(s, u, s.pcs[u].p);
    } else {
      OtherBusUntouched(s, t, step, u);
    }
  }

  lemma RegistryStepReshapes(s: State, t: nat, step: Step, s': State)
    requires Inv(s) && Enabled(s, t, Go(step)) && (step.DetachBus? || step.AttachBus?) && s' == Do(s, t, Go(step))
    ensures Reshapes(s, s', t)
  {
    var c := s.pcs[t].c;
    if step.DetachBus? {
      DetachMoves(s, s', t, c);
      DetachReshapes(s, s', t, c);
    } else {
      AttachMoves(s, s', t, step.port, c, s.pcs[t].p.cfg);
      AttachReshapes(s, s', t, s.pcs[t].p.cfg, step.port);
    }
  }

  lemma OtherBusUntouched(s: State, t: nat, step: Step, u: nat)
    requires BusesOk(s) && Enabled(s, t, Go(step)) && !step.DetachBus? && !step.AttachBus?
    requires u < |s.pcs| && s.pcs[u].At? && s.pcs[u].p.InBus() && t != u
    ensures var s', b := Do(s, t, Go(step)), s.pcs[u].p.bus;
            b in s.reg.recs && b in s'.reg.recs && s'.reg.recs[b] == s.reg.recs[b]
  {
    assert BusThreadOk(s, u, s.pcs[u].p) && BusThreadOk(s, t, s.pcs[t].p);
  }

  predicate SilenceAt(s: State, u: nat) { u < |s.pcs| && s.pcs[u].At? ==> SilenceOf(s, s.pcs[u].c, s.pcs[u].p) }

  lemma StepKeepsTiming(s: State, t: nat, a: Action, s': State)
    requires Inv(s) && TimingOk(s) && Enabled(s, t, a) && Allowed(s, a) && s' == Do(s, t, a)
    ensures TimingOk(s')
  {
    forall u: nat | u < |s.pcs| ensures SilenceAt(s', u) {
      KeepsTimingAt(s, t, a, u, s');
    }
    StepKeepsThreads(s, t, a);
    TimedAll(s', |s.pcs|);
  }

  lemma StepKeepsThreads(s: State, t: nat, a: Action)
    requires Enabled(s, t, a)
    ensures |Do(s, t, a).pcs| == |s.pcs| && |Do(s, t, a).ctxs| == |s.ctxs|
  {
  }

  lemma KeepsTimingAt(s: State, t: nat, a: Action, u: nat, s': State)
    requires Inv(s) && TimingOk(s) && Enabled(s, t, a) && Allowed(s, a) && s' == Do(s, t, a) && u < |s.pcs|
    ensures SilenceAt(s', u)
  {
    if u != t || a.Tick? {
      OthersKeepTiming(s, t, a, u, s');
    } else {
      OwnTiming(s, t, a, s');
    }
  }

  lemma TimedAll(s: State, n: nat)
    requires |s.pcs| == n && forall u: nat | u < n :: SilenceAt(s, u)
    ensures TimingOk(s)
  {
    assert forall u: nat | u < |s.pcs| && s.pcs[u].At? :: SilenceAt(s, u);
  }

  lemma OthersKeepTiming(s: State, t: nat, a: Action, u: nat, s': State)
    requires Inv(s) && TimingOk(s) && Enabled(s, t, a) && Allowed(s, a) && s' == Do(s, t, a)
    requires u < |s.pcs| && (u != t || a.Tick?)
    ensures SilenceAt(s', u)
  {
    OthersStand(s, t, a, u);
    if s.pcs[u].At? && s.pcs[u].p.Silent? {
      OthersLeaveTransaction(s, t, a, u);
      SameSilence(s, s', u);
    }
  }

  lemma OthersStand(s: State, t: nat, a: Action, u: nat)
    requires Enabled(s, t, a) && u < |s.pcs| && (u != t || a.Tick?)
    ensures |Do(s, t, a).pcs| == |s.pcs| && Do(s, t, a).pcs[u] == s.pcs[u]
  {
  }

  lemma SameSilence(s: State, s': State, u: nat)
    requires TimingOk(s) && u < |s.pcs| && s.pcs[u].At? && s.pcs[u].p.Silent?
    requires var c, b := s.pcs[u].c, s.pcs[u].p.bus;
             c < |s.ctxs| && |s'.ctxs| == |s.ctxs| && s'.ctxs[c].cfg == s.ctxs[c].cfg &&
             b in s.reg.recs && b in s'.reg.recs && s'.reg.recs[b] == s.reg.recs[b].(refcnt := s'.reg.recs[b].refcnt)
    ensures SilenceOf(s', s.pcs[u].c, s.pcs[u].p)
  {
    assert SilenceOf(s, s.pcs[u].c, s.pcs[u].p);
  }

  lemma OwnTiming(s: State, t: nat, a: Action, s': State)
    requires Enabled(s, t, a) && !a.Tick? && s' == Do(s, t, a)
    ensures SilenceAt(s', t)
  {
  }

  /** The invariant over every legal run. */
  lemma {:induction false} RunKeepsInv(s: State, moves: seq<Move>)
    requires Inv(s) && TimingOk(s) && LegalRun(s, moves)
    ensures Inv(Final(s, moves)) && TimingOk(Final(s, moves))
    decreases |moves|
  {
    if moves != [] {
      StepKeepsInv(s, moves[0].t, moves[0].a);
      StepKeepsTiming(s, moves[0].t, moves[0].a, Do(s, moves[0].t, moves[0].a));
      RunKeepsInv(Do(s, moves[0].t, moves[0].a), moves[1..]);
    }
  }

  // ---- One transaction on a bus ----

  /** At most one thread is between begin and end of a transaction on a bus record. */
  lemma OneTransactionPerBus(s: State, moves: seq<Move>, t: nat, u: nat, b: nat)
    requires Initial(s) && LegalRun(s, moves)
    requires InBusAt(Final(s, moves), t, b) && InBusAt(Final(s, moves), u, b)
    ensures t == u
  {
    InitialInv(s);
    RunKeepsInv(s, moves);
    assert BusThreadOk(Final(s, moves), t, Final(s, moves).pcs[t].p);
    assert BusThreadOk(Final(s, moves), u, Final(s, moves).pcs[u].p);
  }

  /** The thread of moves[i] is t and the step ends its transaction. */
  predicate Ends(m: Move, t: nat) { m.t == t && m.a == Go(End) }

  /**
   * From begin to end of a transaction, whatever the other threads do: the record is never
   * freed, its mutex stays with the thread, and the unit id of the context stays what it was
   * at the begin.
   */
  lemma {:induction false} TransactionUndisturbed(s: State, moves: seq<Move>, t: nat)
    requires Inv(s) && TimingOk(s) && LegalRun(s, moves) && t < |s.pcs| && s.pcs[t].At? && s.pcs[t].p.InBus()
    requires forall m | m in moves :: !Ends(m, t)
    ensures var s', pc := Final(s, moves), s.pcs[t];
            InBusAt(s', t, pc.p.bus) && s'.pcs[t].c == pc.c && s'.pcs[t].p.unit == pc.p.unit &&
            pc.c < |s'.ctxs| && s'.ctxs[pc.c].cfg.unit == pc.p.unit &&
            pc.p.bus in s'.reg.recs && s'.reg.recs[pc.p.bus].mutex == Held(t) &&
              s'.reg.recs[pc.p.bus].fd in s'.reg.openFds
    decreases |moves|
  {
    OnBus(s, t);
    if moves != [] {
      var m := moves[0];
      assert m in moves;
      StepKeepsInv(s, m.t, m.a);
      StepKeepsTiming(s, m.t, m.a, Do(s, m.t, m.a));
      StaysInTransaction(s, m, t);
      TransactionUndisturbed(Do(s, m.t, m.a), moves[1..], t);
    }
  }

  lemma OnBus(s: State, t: nat)
    requires Inv(s) && t < |s.pcs| && s.pcs[t].At? && s.pcs[t].p.InBus()
    ensures var c, b := s.pcs[t].c, s.pcs[t].p.bus;
            c < |s.ctxs| && s.ctxs[c].cfg.unit == s.pcs[t].p.unit &&
            b in s.reg.recs && s.reg.recs[b].mutex == Held(t) && s.reg.recs[b].fd in s.reg.openFds
  {
    assert BusThreadOk(s, t, s.pcs[t].p);
  }

  lemma StaysInTransaction(s: State, m: Move, t: nat)
    requires Inv(s) && Enabled(s, m.t, m.a) && Allowed(s, m.a) && !Ends(m, t)
    requires t < |s.pcs| && s.pcs[t].At? && s.pcs[t].p.InBus()
    ensures var s', p := Do(s, m.t, m.a), s.pcs[t].p;
            InBusAt(s', t, p.bus) && s'.pcs[t].c == s.pcs[t].c && s'.pcs[t].p.unit == p.unit
  {
    if m.t != t || m.a.Tick? {
      OthersLeaveTransaction(s, m.t, m.a, t);
    }
  }

  /** So the end of a transaction notes the unit id that its begin waited for. */
  lemma EndNotesUnit(s: State, moves: seq<Move>, t: nat)
    requires Inv(s) && TimingOk(s) && LegalRun(s, moves) && t < |s.pcs| && s.pcs[t].At? && s.pcs[t].p.InBus()
    requires forall m | m in moves :: !Ends(m, t)
    requires Enabled(Final(s, moves), t, Go(End))
    ensures var s', b := Final(s, moves), s.pcs[t].p.bus;
            var after := Do(s', t, Go(End));
            b in after.reg.recs && after.reg.recs[b].last == Some(Release(s.pcs[t].p.unit, s'.clock))
  {
    TransactionUndisturbed(s, moves, t);
  }

  /**
   * Whenever a request is sent, more than the required silence minus a microsecond has passed
   * since the end of the last transaction on its record.
   */
  lemma SilenceBeforeSend(s: State, moves: seq<Move>, t: nat)
    requires Initial(s) && LegalRun(s, moves) && Enabled(Final(s, moves), t, Go(Send))
    ensures var s' := Final(s, moves);
            var x, b := s'.ctxs[s'.pcs[t].c], s'.pcs[t].p.bus;
            b in s'.reg.recs &&
            (s'.reg.recs[b].last.Some? ==>
               s'.clock - s'.reg.recs[b].last.value.time > 1000 * SilenceUs(x.cfg, s'.reg.recs[b]) - 1000)
  {
    InitialInv(s);
    RunKeepsInv(s, moves);
    var s' := Final(s, moves);
    assert BusThreadOk(s', t, s'.pcs[t].p) && SilenceOf(s', s'.pcs[t].c, s'.pcs[t].p);
  }

  // ---- The registry ----

  /** Nobody is changing what the context is attached to. */
  ghost predicate AtRest(s: State, c: nat) {
    forall t | 0 <= t < |s.pcs| && s.pcs[t].At? && s.pcs[t].c == c :: !s.pcs[t].p.TearsDown() && !s.pcs[t].p.SetsUp()
  }

  /**
   * After every run: keys and descriptors of the records are distinct and open, each reference
   * count is the number of attached contexts and positive, and a context at rest is attached
   * exactly if it is connected, to the record that it points to.
   */
  lemma RegistryAfterRun(s: State, moves: seq<Move>, c: nat)
    requires Initial(s) && LegalRun(s, moves) && c < |s.ctxs|
    ensures var s' := Final(s, moves);
            RegistryOk(s'.reg, s'.att) && c < |s'.ctxs| &&
            (AtRest(s', c) ==>
               (c in s'.att <==> s'.ctxs[c].initialized) &&
               (c in s'.att ==> s'.ctxs[c].bus == Some(s'.att[c].bus)))
  {
    InitialInv(s);
    RunKeepsInv(s, moves);
    ContextsStay(s, moves);
    assert CtxOk(Final(s, moves), c);
  }

  lemma {:induction false} ContextsStay(s: State, moves: seq<Move>)
    requires LegalRun(s, moves)
    ensures |Final(s, moves).ctxs| == |s.ctxs|
    decreases |moves|
  {
    if moves != [] {
      ContextsStay(Do(s, moves[0].t, moves[0].a), moves[1..]);
    }
  }

  // ---- Deadlock freedom ----

  /** Once enough time has passed, thread u can take the step. */
  predicate CanGoAfter(s: State, u: nat, ns: nat, step: Step) {
    Enabled(Do(s, u, Tick(ns)), u, Go(step)) && step != LockCtx
  }

  lemma BusThreadProgress(s: State, u: nat) returns (ns: nat, step: Step)
    requires Placed(s) && u < |s.pcs| && s.pcs[u].At? && s.pcs[u].p.InBus()
    ensures CanGoAfter(s, u, ns, step)
  {
    assert BusThreadOk(s, u, s.pcs[u].p);
    var p := s.pcs[u].p;
    ns := if p.Silent? then p.until else 0;
    step := if p.BusHeld? then ReadClock else if p.Silent? then Send else End;
  }

  lemma RegistryThreadProgress(s: State, u: nat) returns (step: Step)
    requires Inv(s) && u < |s.pcs| && s.pcs[u].At? && s.pcs[u].p.HoldsRegistry()
    ensures CanGoAfter(s, u, 0, step)
  {
    assert CtxOk(s, s.pcs[u].c);
    step := if s.pcs[u].p.Detaching? then DetachBus else AttachBus(None);
  }

  /** The thread, or the one it waits for, is past its wait for a context and can go on. */
  lemma HolderProgress(s: State, t: nat) returns (u: nat, ns: nat, step: Step)
    requires Inv(s) && t < |s.pcs| && s.pcs[t].At? && !s.pcs[t].p.Pending()
    ensures u < |s.pcs| && s.pcs[u].At? && !s.pcs[u].p.Pending() && CanGoAfter(s, u, ns, step)
  {
    var p := s.pcs[t].p;
    u, ns := t, 0;
    if p.InBus() {
      ns, step := BusThreadProgress(s, t);
    } else if p.HoldsRegistry() {
      step := RegistryThreadProgress(s, t);
    } else if (p.Hold? && p.op.Disconnect?) || p.Connecting? {
      u, step := RegistryWaiterProgress(s, t);
    } else if p.Hold? && p.op.Request? {
      u, ns, step := RequestProgress(s, t);
    } else {
      step := UnhinderedProgress(s, t);
    }
  }

  lemma UnhinderedProgress(s: State, t: nat) returns (step: Step)
    requires Inv(s) && t < |s.pcs| && s.pcs[t].At? && !s.pcs[t].p.InBus() && !s.pcs[t].p.HoldsRegistry()
    requires !s.pcs[t].p.Pending() && !s.pcs[t].p.Connecting? && (s.pcs[t].p.Hold? ==> s.pcs[t].p.op.SetUnit?)
    ensures CanGoAfter(s, t, 0, step)
  {
    step := match s.pcs[t].p
      case Hold(_) => ChangeUnit
      case Leaving => UnlockCtx
      case Detached => Clear
      case Cleared => UnlockLast
      case Destroying => Destroy
      case _ => Publish;
  }

  lemma RegistryWaiterProgress(s: State, t: nat) returns (u: nat, step: Step)
    requires Inv(s) && t < |s.pcs| && s.pcs[t].At?
    requires (s.pcs[t].p.Hold? && s.pcs[t].p.op.Disconnect?) || s.pcs[t].p.Connecting?
    ensures u < |s.pcs| && s.pcs[u].At? && !s.pcs[u].p.Pending() && CanGoAfter(s, u, 0, step)
  {
    u, step := t, LockRegistry;
    if s.regLock.Held? {
      u := s.regLock.t;
      step := RegistryThreadProgress(s, u);
    }
  }

  lemma RequestProgress(s: State, t: nat) returns (u: nat, ns: nat, step: Step)
    requires Inv(s) && t < |s.pcs| && s.pcs[t].At? && s.pcs[t].p.Hold? && s.pcs[t].p.op.Request?
    ensures u < |s.pcs| && s.pcs[u].At? && !s.pcs[u].p.Pending() && CanGoAfter(s, u, ns, step)
  {
    var p, c := s.pcs[t].p, s.pcs[t].c;
    assert CtxOk(s, c);
    var x := s.ctxs[c];
    var b := x.bus.value;
    u, ns := t, 0;
    if x.cfg.unit == 0 && !p.op.isWrite {
      step := RefuseBroadcast;
    } else {
      assert BusOk(s, b, s.reg.recs[b]);
      if s.reg.recs[b].mutex.Held? {
        u := s.reg.recs[b].mutex.t;
        ns, step := BusThreadProgress(s, u);
      } else {
        step := LockBus;
      }
    }
  }

  /**
   * Deadlock freedom: in every reachable state in which some thread is in a call, some thread
   * can take its next step, at once or when its bus silence is over.
   */
  lemma NoDeadlock(s: State, moves: seq<Move>, t: nat) returns (u: nat, ns: nat, step: Step)
    requires Initial(s) && LegalRun(s, moves) && t < |Final(s, moves).pcs| && Final(s, moves).pcs[t].At?
    ensures Enabled(Do(Final(s, moves), u, Tick(ns)), u, Go(step))
  {
    InitialInv(s);
    RunKeepsInv(s, moves);
    u, ns, step := Progress(Final(s, moves), t);
  }

  lemma Progress(s: State, t: nat) returns (u: nat, ns: nat, step: Step)
    requires Inv(s) && t < |s.pcs| && s.pcs[t].At?
    ensures Enabled(Do(s, u, Tick(ns)), u, Go(step))
  {
    assert CtxOk(s, s.pcs[t].c);
    if s.pcs[t].p.Entered? {
      u, ns, step := t, 0, Test;
    } else if !s.pcs[t].p.Await? {
      u, ns, step := HolderProgress(s, t);
    } else if s.ctxs[s.pcs[t].c].lock.Held? {
      u, ns, step := HolderProgress(s, s.ctxs[s.pcs[t].c].lock.t);
    } else {
      u, ns, step := t, 0, LockCtx;
    }
  }
}
