/**
 * The locking protocol of src/modbus_rtu_client.c: any number of threads call request,
 * set_unit_id, connect and disconnect on any number of contexts, in any interleaving.  Every
 * lock, unlock and access to shared data outside a lock is a step of its own.
 */
module BusProtocol {
  import opened Bytes
  import opened BusSilence
  import opened BusRegistry

  // ---- State ----

  datatype ClientConfig =
    ClientConfig(key: string, settings: Settings, unit: byte, interFrameDelay: nat, handoffSilence: nat)

  datatype Op = Request(isWrite: bool) | SetUnit(unit: byte) | Disconnect | Connect(cfg: ClientConfig)

  /** Where a thread stands in a call on a context. */
  datatype Phase =
    | Entered(op: Op)                           // in the call, before its test of initialized
    | Await(op: Op)                             // saw initialized set, waits for ctx->lock
    | Hold(op: Op)                              // has just got ctx->lock
    | BusHeld(bus: nat, unit: byte)             // has the bus mutex too
    | Silent(bus: nat, unit: byte, us: nat, until: nat)  // waits out a bus silence of us microseconds
    | Talking(bus: nat, unit: byte)             // sends the request and receives the answer
    | Leaving                                   // about to release ctx->lock
    | Detaching                                 // disconnect: has the registry lock
    | Detached                                  // the reference is dropped
    | Cleared                                   // shared_bus and initialized are cleared
    | Destroying                                // ctx->lock is released, not yet destroyed
    | Connecting(cfg: ClientConfig)             // connect: the context is reset
    | Attaching(cfg: ClientConfig)              // has the registry lock
    | Attached(got: Option<nat>)                // has a reference, or none
  {
    predicate HoldsLock() {
      Hold? || InBus() || Leaving? || Detaching? || Detached? || Cleared?
    }

    /** In a call, and without the context's lock so far. */
    predicate Pending() { Entered? || Await? }

    /** Between bus_transaction_begin and bus_transaction_end. */
    predicate InBus() { BusHeld? || Silent? || Talking? }

    predicate HoldsRegistry() { Detaching? || Attaching? }

    /** A disconnect that has the lock, or had it. */
    predicate TearsDown() { (Hold? && op.Disconnect?) || Detaching? || Detached? || Cleared? || Destroying? }

    predicate InDisconnect() { TearsDown() || (Pending() && op.Disconnect?) }

    /** A connect that has reset the context. */
    predicate SetsUp() { Connecting? || Attaching? || Attached? }

    predicate InConnect() { SetsUp() || (Entered? && op.Connect?) }
  }

  datatype Pc = Idle | At(c: nat, p: Phase)

  /** mb_rtu_client_ctx; connector is the thread that connected it last. */
  datatype Ctx = Ctx(lock: Mutex, bus: Option<nat>, initialized: bool, cfg: ClientConfig, connector: nat)

  /** All threads and contexts, the registry and its lock, who is attached to what, and the clock. */
  datatype State = State(pcs: seq<Pc>, ctxs: seq<Ctx>, reg: Registry, regLock: Mutex, att: map<nat, Attachment>,
                         clock: nat)
  {
    function AttOf(c: nat): Option<Attachment> { if c in att then Some(att[c]) else None }
  }

  // ---- Timing inputs ----

  /** mb_rtu_t35_us of effective settings */
  function T35Us(s: Settings): nat {
    var charBits := 1 + s.dataBits + s.stopBits + if s.parity != 0 then 1 else 0;
    if s.baudRate > 19200 || s.baudRate == 0 then 1750 else (charBits * 3_500_000 + s.baudRate - 1) / s.baudRate
  }

  function InterFrameUs(cfg: ClientConfig, bus: Bus): nat { EffectiveTiming(cfg.interFrameDelay, T35Us(bus.settings)) }

  function HandoffMs(cfg: ClientConfig): nat { EffectiveTiming(cfg.handoffSilence, DEFAULT_HANDOFF_MS) }

  /** The silence that the bus must keep before a request from this context, in microseconds. */
  function SilenceUs(cfg: ClientConfig, bus: Bus): nat {
    if bus.last.None? then 0 else RequiredUs(bus.last.value, cfg.unit, InterFrameUs(cfg, bus), HandoffMs(cfg))
  }

  /** When the sleep of wait_bus_silence ends at the earliest. */
  function SilentUntil(cfg: ClientConfig, bus: Bus, now: nat): nat {
    now + 1000 * SleepUs(bus.last, cfg.unit, InterFrameUs(cfg, bus), HandoffMs(cfg), now)
  }

  /** From `until` on the bus has been silent for all of us microseconds but less than one. */
  predicate SilenceEnsured(bus: Bus, us: nat, until: nat) {
    bus.last.Some? ==> until - bus.last.value.time > 1000 * us - 1000
  }

  // ---- Steps ----

  /** The steps inside a call. */
  datatype Step =
    | Test | LockCtx | RefuseBroadcast | LockBus | ReadClock | Send | End | ChangeUnit | UnlockCtx
    | LockRegistry | DetachBus | Clear | UnlockLast | Destroy
    | AttachBus(port: Option<int>) | Publish

  /** A call begins, a call goes on, or time passes. */
  datatype Action = Enter(c: nat, op: Op) | Go(step: Step) | Tick(ns: nat)

  predicate StandsAt(s: State, t: nat) { t < |s.pcs| && s.pcs[t].At? && s.pcs[t].c < |s.ctxs| }

  predicate BusFree(reg: Registry, b: Option<nat>) { b.Some? && b.value in reg.recs && reg.recs[b.value].mutex.Free? }

  /** Whether a thread at p, with context x, can take the step now. */
  predicate CanGo(s: State, x: Ctx, p: Phase, step: Step) {
    match step
    case Test => p.Entered?
    case LockCtx => p.Await? && x.lock.Free?
    case RefuseBroadcast => p.Hold? && p.op.Request? && x.cfg.unit == 0 && !p.op.isWrite
    case LockBus => p.Hold? && p.op.Request? && (x.cfg.unit != 0 || p.op.isWrite) && BusFree(s.reg, x.bus)
    case ReadClock => p.BusHeld? && p.bus in s.reg.recs
    case Send => p.Silent? && s.clock >= p.until
    case End => p.Talking? && p.bus in s.reg.recs
    case ChangeUnit => p.Hold? && p.op.SetUnit?
    case UnlockCtx => p.Leaving?
    case LockRegistry => ((p.Hold? && p.op.Disconnect?) || p.Connecting?) && s.regLock.Free?
    case DetachBus => p.Detaching? && x.bus.Some? && x.bus.value in s.reg.recs
    case Clear => p.Detached?
    case UnlockLast => p.Cleared?
    case Destroy => p.Destroying?
    case AttachBus(port) =>
      p.Attaching? && (port.Some? ==> port.value !in s.reg.openFds) && forall id | id in s.reg.list :: id in s.reg.recs
    case Publish => p.Attached?
  }

  predicate Enabled(s: State, t: nat, a: Action) {
    match a
    case Enter(c, op) => t < |s.pcs| && s.pcs[t].Idle? && c < |s.ctxs|
    case Go(step) => StandsAt(s, t) && CanGo(s, s.ctxs[s.pcs[t].c], s.pcs[t].p, step)
    case Tick(_) => true
  }

  /** The thread moves on, and its context becomes x. */
  function Move(s: State, t: nat, pc: Pc, c: nat, x: Ctx): State
    requires t < |s.pcs| && c < |s.ctxs|
  {
    s.(pcs := s.pcs[t := pc], ctxs := s.ctxs[c := x])
  }

  function WithBus(s: State, b: nat, bus: Bus): State { s.(reg := Updated(s.reg, b, bus)) }

  function AfterAttach(att: map<nat, Attachment>, c: nat, got: Option<nat>, cfg: ClientConfig): map<nat, Attachment> {
    if got.None? then att else att[c := Attachment(got.value, cfg.key, cfg.settings)]
  }

  /**
   * The unlocked test of `initialized` at the start of every call: a connect goes on, resetting
   * the context, if it is clear, every other call if it is set.
   */
  function Tested(s: State, t: nat, c: nat, op: Op): State
    requires t < |s.pcs| && c < |s.ctxs|
  {
    var x := s.ctxs[c];
    if x.initialized == op.Connect? then Move(s, t, Idle, c, x)
    else if op.Connect? then Move(s, t, At(c, Connecting(op.cfg)), c, Ctx(Free, None, false, op.cfg, t))
    else Move(s, t, At(c, Await(op)), c, x)
  }

  /** What a step inside a call does. */
  function DoStep(s: State, t: nat, step: Step): State
    requires Enabled(s, t, Go(step))
  {
    var c, p := s.pcs[t].c, s.pcs[t].p;
    var x := s.ctxs[c];
    match step
    case Test => Tested(s, t, c, p.op)
    case LockCtx => Move(s, t, At(c, Hold(p.op)), c, x.(lock := Held(t)))
    case RefuseBroadcast => Move(s, t, At(c, Leaving), c, x)
    case LockBus =>
      var b := x.bus.value;
      WithBus(Move(s, t, At(c, BusHeld(b, x.cfg.unit)), c, x), b, s.reg.recs[b].(mutex := Held(t)))
    case ReadClock =>
      var bus := s.reg.recs[p.bus];
      Move(s, t, At(c, Silent(p.bus, p.unit, SilenceUs(x.cfg, bus), SilentUntil(x.cfg, bus, s.clock))), c, x)
    case Send => Move(s, t, At(c, Talking(p.bus, p.unit)), c, x)
    case End =>
      WithBus(Move(s, t, At(c, Leaving), c, x), p.bus,
              s.reg.recs[p.bus].(mutex := Free, last := Some(Release(x.cfg.unit, s.clock))))
    case ChangeUnit => Move(s, t, At(c, Leaving), c, x.(cfg := x.cfg.(unit := p.op.unit)))
    case UnlockCtx => Move(s, t, Idle, c, x.(lock := Free))
    case LockRegistry =>
      Move(s, t, At(c, if p.Connecting? then Attaching(p.cfg) else Detaching), c, x).(regLock := Held(t))
    case DetachBus =>
      Move(s, t, At(c, Detached), c, x).(reg := Detach(s.reg, x.bus.value), regLock := Free, att := s.att - {c})
    case Clear => Move(s, t, At(c, Cleared), c, x.(bus := None, initialized := false))
    case UnlockLast => Move(s, t, At(c, Destroying), c, x.(lock := Free))
    case Destroy => Move(s, t, Idle, c, x.(lock := Gone))
    case AttachBus(port) =>
      var (got, reg) := Attach(s.reg, p.cfg.key, p.cfg.settings, port);
      Move(s, t, At(c, Attached(got)), c, x).(reg := reg, regLock := Free, att := AfterAttach(s.att, c, got, p.cfg))
    case Publish =>
      Move(s, t, Idle, c, if p.got.None? then x.(lock := Gone) else x.(bus := p.got, initialized := true))
  }

  function Do(s: State, t: nat, a: Action): State
    requires Enabled(s, t, a)
  {
    match a
    case Enter(c, op) => s.(pcs := s.pcs[t := At(c, Entered(op))])
    case Go(step) => DoStep(s, t, step)
    case Tick(ns) => s.(clock := s.clock + ns)
  }

  // ---- What callers must see to ----

  ghost predicate NoDisconnect(s: State, c: nat) {
    forall u | 0 <= u < |s.pcs| && s.pcs[u].At? && s.pcs[u].c == c :: !s.pcs[u].p.InDisconnect()
  }

  ghost predicate NoConnect(s: State, c: nat) {
    forall u | 0 <= u < |s.pcs| && s.pcs[u].At? && s.pcs[u].c == c :: !s.pcs[u].p.InConnect()
  }

  ghost predicate NobodyPending(s: State, c: nat) {
    forall u | 0 <= u < |s.pcs| && s.pcs[u].At? && s.pcs[u].c == c :: !s.pcs[u].p.Pending()
  }

  /**
   * What callers must see to: the header's rule, that no call on a context starts during its
   * disconnect; that connects and disconnects of a context do not overlap connects; and, when a
   * connected context's disconnect is called, that no other call on the context is still on
   * its way to the lock (see BusObligation).
   */
  ghost predicate Allowed(s: State, a: Action) {
    a.Enter? ==>
      NoDisconnect(s, a.c) &&
      (a.op.Connect? || a.op.Disconnect? ==> NoConnect(s, a.c)) &&
      (a.op.Disconnect? && a.c < |s.ctxs| && s.ctxs[a.c].initialized ==> NobodyPending(s, a.c))
  }

  // ---- The invariant ----

  /** What a thread's place says about its context and the context's attachment. */
  predicate ThreadOk(x: Ctx, t: nat, p: Phase, a: Option<Attachment>) {
    (p.HoldsLock() ==> x.lock == Held(t)) &&
    (p.Entered? || (p.Await? || (p.HoldsLock() && !p.Cleared?) <==> x.initialized)) &&
    (p.HoldsLock() && !p.Detached? && !p.Cleared? ==> a.Some?) &&
    (p.InBus() ==> x.bus == Some(p.bus) && x.cfg.unit == p.unit) &&
    (p.Detached? || p.Cleared? || p.Destroying? || p.Connecting? || p.Attaching? ==> a.None?) &&
    (p.Destroying? || p.SetsUp() ==> x.lock.Free?) &&
    (p.Attached? ==> (if p.got.None? then a.None? else a.Some? && a.value.bus == p.got.value)) &&
    (p.SetsUp() ==> x.connector == t) &&
    (p.Await? || p.Hold? ==> !p.op.Connect?)
  }

  /** Whether p rules out q on the same context, which is connected or not. */
  predicate Excludes(p: Phase, q: Phase, connected: bool) {
    p.TearsDown() ||
    (p.SetsUp() && !q.Entered?) ||
    (p.InConnect() && (q.InConnect() || q.InDisconnect())) ||
    (p.InDisconnect() && (q.InDisconnect() || (connected && q.Pending())))
  }

  predicate Compatible(p: Phase, q: Phase, connected: bool) {
    !Excludes(p, q, connected) && !Excludes(q, p, connected)
  }

  ghost predicate ThreadsOk(s: State) {
    forall t | 0 <= t < |s.pcs| && s.pcs[t].At? ::
      s.pcs[t].c < |s.ctxs| && ThreadOk(s.ctxs[s.pcs[t].c], t, s.pcs[t].p, s.AttOf(s.pcs[t].c))
  }

  predicate ConnectedAt(s: State, c: nat) { c < |s.ctxs| && s.ctxs[c].initialized }

  ghost predicate PairsOk(s: State) {
    forall t, u | 0 <= t < |s.pcs| && 0 <= u < |s.pcs| && t != u && s.pcs[t].At? && s.pcs[u].At? &&
                  s.pcs[t].c == s.pcs[u].c :: Compatible(s.pcs[t].p, s.pcs[u].p, ConnectedAt(s, s.pcs[t].c))
  }

  predicate PlacedAt(s: State, t: nat, c: nat) { t < |s.pcs| && s.pcs[t].At? && s.pcs[t].c == c }

  predicate CtxOk(s: State, c: nat)
    requires c < |s.ctxs|
  {
    var x, a := s.ctxs[c], s.AttOf(c);
    (x.lock.Held? ==> PlacedAt(s, x.lock.t, c) && s.pcs[x.lock.t].p.HoldsLock()) &&
    (x.initialized ==> !x.lock.Gone?) &&
    (x.initialized && a.Some? ==> x.bus == Some(a.value.bus)) &&
    (x.initialized && a.None? ==> x.lock.Held? && s.pcs[x.lock.t].p.Detached?) &&
    (!x.initialized && a.Some? ==> PlacedAt(s, x.connector, c) && s.pcs[x.connector].p == Attached(Some(a.value.bus)))
  }

  ghost predicate CtxsOk(s: State) { forall c | 0 <= c < |s.ctxs| :: CtxOk(s, c) }

  predicate BusThreadOk(s: State, t: nat, p: Phase) {
    p.InBus() ==> p.bus in s.reg.recs && s.reg.recs[p.bus].mutex == Held(t) &&
                  (p.Silent? ==> SilenceEnsured(s.reg.recs[p.bus], p.us, p.until))
  }

  predicate InBusAt(s: State, t: nat, b: nat) {
    t < |s.pcs| && s.pcs[t].At? && s.pcs[t].p.InBus() && s.pcs[t].p.bus == b
  }

  ghost predicate BusesOk(s: State) {
    (forall t | 0 <= t < |s.pcs| && s.pcs[t].At? :: BusThreadOk(s, t, s.pcs[t].p)) &&
    (forall b | b in s.reg.recs :: BusOk(s, b, s.reg.recs[b]))
  }

  predicate BusOk(s: State, b: nat, bus: Bus) {
    !bus.mutex.Gone? && (bus.mutex.Held? ==> InBusAt(s, bus.mutex.t, b)) &&
    (bus.last.Some? ==> bus.last.value.time <= s.clock)
  }

  ghost predicate LockOk(s: State) {
    !s.regLock.Gone? &&
    (s.regLock.Held? ==> StandsAt(s, s.regLock.t) && s.pcs[s.regLock.t].p.HoldsRegistry()) &&
    (forall t | 0 <= t < |s.pcs| && s.pcs[t].At? && s.pcs[t].p.HoldsRegistry() :: s.regLock == Held(t))
  }

  ghost predicate AttachmentsOk(s: State) {
    RegistryOk(s.reg, s.att) && forall c | c in s.att :: c < |s.ctxs|
  }

  /** All of the invariant but the registry's. */
  ghost predicate Placed(s: State) { ThreadsOk(s) && PairsOk(s) && CtxsOk(s) && BusesOk(s) && LockOk(s) }

  ghost predicate Inv(s: State) { Placed(s) && AttachmentsOk(s) }

  // ---- What a step changes ----

  /** A step of thread t on context c that leaves all other threads and contexts alone. */
  ghost predicate Moves(s: State, s': State, t: nat, c: nat, pc: Pc, x: Ctx) {
    t < |s.pcs| && c < |s.ctxs| && (s.pcs[t].Idle? || s.pcs[t].c == c) &&
    s'.pcs == s.pcs[t := pc] && s'.ctxs == s.ctxs[c := x] && (forall d | d != c :: s'.AttOf(d) == s.AttOf(d)) &&
    (pc.At? ==> pc.c == c && ThreadOk(x, t, pc.p, s'.AttOf(c)))
  }

  /** Where the other threads on context c stand still fits. */
  ghost predicate OthersFit(s: State, s': State, t: nat, c: nat, pc: Pc, x: Ctx) {
    forall u: nat | u != t && PlacedAt(s, u, c) ::
      ThreadOk(x, u, s.pcs[u].p, s'.AttOf(c)) && (pc.At? ==> Compatible(pc.p, s.pcs[u].p, x.initialized)) &&
      (x.initialized && s.pcs[u].p.InDisconnect() ==> ConnectedAt(s, c))
  }

  lemma MoveKeepsThreads(s: State, s': State, t: nat, c: nat, pc: Pc, x: Ctx)
    requires ThreadsOk(s) && Moves(s, s', t, c, pc, x) && OthersFit(s, s', t, c, pc, x)
    ensures ThreadsOk(s')
  {
    forall u | 0 <= u < |s'.pcs| && s'.pcs[u].At?
      ensures s'.pcs[u].c < |s'.ctxs| && ThreadOk(s'.ctxs[s'.pcs[u].c], u, s'.pcs[u].p, s'.AttOf(s'.pcs[u].c))
    {
      if u != t {
        assert s'.pcs[u] == s.pcs[u];
        if s.pcs[u].c == c {
          assert PlacedAt(s, u, c);
        }
      }
    }
  }

  lemma MoveKeepsPairs(s: State, s': State, t: nat, c: nat, pc: Pc, x: Ctx)
    requires PairsOk(s) && Moves(s, s', t, c, pc, x) && OthersFit(s, s', t, c, pc, x)
    ensures PairsOk(s')
  {
    forall u, v | 0 <= u < |s'.pcs| && 0 <= v < |s'.pcs| && u != v && s'.pcs[u].At? && s'.pcs[v].At? &&
                  s'.pcs[u].c == s'.pcs[v].c
      ensures Compatible(s'.pcs[u].p, s'.pcs[v].p, ConnectedAt(s', s'.pcs[u].c))
    {
      if u == t {
        assert PlacedAt(s, v, c);
      } else if v == t {
        assert PlacedAt(s, u, c);
      } else {
        assert Compatible(s.pcs[u].p, s.pcs[v].p, ConnectedAt(s, s.pcs[u].c));
        if s.pcs[u].c == c {
          assert PlacedAt(s, u, c) && PlacedAt(s, v, c);
        }
      }
    }
  }

  lemma MoveKeepsCtxs(s: State, s': State, t: nat, c: nat, pc: Pc, x: Ctx)
    requires CtxsOk(s) && Moves(s, s', t, c, pc, x) && CtxOk(s', c)
    ensures CtxsOk(s')
  {
    forall d | 0 <= d < |s'.ctxs| ensures CtxOk(s', d) {
      if d != c {
        assert CtxOk(s, d) && s'.ctxs[d] == s.ctxs[d] && s'.AttOf(d) == s.AttOf(d);
      }
    }
  }

  lemma MoveKeeps(s: State, s': State, t: nat, c: nat, pc: Pc, x: Ctx)
    requires ThreadsOk(s) && PairsOk(s) && CtxsOk(s)
    requires Moves(s, s', t, c, pc, x) && OthersFit(s, s', t, c, pc, x) && CtxOk(s', c)
    ensures ThreadsOk(s') && PairsOk(s') && CtxsOk(s')
  {
    MoveKeepsThreads(s, s', t, c, pc, x);
    MoveKeepsPairs(s, s', t, c, pc, x);
    MoveKeepsCtxs(s, s', t, c, pc, x);
  }

  /** A step that leaves the registry and the clock alone, and t's bus as it is. */
  lemma QuietKeepsBuses(s: State, s': State, t: nat, pc: Pc)
    requires BusesOk(s) && t < |s.pcs| && s'.pcs == s.pcs[t := pc] && s'.reg == s.reg && s'.clock == s.clock
    requires pc.At? ==> BusThreadOk(s', t, pc.p)
    requires forall b :: InBusAt(s, t, b) <==> InBusAt(s', t, b)
    ensures BusesOk(s')
  {
    forall u | 0 <= u < |s'.pcs| && s'.pcs[u].At? ensures BusThreadOk(s', u, s'.pcs[u].p) {
      if u != t {
        assert s'.pcs[u] == s.pcs[u];
      }
    }
    forall b | b in s'.reg.recs ensures BusOk(s', b, s'.reg.recs[b]) {
      assert BusOk(s, b, s.reg.recs[b]);
    }
  }

  predicate RegistryHolder(pc: Pc) { pc.At? && pc.p.HoldsRegistry() }

  lemma QuietKeepsLock(s: State, s': State, t: nat, pc: Pc)
    requires LockOk(s) && t < |s.pcs| && s'.pcs == s.pcs[t := pc] && s'.regLock == s.regLock && |s'.ctxs| == |s.ctxs|
    requires RegistryHolder(pc) == RegistryHolder(s.pcs[t]) && (pc.At? ==> pc.c < |s.ctxs|)
    ensures LockOk(s')
  {
  }

  /** Next to a thread that holds the context's lock there are only threads on their way to it. */
  lemma OthersWait(s: State, t: nat, c: nat, u: nat)
    requires ThreadsOk(s) && PairsOk(s) && PlacedAt(s, t, c) && PlacedAt(s, u, c) && u != t
    requires s.pcs[t].p.HoldsLock()
    ensures c < |s.ctxs| && s.pcs[u].p.Pending() && s.ctxs[c].initialized && !s.pcs[t].p.TearsDown()
  {
    CompatibleAt(s, t, u);
  }

  lemma CompatibleAt(s: State, t: nat, u: nat)
    requires PairsOk(s) && t < |s.pcs| && u < |s.pcs| && t != u && s.pcs[t].At? && s.pcs[u].At?
    ensures s.pcs[t].c == s.pcs[u].c ==> Compatible(s.pcs[t].p, s.pcs[u].p, ConnectedAt(s, s.pcs[t].c))
  {
  }

  /** A step on a context whose lock the thread holds, inside the call, with no other lock involved. */
  lemma OwnStepKeeps(s: State, s': State, t: nat, c: nat, pc: Pc, x: Ctx)
    requires Placed(s) && PlacedAt(s, t, c) && s.pcs[t].p.HoldsLock()
    requires Moves(s, s', t, c, pc, x) && s' == Move(s, t, pc, c, x) && CtxOk(s', c)
    requires s.ctxs[c].initialized && !s.pcs[t].p.TearsDown() ==> x.initialized
    requires pc.At? && !s.pcs[t].p.TearsDown() ==> pc.p.HoldsLock() && !pc.p.TearsDown()
    requires RegistryHolder(pc) == RegistryHolder(s.pcs[t])
    requires pc.At? ==> BusThreadOk(s', t, pc.p)
    requires forall b :: InBusAt(s, t, b) <==> InBusAt(s', t, b)
    ensures Placed(s')
  {
    forall u: nat | u != t && PlacedAt(s, u, c)
      ensures ThreadOk(x, u, s.pcs[u].p, s'.AttOf(c)) && (pc.At? ==> Compatible(pc.p, s.pcs[u].p, x.initialized))
      ensures x.initialized && s.pcs[u].p.InDisconnect() ==> s.ctxs[c].initialized
    {
      OthersWait(s, t, c, u);
    }
    MoveKeeps(s, s', t, c, pc, x);
    QuietKeepsBuses(s, s', t, pc);
    QuietKeepsLock(s, s', t, pc);
  }

  // ---- Every step keeps the invariant ----

  lemma EnterKeeps(s: State, t: nat, c: nat, op: Op)
    requires Placed(s) && Enabled(s, t, Enter(c, op)) && Allowed(s, Enter(c, op))
    ensures Placed(Do(s, t, Enter(c, op)))
  {
    var s', pc, x := Do(s, t, Enter(c, op)), At(c, Entered(op)), s.ctxs[c];
    assert CtxOk(s, c);
    forall u: nat | u != t && PlacedAt(s, u, c)
      ensures ThreadOk(x, u, s.pcs[u].p, s'.AttOf(c)) && Compatible(pc.p, s.pcs[u].p, x.initialized)
    {
      assert !s.pcs[u].p.InDisconnect();
    }
    assert s' == Move(s, t, pc, c, x);
    MoveKeeps(s, s', t, c, pc, x);
    QuietKeepsBuses(s, s', t, pc);
    QuietKeepsLock(s, s', t, pc);
  }

  lemma TestKeeps(s: State, t: nat)
    requires Placed(s) && Enabled(s, t, Go(Test))
    ensures Placed(Do(s, t, Go(Test)))
  {
    var s', c := Do(s, t, Go(Test)), s.pcs[t].c;
    var pc, x := s'.pcs[t], s'.ctxs[c];
    assert CtxOk(s, c);
    forall u: nat | u != t && PlacedAt(s, u, c)
      ensures ThreadOk(x, u, s.pcs[u].p, s'.AttOf(c)) && (pc.At? ==> Compatible(pc.p, s.pcs[u].p, x.initialized))
    {
      CompatibleAt(s, t, u);
    }
    if s.pcs[t].p.op.Connect? {
      NotSettingUp(s, t, c);
    }
    MoveKeeps(s, s', t, c, pc, x);
    QuietKeepsBuses(s, s', t, pc);
    QuietKeepsLock(s, s', t, pc);
  }

  /** While a connect is at its test, no other connect has the context. */
  lemma NotSettingUp(s: State, t: nat, c: nat)
    requires Placed(s) && PlacedAt(s, t, c) && s.pcs[t].p.Entered? && s.pcs[t].p.op.Connect?
    ensures c < |s.ctxs| && (!s.ctxs[c].initialized ==> s.AttOf(c).None?)
  {
    assert CtxOk(s, c);
    if s.AttOf(c).Some? && !s.ctxs[c].initialized {
      CompatibleAt(s, t, s.ctxs[c].connector);
    }
  }

  lemma TickKeeps(s: State, t: nat, ns: nat)
    requires Placed(s)
    ensures Placed(Do(s, t, Tick(ns)))
  {
    var s' := Do(s, t, Tick(ns));
    forall c | 0 <= c < |s'.ctxs| ensures CtxOk(s', c) {
      assert CtxOk(s, c);
    }
    forall u | 0 <= u < |s'.pcs| && s'.pcs[u].At? ensures BusThreadOk(s', u, s'.pcs[u].p) {
      assert BusThreadOk(s, u, s.pcs[u].p);
    }
    forall b | b in s'.reg.recs ensures BusOk(s', b, s'.reg.recs[b]) {
      assert BusOk(s, b, s.reg.recs[b]);
    }
  }

  lemma LockCtxKeeps(s: State, t: nat)
    requires Placed(s) && Enabled(s, t, Go(LockCtx))
    ensures Placed(Do(s, t, Go(LockCtx)))
  {
    var s', c := Do(s, t, Go(LockCtx)), s.pcs[t].c;
    var pc, x := s'.pcs[t], s'.ctxs[c];
    assert CtxOk(s, c);
    forall u: nat | u != t && PlacedAt(s, u, c)
      ensures ThreadOk(x, u, s.pcs[u].p, s'.AttOf(c)) && Compatible(pc.p, s.pcs[u].p, x.initialized)
    {
      CompatibleAt(s, t, u);
    }
    MoveKeeps(s, s', t, c, pc, x);
    QuietKeepsBuses(s, s', t, pc);
    QuietKeepsLock(s, s', t, pc);
  }

  lemma OwnStepsKeep(s: State, t: nat, step: Step)
    requires step in {RefuseBroadcast, Send, ChangeUnit}
    requires Placed(s) && Enabled(s, t, Go(step))
    ensures Placed(Do(s, t, Go(step)))
  {
    var s', c := Do(s, t, Go(step)), s.pcs[t].c;
    assert CtxOk(s, c);
    OwnStepKeeps(s, s', t, c, s'.pcs[t], s'.ctxs[c]);
  }

  lemma LeavingStepsKeep(s: State, t: nat, step: Step)
    requires step in {UnlockCtx, Clear, UnlockLast}
    requires Placed(s) && Enabled(s, t, Go(step))
    ensures Placed(Do(s, t, Go(step)))
  {
    var s', c := Do(s, t, Go(step)), s.pcs[t].c;
    assert CtxOk(s, c);
    OwnStepKeeps(s, s', t, c, s'.pcs[t], s'.ctxs[c]);
  }

  lemma ReadClockKeeps(s: State, t: nat)
    requires Placed(s) && Enabled(s, t, Go(ReadClock))
    ensures Placed(Do(s, t, Go(ReadClock)))
  {
    var s', c, b := Do(s, t, Go(ReadClock)), s.pcs[t].c, s.pcs[t].p.bus;
    var x, bus := s.ctxs[c], s.reg.recs[b];
    assert CtxOk(s, c) && BusOk(s, b, bus);
    if bus.last.Some? {
      SilenceKept(bus.last.value, x.cfg.unit, InterFrameUs(x.cfg, bus), HandoffMs(x.cfg), s.clock,
                  SilentUntil(x.cfg, bus, s.clock));
    }
    OwnStepKeeps(s, s', t, c, s'.pcs[t], x);
  }

  lemma AloneIsApart(s: State, t: nat, c: nat, u: nat)
    requires PairsOk(s) && PlacedAt(s, t, c) && s.pcs[t].p.TearsDown() && u < |s.pcs| && s.pcs[u].At? && u != t
    ensures s.pcs[u].c != c
  {
    CompatibleAt(s, t, u);
  }

  /** Next to a thread that sets up or tears down a context there are at most others at their test. */
  lemma OthersEntered(s: State, t: nat, c: nat, u: nat)
    requires PairsOk(s) && PlacedAt(s, t, c) && PlacedAt(s, u, c) && u != t
    requires s.pcs[t].p.TearsDown() || s.pcs[t].p.SetsUp()
    ensures s.pcs[t].p.SetsUp() && s.pcs[u].p.Entered? && !s.pcs[u].p.InConnect() && !s.pcs[u].p.InDisconnect()
  {
    CompatibleAt(s, t, u);
  }

  /** A thread that sets up or tears down a context does not disturb others. */
  lemma AloneStepKeeps(s: State, s': State, t: nat, c: nat, pc: Pc, x: Ctx)
    requires ThreadsOk(s) && PairsOk(s) && CtxsOk(s) && PlacedAt(s, t, c)
    requires s.pcs[t].p.TearsDown() || s.pcs[t].p.SetsUp()
    requires Moves(s, s', t, c, pc, x) && CtxOk(s', c)
    requires pc.At? && s.pcs[t].p.SetsUp() ==> pc.p.SetsUp()
    ensures ThreadsOk(s') && PairsOk(s') && CtxsOk(s')
  {
    forall u: nat | u != t && PlacedAt(s, u, c)
      ensures ThreadOk(x, u, s.pcs[u].p, s'.AttOf(c)) && (pc.At? ==> Compatible(pc.p, s.pcs[u].p, x.initialized))
      ensures !s.pcs[u].p.InDisconnect()
    {
      OthersEntered(s, t, c, u);
    }
    MoveKeeps(s, s', t, c, pc, x);
  }

  lemma LastStepsKeep(s: State, t: nat, step: Step)
    requires step in {Destroy, Publish}
    requires Placed(s) && Enabled(s, t, Go(step))
    ensures Placed(Do(s, t, Go(step)))
  {
    var s', c := Do(s, t, Go(step)), s.pcs[t].c;
    assert CtxOk(s, c);
    AloneStepKeeps(s, s', t, c, s'.pcs[t], s'.ctxs[c]);
    QuietKeepsBuses(s, s', t, s'.pcs[t]);
    QuietKeepsLock(s, s', t, s'.pcs[t]);
  }

  lemma LockRegistryKeeps(s: State, t: nat)
    requires Placed(s) && Enabled(s, t, Go(LockRegistry))
    ensures Placed(Do(s, t, Go(LockRegistry)))
  {
    var s', c := Do(s, t, Go(LockRegistry)), s.pcs[t].c;
    assert CtxOk(s, c);
    AloneStepKeeps(s, s', t, c, s'.pcs[t], s'.ctxs[c]);
    QuietKeepsBuses(s, s', t, s'.pcs[t]);
  }

  // Steps on a bus

  lemma LockBusKeeps(s: State, t: nat)
    requires Placed(s) && Enabled(s, t, Go(LockBus))
    ensures Placed(Do(s, t, Go(LockBus)))
  {
    var s', c := Do(s, t, Go(LockBus)), s.pcs[t].c;
    var b := s.ctxs[c].bus.value;
    assert CtxOk(s, c) && BusOk(s, b, s.reg.recs[b]);
    BusStepMoves(s, s', t, c, s'.pcs[t]);
    BusStepKeepsBuses(s, s', t, s'.pcs[t], b);
  }

  lemma EndKeeps(s: State, t: nat)
    requires Placed(s) && Enabled(s, t, Go(End))
    ensures Placed(Do(s, t, Go(End)))
  {
    var s', c, b := Do(s, t, Go(End)), s.pcs[t].c, s.pcs[t].p.bus;
    assert CtxOk(s, c) && BusOk(s, b, s.reg.recs[b]);
    BusStepMoves(s, s', t, c, s'.pcs[t]);
    BusStepKeepsBuses(s, s', t, s'.pcs[t], b);
  }

  lemma BusStepMoves(s: State, s': State, t: nat, c: nat, pc: Pc)
    requires ThreadsOk(s) && PairsOk(s) && CtxsOk(s) && LockOk(s) && PlacedAt(s, t, c)
    requires s.pcs[t].p.HoldsLock() && !s.pcs[t].p.TearsDown()
    requires Moves(s, s', t, c, pc, s.ctxs[c]) && pc.At? && pc.p.HoldsLock() && !pc.p.TearsDown() && CtxOk(s', c)
    requires s'.regLock == s.regLock
    ensures ThreadsOk(s') && PairsOk(s') && CtxsOk(s') && LockOk(s')
  {
    forall u: nat | u != t && PlacedAt(s, u, c)
      ensures ThreadOk(s.ctxs[c], u, s.pcs[u].p, s'.AttOf(c)) && Compatible(pc.p, s.pcs[u].p, s.ctxs[c].initialized)
    {
      OthersWait(s, t, c, u);
    }
    MoveKeeps(s, s', t, c, pc, s.ctxs[c]);
    QuietKeepsLock(s, s', t, pc);
  }

  /** Only t was or is on bus b, and the other records are as they were. */
  lemma BusStepKeepsBuses(s: State, s': State, t: nat, pc: Pc, b: nat)
    requires BusesOk(s) && t < |s.pcs| && s'.pcs == s.pcs[t := pc] && s'.clock == s.clock
    requires b in s.reg.recs && b in s'.reg.recs && s'.reg == Updated(s.reg, b, s'.reg.recs[b])
    requires s.reg.recs[b].mutex.Free? || s.reg.recs[b].mutex == Held(t)
    requires pc.At? ==> BusThreadOk(s', t, pc.p)
    requires BusOk(s', b, s'.reg.recs[b])
    requires forall d | d != b :: InBusAt(s, t, d) <==> InBusAt(s', t, d)
    ensures BusesOk(s')
  {
    forall u | 0 <= u < |s'.pcs| && s'.pcs[u].At? ensures BusThreadOk(s', u, s'.pcs[u].p) {
      if u != t {
        assert s'.pcs[u] == s.pcs[u];
        assert BusThreadOk(s, u, s.pcs[u].p);
      }
    }
    forall d | d in s'.reg.recs ensures BusOk(s', d, s'.reg.recs[d]) {
      if d != b {
        assert BusOk(s, d, s.reg.recs[d]);
      }
    }
  }

  // Steps on the registry

  /** Records keep their mutex and last transaction, new ones have none, and those in use stay. */
  ghost predicate Reshapes(s: State, s': State, t: nat) {
    (forall b | b in s'.reg.recs ::
       if b in s.reg.recs then s'.reg.recs[b] == s.reg.recs[b].(refcnt := s'.reg.recs[b].refcnt)
       else s'.reg.recs[b].mutex.Free? && s'.reg.recs[b].last.None?) &&
    forall u | 0 <= u < |s.pcs| && u != t && s.pcs[u].At? && s.pcs[u].p.InBus() :: s.pcs[u].p.bus in s'.reg.recs
  }

  lemma ReshapeKeepsBuses(s: State, s': State, t: nat, pc: Pc)
    requires BusesOk(s) && t < |s.pcs| && s'.pcs == s.pcs[t := pc] && s'.clock == s.clock && Reshapes(s, s', t)
    requires !(s.pcs[t].At? && s.pcs[t].p.InBus()) && !(pc.At? && pc.p.InBus())
    ensures BusesOk(s')
  {
    forall u | 0 <= u < |s'.pcs| && s'.pcs[u].At? ensures BusThreadOk(s', u, s'.pcs[u].p) {
      if u != t {
        assert BusThreadOk(s, u, s.pcs[u].p);
      }
    }
    forall b | b in s'.reg.recs ensures BusOk(s', b, s'.reg.recs[b]) {
      if b in s.reg.recs {
        assert BusOk(s, b, s.reg.recs[b]);
      }
    }
  }

  /** The registry lock is released by the only thread that can hold it. */
  lemma ReleaseKeepsLock(s: State, s': State, t: nat, pc: Pc)
    requires LockOk(s) && t < |s.pcs| && s'.pcs == s.pcs[t := pc] && s'.regLock.Free?
    requires RegistryHolder(s.pcs[t]) && !RegistryHolder(pc)
    ensures LockOk(s')
  {
  }

  /** A context whose thread is on a bus is attached to it. */
  lemma OnBusAttached(s: State, u: nat)
    requires Placed(s) && u < |s.pcs| && s.pcs[u].At? && s.pcs[u].p.InBus()
    ensures var c := s.pcs[u].c; c in s.att && s.att[c].bus == s.pcs[u].p.bus
  {
    assert CtxOk(s, s.pcs[u].c);
  }

  /** So detaching another context does not free its record. */
  lemma DetachReshapes(s: State, s': State, t: nat, c: nat)
    requires Placed(s) && RegistryOk(s.reg, s.att) && PlacedAt(s, t, c) && s.pcs[t].p.Detaching? && c in s.att
    requires s'.reg == Detach(s.reg, s.att[c].bus)
    ensures Reshapes(s, s', t)
  {
    forall u | 0 <= u < |s.pcs| && u != t && s.pcs[u].At? && s.pcs[u].p.InBus() ensures s.pcs[u].p.bus in s'.reg.recs {
      OnBusAttached(s, u);
      AloneIsApart(s, t, c, u);
      OthersStay(s.reg, s.att, c, s.pcs[u].c);
    }
  }

  lemma DetachMoves(s: State, s': State, t: nat, c: nat)
    requires Placed(s) && Enabled(s, t, Go(DetachBus)) && s' == Do(s, t, Go(DetachBus)) && c == s.pcs[t].c
    ensures ThreadsOk(s') && PairsOk(s') && CtxsOk(s') && LockOk(s')
    ensures c in s.att && s.att[c].bus in s.reg.recs && s'.reg == Detach(s.reg, s.att[c].bus) && s'.att == s.att - {c}
    ensures s.pcs[t].p.Detaching? && s'.clock == s.clock && s'.pcs == s.pcs[t := At(c, Detached)] &&
            |s'.ctxs| == |s.ctxs|
  {
    assert CtxOk(s, c);
    AloneStepKeeps(s, s', t, c, s'.pcs[t], s'.ctxs[c]);
    ReleaseKeepsLock(s, s', t, s'.pcs[t]);
  }

  lemma DetachKeeps(s: State, t: nat)
    requires Inv(s) && Enabled(s, t, Go(DetachBus))
    ensures Inv(Do(s, t, Go(DetachBus)))
  {
    var s', c := Do(s, t, Go(DetachBus)), s.pcs[t].c;
    DetachMoves(s, s', t, c);
    DetachReshapes(s, s', t, c);
    ReshapeKeepsBuses(s, s', t, s'.pcs[t]);
    DetachKeepsRegistry(s.reg, s.att, c);
  }

  lemma AttachReshapes(s: State, s': State, t: nat, cfg: ClientConfig, port: Option<int>)
    requires BusesOk(s) && WellLinked(s.reg) && s'.reg == Attach(s.reg, cfg.key, cfg.settings, port).1
    ensures Reshapes(s, s', t)
  {
    AttachCases(s.reg, cfg.key, cfg.settings, port);
    assert forall u | 0 <= u < |s.pcs| && s.pcs[u].At? :: BusThreadOk(s, u, s.pcs[u].p);
  }

  lemma AttachMoves(s: State, s': State, t: nat, port: Option<int>, c: nat, cfg: ClientConfig)
    requires Placed(s) && Enabled(s, t, Go(AttachBus(port))) && s' == Do(s, t, Go(AttachBus(port)))
    requires c == s.pcs[t].c && cfg == s.pcs[t].p.cfg
    ensures ThreadsOk(s') && PairsOk(s') && CtxsOk(s') && LockOk(s') && c !in s.att && c < |s.ctxs|
    ensures var (got, reg) := Attach(s.reg, cfg.key, cfg.settings, port);
            s'.reg == reg && s'.att == AfterAttach(s.att, c, got, cfg) &&
            s'.clock == s.clock && s'.pcs == s.pcs[t := At(c, Attached(got))] && |s'.ctxs| == |s.ctxs|
    ensures s.pcs[t].p.Attaching? && (port.Some? ==> port.value !in s.reg.openFds)
  {
    assert CtxOk(s, c);
    AloneStepKeeps(s, s', t, c, s'.pcs[t], s'.ctxs[c]);
    ReleaseKeepsLock(s, s', t, s'.pcs[t]);
  }

  lemma AttachKeeps(s: State, t: nat, port: Option<int>)
    requires Inv(s) && Enabled(s, t, Go(AttachBus(port)))
    ensures Inv(Do(s, t, Go(AttachBus(port))))
  {
    var s', c, cfg := Do(s, t, Go(AttachBus(port))), s.pcs[t].c, s.pcs[t].p.cfg;
    AttachMoves(s, s', t, port, c, cfg);
    AttachKeepsBuses(s, s', t, port, c, cfg);
    AttachKeepsAttachments(s, s', c, cfg, port);
  }

  lemma AttachKeepsAttachments(s: State, s': State, c: nat, cfg: ClientConfig, port: Option<int>)
    requires AttachmentsOk(s) && c !in s.att && c < |s.ctxs| && (port.Some? ==> port.value !in s.reg.openFds)
    requires var (got, reg) := Attach(s.reg, cfg.key, cfg.settings, port);
             s'.reg == reg && s'.att == AfterAttach(s.att, c, got, cfg) && |s'.ctxs| == |s.ctxs|
    ensures AttachmentsOk(s')
  {
    AttachedRegistry(s.reg, s.att, c, cfg, port, s'.reg, s'.att);
    assert forall d | d in s'.att :: d == c || d in s.att;
  }

  lemma AttachKeepsBuses(s: State, s': State, t: nat, port: Option<int>, c: nat, cfg: ClientConfig)
    requires BusesOk(s) && WellLinked(s.reg) && t < |s.pcs| && s.pcs[t] == At(c, Attaching(cfg))
    requires var (got, reg) := Attach(s.reg, cfg.key, cfg.settings, port);
             s'.reg == reg && s'.clock == s.clock && s'.pcs == s.pcs[t := At(c, Attached(got))]
    ensures BusesOk(s')
  {
    AttachReshapes(s, s', t, cfg, port);
    ReshapeKeepsBuses(s, s', t, s'.pcs[t]);
  }

  lemma AttachedRegistry(reg: Registry, att: map<nat, Attachment>, c: nat, cfg: ClientConfig, port: Option<int>,
                         reg': Registry, att': map<nat, Attachment>)
    requires RegistryOk(reg, att) && c !in att && (port.Some? ==> port.value !in reg.openFds)
    requires var r := Attach(reg, cfg.key, cfg.settings, port); reg' == r.1 && att' == AfterAttach(att, c, r.0, cfg)
    ensures RegistryOk(reg', att')
  {
    AttachKeepsRegistry(reg, att, c, cfg.key, cfg.settings, port);
  }

  /** The other steps leave the registry as it is, or only touch a mutex. */
  lemma OtherStepsKeepRegistry(s: State, t: nat, a: Action)
    requires AttachmentsOk(s) && Enabled(s, t, a) && !(a.Go? && (a.step.DetachBus? || a.step.AttachBus?))
    ensures AttachmentsOk(Do(s, t, a))
  {
    if a == Go(LockBus) || a == Go(End) {
      BusStepKeepsRegistry(s, t, a.step, Do(s, t, a));
    } else {
      RegistryUntouched(s, t, a);
    }
  }

  lemma RegistryUntouched(s: State, t: nat, a: Action)
    requires Enabled(s, t, a)
    requires a.Go? ==> !a.step.DetachBus? && !a.step.AttachBus? && !a.step.LockBus? && !a.step.End?
    ensures Do(s, t, a).reg == s.reg && Do(s, t, a).att == s.att && |Do(s, t, a).ctxs| == |s.ctxs|
  {
  }

  lemma BusStepKeepsRegistry(s: State, t: nat, step: Step, s': State)
    requires AttachmentsOk(s) && Enabled(s, t, Go(step)) && (step.LockBus? || step.End?) && s' == Do(s, t, Go(step))
    ensures AttachmentsOk(s')
  {
    var b := if step.LockBus? then s.ctxs[s.pcs[t].c].bus.value else s.pcs[t].p.bus;
    TouchKeepsRegistry(s.reg, s.att, b, s'.reg.recs[b], s'.reg);
  }

  /** Every step that the callers' obligations allow keeps the invariant. */
  lemma StepKeepsInv(s: State, t: nat, a: Action)
    requires Inv(s) && Enabled(s, t, a) && Allowed(s, a)
    ensures Inv(Do(s, t, a))
  {
    match a
    case Enter(c, op) => EnterKeeps(s, t, c, op); OtherStepsKeepRegistry(s, t, a);
    case Tick(ns) => TickKeeps(s, t, ns); OtherStepsKeepRegistry(s, t, a);
    case Go(step) => InnerStepKeepsInv(s, t, step);
  }

  lemma InnerStepKeepsInv(s: State, t: nat, step: Step)
    requires Inv(s) && Enabled(s, t, Go(step))
    ensures Inv(Do(s, t, Go(step)))
  {
    match step
    case DetachBus => DetachKeeps(s, t);
    case AttachBus(port) => AttachKeeps(s, t, port);
    case _ =>
      OtherStepsKeepRegistry(s, t, Go(step));
      PlainStepKeeps(s, t, step);
  }

  lemma PlainStepKeeps(s: State, t: nat, step: Step)
    requires Placed(s) && Enabled(s, t, Go(step)) && !step.DetachBus? && !step.AttachBus?
    ensures Placed(Do(s, t, Go(step)))
  {
    match step
    case Test => TestKeeps(s, t);
    case LockCtx => LockCtxKeeps(s, t);
    case LockBus => LockBusKeeps(s, t);
    case ReadClock => ReadClockKeeps(s, t);
    case End => EndKeeps(s, t);
    case LockRegistry => LockRegistryKeeps(s, t);
    case Destroy => LastStepsKeep(s, t, step);
    case Publish => LastStepsKeep(s, t, step);
    case RefuseBroadcast => OwnStepsKeep(s, t, step);
    case Send => OwnStepsKeep(s, t, step);
    case ChangeUnit => OwnStepsKeep(s, t, step);
    case UnlockCtx => LeavingStepsKeep(s, t, step);
    case Clear => LeavingStepsKeep(s, t, step);
    case UnlockLast => LeavingStepsKeep(s, t, step);
  }
}
