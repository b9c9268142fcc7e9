/**
 * The shared-bus registry of src/modbus_rtu_client.c: a linked list of bus records, one for
 * each device in use, with a reference count.  The value functions say what one attach or
 * detach does under the registry lock; the class does it in place.
 */
module BusRegistry {
  import opened Bytes
  import opened BusSilence

  /** A pthread mutex: destroyed or not yet made, free, or held by a thread. */
  datatype Mutex = Gone | Free | Held(t: nat)

  datatype Settings = Settings(baudRate: nat, dataBits: byte, stopBits: byte, parity: nat, rs485Mode: nat)

  /** A serial configuration with its defaults filled in. */
  function Effective(s: Settings): Settings {
    s.(baudRate := if s.baudRate == 0 then 9600 else s.baudRate,
       dataBits := if s.dataBits == 0 then 8 else s.dataBits,
       stopBits := if s.stopBits == 0 then 1 else s.stopBits)
  }

  /** mb_rtu_shared_bus: the settings are effective ones, last is the last transaction's end. */
  datatype Bus = Bus(key: string, fd: int, refcnt: nat, settings: Settings, mutex: Mutex, last: Option<Release>)

  /** The list of record ids, head first, the live records, and the open descriptors. */
  datatype Registry = Registry(list: seq<nat>, recs: map<nat, Bus>, nextId: nat, openFds: set<int>)

  const EMPTY := Registry([], map[], 0, {})

  /** find_bus_locked */
  function Find(list: seq<nat>, recs: map<nat, Bus>, key: string): Option<nat>
    requires forall id | id in list :: id in recs
  {
    if list == [] then None
    else if recs[list[0]].key == key then Some(list[0])
    else Find(list[1..], recs, key)
  }

  /** A new record, linked in front: open_bus_locked and the first reference. */
  function Opened(reg: Registry, key: string, settings: Settings, fd: int): Registry {
    Registry([reg.nextId] + reg.list,
             reg.recs[reg.nextId := Bus(key, fd, 1, Effective(settings), Free, None)],
             reg.nextId + 1,
             reg.openFds + {fd})
  }

  /**
   * shared_bus_attach under the registry lock; port is the descriptor if opening the port (when
   * that is needed) succeeds.
   */
  function Attach(reg: Registry, key: string, settings: Settings, port: Option<int>): (Option<nat>, Registry)
    requires forall id | id in reg.list :: id in reg.recs
  {
    match Find(reg.list, reg.recs, key)
    case Some(id) =>
      FindIsListed(reg.list, reg.recs, key);
      var bus := reg.recs[id];
      if bus.settings != Effective(settings) then (None, reg)
      else (Some(id), reg.(recs := reg.recs[id := bus.(refcnt := bus.refcnt + 1)]))
    case None =>
      if port.None? then (None, reg) else (Some(reg.nextId), Opened(reg, key, settings, port.value))
  }

  function Without(list: seq<nat>, id: nat): seq<nat> {
    if list == [] then []
    else if list[0] == id then list[1..]
    else [list[0]] + Without(list[1..], id)
  }

  /** shared_bus_detach under the registry lock. */
  function Detach(reg: Registry, id: nat): Registry
    requires id in reg.recs
  {
    var bus := reg.recs[id];
    if bus.refcnt > 1 then reg.(recs := reg.recs[id := bus.(refcnt := bus.refcnt - 1)])
    else Registry(Without(reg.list, id), reg.recs - {id}, reg.nextId, reg.openFds - {bus.fd})
  }

  lemma {:induction false} FindIsListed(list: seq<nat>, recs: map<nat, Bus>, key: string)
    requires forall id | id in list :: id in recs
    ensures match Find(list, recs, key)
            case Some(id) => id in list && recs[id].key == key
            case None => forall id | id in list :: recs[id].key != key
  {
    if list != [] && recs[list[0]].key != key {
      FindIsListed(list[1..], recs, key);
    }
  }

  // ---- The invariant ----

  /** What a context asked for when it attached, and the record it got. */
  datatype Attachment = Attachment(bus: nat, key: string, settings: Settings)

  /** The contexts attached to a record. */
  function AttachedTo(att: map<nat, Attachment>, id: nat): set<nat> { set c | c in att && att[c].bus == id }

  predicate NoDuplicates(list: seq<nat>) { forall i, j | 0 <= i < j < |list| :: list[i] != list[j] }

  /** The list holds exactly the live records, once each; ids are never used again. */
  ghost predicate WellLinked(reg: Registry) {
    NoDuplicates(reg.list) && (forall id :: id in reg.list <==> id in reg.recs) &&
    forall id | id in reg.recs :: id < reg.nextId
  }

  /** Keys and descriptors are pairwise distinct, and every descriptor is open. */
  ghost predicate Distinct(reg: Registry) {
    (forall i, j | i in reg.recs && j in reg.recs && i != j ::
       reg.recs[i].key != reg.recs[j].key && reg.recs[i].fd != reg.recs[j].fd) &&
    forall id | id in reg.recs :: reg.recs[id].fd in reg.openFds
  }

  /** Each count is the number of attached contexts, and positive. */
  ghost predicate Counted(reg: Registry, att: map<nat, Attachment>) {
    forall id | id in reg.recs :: reg.recs[id].refcnt == |AttachedTo(att, id)| >= 1
  }

  /** Every attached context has a live record for its device, with its settings. */
  ghost predicate Served(reg: Registry, att: map<nat, Attachment>) {
    forall c | c in att ::
      att[c].bus in reg.recs && reg.recs[att[c].bus].key == att[c].key &&
      reg.recs[att[c].bus].settings == Effective(att[c].settings)
  }

  ghost predicate RegistryOk(reg: Registry, att: map<nat, Attachment>) {
    WellLinked(reg) && Distinct(reg) && Counted(reg, att) && Served(reg, att)
  }

  lemma EmptyOk()
    ensures RegistryOk(EMPTY, map[])
  {
  }

  /** One more context on a record counts one more there and the same elsewhere. */
  lemma OneMoreAttached(att: map<nat, Attachment>, c: nat, a: Attachment)
    requires c !in att
    ensures |AttachedTo(att[c := a], a.bus)| == |AttachedTo(att, a.bus)| + 1
    ensures forall id | id != a.bus :: AttachedTo(att[c := a], id) == AttachedTo(att, id)
  {
    assert AttachedTo(att[c := a], a.bus) == AttachedTo(att, a.bus) + {c};
  }

  lemma OneLessAttached(att: map<nat, Attachment>, c: nat)
    requires c in att
    ensures |AttachedTo(att - {c}, att[c].bus)| == |AttachedTo(att, att[c].bus)| - 1
    ensures forall id | id != att[c].bus :: AttachedTo(att - {c}, id) == AttachedTo(att, id)
  {
    assert AttachedTo(att - {c}, att[c].bus) + {c} == AttachedTo(att, att[c].bus);
  }

  /** A record whose key and descriptor stay. */
  function Updated(reg: Registry, id: nat, bus: Bus): Registry { reg.(recs := reg.recs[id := bus]) }

  lemma UpdateKeepsShape(reg: Registry, id: nat, bus: Bus)
    requires WellLinked(reg) && Distinct(reg) && id in reg.recs
    requires bus.key == reg.recs[id].key && bus.fd == reg.recs[id].fd
    ensures WellLinked(Updated(reg, id, bus)) && Distinct(Updated(reg, id, bus))
  {
    var recs := reg.recs[id := bus];
    assert recs.Keys == reg.recs.Keys;
    assert forall i | i in recs :: recs[i].key == reg.recs[i].key && recs[i].fd == reg.recs[i].fd;
  }

  lemma JoinKeepsRegistry(reg: Registry, att: map<nat, Attachment>, c: nat, a: Attachment, reg': Registry)
    requires RegistryOk(reg, att) && c !in att && a.bus in reg.recs
    requires reg.recs[a.bus].key == a.key && reg.recs[a.bus].settings == Effective(a.settings)
    requires reg' == Updated(reg, a.bus, reg.recs[a.bus].(refcnt := reg.recs[a.bus].refcnt + 1))
    ensures RegistryOk(reg', att[c := a])
  {
    UpdateKeepsShape(reg, a.bus, reg.recs[a.bus].(refcnt := reg.recs[a.bus].refcnt + 1));
    JoinKeepsCounts(reg, att, c, a);
  }

  lemma JoinKeepsCounts(reg: Registry, att: map<nat, Attachment>, c: nat, a: Attachment)
    requires Counted(reg, att) && Served(reg, att) && c !in att && a.bus in reg.recs
    requires reg.recs[a.bus].key == a.key && reg.recs[a.bus].settings == Effective(a.settings)
    ensures var reg' := Updated(reg, a.bus, reg.recs[a.bus].(refcnt := reg.recs[a.bus].refcnt + 1));
            Counted(reg', att[c := a]) && Served(reg', att[c := a])
  {
    OneMoreAttached(att, c, a);
  }

  lemma OpenKeepsLinks(reg: Registry, key: string, settings: Settings, fd: int)
    requires WellLinked(reg)
    ensures WellLinked(Opened(reg, key, settings, fd))
  {
    assert forall i | 0 <= i < |reg.list| :: reg.list[i] in reg.list;
  }

  lemma OpenKeepsDistinct(reg: Registry, key: string, settings: Settings, fd: int)
    requires WellLinked(reg) && Distinct(reg) && fd !in reg.openFds
    requires forall id | id in reg.recs :: reg.recs[id].key != key
    ensures Distinct(Opened(reg, key, settings, fd))
  {
    var reg' := Opened(reg, key, settings, fd);
    assert forall id | id in reg'.recs :: id == reg.nextId || (id in reg.recs && reg'.recs[id] == reg.recs[id]);
  }

  lemma OpenKeepsCounts(reg: Registry, att: map<nat, Attachment>, c: nat, a: Attachment, fd: int)
    requires WellLinked(reg) && Counted(reg, att) && Served(reg, att) && c !in att && a.bus == reg.nextId
    ensures Counted(Opened(reg, a.key, a.settings, fd), att[c := a])
    ensures Served(Opened(reg, a.key, a.settings, fd), att[c := a])
  {
    OneMoreAttached(att, c, a);
    assert AttachedTo(att, a.bus) == {};
  }

  lemma OpenKeepsRegistry(reg: Registry, att: map<nat, Attachment>, c: nat, a: Attachment, fd: int, reg': Registry)
    requires RegistryOk(reg, att) && c !in att && a.bus == reg.nextId && fd !in reg.openFds
    requires forall id | id in reg.recs :: reg.recs[id].key != a.key
    requires reg' == Opened(reg, a.key, a.settings, fd)
    ensures RegistryOk(reg', att[c := a])
  {
    OpenKeepsLinks(reg, a.key, a.settings, fd);
    OpenKeepsDistinct(reg, a.key, a.settings, fd);
    OpenKeepsCounts(reg, att, c, a, fd);
  }

  /** Where an attach finds its record: in the list, for its device, or nowhere. */
  lemma AttachCases(reg: Registry, key: string, settings: Settings, port: Option<int>)
    requires WellLinked(reg)
    ensures var (got, reg') := Attach(reg, key, settings, port);
            if got.None? then reg' == reg
            else if got.value in reg.recs then
              var bus := reg.recs[got.value];
              bus.key == key && bus.settings == Effective(settings) &&
              reg' == Updated(reg, got.value, bus.(refcnt := bus.refcnt + 1))
            else
              port.Some? && got.value == reg.nextId && reg' == Opened(reg, key, settings, port.value) &&
              forall id | id in reg.recs :: reg.recs[id].key != key
  {
    FindIsListed(reg.list, reg.recs, key);
  }

  /** The settings of a record are those asked for, with 9600 baud, 8 data bits and 1 stop bit for 0. */
  predicate Matches(used: Settings, asked: Settings) {
    used.baudRate == (if asked.baudRate == 0 then 9600 else asked.baudRate) &&
    used.dataBits == (if asked.dataBits == 0 then 8 else asked.dataBits) &&
    used.stopBits == (if asked.stopBits == 0 then 1 else asked.stopBits) &&
    used.parity == asked.parity && used.rs485Mode == asked.rs485Mode
  }

  /**
   * When an attach succeeds, and with what: a device in use is shared exactly if the settings
   * match, with one reference more and nothing opened; another device gets a record exactly if
   * its port opens.
   */
  lemma AttachExactly(reg: Registry, key: string, settings: Settings, port: Option<int>)
    requires WellLinked(reg) && Distinct(reg)
    ensures var (got, reg') := Attach(reg, key, settings, port);
            (forall id | id in reg.recs && reg.recs[id].key == key ::
               if Matches(reg.recs[id].settings, settings) then
                 got == Some(id) &&
                 reg' == reg.(recs := reg.recs[id := reg.recs[id].(refcnt := reg.recs[id].refcnt + 1)])
               else got.None? && reg' == reg) &&
            ((forall id | id in reg.recs :: reg.recs[id].key != key) ==> NewRecord(reg, key, settings, port, got, reg'))
  {
    FindIsListed(reg.list, reg.recs, key);
  }

  /** What an attach makes of a device that is not in use. */
  ghost predicate NewRecord(reg: Registry, key: string, settings: Settings, port: Option<int>, got: Option<nat>,
                            reg': Registry) {
    if port.None? then got.None? && reg' == reg
    else
      got.Some? && got.value !in reg.recs && got.value in reg'.recs &&
      reg'.list == [got.value] + reg.list && reg'.openFds == reg.openFds + {port.value} &&
      var bus := reg'.recs[got.value];
      reg'.recs == reg.recs[got.value := bus] && bus.key == key && bus.fd == port.value && bus.refcnt == 1 &&
      Matches(bus.settings, settings) && bus.mutex.Free? && bus.last.None?
  }

  /**
   * An attach keeps the invariant: it gives the context the live record of its device, or a
   * new one, or nothing if the settings differ or the port does not open.
   */
  lemma AttachKeepsRegistry(reg: Registry, att: map<nat, Attachment>, c: nat, key: string, settings: Settings,
                            port: Option<int>)
    requires RegistryOk(reg, att) && c !in att && (port.Some? ==> port.value !in reg.openFds)
    ensures var (got, reg') := Attach(reg, key, settings, port);
            (got.None? ==> reg' == reg) &&
            (got.Some? ==> RegistryOk(reg', att[c := Attachment(got.value, key, settings)]))
  {
    AttachCases(reg, key, settings, port);
    var (got, reg') := Attach(reg, key, settings, port);
    if got.Some? && got.value in reg.recs {
      JoinKeepsRegistry(reg, att, c, Attachment(got.value, key, settings), reg');
    } else if got.Some? {
      OpenKeepsRegistry(reg, att, c, Attachment(got.value, key, settings), port.value, reg');
    }
  }

  lemma LeaveKeepsRegistry(reg: Registry, att: map<nat, Attachment>, c: nat)
    requires RegistryOk(reg, att) && c in att && reg.recs[att[c].bus].refcnt > 1
    ensures RegistryOk(Detach(reg, att[c].bus), att - {c})
  {
    UpdateKeepsShape(reg, att[c].bus, reg.recs[att[c].bus].(refcnt := reg.recs[att[c].bus].refcnt - 1));
    LeaveKeepsCounts(reg, att, c);
  }

  lemma LeaveKeepsCounts(reg: Registry, att: map<nat, Attachment>, c: nat)
    requires Counted(reg, att) && Served(reg, att) && c in att && reg.recs[att[c].bus].refcnt > 1
    ensures Counted(Detach(reg, att[c].bus), att - {c}) && Served(Detach(reg, att[c].bus), att - {c})
  {
    OneLessAttached(att, c);
  }

  lemma FreeKeepsDistinct(reg: Registry, id: nat)
    requires Distinct(reg) && id in reg.recs && reg.recs[id].refcnt <= 1
    ensures Distinct(Detach(reg, id))
  {
    var reg' := Detach(reg, id);
    assert forall i | i in reg'.recs :: i in reg.recs && i != id && reg'.recs[i] == reg.recs[i];
  }

  lemma FreeKeepsRegistry(reg: Registry, att: map<nat, Attachment>, c: nat)
    requires RegistryOk(reg, att) && c in att && reg.recs[att[c].bus].refcnt == 1
    ensures RegistryOk(Detach(reg, att[c].bus), att - {c})
  {
    WithoutRemoves(reg.list, att[c].bus);
    FreeKeepsDistinct(reg, att[c].bus);
    OneLessAttached(att, c);
    LastAttached(att, c);
  }

  /** A detach keeps the invariant; the port is closed and the record freed exactly at the last one. */
  lemma DetachKeepsRegistry(reg: Registry, att: map<nat, Attachment>, c: nat)
    requires RegistryOk(reg, att) && c in att
    ensures var id, reg' := att[c].bus, Detach(reg, att[c].bus);
            RegistryOk(reg', att - {c}) &&
            (id !in reg'.recs <==> AttachedTo(att, id) == {c}) &&
            (reg.recs[id].fd !in reg'.openFds <==> AttachedTo(att, id) == {c})
  {
    LastAttached(att, c);
    if reg.recs[att[c].bus].refcnt == 1 {
      FreeKeepsRegistry(reg, att, c);
    } else {
      LeaveKeepsRegistry(reg, att, c);
    }
  }

  /** Detaching one context does not free the record of another one. */
  lemma OthersStay(reg: Registry, att: map<nat, Attachment>, c: nat, d: nat)
    requires RegistryOk(reg, att) && c in att && d in att && c != d
    ensures att[d].bus in Detach(reg, att[c].bus).recs
  {
    LastAttached(att, c);
  }

  lemma LastAttached(att: map<nat, Attachment>, c: nat)
    requires c in att
    ensures |AttachedTo(att, att[c].bus)| == 1 <==> AttachedTo(att, att[c].bus) == {c}
    ensures |AttachedTo(att, att[c].bus)| == 1 ==> forall d | d in att && att[d].bus == att[c].bus :: d == c
  {
    var all := AttachedTo(att, att[c].bus);
    assert all == {c} + (all - {c});
    if |all| == 1 {
      assert all - {c} == {};
      assert forall d | d in att && att[d].bus == att[c].bus :: d in all;
    }
  }

  lemma {:induction false} WithoutRemoves(list: seq<nat>, id: nat)
    requires NoDuplicates(list)
    ensures NoDuplicates(Without(list, id))
    ensures forall x :: x in Without(list, id) <==> x in list && x != id
  {
    if list != [] {
      assert forall x :: x in list <==> x == list[0] || x in list[1..];
      assert list[0] !in list[1..];
      if list[0] != id {
        WithoutRemoves(list[1..], id);
      }
    }
  }

  /** All contexts on one device share one record and agree on their effective settings. */
  lemma SameDeviceSameBus(reg: Registry, att: map<nat, Attachment>, c: nat, d: nat)
    requires RegistryOk(reg, att) && c in att && d in att
    ensures att[c].key == att[d].key <==> att[c].bus == att[d].bus
    ensures att[c].bus == att[d].bus ==> Effective(att[c].settings) == Effective(att[d].settings)
  {
  }

  /** Taking the mutex or noting the end of a transaction does not concern the registry. */
  lemma TouchKeepsRegistry(reg: Registry, att: map<nat, Attachment>, id: nat, bus: Bus, reg': Registry)
    requires RegistryOk(reg, att) && id in reg.recs && reg' == Updated(reg, id, bus)
    requires bus == reg.recs[id].(mutex := bus.mutex, last := bus.last)
    ensures RegistryOk(reg', att)
  {
    UpdateKeepsShape(reg, id, bus);
    TouchKeepsCounts(reg, att, id, bus);
  }

  lemma TouchKeepsCounts(reg: Registry, att: map<nat, Attachment>, id: nat, bus: Bus)
    requires Counted(reg, att) && Served(reg, att) && id in reg.recs
    requires bus == reg.recs[id].(mutex := bus.mutex, last := bus.last)
    ensures Counted(Updated(reg, id, bus), att) && Served(Updated(reg, id, bus), att)
  {
  }

  // ---- In place ----

  /** shared_buses and its records, as the process holds them. */
  class SharedBuses {
    var list: seq<nat>
    var recs: map<nat, Bus>
    var nextId: nat
    var openFds: set<int>

    ghost predicate Valid()
      reads this
    {
      WellLinked(Value())
    }

    ghost function Value(): Registry
      reads this
    {
      Registry(list, recs, nextId, openFds)
    }

    constructor ()
      ensures Valid() && Value() == EMPTY
    {
      list, recs, nextId, openFds := [], map[], 0, {};
    }

    /** find_bus_locked: walk the list. */
    method FindBus(key: string) returns (found: Option<nat>)
      requires Valid()
      ensures found == Find(list, recs, key)
    {
      var i := 0;
      while i < |list|
        invariant 0 <= i <= |list|
        invariant Find(list, recs, key) == Find(list[i..], recs, key)
      {
        if recs[list[i]].key == key {
          return Some(list[i]);
        }
        assert list[i..][1..] == list[i + 1..];
        i := i + 1;
      }
      return None;
    }

    /** shared_bus_attach; port is the descriptor if the port opens. */
    method AttachBus(key: string, settings: Settings, port: Option<int>) returns (got: Option<nat>)
      requires Valid()
      modifies this
      ensures Valid() && (got, Value()) == Attach(old(Value()), key, settings, port)
    {
      ghost var before := Value();
      got := FindBus(key);
      FindIsListed(list, recs, key);
      if got.Some? {
        var bus := recs[got.value];
        if bus.settings != Effective(settings) {
          return None;
        }
        recs := recs[got.value := bus.(refcnt := bus.refcnt + 1)];
      } else if port.Some? {
        OpenKeepsLinks(before, key, settings, port.value);
        got := Some(nextId);
        recs := recs[nextId := Bus(key, port.value, 1, Effective(settings), Free, None)];
        list, nextId, openFds := [nextId] + list, nextId + 1, openFds + {port.value};
      }
    }

    /** shared_bus_detach */
    method DetachBus(id: nat)
      requires Valid() && id in recs
      modifies this
      ensures Valid() && Value() == Detach(old(Value()), id)
    {
      var bus := recs[id];
      var refcnt := if bus.refcnt > 0 then bus.refcnt - 1 else 0;
      if refcnt == 0 {
        WithoutRemoves(list, id);
        Unlink(id);
        openFds := openFds - {bus.fd};
        recs := recs - {id};
      } else {
        recs := recs[id := bus.(refcnt := refcnt)];
      }
    }

    /** The loop of shared_bus_detach: unlink the first node that is the record. */
    method Unlink(id: nat)
      modifies this`list
      ensures list == Without(old(list), id)
    {
      var i := 0;
      while i < |list|
        invariant 0 <= i <= |list| && list == old(list)
        invariant Without(list, id) == list[..i] + Without(list[i..], id)
      {
        if list[i] == id {
          assert list[i..][1..] == list[i + 1..];
          list := list[..i] + list[i + 1..];
          return;
        }
        assert list[i..][1..] == list[i + 1..];
        Associative(list[..i], [list[i]], Without(list[i + 1..], id));
        i := i + 1;
      }
    }
  }
}
