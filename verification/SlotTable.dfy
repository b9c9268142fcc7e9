/**
 * The loop of mb_tcp_server_thread in src/modbus_tcp.c: one select call and what follows it,
 * over a fixed array of client sockets in which -1 is a free slot.
 */
module SlotTable {
  import opened Bytes

  const FD_SETSIZE := 1024

  /** What accept returned: an error, or a socket that was not open before. */
  datatype Accepted = AcceptError | Socket(fd: int)

  /**
   * What one round meets.  Fails: select fails, not by a signal.  Nothing: no activity, and the
   * peers of the sockets in `gone` have closed.  Active: the listening socket is ready or not,
   * some sockets are readable, and on_process fails for those in `failing`.  (After a signal
   * the sets are whatever select left, which Active covers.)
   */
  datatype Round =
    | Fails
    | Nothing(gone: set<int>)
    | Active(listen: bool, accepted: Accepted, readable: set<int>, failing: set<int>)

  /** An on_link callback. */
  datatype Link = Up(fd: int) | Down(fd: int)

  datatype Table = Table(fds: seq<int>, open: set<int>, links: seq<Link>)

  /** The sockets in the slots. */
  function Occupied(fds: seq<int>): set<int> { set fd | fd in fds && fd >= 0 }

  /** One pass over the slots that closes the sockets in bad. */
  function Swept(fds: seq<int>, bad: set<int>): (r: seq<int>)
    ensures |r| == |fds|
  {
    if fds == [] then []
    else [if fds[0] >= 0 && fds[0] in bad then -1 else fds[0]] + Swept(fds[1..], bad)
  }

  /** The link-down callbacks of that pass, in slot order. */
  function Downs(fds: seq<int>, bad: set<int>): seq<Link> {
    if fds == [] then []
    else (if fds[0] >= 0 && fds[0] in bad then [Down(fds[0])] else []) + Downs(fds[1..], bad)
  }

  function Sweep(t: Table, bad: set<int>): Table {
    Table(Swept(t.fds, bad), t.open - (Occupied(t.fds) * bad), t.links + Downs(t.fds, bad))
  }

  /** The first free slot, or the length. */
  function FreeSlot(fds: seq<int>): (i: nat)
    ensures i <= |fds|
    ensures i < |fds| ==> fds[i] < 0
    ensures forall j | 0 <= j < i :: fds[j] >= 0
  {
    if fds == [] || fds[0] < 0 then 0 else 1 + FreeSlot(fds[1..])
  }

  /** A ready listening socket: the new table, or none if the round ends here. */
  function AfterAccept(t: Table, a: Accepted): (Table, bool) {
    if a.AcceptError? || a.fd >= FD_SETSIZE || FreeSlot(t.fds) == |t.fds| then (t, false)
    else (Table(t.fds[FreeSlot(t.fds) := a.fd], t.open + {a.fd}, t.links + [Up(a.fd)]), true)
  }

  /** One round of the loop. */
  function Iterate(t: Table, r: Round): Table {
    match r
    case Fails => t
    case Nothing(gone) => Sweep(t, gone)
    case Active(listen, accepted, readable, failing) =>
      var bad := readable * Occupied(t.fds) * failing;
      if !listen then Sweep(t, bad)
      else
        var (t', goOn) := AfterAccept(t, accepted);
        if goOn then Sweep(t', bad) else t'
  }

  // ---- The invariant ----

  predicate DistinctSockets(fds: seq<int>) {
    forall i, j | 0 <= i < j < |fds| && fds[i] >= 0 && fds[j] >= 0 :: fds[i] != fds[j]
  }

  /** The sockets reported up and not yet down again. */
  function Linked(links: seq<Link>): set<int> {
    if links == [] then {}
    else
      var before, last := Linked(links[..|links| - 1]), links[|links| - 1];
      if last.Up? then before + {last.fd} else before - {last.fd}
  }

  /** No socket is reported up twice in a row, or down without having been up. */
  predicate Alternates(links: seq<Link>) {
    links == [] ||
    var before, last := links[..|links| - 1], links[|links| - 1];
    Alternates(before) && (last.Up? <==> last.fd !in Linked(before))
  }

  /** Slots hold distinct open sockets that select can watch, which are those reported up. */
  predicate TableOk(t: Table) {
    DistinctSockets(t.fds) && Occupied(t.fds) == t.open == Linked(t.links) && Alternates(t.links) &&
    forall fd | fd in t.open :: fd < FD_SETSIZE
  }

  /** accept returns a socket that is not open. */
  predicate Fits(t: Table, r: Round) {
    r.Active? && r.listen && r.accepted.Socket? ==> r.accepted.fd >= 0 && r.accepted.fd !in t.open
  }

  lemma SweepStep(fds: seq<int>, bad: set<int>)
    requires fds != []
    ensures Occupied(fds) == Occupied(fds[1..]) + if fds[0] >= 0 then {fds[0]} else {}
  {
    assert forall fd :: fd in fds <==> fd == fds[0] || fd in fds[1..];
  }

  /** A pass keeps the sockets distinct and frees exactly the slots of the bad ones. */
  lemma {:induction false} SweptSlots(fds: seq<int>, bad: set<int>)
    requires DistinctSockets(fds)
    ensures var r := Swept(fds, bad);
            DistinctSockets(r) && Occupied(r) == Occupied(fds) - bad &&
            forall i | 0 <= i < |fds| :: r[i] == if fds[i] >= 0 && fds[i] in bad then -1 else fds[i]
  {
    if fds != [] {
      SweptSlots(fds[1..], bad);
      SweepStep(fds, bad);
      SweepStep(Swept(fds, bad), bad);
      assert Swept(fds, bad)[1..] == Swept(fds[1..], bad);
      FirstIsApart(fds);
    }
  }

  lemma OneMoreLink(links: seq<Link>, l: Link)
    ensures Linked(links + [l]) == if l.Up? then Linked(links) + {l.fd} else Linked(links) - {l.fd}
    ensures Alternates(links + [l]) <==> Alternates(links) && (l.Up? <==> l.fd !in Linked(links))
  {
    assert (links + [l])[..|links|] == links;
  }

  /** The link-down callbacks of a pass are one for each bad socket, all of them up before. */
  lemma {:induction false} DownsMatch(links: seq<Link>, fds: seq<int>, bad: set<int>)
    requires Alternates(links) && DistinctSockets(fds) && Occupied(fds) <= Linked(links)
    ensures Alternates(links + Downs(fds, bad)) &&
            Linked(links + Downs(fds, bad)) == Linked(links) - Occupied(fds) * bad
    decreases |fds|
  {
    if fds == [] {
      assert links + Downs(fds, bad) == links;
    } else {
      SweepStep(fds, bad);
      if fds[0] >= 0 && fds[0] in bad {
        var links' := links + [Down(fds[0])];
        OneMoreLink(links, Down(fds[0]));
        FirstIsApart(fds);
        DownsMatch(links', fds[1..], bad);
        Associative(links, [Down(fds[0])], Downs(fds[1..], bad));
        RemoveOneMore(Linked(links), Occupied(fds[1..]), bad, fds[0]);
      } else {
        DownsMatch(links, fds[1..], bad);
        assert Downs(fds, bad) == Downs(fds[1..], bad);
      }
    }
  }

  lemma FirstIsApart(fds: seq<int>)
    requires fds != [] && DistinctSockets(fds)
    ensures DistinctSockets(fds[1..]) && (fds[0] >= 0 ==> fds[0] !in Occupied(fds[1..]))
  {
    assert forall i | 0 <= i < |fds[1..]| :: fds[1..][i] == fds[i + 1];
  }

  lemma RemoveOneMore(all: set<int>, some: set<int>, bad: set<int>, fd: int)
    requires fd in bad
    ensures all - {fd} - some * bad == all - (some + {fd}) * bad
  {
  }

  lemma SweepKeeps(t: Table, bad: set<int>)
    requires TableOk(t)
    ensures TableOk(Sweep(t, bad)) && |Sweep(t, bad).fds| == |t.fds|
  {
    SweptSlots(t.fds, bad);
    DownsMatch(t.links, t.fds, bad);
  }

  lemma AcceptKeeps(t: Table, a: Accepted)
    requires TableOk(t) && (a.Socket? ==> a.fd >= 0 && a.fd !in t.open)
    ensures TableOk(AfterAccept(t, a).0) && |AfterAccept(t, a).0.fds| == |t.fds|
  {
    var i := FreeSlot(t.fds);
    if AfterAccept(t, a).1 {
      var fds := t.fds[i := a.fd];
      OneMoreLink(t.links, Up(a.fd));
      FilledSlot(t.fds, i, a.fd);
    }
  }

  /** Filling a free slot adds one socket. */
  lemma FilledSlot(fds: seq<int>, i: nat, fd: int)
    requires i < |fds| && fds[i] < 0 && fd >= 0
    ensures Occupied(fds[i := fd]) == Occupied(fds) + {fd}
    ensures DistinctSockets(fds) && fd !in Occupied(fds) ==> DistinctSockets(fds[i := fd])
  {
    var fds' := fds[i := fd];
    assert fds'[i] == fd && forall k | 0 <= k < |fds| && k != i :: fds'[k] == fds[k];
    forall x | x in fds && x >= 0 ensures x in fds' {
      var k :| 0 <= k < |fds| && fds[k] == x;
      assert fds'[k] == x;
    }
  }

  /** One round keeps the invariant, whatever it meets. */
  lemma IterateKeeps(t: Table, r: Round)
    requires TableOk(t) && Fits(t, r)
    ensures TableOk(Iterate(t, r)) && |Iterate(t, r).fds| == |t.fds|
  {
    match r
    case Fails =>
    case Nothing(gone) => SweepKeeps(t, gone);
    case Active(listen, accepted, readable, failing) =>
      var bad := readable * Occupied(t.fds) * failing;
      if listen {
        AcceptKeeps(t, accepted);
        SweepKeeps(AfterAccept(t, accepted).0, bad);
      } else {
        SweepKeeps(t, bad);
      }
  }

  /** Whether an accepted socket gets a slot: one that select can watch, while a slot is free. */
  predicate Enters(t: Table, r: Round) {
    r.Active? && r.listen && r.accepted.Socket? && r.accepted.fd < 1024 && exists i | 0 <= i < |t.fds| :: t.fds[i] < 0
  }

  /** The sockets that a round closes: a failing one only if the round does not end at accept. */
  function Closing(t: Table, r: Round): set<int> {
    match r
    case Fails => {}
    case Nothing(gone) => gone * Occupied(t.fds)
    case Active(listen, _, readable, failing) =>
      if listen && !Enters(t, r) then {} else readable * failing * Occupied(t.fds)
  }

  /** The first free slot takes the accepted socket. */
  predicate TakesFirstFree(fds: seq<int>, fds': seq<int>, fd: int) {
    |fds'| == |fds| &&
    exists i | 0 <= i < |fds| ::
      fds[i] < 0 && fds'[i] == fd && (forall j | 0 <= j < i :: fds[j] >= 0) &&
      forall j | 0 <= j < |fds| && j != i :: fds'[j] == fds[j]
  }

  /**
   * What one round does to the slots: the sockets of peers that are gone, and those on which
   * on_process fails, are closed and reported down; an accepted socket takes the first free slot
   * and is reported up; all others stay.
   */
  lemma RoundExactly(t: Table, r: Round)
    requires TableOk(t) && Fits(t, r)
    ensures var t', closing := Iterate(t, r), Closing(t, r);
            t'.open == Occupied(t'.fds) == Linked(t'.links) &&
            (!Enters(t, r) ==> t'.open == t.open - closing && SlotsAfter(t.fds, t'.fds, closing)) &&
            (Enters(t, r) ==>
               t'.open == t.open + {r.accepted.fd} - closing &&
               exists fds :: TakesFirstFree(t.fds, fds, r.accepted.fd) && SlotsAfter(fds, t'.fds, closing))
  {
    IterateKeeps(t, r);
    if Enters(t, r) {
      EnteringRound(t, r);
    } else {
      OtherRound(t, r);
    }
  }

  lemma EnteringRound(t: Table, r: Round)
    requires TableOk(t) && Fits(t, r) && Enters(t, r)
    ensures var t', closing := Iterate(t, r), Closing(t, r);
            t'.open == t.open + {r.accepted.fd} - closing &&
            exists fds :: TakesFirstFree(t.fds, fds, r.accepted.fd) && SlotsAfter(fds, t'.fds, closing)
  {
    var placed := AfterAccept(t, r.accepted).0;
    var bad := r.readable * Occupied(t.fds) * r.failing;
    AcceptKeeps(t, r.accepted);
    EntersFirstFree(t, r.accepted.fd);
    SweptExactly(placed, bad);
    assert bad * Occupied(placed.fds) == Closing(t, r);
  }

  lemma OtherRound(t: Table, r: Round)
    requires TableOk(t) && Fits(t, r) && !Enters(t, r)
    ensures var t', closing := Iterate(t, r), Closing(t, r);
            t'.open == t.open - closing && SlotsAfter(t.fds, t'.fds, closing)
  {
    match r
    case Fails =>
    case Nothing(gone) => SweptExactly(t, gone);
    case Active(listen, accepted, readable, failing) =>
      if listen {
        assert t.fds == Iterate(t, r).fds;
      } else {
        var bad := readable * Occupied(t.fds) * failing;
        SweptExactly(t, bad);
        assert bad * Occupied(t.fds) == Closing(t, r);
      }
  }

  ghost predicate SlotsAfter(fds: seq<int>, fds': seq<int>, closing: set<int>) {
    |fds'| == |fds| && forall i | 0 <= i < |fds| :: fds'[i] == if fds[i] >= 0 && fds[i] in closing then -1 else fds[i]
  }

  lemma SweptExactly(t: Table, bad: set<int>)
    requires TableOk(t)
    ensures var t' := Sweep(t, bad);
            t'.open == t.open - bad * Occupied(t.fds) && SlotsAfter(t.fds, t'.fds, bad * Occupied(t.fds))
  {
    SweptSlots(t.fds, bad);
  }

  lemma EntersFirstFree(t: Table, fd: int)
    requires exists i | 0 <= i < |t.fds| :: t.fds[i] < 0
    requires fd < 1024
    ensures AfterAccept(t, Socket(fd)).1
    ensures AfterAccept(t, Socket(fd)).0.open == t.open + {fd}
    ensures TakesFirstFree(t.fds, AfterAccept(t, Socket(fd)).0.fds, fd)
  {
    var i := FreeSlot(t.fds);
    assert t.fds[i] < 0 && t.fds[i := fd][i] == fd;
  }

  // ---- Runs ----

  /** How a started server begins: all slots free. */
  function Started(cap: nat): Table { Table(seq(cap, _ => -1), {}, []) }

  function Rounds(t: Table, rounds: seq<Round>): Table
    decreases |rounds|
  {
    if rounds == [] then t else Rounds(Iterate(t, rounds[0]), rounds[1..])
  }

  predicate AllFit(t: Table, rounds: seq<Round>)
    decreases |rounds|
  {
    rounds == [] || (Fits(t, rounds[0]) && AllFit(Iterate(t, rounds[0]), rounds[1..]))
  }

  lemma {:induction false} RoundsKeep(t: Table, rounds: seq<Round>)
    requires TableOk(t) && AllFit(t, rounds)
    ensures TableOk(Rounds(t, rounds)) && |Rounds(t, rounds).fds| == |t.fds|
    decreases |rounds|
  {
    if rounds != [] {
      IterateKeeps(t, rounds[0]);
      RoundsKeep(Iterate(t, rounds[0]), rounds[1..]);
    }
  }

  function OccupiedSlots(fds: seq<int>): nat {
    if fds == [] then 0 else OccupiedSlots(fds[1..]) + if fds[0] >= 0 then 1 else 0
  }

  function UpCount(links: seq<Link>): nat {
    if links == [] then 0 else UpCount(links[..|links| - 1]) + if links[|links| - 1].Up? then 1 else 0
  }

  function DownCount(links: seq<Link>): nat {
    if links == [] then 0 else DownCount(links[..|links| - 1]) + if links[|links| - 1].Down? then 1 else 0
  }

  lemma {:induction false} SlotsAreSockets(fds: seq<int>)
    requires DistinctSockets(fds)
    ensures OccupiedSlots(fds) == |Occupied(fds)| <= |fds|
  {
    if fds != [] {
      SlotsAreSockets(fds[1..]);
      SweepStep(fds, {});
      assert fds[0] >= 0 ==> fds[0] !in Occupied(fds[1..]);
    }
  }

  lemma {:induction false} UpsMinusDowns(links: seq<Link>)
    requires Alternates(links)
    ensures UpCount(links) == DownCount(links) + |Linked(links)|
    decreases |links|
  {
    if links != [] {
      UpsMinusDowns(links[..|links| - 1]);
    }
  }

  /**
   * Over every run of the server loop: the occupied slots hold pairwise distinct open sockets,
   * which are all the client sockets open, at most as many as there are slots; and link-up
   * callbacks minus link-down callbacks is the number of occupied slots.
   */
  lemma RunOfServerLoop(cap: nat, rounds: seq<Round>)
    requires AllFit(Started(cap), rounds)
    ensures var t := Rounds(Started(cap), rounds);
            DistinctSockets(t.fds) && Occupied(t.fds) == t.open && |t.open| <= |t.fds| == cap &&
            Alternates(t.links) && UpCount(t.links) == DownCount(t.links) + OccupiedSlots(t.fds)
  {
    RoundsKeep(Started(cap), rounds);
    var t := Rounds(Started(cap), rounds);
    SlotsAreSockets(t.fds);
    UpsMinusDowns(t.links);
  }

  // ---- In place ----

  /** The pass has dealt with the slots in done; the rest of it leads to goal. */
  ghost predicate SweptSoFar(done: seq<int>, rest: seq<int>, open: set<int>, links: seq<Link>, bad: set<int>,
                             goal: Table) {
    goal == Table(done + Swept(rest, bad), open - Occupied(rest) * bad, links + Downs(rest, bad))
  }

  lemma SweepOneSlot(done: seq<int>, rest: seq<int>, open: set<int>, links: seq<Link>, bad: set<int>, goal: Table)
    requires rest != [] && SweptSoFar(done, rest, open, links, bad, goal)
    ensures if rest[0] >= 0 && rest[0] in bad then
              SweptSoFar(done + [-1], rest[1..], open - {rest[0]}, links + [Down(rest[0])], bad, goal)
            else SweptSoFar(done + [rest[0]], rest[1..], open, links, bad, goal)
  {
    var x := rest[0];
    SweepStep(rest, bad);
    if x >= 0 && x in bad {
      RemoveOneMore(open, Occupied(rest[1..]), bad, x);
      Associative(done, [-1], Swept(rest[1..], bad));
      Associative(links, [Down(x)], Downs(rest[1..], bad));
    } else {
      assert Downs(rest, bad) == Downs(rest[1..], bad);
      assert Occupied(rest) * bad == Occupied(rest[1..]) * bad;
      Associative(done, [x], Swept(rest[1..], bad));
    }
  }

  class TcpServerLoop {
    const clientFds: array<int>
    var open: set<int>
    var links: seq<Link>

    ghost function Value(): Table
      reads this, clientFds
    {
      Table(clientFds[..], open, links)
    }

    constructor (cap: nat)
      ensures Value() == Started(cap) && fresh(clientFds)
    {
      clientFds := new int[cap](_ => -1);
      open, links := {}, [];
    }

    /** One pass: close the socket in every slot that is in bad. */
    method CloseAll(bad: set<int>)
      modifies this`open, this`links, clientFds
      ensures Value() == Sweep(old(Value()), bad)
    {
      ghost var fds, goal := clientFds[..], Sweep(Value(), bad);
      var i := 0;
      assert clientFds[..0] + Swept(fds, bad) == Swept(fds, bad);
      while i < clientFds.Length
        invariant 0 <= i <= clientFds.Length
        invariant clientFds[i..] == fds[i..]
        invariant SweptSoFar(clientFds[..i], fds[i..], open, links, bad, goal)
      {
        assert fds[i..][0] == clientFds[i] && fds[i..][1..] == fds[i + 1..];
        CloseOne(i, bad, fds[i..], goal);
        i := i + 1;
      }
      assert clientFds[..i] == clientFds[..];
    }

    /** One slot of the pass. */
    method CloseOne(i: nat, bad: set<int>, ghost rest: seq<int>, ghost goal: Table)
      requires i < clientFds.Length && rest != [] && rest[0] == clientFds[i]
      requires SweptSoFar(clientFds[..i], rest, open, links, bad, goal)
      modifies this`open, this`links, clientFds
      ensures SweptSoFar(clientFds[..i + 1], rest[1..], open, links, bad, goal)
      ensures clientFds[i + 1..] == old(clientFds[i + 1..])
    {
      ghost var done := clientFds[..i];
      var sd := clientFds[i];
      SweepOneSlot(done, rest, open, links, bad, goal);
      if sd >= 0 && sd in bad {
        clientFds[i] := -1;
        open := open - {sd};
        links := links + [Down(sd)];
      }
      assert clientFds[..i + 1] == done + [clientFds[i]];
    }

    /** Put an accepted socket into the first free slot. */
    method Place(fd: int) returns (placed: bool)
      modifies clientFds
      ensures var i := FreeSlot(old(clientFds[..]));
              if i < clientFds.Length then placed && clientFds[..] == old(clientFds[..])[i := fd]
              else !placed && clientFds[..] == old(clientFds[..])
    {
      var i := 0;
      while i < clientFds.Length
        invariant 0 <= i <= clientFds.Length && clientFds[..] == old(clientFds[..])
        invariant forall j | 0 <= j < i :: clientFds[j] >= 0
      {
        if clientFds[i] < 0 {
          FirstFree(clientFds[..], i);
          clientFds[i] := fd;
          return true;
        }
        i := i + 1;
      }
      FirstFree(clientFds[..], i);
      return false;
    }

    /** One round of the loop after select has returned. */
    method RunOnce(r: Round)
      requires TableOk(Value()) && Fits(Value(), r)
      modifies this`open, this`links, clientFds
      ensures Value() == Iterate(old(Value()), r) && TableOk(Value())
    {
      IterateKeeps(Value(), r);
      match r {
        case Fails =>
        case Nothing(gone) => CloseAll(gone);
        case Active(listen, accepted, readable, failing) =>
          var bad := readable * Occupied(clientFds[..]) * failing;
          if listen {
            if accepted.AcceptError? {
              return;
            }
            if accepted.fd >= FD_SETSIZE {
              return;
            }
            var placed := Place(accepted.fd);
            if !placed {
              return;
            }
            open, links := open + {accepted.fd}, links + [Up(accepted.fd)];
          }
          CloseAll(bad);
      }
    }
  }

  lemma {:induction false} FirstFree(fds: seq<int>, i: nat)
    requires i <= |fds| && (forall j | 0 <= j < i :: fds[j] >= 0) && (i < |fds| ==> fds[i] < 0)
    ensures FreeSlot(fds) == i
  {
  }
}
