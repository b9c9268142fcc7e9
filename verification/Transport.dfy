/**
 * The receiving side of a serial line or socket as an oracle: the bytes that will ever
 * arrive, in order, and a schedule of what the system calls report along the way.  Any
 * finite behaviour of read, recv, select and poll is some schedule; once the schedule is
 * used up, reads return whatever is there.
 */
module Transport {
  import opened Bytes

  /** Deliver(k): up to k + 1 bytes; NoData: EAGAIN or a timeout; Closed: end of file. */
  datatype IoEvent = Deliver(k: nat) | Interrupted | NoData | Closed | Failed

  datatype Input = Input(incoming: seq<byte>, schedule: seq<IoEvent>) {
    /** Bounds how often the system calls can still be repeated. */
    function Size(): nat { |incoming| + |schedule| }

    /** No system call reports an error. */
    predicate Working() {
      forall e | e in schedule :: !e.Failed?
    }

    /** Reads are only ever cut short or interrupted, never refused. */
    predicate Clean() {
      forall e | e in schedule :: e.Deliver? || e.Interrupted?
    }
  }

  datatype ReadResult =
    | Data(bytes: seq<byte>)
    | NotRead(event: IoEvent)

  function Deliverable(link: Input, want: nat, limit: nat): nat {
    Min(Min(want, limit), |link.incoming|)
  }

  /** One read or recv call asking for `want` bytes. */
  function Read(link: Input, want: nat): (r: (ReadResult, Input))
    requires want > 0
    ensures r.0.Data? ==> 1 <= |r.0.bytes| <= want && r.0.bytes + r.1.incoming == link.incoming
    ensures r.0.NotRead? ==> !r.0.event.Deliver? && r.1.incoming == link.incoming
    ensures r.0.Data? || r.0.event.Interrupted? ==> r.1.Size() < link.Size()
    ensures r.1.Size() <= link.Size()
  {
    var limit := if link.schedule != [] && link.schedule[0].Deliver? then link.schedule[0].k + 1 else want;
    var rest := if link.schedule == [] then [] else link.schedule[1..];
    var n := Deliverable(link, want, limit);
    if link.schedule != [] && !link.schedule[0].Deliver? then
      (NotRead(link.schedule[0]), link.(schedule := rest))
    else if n == 0 then
      (NotRead(NoData), link.(schedule := rest))
    else
      (Data(link.incoming[..n]), Input(link.incoming[n..], rest))
  }

  lemma ReadOfWorking(link: Input, want: nat)
    requires want > 0 && link.Working()
    ensures var r := Read(link, want);
            r.1.Working() && (r.0.NotRead? ==> !r.0.event.Failed?)
  {
  }

  lemma ReadOfClean(link: Input, want: nat)
    requires want > 0 && link.Clean()
    ensures var r := Read(link, want);
            r.1.Clean() && (r.0.NotRead? ==> r.0.event.Interrupted? || link.incoming == [])
  {
  }
}
