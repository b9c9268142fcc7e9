/**
 * Reading an exact number of bytes in pieces: recv_exact and read_exact_timeout, which the
 * three endpoints have in their own copies that differ in how they report a failure.
 */
module ExactRead {
  import opened Bytes
  import opened Transport

  /** The return codes for a call that has nothing in time, hits end of file, or fails. */
  datatype Codes = Codes(onNoData: int, onClosed: int, onFailed: int)

  type ErrorCodes = c: Codes | c.onNoData < 0 && c.onClosed < 0 && c.onFailed < 0
    witness Codes(-1, -1, -1)

  function CodeOf(codes: ErrorCodes, e: IoEvent): (rc: int)
    ensures rc < 0
  {
    if e.Failed? then codes.onFailed else if e.Closed? then codes.onClosed else codes.onNoData
  }

  datatype Received = Received(rc: int, bytes: seq<byte>, link: Input)

  function ReadExact(codes: ErrorCodes, link: Input, want: nat): Received
    decreases link.Size()
  {
    if want == 0 then Received(0, [], link)
    else
      var (r, link') := Read(link, want);
      match r
      case Data(bytes) =>
        var more := ReadExact(codes, link', want - |bytes|);
        Received(more.rc, bytes + more.bytes, more.link)
      case NotRead(e) =>
        if e.Interrupted? then ReadExact(codes, link', want) else Received(CodeOf(codes, e), [], link')
  }

  /** Read n more bytes after those of r; on an error r's bytes so far stay. */
  function Extend(codes: ErrorCodes, r: Received, n: nat): Received {
    var more := ReadExact(codes, r.link, n);
    Received(more.rc, r.bytes + more.bytes, more.link)
  }

  /** Nothing is lost, and 0 is returned exactly when everything asked for was read. */
  lemma {:induction false} ReadExactLength(codes: ErrorCodes, link: Input, want: nat)
    ensures var r := ReadExact(codes, link, want);
            r.bytes + r.link.incoming == link.incoming && |r.bytes| <= want &&
            (r.rc == 0 <==> |r.bytes| == want) && r.rc in {0, codes.onNoData, codes.onClosed, codes.onFailed} &&
            r.link.Size() <= link.Size()
    decreases link.Size()
  {
    if want > 0 {
      var (r, link') := Read(link, want);
      if r.Data? {
        ReadExactLength(codes, link', want - |r.bytes|);
        var more := ReadExact(codes, link', want - |r.bytes|);
        Associative(r.bytes, more.bytes, more.link.incoming);
      } else if r.event.Interrupted? {
        ReadExactLength(codes, link', want);
      }
    }
  }

  /** On a clean line with enough bytes to come, an exact read succeeds, however it is cut. */
  lemma {:induction false} ReadExactClean(codes: ErrorCodes, link: Input, want: nat)
    requires link.Clean() && |link.incoming| >= want
    ensures var r := ReadExact(codes, link, want);
            r.rc == 0 && r.bytes == link.incoming[..want] && r.link.incoming == link.incoming[want..] && r.link.Clean()
    decreases link.Size()
  {
    if want > 0 {
      var (r, link') := Read(link, want);
      ReadOfClean(link, want);
      if r.Data? {
        ReadExactClean(codes, link', want - |r.bytes|);
        assert link.incoming[..want] == r.bytes + link'.incoming[..want - |r.bytes|];
        assert link.incoming[want..] == link'.incoming[want - |r.bytes|..];
      } else {
        ReadExactClean(codes, link', want);
      }
    }
  }

  /** The whole read is what has been stored, then an exact read of what is still wanted. */
  ghost predicate ContinuesAs(codes: ErrorCodes, whole: Received, stored: seq<byte>, link: Input, want: nat) {
    var more := ReadExact(codes, link, want);
    whole == Received(more.rc, stored + more.bytes, more.link)
  }

  lemma NothingMore(codes: ErrorCodes, whole: Received, stored: seq<byte>, link: Input)
    requires ContinuesAs(codes, whole, stored, link, 0)
    ensures whole == Received(0, stored, link)
  {
    assert stored + [] == stored;
  }

  lemma ReadExactStep(codes: ErrorCodes, whole: Received, stored: seq<byte>, link: Input, received: nat, len: nat)
    requires received < len && ContinuesAs(codes, whole, stored, link, len - received)
    ensures var (r, link') := Read(link, len - received);
            (r.Data? ==> ContinuesAs(codes, whole, stored + r.bytes, link', len - (received + |r.bytes|))) &&
            (r.NotRead? ==>
               if r.event.Interrupted? then ContinuesAs(codes, whole, stored, link', len - received)
               else whole == Received(CodeOf(codes, r.event), stored, link'))
  {
    var (r, link') := Read(link, len - received);
    if r.Data? {
      Associative(stored, r.bytes, ReadExact(codes, link', len - received - |r.bytes|).bytes);
    }
  }

  /** The process's end of a serial line or socket. */
  class Line {
    var link: Input

    constructor (link: Input)
      ensures this.link == link
    {
      this.link := link;
    }

    /** Fill buf[at..at + len]; what is before it stays. */
    method Receive(codes: ErrorCodes, buf: array<byte>, at: nat, len: nat) returns (rc: int)
      requires at + len <= buf.Length
      modifies this, buf
      ensures var r := ReadExact(codes, old(link), len);
              rc == r.rc && link == r.link && |r.bytes| <= len && buf[at..at + |r.bytes|] == r.bytes
      ensures buf[..at] == old(buf[..at])
    {
      ghost var whole, front := ReadExact(codes, link, len), buf[..at];
      ReadExactLength(codes, link, len);
      var received := 0;
      assert buf[at..at] == [];
      while received < len
        invariant 0 <= received <= len
        invariant ContinuesAs(codes, whole, buf[at..at + received], link, len - received)
        invariant buf[..at] == front
        decreases link.Size()
      {
        var failed;
        failed, received, rc := ReceiveSome(codes, buf, at, received, len, whole);
        if failed {
          return;
        }
      }
      NothingMore(codes, whole, buf[at..at + received], link);
      return 0;
    }

    /** One call of the loop: an interrupted one is no failure. */
    method ReceiveSome(codes: ErrorCodes, buf: array<byte>, at: nat, received: nat, len: nat, ghost whole: Received)
      returns (failed: bool, received': nat, rc: int)
      requires received < len && at + len <= buf.Length
      requires ContinuesAs(codes, whole, buf[at..at + received], link, len - received)
      modifies this, buf
      ensures buf[..at] == old(buf[..at]) && received' <= len
      ensures failed ==> whole == Received(rc, buf[at..at + received'], link)
      ensures !failed ==> link.Size() < old(link).Size() &&
                          ContinuesAs(codes, whole, buf[at..at + received'], link, len - received')
    {
      ghost var stored := buf[at..at + received];
      ReadExactStep(codes, whole, stored, link, received, len);
      var (r, rest) := Read(link, len - received);
      link, failed, received', rc := rest, false, received, 0;
      match r {
        case Data(bytes) =>
          received' := received + |bytes|;
          Store(buf, at, received, bytes);
          assert buf[at..at + received'] == stored + bytes;
        case NotRead(e) =>
          if !e.Interrupted? {
            failed, rc := true, CodeOf(codes, e);
          }
      }
    }

    /** Read up to `total` bytes behind the `have` bytes already there. */
    method ReceiveRest(codes: ErrorCodes, buf: array<byte>, have: nat, total: nat, ghost r: Received) returns (rc: int)
      requires have <= total <= buf.Length
      requires r.link == link && r.bytes == buf[..have]
      modifies this, buf
      ensures var all := Extend(codes, r, total - have);
              rc == all.rc && link == all.link && (rc == 0 ==> buf[..total] == all.bytes)
      ensures buf[..have] == r.bytes
    {
      ReadExactLength(codes, link, total - have);
      ghost var head, more := buf[..have], ReadExact(codes, link, total - have).bytes;
      rc := Receive(codes, buf, have, total - have);
      if rc == 0 {
        ArrayParts(buf, have, total, head, more);
      }
    }
  }

  lemma ArrayParts(buf: array<byte>, have: nat, total: nat, head: seq<byte>, more: seq<byte>)
    requires have <= total <= buf.Length && buf[..have] == head && buf[have..total] == more
    ensures buf[..total] == head + more
  {
  }

  /** The kernel's copy into the caller's buffer, behind what it already received. */
  method Store(buf: array<byte>, at: nat, received: nat, bytes: seq<byte>)
    requires at + received + |bytes| <= buf.Length
    modifies buf
    ensures buf[..at] == old(buf[..at])
    ensures buf[at..at + (received + |bytes|)] == old(buf[at..at + received]) + bytes
  {
    var i := 0;
    while i < |bytes|
      invariant i <= |bytes|
      invariant buf[..at] == old(buf[..at])
      invariant buf[at..at + (received + i)] == old(buf[at..at + received]) + bytes[..i]
    {
      buf[at + (received + i)] := bytes[i];
      i := i + 1;
    }
    assert bytes[..i] == bytes;
  }
}
