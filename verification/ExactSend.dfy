/**
 * Writing a whole buffer in pieces: mb_tcp_send_all of src/modbus_tcp.c, and write_all of the
 * RTU sources, which also waits until the bytes are out.  Elsewhere a `Sending` stands for how
 * such a call ends.
 */
module ExactSend {
  import opened Bytes

  /** One send or write call: it takes up to k + 1 bytes, is interrupted, or takes nothing or fails. */
  datatype SendEvent = Took(k: nat) | TryAgain | SendFails

  /** How sending a buffer ends: with 0, or with an error when no more than the first n bytes are out. */
  datatype Sending = Delivered | Cut(n: nat)

  /** What the peer will see of the buffer. */
  function Wire(sending: Sending, buf: seq<byte>): seq<byte> {
    if sending.Delivered? then buf else buf[..Min(sending.n, |buf|)]
  }

  /** Return code and number of bytes taken; once the events are used up, everything is taken. */
  function Accepted(want: nat, events: seq<SendEvent>): (int, nat)
    decreases |events|
  {
    if want == 0 then (0, 0)
    else if events == [] then (0, want)
    else match events[0]
      case Took(k) =>
        var n := Min(k + 1, want);
        var (rc, more) := Accepted(want - n, events[1..]);
        (rc, n + more)
      case TryAgain => Accepted(want, events[1..])
      case SendFails => (-1, 0)
  }

  /** The loop returns 0 exactly if every byte was taken. */
  lemma {:induction false} SuccessTakesAll(want: nat, events: seq<SendEvent>)
    ensures var (rc, n) := Accepted(want, events);
            n <= want && rc in {0, -1} && (rc == 0 <==> n == want)
    decreases |events|
  {
    if want > 0 && events != [] {
      if events[0].Took? {
        SuccessTakesAll(want - Min(events[0].k + 1, want), events[1..]);
      } else if events[0].TryAgain? {
        SuccessTakesAll(want, events[1..]);
      }
    }
  }

  /** Calls that are interrupted or take a part are repeated: only a refusal ends the loop early. */
  lemma {:induction false} OnlyRefusalFails(want: nat, events: seq<SendEvent>)
    ensures (forall e | e in events :: !e.SendFails?) ==> Accepted(want, events) == (0, want)
    ensures want > 0 && events != [] && events[0].SendFails? ==> Accepted(want, events) == (-1, 0)
    ensures want > 0 && events != [] && events[0].TryAgain? ==> Accepted(want, events) == Accepted(want, events[1..])
    ensures want > 0 && events != [] && events[0].Took? && events[0].k + 1 < want ==>
              var n := events[0].k + 1;
              Accepted(want, events) == (Accepted(want - n, events[1..]).0, n + Accepted(want - n, events[1..]).1)
    decreases |events|
  {
    if want > 0 && events != [] {
      var n := if events[0].Took? then Min(events[0].k + 1, want) else 0;
      assert events[0] in events && forall e | e in events[1..] :: e in events;
      OnlyRefusalFails(want - n, events[1..]);
    }
  }

  /** mb_tcp_send_all: wire is what the peer will see. */
  method SendAll(buf: array<byte>, len: nat, events: seq<SendEvent>)
    returns (rc: int, wire: seq<byte>, sending: Sending)
    requires len <= buf.Length
    ensures |wire| <= len && wire == buf[..|wire|] && (rc, |wire| as nat) == Accepted(len, events)
    ensures wire == Wire(sending, buf[..len]) && (rc == 0 <==> sending.Delivered?)
    ensures rc == 0 <==> |wire| == len
  {
    SuccessTakesAll(len, events);
    var sent, i := 0, 0;
    wire := [];
    while sent < len
      invariant 0 <= sent <= len && 0 <= i <= |events| && wire == buf[..sent]
      invariant var (r, n) := Accepted(len - sent, events[i..]); (r, sent + n) == Accepted(len, events)
      decreases len - sent, |events| - i
    {
      if i == |events| {
        return 0, wire + buf[sent..len], Delivered;
      }
      assert events[i..][1..] == events[i + 1..];
      match events[i] {
        case Took(k) =>
          var n := Min(k + 1, len - sent);
          wire := wire + buf[sent..sent + n];
          sent := sent + n;
        case TryAgain =>
        case SendFails =>
          assert wire == buf[..len][..sent];
          return -1, wire, Cut(sent);
      }
      i := i + 1;
    }
    return 0, wire, Delivered;
  }

  /** write_all: 0 says that all is out, but -1 does not say that something is missing. */
  method WriteAll(buf: array<byte>, len: nat, events: seq<SendEvent>, drained: bool)
    returns (rc: int, wire: seq<byte>, sending: Sending)
    requires len <= buf.Length
    ensures wire == Wire(sending, buf[..len]) && (rc == 0 <==> sending.Delivered?)
    ensures rc == 0 <==> wire == buf[..len] && drained
    ensures rc in {0, -1} && |wire| == Accepted(len, events).1
  {
    SuccessTakesAll(len, events);
    rc, wire, sending := SendAll(buf, len, events);
    if rc == 0 && !drained {
      rc, sending := -1, Cut(len);
    }
  }
}
