/**
 * The RTU client in numbers: which frame is a response, and what each return code says.
 */
module RtuBytes {
  import opened Bytes
  import opened Transport
  import opened ExactRead
  import opened ExactSend
  import opened ShortReads
  import opened PduBytes
  import opened RtuClient
  import Crc
  import Pdu
  import RtuFrames

  /** Refused before anything is sent. */
  lemma NotSent(connected: bool, unit: byte, localEcho: bool, pdu: seq<byte>, link: Input, sending: Sending)
    requires |pdu| >= 5
    ensures var t := Transact(connected, unit, localEcho, pdu, link, sending);
            var isWrite := pdu[0] == 5 || pdu[0] == 6 || pdu[0] == 15 || pdu[0] == 16;
            if !connected then t == Transaction(-2, [], link, [])
            else if unit == 0 && !isWrite then t == Transaction(-1, [], link, [])
            else sending.Cut? ==> t.rc == -3 && t.resp == [] && t.link == link
  {
  }

  /** What a transaction without local echo gives, once the request is out. */
  ghost predicate Gives(unit: byte, pdu: seq<byte>, link: Input, rc: int)
    requires |pdu| >= 5
  {
    unit != 0 ==> Transact(true, unit, false, pdu, link, Delivered).rc == rc
  }

  /** No answer, the end of the file, or an error instead of the first byte. */
  lemma NoAnswer(unit: byte, pdu: seq<byte>, link: Input)
    requires |pdu| >= 5 && link.schedule != []
    ensures link.schedule[0].NoData? || link.schedule[0].Closed? ==> Gives(unit, pdu, link, -4)
    ensures link.schedule[0].Failed? ==> Gives(unit, pdu, link, -3)
  {
    ReadExactStopped(CODES, link, 2);
  }

  /** A local echo that does not come, or differs, is a transport error. */
  lemma BadEcho(unit: byte, pdu: seq<byte>, link: Input)
    requires |pdu| >= 5 && link.Clean() && (unit != 0 || Pdu.IsWrite(pdu[0]))
    ensures var req := RtuFrames.SerialFrame(unit, pdu);
            !(req <= link.incoming) ==> Transact(true, unit, true, pdu, link, Delivered).rc == -3
  {
    var req := RtuFrames.SerialFrame(unit, pdu);
    if |link.incoming| < |req| {
      ReadExactShort(CODES, link, |req|);
    } else {
      ReadExactClean(CODES, link, |req|);
    }
  }

  /** How long a response says it is: its function code decides, or the byte count of a read. */
  function AnnouncedLength(fc: byte, b: seq<byte>): nat
    requires |b| >= 3
  {
    var count: nat := b[2];
    if b[1] == Marked(fc) then 5 else if fc <= 4 then 5 + count else 8
  }

  /** The code for a whole frame: checksum first, then the unit, then the PDU. */
  function FrameCode(unit: byte, pdu: seq<byte>, frame: seq<byte>): int
    requires |pdu| >= 5 && |frame| >= 5
  {
    if !Crc.ValidFrame(frame) then -7
    else if frame[0] != unit then -6
    else
      var rc := Pdu.CheckResponse(pdu, frame[1..|frame| - 2]);
      if rc == -1 then -5 else rc
  }

  /** What a clean line with these bytes gives. */
  function ReplyCode(unit: byte, pdu: seq<byte>, b: seq<byte>): int
    requires |pdu| >= 5
  {
    var fc := pdu[0];
    if |b| < 2 then -4
    else if b[1] != fc && b[1] != Marked(fc) then -5
    else if |b| < 3 then -4
    else
      var n := AnnouncedLength(fc, b);
      if n > 256 then -5 else if |b| < n then -4 else FrameCode(unit, pdu, b[..n])
  }

  lemma FinishExactly(r: Received, unit: byte, b: seq<byte>, n: nat)
    requires 2 <= |r.bytes| <= n && |r.bytes| <= |b| && r.link.Clean()
    requires r.bytes == b[..|r.bytes|] && r.link.incoming == b[|r.bytes|..]
    ensures var f := FinishFrame(r, unit, n);
            if |b| < n then f.rc == -2 && f.bytes == r.bytes
            else
              f.rc == (if !Crc.ValidFrame(b[..n]) then IO_CRC_ERROR
                       else if b[0] != unit then IO_UNIT_ID_ERROR else 0) &&
              f.bytes == b[..n]
  {
    var have := |r.bytes|;
    if |b| < n {
      ReadExactShort(CODES, r.link, n - have);
    } else {
      ReadExactClean(CODES, r.link, n - have);
      CutOnce(b, have, n);
    }
  }

  lemma CutOnce(b: seq<byte>, have: nat, n: nat)
    requires have <= n <= |b|
    ensures b[..have] + b[have..][..n - have] == b[..n] && |b[have..]| >= n - have
  {
  }

  lemma ReadReplyExactly(two: Received, unit: byte, fc: byte, b: seq<byte>)
    requires |two.bytes| == 2 <= |b| && two.link.Clean() && two.bytes == b[..2] && two.link.incoming == b[2..]
    ensures var r := RecvReadResponse(two, unit, fc);
            if |b| < 3 then r.rc == -2 && r.bytes == b[..2]
            else
              var count: nat := b[2];
              if 5 + count > 256 then r.rc == IO_FRAME_ERROR && r.bytes == b[..3]
              else if |b| < 5 + count then r.rc == -2 && r.bytes == b[..3]
              else
                r.rc == (if !Crc.ValidFrame(b[..5 + count]) then IO_CRC_ERROR
                         else if b[0] != unit then IO_UNIT_ID_ERROR else 0) &&
                r.bytes == b[..5 + count]
  {
    if |b| < 3 {
      ReadExactShort(CODES, two.link, 1);
    } else {
      ReadExactClean(CODES, two.link, 1);
      assert b[..2] + b[2..][..1] == b[..3] && b[2..][1..] == b[3..];
      var three := Extend(CODES, two, 1);
      if ReadFrameLength(three.bytes) <= 256 {
        FinishExactly(three, unit, b, ReadFrameLength(three.bytes));
      }
    }
  }

  /**
   * The return code of a transaction whose request went out, for every clean line: a timeout for
   * too few bytes, else a frame error, a wrong checksum, a wrong unit, or what the check says.
   */
  lemma ReplyExactly(unit: byte, pdu: seq<byte>, link: Input)
    requires |pdu| >= 5 && link.Clean()
    ensures Gives(unit, pdu, link, ReplyCode(unit, pdu, link.incoming))
  {
    ReceivedExactly(link, unit, pdu[0]);
    if unit != 0 {
      CodeOfReceived(unit, pdu, link);
    }
  }

  /** The received part of ReplyCode. */
  function ReceivedCode(unit: byte, fc: byte, b: seq<byte>): int {
    if |b| < 2 then -2
    else if b[1] != fc && b[1] != Marked(fc) then IO_FRAME_ERROR
    else if |b| < 3 then -2
    else
      var n := AnnouncedLength(fc, b);
      if n > 256 then IO_FRAME_ERROR
      else if |b| < n then -2
      else if !Crc.ValidFrame(b[..n]) then IO_CRC_ERROR
      else if b[0] != unit then IO_UNIT_ID_ERROR
      else 0
  }

  /** How many bytes are reported as received: what the complete reads brought. */
  function ReportedLength(fc: byte, b: seq<byte>): nat {
    if |b| < 2 then 0
    else if b[1] != fc && b[1] != Marked(fc) then 2
    else if |b| < 3 then 2
    else
      var n, head := AnnouncedLength(fc, b), if b[1] == fc && b[1] != Marked(fc) && fc <= 4 then 3 else 2;
      if n > 256 || |b| < n then head else n
  }

  lemma ReceivedExactly(link: Input, unit: byte, fc: byte)
    requires link.Clean()
    ensures var r, b := RecvResponse(link, unit, fc), link.incoming;
            r.rc == ReceivedCode(unit, fc, b) && ReportedLength(fc, b) <= |b| && r.bytes == b[..ReportedLength(fc, b)] &&
            (r.rc == 0 ==> ReportedLength(fc, b) == AnnouncedLength(fc, b))
  {
    var b := link.incoming;
    if |b| < 2 {
      ReadExactShort(CODES, link, 2);
    } else {
      ReadExactClean(CODES, link, 2);
      var two := ReadExact(CODES, link, 2);
      assert two.bytes[1] == b[1];
      if b[1] == Marked(fc) {
        FinishExactly(two, unit, b, 5);
      } else if b[1] == fc && fc > 4 {
        FinishExactly(two, unit, b, 8);
      } else if b[1] == fc {
        ReadReplyExactly(two, unit, fc, b);
      }
    }
  }

  lemma CodeOfReceived(unit: byte, pdu: seq<byte>, link: Input)
    requires |pdu| >= 5 && unit != 0
    ensures var r, rc := RecvResponse(link, unit, pdu[0]), Transact(true, unit, false, pdu, link, Delivered).rc;
            if r.rc != 0 then rc == ClientError(r.rc)
            else
              |r.bytes| >= 5 &&
              rc == if Pdu.CheckResponse(pdu, r.bytes[1..|r.bytes| - 2]) == -1 then -5
                    else Pdu.CheckResponse(pdu, r.bytes[1..|r.bytes| - 2])
  {
    ResponseIsFrame(link, unit, pdu[0]);
  }

  /** A transaction returns 0 only with a reply that answers its request, c only with that exception. */
  lemma ReplyAnswers(unit: byte, localEcho: bool, pdu: seq<byte>, link: Input, sending: Sending)
    requires |pdu| >= 5 && unit != 0
    ensures var t := Transact(true, unit, localEcho, pdu, link, sending);
            t.rc >= 0 ==>
              |t.resp| >= 5 && Crc.ValidFrame(t.resp) && t.resp[0] == unit &&
              var resp := t.resp[1..|t.resp| - 2];
              if t.rc == 0 then Answering(pdu, resp) else t.rc < 256 && resp == [Marked(pdu[0]), t.rc]
  {
    var t := Transact(true, unit, localEcho, pdu, link, sending);
    if t.rc >= 0 {
      ResponseIsFrame(AfterEcho(link, RtuFrames.SerialFrame(unit, pdu), localEcho).link, unit, pdu[0]);
      CheckResponseExactly(pdu, t.resp[1..|t.resp| - 2]);
    }
  }

  /** Bytes that waited before the request are thrown away, whatever they are. */
  lemma WaitingForgotten(stale: seq<byte>, coming: seq<byte>, schedule: seq<IoEvent>)
    ensures Flushed(Input(stale + coming, schedule), |stale|) == Input(coming, schedule)
  {
    assert (stale + coming)[|stale|..] == coming;
  }

  /** Which frames the standalone parser takes, and what it reads in them. */
  lemma ParseExactly(frame: seq<byte>)
    ensures RtuFrames.ParseFrame(frame) ==
            if |frame| < 8 || !Crc.ValidFrame(frame) then Pdu.Rejected
            else Pdu.Fields(frame[1], Number(frame, 2), if frame[1] == 6 then 1 else Number(frame, 4))
  {
  }
}
