/**
 * The framing of Modbus TCP: every ADU starts with the MBAP header of section 3.1.3 of MODBUS
 * Messaging on TCP/IP, whose length field says how many bytes follow it.
 */
module Mbap {
  import opened Bytes
  import opened Transport
  import opened ExactRead

  const HEADER_LENGTH := 6
  const MAX_ADU_LENGTH := 260

  /** What both endpoints return for a length field out of range. */
  const MALFORMED := -1

  function Adu(tid: word, unit: byte, pdu: seq<byte>): (adu: seq<byte>)
    requires |pdu| < 0xFFFF
    ensures |adu| == 7 + |pdu|
  {
    [Hi(tid), Lo(tid), 0, 0, Hi(1 + |pdu|), Lo(1 + |pdu|), unit] + pdu
  }

  /** A whole ADU: as long as its length field says. */
  predicate IsAdu(s: seq<byte>) { |s| >= HEADER_LENGTH && |s| == HEADER_LENGTH + GetU16(s, 4) }

  function Tid(adu: seq<byte>): word
    requires |adu| >= 2
  {
    GetU16(adu, 0)
  }

  /** The protocol identifier is 0. */
  predicate IsModbus(adu: seq<byte>)
    requires |adu| >= 4
  {
    adu[2] == 0 && adu[3] == 0
  }

  lemma AduFields(tid: word, unit: byte, pdu: seq<byte>)
    requires |pdu| < 0xFFFF
    ensures var adu := Adu(tid, unit, pdu);
            IsAdu(adu) && IsModbus(adu) && Tid(adu) == tid && adu[6] == unit && adu[7..] == pdu
  {
    JoinOfParts(tid);
    JoinOfParts(1 + |pdu|);
  }

  // ---- Streams of ADUs ----

  function Cat(adus: seq<seq<byte>>): seq<byte> {
    if adus == [] then [] else adus[0] + Cat(adus[1..])
  }

  predicate AllAdus(adus: seq<seq<byte>>) { forall a | a in adus :: IsAdu(a) }

  lemma {:induction false} CatConcat(a: seq<seq<byte>>, b: seq<seq<byte>>)
    ensures Cat(a + b) == Cat(a) + Cat(b)
  {
    if a == [] {
      assert a + b == b;
    } else {
      CatConcat(a[1..], b);
      assert (a + b)[1..] == a[1..] + b && (a + b)[0] == a[0];
      Associative(a[0], Cat(a[1..]), Cat(b));
    }
  }

  lemma CatOne(adu: seq<byte>)
    ensures Cat([adu]) == adu
  {
    assert [adu][1..] == [] && adu + [] == adu;
  }

  /** Two whole ADUs at the front of the same bytes are the same. */
  lemma SameFirst(a: seq<byte>, b: seq<byte>, x: seq<byte>, y: seq<byte>)
    requires IsAdu(a) && IsAdu(b) && a + x == b + y
    ensures a == b && x == y
  {
    var s := a + x;
    assert s[4] == a[4] == b[4] && s[5] == a[5] == b[5];
    assert a == s[..|a|] && b == s[..|b|];
    assert x == s[|a|..] && y == s[|b|..];
  }

  /** Bytes can be cut into whole ADUs in one way only. */
  lemma {:induction false} CutIsUnique(a: seq<seq<byte>>, b: seq<seq<byte>>, x: seq<byte>, y: seq<byte>)
    requires AllAdus(a) && AllAdus(b) && |a| <= |b| && Cat(a) + x == Cat(b) + y
    ensures a == b[..|a|]
  {
    if a != [] {
      Associative(a[0], Cat(a[1..]), x);
      Associative(b[0], Cat(b[1..]), y);
      SameFirst(a[0], b[0], Cat(a[1..]) + x, Cat(b[1..]) + y);
      CutIsUnique(a[1..], b[1..], x, y);
      assert a == [a[0]] + a[1..] && b[..|a|] == [b[0]] + b[1..][..|a| - 1];
    }
  }

  // ---- Receiving ----

  /** One ADU from the stream: the header, then as many bytes as it announces. */
  function ReadAdu(codes: ErrorCodes, link: Input, least: nat): Received {
    ReadExactLength(codes, link, HEADER_LENGTH);
    var header := ReadExact(codes, link, HEADER_LENGTH);
    if header.rc != 0 then header
    else
      var len := GetU16(header.bytes, 4);
      if len < least || len > MAX_ADU_LENGTH - HEADER_LENGTH then header.(rc := MALFORMED)
      else Extend(codes, header, len)
  }

  /** Success means one whole ADU was taken off the stream, and nothing else. */
  lemma ReadAduTakesOne(codes: ErrorCodes, link: Input, least: nat)
    ensures var r := ReadAdu(codes, link, least);
            r.bytes + r.link.incoming == link.incoming &&
            (r.rc == 0 ==> IsAdu(r.bytes) && HEADER_LENGTH + least <= |r.bytes| <= MAX_ADU_LENGTH) &&
            r.rc in {0, MALFORMED, codes.onNoData, codes.onClosed, codes.onFailed}
  {
    ReadExactLength(codes, link, HEADER_LENGTH);
    var header := ReadExact(codes, link, HEADER_LENGTH);
    if header.rc == 0 {
      var len := GetU16(header.bytes, 4);
      ReadExactLength(codes, header.link, len);
      var body := ReadExact(codes, header.link, len);
      Associative(header.bytes, body.bytes, body.link.incoming);
    }
  }

  /** However a whole ADU is cut into reads, it is taken off a clean stream whole. */
  lemma AduArrives(codes: ErrorCodes, link: Input, least: nat, adu: seq<byte>, rest: seq<byte>)
    requires link.Clean() && link.incoming == adu + rest
    requires IsAdu(adu) && HEADER_LENGTH + least <= |adu| <= MAX_ADU_LENGTH
    ensures var r := ReadAdu(codes, link, least);
            r.rc == 0 && r.bytes == adu && r.link.incoming == rest && r.link.Clean()
  {
    ReadExactClean(codes, link, HEADER_LENGTH);
    var header := ReadExact(codes, link, HEADER_LENGTH);
    assert header.bytes == adu[..HEADER_LENGTH];
    var len := GetU16(adu, 4);
    assert header.link.incoming == adu[HEADER_LENGTH..] + rest;
    ReadExactClean(codes, header.link, len);
    assert header.link.incoming[..len] == adu[HEADER_LENGTH..];
    assert header.link.incoming[len..] == rest;
    assert adu == adu[..HEADER_LENGTH] + adu[HEADER_LENGTH..];
  }

  method ReceiveAdu(line: Line, codes: ErrorCodes, least: nat, buf: array<byte>) returns (rc: int, total: nat)
    requires buf.Length == MAX_ADU_LENGTH
    modifies line, buf
    ensures var r := ReadAdu(codes, old(line.link), least);
            rc == r.rc && line.link == r.link && (rc == 0 ==> total <= MAX_ADU_LENGTH && buf[..total] == r.bytes)
  {
    total := 0;
    ReadExactLength(codes, line.link, HEADER_LENGTH);
    ghost var header := ReadExact(codes, line.link, HEADER_LENGTH);
    rc := line.Receive(codes, buf, 0, 6);
    if rc != 0 {
      return;
    }
    assert buf[..6] == header.bytes;
    var len := Join(buf[4], buf[5]);
    if len < least || len > 260 - 6 {
      return MALFORMED, 0;
    }
    total := 6 + len;
    rc := line.ReceiveRest(codes, buf, 6, total, header);
  }
}
