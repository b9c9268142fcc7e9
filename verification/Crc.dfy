/**
 * CRC-16 of src/modbus_rtu.c: the byte loop of mb_rtu_crc16 and the two functions that
 * append and check the checksum, proved against the fold CrcOf.
 */
module Crc {
  import opened Bytes
  import opened Bits

  const INIT: word := 0xFFFF
  const POLY: word := 0xA001
  const CRC_LEN := 2

  /** One round of the inner loop: crc >> 1, with the polynomial added if a one falls out. */
  function ShiftBit(c: word): word {
    if c % 2 != 0 then Xor(c / 2, POLY) else c / 2
  }

  /** n rounds of the inner loop. */
  function ShiftBits(c: word, n: nat): word {
    if n == 0 then c else ShiftBit(ShiftBits(c, n - 1))
  }

  /** One round of the outer loop. */
  function AddByte(c: word, b: byte): word {
    ShiftBits(Xor(c, b), 8)
  }

  function CrcFrom(c: word, s: seq<byte>): word {
    if s == [] then c else AddByte(CrcFrom(c, s[..|s| - 1]), s[|s| - 1])
  }

  function CrcOf(s: seq<byte>): word { CrcFrom(INIT, s) }

  function WithCrc(payload: seq<byte>): (frame: seq<byte>)
    ensures |frame| == |payload| + CRC_LEN
  {
    var c := CrcOf(payload);
    payload + [Lo(c), Hi(c)]
  }

  /** What mb_rtu_validate_crc accepts. */
  predicate ValidFrame(frame: seq<byte>) {
    |frame| >= CRC_LEN &&
    var n := |frame| - CRC_LEN;
    CrcOf(frame[..n]) == Join(frame[n + 1], frame[n])
  }

  method Crc16(data: array?<byte>, length: nat) returns (crc: word)
    requires data != null ==> length <= data.Length
    ensures data == null && length > 0 ==> crc == 0
    ensures data == null && length == 0 ==> crc == 0xFFFF
    ensures data != null ==> crc == CrcOf(data[..length])
  {
    crc := 0xFFFF;
    if data == null {
      if length > 0 {
        return 0;
      }
      return;
    }
    var i := 0;
    while i < length
      invariant i <= length
      invariant crc == CrcOf(data[..i])
    {
      crc := Xor(crc, data[i]);
      ghost var mixed := crc;
      var bit := 0;
      while bit < 8
        invariant bit <= 8
        invariant crc == ShiftBits(mixed, bit)
      {
        if crc % 2 != 0 {
          crc := Xor(crc / 2, 0xA001);
        } else {
          crc := crc / 2;
        }
        bit := bit + 1;
      }
      assert data[..i + 1][..i] == data[..i];
      i := i + 1;
    }
  }

  method AppendCrc(frame: array?<byte>, n: nat, cap: nat) returns (rc: int)
    requires frame != null ==> cap <= frame.Length
    modifies frame
    ensures rc == if frame == null || cap < n + CRC_LEN then -1 else 0
    ensures rc == 0 ==> frame[..n + CRC_LEN] == WithCrc(old(frame[..n])) &&
                        frame[n + CRC_LEN..] == old(frame[n + CRC_LEN..])
    ensures rc != 0 && frame != null ==> frame[..] == old(frame[..])
  {
    if frame == null || cap < n + 2 {
      return -1;
    }
    var crc := Crc16(frame, n);
    frame[n] := Lo(crc);
    frame[n + 1] := Hi(crc);
    assert frame[..n] == old(frame[..n]);
    return 0;
  }

  method ValidateCrc(frame: array?<byte>, frameLen: nat) returns (rc: int)
    requires frame != null ==> frameLen <= frame.Length
    ensures rc == if frame != null && ValidFrame(frame[..frameLen]) then 0 else -1
  {
    if frame == null || frameLen < 2 {
      return -1;
    }
    var payloadLen := frameLen - 2;
    var expected := Crc16(frame, payloadLen);
    var received := Join(frame[payloadLen + 1], frame[payloadLen]);
    assert frame[..frameLen][..payloadLen] == frame[..payloadLen];
    return if expected == received then 0 else -1;
  }

  /** Checking accepts what appending produces, and nothing else with that payload. */
  lemma AppendThenValidate(payload: seq<byte>, frame: seq<byte>)
    requires |frame| == |payload| + CRC_LEN && frame[..|payload|] == payload
    ensures ValidFrame(frame) <==> frame == WithCrc(payload)
  {
    assert WithCrc(payload)[..|payload|] == payload;
    assert frame == payload + [frame[|payload|], frame[|payload| + 1]];
  }
}
