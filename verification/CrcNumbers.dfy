/**
 * mb_rtu_crc16 in numbers: what one round of its inner loop does to the register, and a check
 * value.
 */
module CrcNumbers {
  import opened Bytes
  import opened Bits
  import opened Crc

  // ---- Exclusive or in parts ----

  lemma {:induction false} XorWithZero(a: nat, n: nat)
    requires a < Pow2(n)
    ensures XorN(a, 0, n) == a
  {
    if n > 0 {
      XorWithZero(a / 2, n - 1);
    }
  }

  /** The low k bits and the n bits above them are combined apart. */
  lemma {:induction false} XorInParts(lo: nat, hi: nat, lo': nat, hi': nat, k: nat, n: nat)
    requires lo < Pow2(k) && lo' < Pow2(k) && hi < Pow2(n) && hi' < Pow2(n)
    ensures lo + hi * Pow2(k) < Pow2(k + n) && lo' + hi' * Pow2(k) < Pow2(k + n)
    ensures XorN(lo + hi * Pow2(k), lo' + hi' * Pow2(k), k + n) == XorN(lo, lo', k) + XorN(hi, hi', n) * Pow2(k)
  {
    if k > 0 {
      XorInParts(lo / 2, hi, lo' / 2, hi', k - 1, n);
      Halves(lo, hi, k);
      Halves(lo', hi', k);
      ProductHalves(XorN(hi, hi', n), k);
    }
  }

  lemma Halves(lo: nat, hi: nat, k: nat)
    requires k > 0
    ensures (lo + hi * Pow2(k)) / 2 == lo / 2 + hi * Pow2(k - 1) && (lo + hi * Pow2(k)) % 2 == lo % 2
  {
    ProductHalves(hi, k);
    HalfOfSum(lo, hi * Pow2(k - 1));
  }

  // ---- One round of the inner loop ----

  /** Bit 0, bit 13 or bit 15 of y, which the polynomial A001 turns over. */
  function Turned(y: nat, weight: int): int
    requires weight > 0
  {
    if y / weight % 2 == 0 then weight else -weight
  }

  /** A round halves the register; if a one falls out it turns bits 15, 13 and 0 over. */
  function NextValue(c: nat): int {
    var half := c / 2;
    if c % 2 == 0 then half else half + Turned(half, 0x8000) + Turned(half, 0x2000) + Turned(half, 1)
  }

  lemma LowBitTurned(y: nat, n: nat)
    requires n > 0 && y < Pow2(n)
    ensures 1 < Pow2(n) && XorN(y, 1, n) == y + Turned(y, 1)
  {
    XorWithZero(y / 2, n - 1);
  }

  lemma TopBitsTurned(hi: nat)
    requires hi < 4
    ensures hi < Pow2(3) && 5 < Pow2(3) && XorN(hi, 5, 3) == hi + 4 + Turned(hi, 1)
  {
    assert XorN(hi / 2, 2, 2) == hi / 2 + 2;
  }

  lemma PolynomialTurns(half: nat)
    requires half < 0x8000
    ensures Xor(half, POLY) == half + Turned(half, 0x8000) + Turned(half, 0x2000) + Turned(half, 1)
  {
    Pow2Sixteen();
    Pow2Thirteen();
    var lo, hi := half % 0x2000, half / 0x2000;
    XorOfPolynomial(lo, hi);
    LowBitTurned(lo, 13);
    TopBitsTurned(hi);
    assert half % 2 == lo % 2;
  }

  lemma XorOfPolynomial(lo: nat, hi: nat)
    requires lo < 0x2000 && hi < 8
    ensures lo < Pow2(13) && 1 < Pow2(13) && hi < Pow2(3) && 5 < Pow2(3)
    ensures lo + hi * 0x2000 < Pow2(16) && POLY < Pow2(16)
    ensures XorN(lo + hi * 0x2000, POLY, 16) == XorN(lo, 1, 13) + XorN(hi, 5, 3) * 0x2000
  {
    Pow2Thirteen();
    XorInParts(lo, hi, 1, 5, 13, 3);
  }

  lemma Pow2Thirteen()
    ensures Pow2(13) == 0x2000 && Pow2(3) == 8 && Pow2(4) == 16 && Pow2(12) == 0x1000
  {
    assert Pow2(7) == 128;
  }

  /** One round of the inner loop, for every register value. */
  lemma RoundInNumbers(c: word)
    ensures ShiftBit(c) == NextValue(c)
  {
    if c % 2 != 0 {
      PolynomialTurns(c / 2);
    }
  }

  // ---- A check value ----

  lemma EightRounds(c0: word, c1: word, c2: word, c3: word, c4: word, c5: word, c6: word, c7: word, c8: word)
    requires c1 == NextValue(c0) && c2 == NextValue(c1) && c3 == NextValue(c2) && c4 == NextValue(c3)
    requires c5 == NextValue(c4) && c6 == NextValue(c5) && c7 == NextValue(c6) && c8 == NextValue(c7)
    ensures ShiftBits(c0, 8) == c8
  {
    RoundInNumbers(c0);
    RoundInNumbers(c1);
    RoundInNumbers(c2);
    RoundInNumbers(c3);
    RoundInNumbers(c4);
    RoundInNumbers(c5);
    RoundInNumbers(c6);
    RoundInNumbers(c7);
    assert ShiftBits(c0, 1) == c1;
    assert ShiftBits(c0, 2) == c2;
    assert ShiftBits(c0, 3) == c3;
    assert ShiftBits(c0, 4) == c4;
    assert ShiftBits(c0, 5) == c5;
    assert ShiftBits(c0, 6) == c6;
    assert ShiftBits(c0, 7) == c7;
  }

  /** Adding a byte below 16 concerns the low four bits only. */
  lemma XorSmall(c: word, b: byte, low: nat)
    requires b < 16 && b < Pow2(4) && c % 16 < Pow2(4) && low == XorN(c % 16, b, 4)
    ensures Xor(c, b) == c - c % 16 + low
  {
    Pow2Sixteen();
    Pow2Thirteen();
    XorInParts(c % 16, c / 16, b, 0, 4, 12);
    XorWithZero(c / 16, 12);
  }

  /** Taking in byte number k of s, when the register holds c. */
  lemma TakeByte(s: seq<byte>, k: nat, c: word, low: nat, c0: word, c1: word, c2: word, c3: word, c4: word, c5: word,
                 c6: word, c7: word, c8: word)
    requires k < |s| && CrcOf(s[..k]) == c && s[k] < 16 && c0 == c - c % 16 + low
    requires s[k] < Pow2(4) && c % 16 < Pow2(4) && low == XorN(c % 16, s[k], 4)
    requires c1 == NextValue(c0) && c2 == NextValue(c1) && c3 == NextValue(c2) && c4 == NextValue(c3)
    requires c5 == NextValue(c4) && c6 == NextValue(c5) && c7 == NextValue(c6) && c8 == NextValue(c7)
    ensures CrcOf(s[..k + 1]) == c8
  {
    XorSmall(c, s[k], low);
    EightRounds(c0, c1, c2, c3, c4, c5, c6, c7, c8);
    assert s[..k + 1][..k] == s[..k];
  }

  lemma Nibbles()
    ensures Pow2(4) == 16 && XorN(15, 1, 4) == 14 && XorN(14, 3, 4) == 13 && XorN(9, 10, 4) == 3
    ensures XorN(0, 0, 4) == 0 && XorN(1, 0, 4) == 1
  {
    Pow2Thirteen();
    XorWithZero(0, 4);
    XorWithZero(1, 4);
    assert XorN(7, 1, 3) == 6 && XorN(3, 2, 2) == 1 && XorN(4, 5, 3) == 1;
  }

  predicate IsExample(s: seq<byte>) {
    |s| == 6 && s[0] == 0x01 && s[1] == 0x03 && s[2] == 0x00 && s[3] == 0x00 && s[4] == 0x00 && s[5] == 0x0A
  }

  lemma FirstOne(s: seq<byte>)
    requires IsExample(s)
    ensures CrcOf(s[..1]) == 0x807E
  {
    Nibbles();
    TakeByte(s, 0, 0xFFFF, 14, 0xFFFE, 0x7FFF, 0x9FFE, 0x4FFF, 0x87FE, 0x43FF, 0x81FE, 0x40FF, 0x807E);
  }

  lemma FirstTwo(s: seq<byte>)
    requires IsExample(s)
    ensures CrcOf(s[..2]) == 0x2140
  {
    Nibbles();
    FirstOne(s);
    TakeByte(s, 1, 0x807E, 13, 0x807D, 0xE03F, 0xD01E, 0x680F, 0x9406, 0x4A03, 0x8500, 0x4280, 0x2140);
  }

  lemma FirstFour(s: seq<byte>)
    requires IsExample(s)
    ensures CrcOf(s[..4]) == 0xD8F1
  {
    Nibbles();
    FirstTwo(s);
    TakeByte(s, 2, 0x2140, 0, 0x2140, 0x10A0, 0x0850, 0x0428, 0x0214, 0x010A, 0x0085, 0xA043, 0xF020);
    TakeByte(s, 3, 0xF020, 0, 0xF020, 0x7810, 0x3C08, 0x1E04, 0x0F02, 0x0781, 0xA3C1, 0xF1E1, 0xD8F1);
  }

  /** The checksum of 01 03 00 00 00 0A is CDC5, sent low byte first. */
  lemma CheckValue(s: seq<byte>)
    requires IsExample(s)
    ensures CrcOf(s) == 0xCDC5 && ValidFrame(s + [0xC5, 0xCD])
  {
    Nibbles();
    FirstFour(s);
    TakeByte(s, 4, 0xD8F1, 1, 0xD8F1, 0xCC79, 0xC63D, 0xC31F, 0xC18E, 0x60C7, 0x9062, 0x4831, 0x8419);
    TakeByte(s, 5, 0x8419, 3, 0x8413, 0xE208, 0x7104, 0x3882, 0x1C41, 0xAE21, 0xF711, 0xDB89, 0xCDC5);
    assert s[..6] == s && (s + [0xC5, 0xCD])[..6] == s;
  }
}
