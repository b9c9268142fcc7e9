/**
 * What the checksum guarantees.  Bits are taken in transmission order, least significant
 * bit of each byte first.  The byte loop is shown equal to a bit-serial register, and the
 * register equal to schoolbook polynomial long division; from the division follow the
 * zero-residue form, detection of bursts up to 16 bits and of every odd number of errors.
 */
module CrcTheory {
  import opened Bytes
  import opened Bits
  import opened Crc

  // ---- Bit strings ----

  predicate AllZero(w: seq<bool>) { forall i | 0 <= i < |w| :: !w[i] }

  function Zeros(n: nat): (w: seq<bool>)
    ensures |w| == n && AllZero(w)
  {
    seq(n, _ => false)
  }

  /** u with v added (exclusive or) into its leading bits. */
  function Add(u: seq<bool>, v: seq<bool>): (r: seq<bool>)
    requires |v| <= |u|
    ensures |r| == |u|
    ensures forall i | 0 <= i < |u| :: r[i] == (u[i] != (i < |v| && v[i]))
  {
    seq(|u|, i requires 0 <= i < |u| => u[i] != (i < |v| && v[i]))
  }

  function ByteBits(b: byte): (w: seq<bool>)
    ensures |w| == 8
  {
    LowBits(b, 8)
  }

  /** All bits of a frame in transmission order, its checksum bytes included. */
  function WireBits(s: seq<byte>): (w: seq<bool>)
    ensures |w| == 8 * |s|
  {
    if s == [] then [] else WireBits(s[..|s| - 1]) + ByteBits(s[|s| - 1])
  }

  /** A CRC register as a bit string, highest coefficient first. */
  function RegisterBits(c: word): (w: seq<bool>)
    ensures |w| == 16
  {
    LowBits(c, 16)
  }

  lemma {:induction false} LowBitsOfXor(x: nat, y: nat, n: nat)
    requires x < Pow2(n) && y < Pow2(n)
    ensures LowBits(XorN(x, y, n), n) == Add(LowBits(x, n), LowBits(y, n))
  {
    if n > 0 {
      LowBitsOfXor(x / 2, y / 2, n - 1);
    }
  }

  lemma RegisterBitsInjective(c: word, d: word)
    requires RegisterBits(c) == RegisterBits(d)
    ensures c == d
  {
    Pow2Sixteen();
    LowBitsInjective(c, d, 16);
  }

  lemma {:induction false} LowBitsOfZero(n: nat)
    ensures AllZero(LowBits(0, n))
  {
    if n > 0 {
      LowBitsOfZero(n - 1);
    }
  }

  lemma {:induction false} WireBitsInjective(f: seq<byte>, g: seq<byte>)
    requires WireBits(f) == WireBits(g)
    ensures f == g
  {
    if f != [] {
      var n := |f| - 1;
      assert |g| == n + 1;
      assert WireBits(f[..n]) == WireBits(f)[..8 * n] == WireBits(g[..n]);
      assert ByteBits(f[n]) == WireBits(f)[8 * n..] == ByteBits(g[n]);
      Pow2Sixteen();
      LowBitsInjective(f[n], g[n], 8);
      WireBitsInjective(f[..n], g[..n]);
      assert f == f[..n] + [f[n]] && g == g[..n] + [g[n]];
    }
  }

  // ---- The bit-serial register ----

  /** The coefficients of x^15 .. x^8 and of x^7 .. x^0 in x^16 + x^15 + x^2 + 1. */
  const UPPER_TERMS: seq<bool> := [true, false, false, false, false, false, false, false]
  const LOWER_TERMS: seq<bool> := [false, false, false, false, false, true, false, true]

  /** x^16 + x^15 + x^2 + 1, highest power first. */
  const GENERATOR: seq<bool> := [true] + (UPPER_TERMS + LOWER_TERMS)

  /** Shift one place; feed the generator's lower terms back if a one falls out. */
  function ShiftRegister(r: seq<bool>): (r': seq<bool>)
    requires |r| == 16
    ensures |r'| == 16
  {
    var shifted := r[1..] + [false];
    if r[0] then Add(shifted, GENERATOR[1..]) else shifted
  }

  function ShiftRegisterN(r: seq<bool>, n: nat): (r': seq<bool>)
    requires |r| == 16
    ensures |r'| == 16
    decreases n
  {
    if n == 0 then r else ShiftRegisterN(ShiftRegister(r), n - 1)
  }

  /** Take in one message bit. */
  function FeedBit(r: seq<bool>, bit: bool): (r': seq<bool>)
    requires |r| == 16
    ensures |r'| == 16
  {
    ShiftRegister(Add(r, [bit]))
  }

  function Feed(r: seq<bool>, w: seq<bool>): (r': seq<bool>)
    requires |r| == 16
    ensures |r'| == 16
    decreases |w|
  {
    if w == [] then r else Feed(FeedBit(r, w[0]), w[1..])
  }

  lemma {:induction false} FeedConcat(r: seq<bool>, u: seq<bool>, v: seq<bool>)
    requires |r| == 16
    ensures Feed(r, u + v) == Feed(Feed(r, u), v)
    decreases |u|
  {
    if u == [] {
      assert u + v == v;
    } else {
      FeedConcat(FeedBit(r, u[0]), u[1..], v);
      assert (u + v)[1..] == u[1..] + v;
    }
  }

  /** Adding up to 16 message bits at once and shifting is feeding them one at a time. */
  lemma {:induction false} FeedAtOnce(r: seq<bool>, w: seq<bool>)
    requires |r| == 16 && |w| <= 16
    ensures Feed(r, w) == ShiftRegisterN(Add(r, w), |w|)
    decreases |w|
  {
    if w == [] {
      assert Add(r, w) == r;
    } else {
      FeedAtOnce(FeedBit(r, w[0]), w[1..]);
      assert ShiftRegister(Add(r, w)) == Add(FeedBit(r, w[0]), w[1..]);
    }
  }

  /** The two bytes of a word in transmission order, as received in a checksum. */
  lemma ReceivedBits(lo: byte, hi: byte)
    ensures RegisterBits(Join(hi, lo)) == ByteBits(lo) + ByteBits(hi)
  {
    Pow2Sixteen();
    LowBitsSplit(Join(hi, lo), 8, 8);
    LowBitsOfSum(lo, hi, 8);
  }

  lemma PolyIsGenerator()
    ensures RegisterBits(POLY) == GENERATOR[1..]
  {
    ReceivedBits(0x01, 0xA0);
    UpperTerms();
    LowerTerms();
    assert GENERATOR[1..] == UPPER_TERMS + LOWER_TERMS;
  }

  lemma UpperTerms()
    ensures ByteBits(0x01) == UPPER_TERMS
  {
    FirstBit(1, 0, 7);
    LowBitsOfZero(7);
  }

  lemma LowerTerms()
    ensures ByteBits(0xA0) == LOWER_TERMS
  {
    FirstBit(0xA0, 0x50, 7);
    FirstBit(0x50, 0x28, 6);
    FirstBit(0x28, 0x14, 5);
    FirstBit(0x14, 0x0A, 4);
    FirstBit(0x0A, 0x05, 3);
    FirstBit(0x05, 0x02, 2);
    FirstBit(0x02, 0x01, 1);
    FirstBit(0x01, 0x00, 0);
  }

  lemma FirstBit(y: nat, half: nat, n: nat)
    requires half == y / 2
    ensures LowBits(y, n + 1) == [y % 2 != 0] + LowBits(half, n)
  {
  }

  lemma ShiftBitIsShiftRegister(c: word)
    ensures RegisterBits(ShiftBit(c)) == ShiftRegister(RegisterBits(c))
  {
    Pow2Sixteen();
    LowBitsSplit(c / 2, 15, 1);
    ShiftRightAway(c / 2, 15);
    assert RegisterBits(c / 2) == RegisterBits(c)[1..] + [false];
    PolyIsGenerator();
    LowBitsOfXor(c / 2, POLY, 16);
  }

  lemma {:induction false} ShiftBitsIsShiftRegisterN(c: word, n: nat)
    ensures RegisterBits(ShiftBits(c, n)) == ShiftRegisterN(RegisterBits(c), n)
  {
    if n > 0 {
      ShiftBitsIsShiftRegisterN(c, n - 1);
      ShiftBitIsShiftRegister(ShiftBits(c, n - 1));
      ShiftRegisterLast(RegisterBits(c), n);
    }
  }

  lemma {:induction false} ShiftRegisterLast(r: seq<bool>, n: nat)
    requires |r| == 16 && n > 0
    ensures ShiftRegisterN(r, n) == ShiftRegister(ShiftRegisterN(r, n - 1))
    decreases n
  {
    if n > 1 {
      ShiftRegisterLast(ShiftRegister(r), n - 1);
    }
  }

  lemma AddByteIsFeed(c: word, b: byte)
    ensures RegisterBits(AddByte(c, b)) == Feed(RegisterBits(c), ByteBits(b))
  {
    Pow2Sixteen();
    LowBitsOfXor(c, b, 16);
    ReceivedBits(b, 0);
    LowBitsOfZero(8);
    assert Add(RegisterBits(c), RegisterBits(b)) == Add(RegisterBits(c), ByteBits(b));
    ShiftBitsIsShiftRegisterN(Xor(c, b), 8);
    FeedAtOnce(RegisterBits(c), ByteBits(b));
  }

  /** The byte loop of mb_rtu_crc16 is the bit-serial register, for every length. */
  lemma {:induction false} ByteLoopIsBitSerial(c: word, s: seq<byte>)
    ensures RegisterBits(CrcFrom(c, s)) == Feed(RegisterBits(c), WireBits(s))
  {
    if s != [] {
      var init, last := s[..|s| - 1], s[|s| - 1];
      ByteLoopIsBitSerial(c, init);
      AddByteIsFeed(CrcFrom(c, init), last);
      FeedConcat(RegisterBits(c), WireBits(init), ByteBits(last));
    }
  }

  // ---- Long division ----

  /** One step of long division: cancel the leading bit if it is set, then drop it. */
  function Reduce(w: seq<bool>): (r: seq<bool>)
    requires |w| > 16
    ensures |r| == |w| - 1
  {
    (if w[0] then Add(w, GENERATOR) else w)[1..]
  }

  /** Remainder of the polynomial with coefficients w (highest power first). */
  function Remainder(w: seq<bool>): (r: seq<bool>)
    requires |w| >= 16
    ensures |r| == 16
    decreases |w|
  {
    if |w| == 16 then w else Remainder(Reduce(w))
  }

  function Quotient(w: seq<bool>): (q: seq<bool>)
    requires |w| >= 16
    ensures |q| == |w| - 16
    decreases |w|
  {
    if |w| == 16 then [] else [w[0]] + Quotient(Reduce(w))
  }

  /** Product of q and the generator: shifted copies added up. */
  function TimesGenerator(q: seq<bool>): (w: seq<bool>)
    ensures |w| == |q| + 16
  {
    if q == [] then Zeros(16)
    else
      var rest := [false] + TimesGenerator(q[1..]);
      if q[0] then Add(rest, GENERATOR) else rest
  }

  /** Long division does divide: w is quotient times generator plus remainder. */
  lemma {:induction false} DivisionIdentity(w: seq<bool>)
    requires |w| >= 16
    ensures w == Add(TimesGenerator(Quotient(w)), Zeros(|w| - 16) + Remainder(w))
    decreases |w|
  {
    if |w| > 16 {
      var r := Reduce(w);
      DivisionIdentity(r);
      var q := Quotient(w);
      assert q[1..] == Quotient(r);
      var p, rem := TimesGenerator(q[1..]), Remainder(r);
      var tail, tail' := Zeros(|w| - 16) + rem, Zeros(|r| - 16) + rem;
      assert tail == [false] + tail';
      assert [w[0]] + r == if w[0] then [true] + Add(w, GENERATOR)[1..] else w;
      assert w == Add(TimesGenerator(q), tail);
    }
  }

  /** The dividend held by a register r that has the bits w still to come. */
  function Dividend(r: seq<bool>, w: seq<bool>): (d: seq<bool>)
    requires |r| == 16
    ensures |d| == |w| + 16
  {
    Add(w + Zeros(16), r)
  }

  lemma FeedBitReduces(r: seq<bool>, w: seq<bool>)
    requires |r| == 16 && w != []
    ensures Reduce(Dividend(r, w)) == Dividend(FeedBit(r, w[0]), w[1..])
  {
    assert forall i | 0 <= i < |w| + 15 :: (w[1..] + Zeros(16))[i] == (w + Zeros(16))[i + 1];
  }

  /** The bit-serial register computes the remainder of x^16 times the message. */
  lemma {:induction false} RegisterIsRemainder(r: seq<bool>, w: seq<bool>)
    requires |r| == 16
    ensures Feed(r, w) == Remainder(Dividend(r, w))
    decreases |w|
  {
    if w == [] {
      assert Dividend(r, w) == r;
    } else {
      RegisterIsRemainder(FeedBit(r, w[0]), w[1..]);
      FeedBitReduces(r, w);
    }
  }

  /** The dividend of a whole frame: x^16 times the frame, first 16 bits complemented. */
  function FrameDividend(s: seq<byte>): (d: seq<bool>)
    ensures |d| == 8 * |s| + 16
  {
    Dividend(RegisterBits(INIT), WireBits(s))
  }

  lemma {:induction false} AllOnes(n: nat)
    ensures LowBits(Pow2(n) - 1, n) == seq(n, _ => true)
  {
    if n > 0 {
      AllOnes(n - 1);
      assert (Pow2(n) - 1) / 2 == Pow2(n - 1) - 1 && (Pow2(n) - 1) % 2 != 0;
    }
  }

  lemma CrcIsFrameRemainder(s: seq<byte>)
    ensures RegisterBits(CrcOf(s)) == Remainder(FrameDividend(s))
  {
    ByteLoopIsBitSerial(INIT, s);
    RegisterIsRemainder(RegisterBits(INIT), WireBits(s));
  }

  lemma ComplementsMessage(s: seq<byte>)
    ensures MessageDividend(s) == FrameDividend(s)
  {
    Pow2Sixteen();
    AllOnes(16);
  }

  /** x^16 times the message, with the first 16 coefficients complemented. */
  function MessageDividend(s: seq<byte>): (d: seq<bool>)
    ensures |d| == 8 * |s| + 16
  {
    var w := WireBits(s) + Zeros(16);
    seq(|w|, i requires 0 <= i < |w| => if i < 16 then !w[i] else w[i])
  }

  lemma GeneratorTerms()
    ensures forall i | 0 <= i < 17 :: GENERATOR[i] <==> i == 0 || i == 1 || i == 14 || i == 16
  {
  }

  /**
   * mb_rtu_crc16 is the remainder, modulo x^16 + x^15 + x^2 + 1, of x^16 times the message
   * whose first 16 bits are complemented.
   */
  lemma CrcIsPolynomialRemainder(s: seq<byte>)
    ensures forall i | 0 <= i < 17 :: GENERATOR[i] <==> i == 0 || i == 1 || i == 14 || i == 16
    ensures RegisterBits(CrcOf(s)) == Remainder(MessageDividend(s))
    ensures MessageDividend(s) ==
            Add(TimesGenerator(Quotient(MessageDividend(s))), Zeros(8 * |s|) + RegisterBits(CrcOf(s)))
  {
    CrcIsFrameRemainder(s);
    ComplementsMessage(s);
    GeneratorTerms();
    DivisionIdentity(MessageDividend(s));
  }

  // ---- Arithmetic of remainders ----

  lemma {:induction false} RemainderOfSum(u: seq<bool>, v: seq<bool>)
    requires |u| == |v| >= 16
    ensures Remainder(Add(u, v)) == Add(Remainder(u), Remainder(v))
    decreases |u|
  {
    if |u| > 16 {
      assert Reduce(Add(u, v)) == Add(Reduce(u), Reduce(v));
      RemainderOfSum(Reduce(u), Reduce(v));
    }
  }

  lemma {:induction false} RemainderOfZero(w: seq<bool>)
    requires |w| >= 16 && AllZero(w)
    ensures AllZero(Remainder(w))
    decreases |w|
  {
    if |w| > 16 {
      RemainderOfZero(w[1..]);
    }
  }

  /** The generator has a constant term, so it divides x * w only if it divides w. */
  lemma {:induction false} TrailingZero(w: seq<bool>)
    requires |w| >= 16
    requires AllZero(Remainder(w + [false]))
    ensures AllZero(Remainder(w))
    decreases |w|
  {
    var x := w + [false];
    if |w| == 16 {
      assert Remainder(x) == Reduce(x);
      assert w[0] == Reduce(x)[15];
      assert forall i | 1 <= i < 16 :: w[i] == Reduce(x)[i - 1];
    } else {
      assert Reduce(x) == Reduce(w) + [false];
      TrailingZero(Reduce(w));
    }
  }

  /** The generator divides no nonzero polynomial confined to 16 consecutive coefficients. */
  lemma {:induction false} NoShortMultiple(e: seq<bool>, k: nat)
    requires |e| >= 16
    requires forall i | 0 <= i < |e| && !(k <= i < k + 16) :: !e[i]
    requires AllZero(Remainder(e))
    ensures AllZero(e)
    decreases |e|
  {
    if |e| > 16 {
      if e[0] {
        var n := |e| - 1;
        assert e == e[..n] + [false];
        TrailingZero(e[..n]);
        NoShortMultiple(e[..n], k);
      } else {
        NoShortMultiple(e[1..], if k > 0 then k - 1 else 0);
        assert forall i | 1 <= i < |e| :: e[i] == e[1..][i - 1];
      }
    }
  }

  // ---- Zero residue ----

  /** A register is cleared by exactly one 16-bit string, its own contents. */
  lemma ClearedByOwnBits(r: seq<bool>, w: seq<bool>)
    requires |r| == |w| == 16
    ensures AllZero(Feed(r, w)) <==> w == r
  {
    var d := Dividend(r, w);
    RegisterIsRemainder(r, w);
    if w == r {
      RemainderOfZero(d);
    }
    if AllZero(Feed(r, w)) {
      NoShortMultiple(d, 0);
      assert forall i | 0 <= i < 16 :: d[i] == (w[i] != r[i]);
    }
  }

  /** A frame is accepted exactly when the CRC over all of it, checksum included, is zero. */
  lemma ValidIffZeroResidue(frame: seq<byte>)
    requires |frame| >= CRC_LEN
    ensures ValidFrame(frame) <==> CrcOf(frame) == 0
  {
    var n := |frame| - 2;
    var c, received := CrcOf(frame[..n]), Join(frame[n + 1], frame[n]);
    var tail := ByteBits(frame[n]) + ByteBits(frame[n + 1]);
    LastTwoBytes(frame);
    ByteLoopIsBitSerial(INIT, frame);
    ByteLoopIsBitSerial(INIT, frame[..n]);
    FeedConcat(RegisterBits(INIT), WireBits(frame[..n]), tail);
    ClearedByOwnBits(RegisterBits(c), tail);
    ReceivedBits(frame[n], frame[n + 1]);
    LowBitsOfZero(16);
    if RegisterBits(received) == RegisterBits(c) {
      RegisterBitsInjective(received, c);
      ZeroFromBits(CrcOf(frame));
    }
  }

  lemma ZeroFromBits(c: word)
    requires AllZero(RegisterBits(c))
    ensures c == 0
  {
    LowBitsOfZero(16);
    assert RegisterBits(c) == RegisterBits(0);
    RegisterBitsInjective(c, 0);
  }

  lemma LastTwoBytes(frame: seq<byte>)
    requires |frame| >= 2
    ensures var n := |frame| - 2;
            WireBits(frame) == WireBits(frame[..n]) + (ByteBits(frame[n]) + ByteBits(frame[n + 1]))
  {
    var n := |frame| - 2;
    LastByte(frame);
    LastByte(frame[..n + 1]);
    assert frame[..n + 1][..n] == frame[..n];
    Associative(WireBits(frame[..n]), ByteBits(frame[n]), ByteBits(frame[n + 1]));
  }

  lemma LastByte(frame: seq<byte>)
    requires |frame| >= 1
    ensures WireBits(frame) == WireBits(frame[..|frame| - 1]) + ByteBits(frame[|frame| - 1])
  {
  }

  // ---- Bursts ----

  /** u and v agree outside the bits k .. k+15. */
  predicate AgreeOutsideBurst(u: seq<bool>, v: seq<bool>, k: nat) {
    |u| == |v| && forall i | 0 <= i < |u| && !(k <= i < k + 16) :: u[i] == v[i]
  }

  lemma NoShortDifference(r: seq<bool>, u: seq<bool>, v: seq<bool>, k: nat)
    requires |r| == 16 && AgreeOutsideBurst(u, v, k)
    requires AllZero(Remainder(Dividend(r, u))) && AllZero(Remainder(Dividend(r, v)))
    ensures u == v
  {
    var d, e := Dividend(r, u), Dividend(r, v);
    RemainderOfSum(d, e);
    NoShortMultiple(Add(d, e), k);
    assert forall i | 0 <= i < |u| :: Add(d, e)[i] == (u[i] != v[i]);
  }

  lemma ValidLeavesNoRemainder(f: seq<byte>)
    requires ValidFrame(f)
    ensures AllZero(Remainder(FrameDividend(f)))
  {
    ValidIffZeroResidue(f);
    CrcIsFrameRemainder(f);
    LowBitsOfZero(16);
  }

  /**
   * Burst detection at any length: changing a valid frame only within 16 consecutive bits
   * of transmission order makes validation fail.
   */
  lemma BurstDetected(f: seq<byte>, g: seq<byte>, k: nat)
    requires ValidFrame(f) && f != g
    requires AgreeOutsideBurst(WireBits(f), WireBits(g), k)
    ensures !ValidFrame(g)
  {
    if ValidFrame(g) {
      ValidLeavesNoRemainder(f);
      ValidLeavesNoRemainder(g);
      NoShortDifference(RegisterBits(INIT), WireBits(f), WireBits(g), k);
      WireBitsInjective(f, g);
    }
  }

  // ---- Odd numbers of errors ----

  function OddOnes(w: seq<bool>): bool {
    if w == [] then false else w[0] != OddOnes(w[1..])
  }

  predicate Odd(n: nat) { n > 0 && !Odd(n - 1) }

  /** In how many places two bit strings differ. */
  function Distance(u: seq<bool>, v: seq<bool>): nat
    requires |u| == |v|
  {
    if u == [] then 0 else (if u[0] != v[0] then 1 else 0) + Distance(u[1..], v[1..])
  }

  lemma {:induction false} OddOnesOfSum(u: seq<bool>, v: seq<bool>)
    requires |v| <= |u|
    ensures OddOnes(Add(u, v)) == (OddOnes(u) != OddOnes(v))
    decreases |u|
  {
    if v == [] {
      assert Add(u, v) == u;
    } else {
      assert Add(u, v)[1..] == Add(u[1..], v[1..]);
      OddOnesOfSum(u[1..], v[1..]);
    }
  }

  lemma {:induction false} OddOnesOfConcat(u: seq<bool>, v: seq<bool>)
    ensures OddOnes(u + v) == (OddOnes(u) != OddOnes(v))
    decreases |u|
  {
    if u == [] {
      assert u + v == v;
    } else {
      assert (u + v)[1..] == u[1..] + v;
      OddOnesOfConcat(u[1..], v);
    }
  }

  lemma {:induction false} OddOnesOfZeros(w: seq<bool>)
    requires AllZero(w)
    ensures !OddOnes(w)
  {
    if w != [] {
      OddOnesOfZeros(w[1..]);
    }
  }

  lemma GeneratorIsEven()
    ensures !OddOnes(GENERATOR)
  {
    OddOnesOfConcat(UPPER_TERMS, LOWER_TERMS);
    assert UPPER_TERMS[1..] == Zeros(7);
    OddOnesOfZeros(Zeros(7));
    assert LOWER_TERMS == Zeros(5) + [true, false, true];
    OddOnesOfConcat(Zeros(5), [true, false, true]);
    OddOnesOfZeros(Zeros(5));
    assert [true, false, true][1..] == [false, true] && [false, true][1..] == [true];
    assert GENERATOR[1..] == UPPER_TERMS + LOWER_TERMS;
  }

  /** The generator has an even number of terms, so division keeps the parity. */
  lemma {:induction false} RemainderKeepsParity(w: seq<bool>)
    requires |w| >= 16
    ensures OddOnes(Remainder(w)) == OddOnes(w)
    decreases |w|
  {
    if |w| > 16 {
      var x := if w[0] then Add(w, GENERATOR) else w;
      GeneratorIsEven();
      OddOnesOfSum(w, GENERATOR);
      RemainderKeepsParity(x[1..]);
    }
  }

  lemma {:induction false} OddDistance(u: seq<bool>, v: seq<bool>)
    requires |u| == |v|
    ensures Odd(Distance(u, v)) <==> OddOnes(u) != OddOnes(v)
  {
    if u != [] {
      OddDistance(u[1..], v[1..]);
    }
  }

  /** Every valid frame carries the same parity. */
  lemma ValidParity(f: seq<byte>)
    requires ValidFrame(f)
    ensures OddOnes(WireBits(f)) == OddOnes(RegisterBits(INIT))
  {
    var w := WireBits(f);
    ValidLeavesNoRemainder(f);
    RemainderKeepsParity(FrameDividend(f));
    OddOnesOfZeros(Remainder(FrameDividend(f)));
    OddOnesOfSum(w + Zeros(16), RegisterBits(INIT));
    OddOnesOfConcat(w, Zeros(16));
    OddOnesOfZeros(Zeros(16));
  }

  /** Flipping any odd number of bits of a valid frame, anywhere, makes validation fail. */
  lemma OddErrorsDetected(f: seq<byte>, g: seq<byte>)
    requires ValidFrame(f) && |f| == |g|
    requires Odd(Distance(WireBits(f), WireBits(g)))
    ensures !ValidFrame(g)
  {
    OddDistance(WireBits(f), WireBits(g));
    ValidParity(f);
    if ValidFrame(g) {
      ValidParity(g);
    }
  }
}
