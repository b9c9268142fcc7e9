/**
 * Single bits of integers: powers of two, shifts, exclusive or, and bit lists with the
 * least significant bit first.
 */
module Bits {
  import opened Bytes

  function Pow2(n: nat): nat
    ensures Pow2(n) > 0
  {
    if n == 0 then 1 else 2 * Pow2(n - 1)
  }

  /** a ^ b on n-bit numbers, bit by bit from the least significant end. */
  function XorN(a: nat, b: nat, n: nat): (x: nat)
    requires a < Pow2(n) && b < Pow2(n)
    ensures x < Pow2(n)
  {
    if n == 0 then 0
    else (if a % 2 != b % 2 then 1 else 0) + 2 * XorN(a / 2, b / 2, n - 1)
  }

  lemma Pow2Sixteen()
    ensures Pow2(8) == 0x100 && Pow2(16) == 0x1_0000
  {
  }

  /** a ^ b on uint16_t. */
  function Xor(a: word, b: word): word {
    Pow2Sixteen();
    XorN(a, b, 16)
  }

  /** The n low bits of y, least significant first. */
  function LowBits(y: nat, n: nat): (w: seq<bool>)
    ensures |w| == n
  {
    if n == 0 then [] else [y % 2 != 0] + LowBits(y / 2, n - 1)
  }

  /** The number whose bits are w, least significant first. */
  function Value(w: seq<bool>): (v: nat)
    ensures v < Pow2(|w|)
  {
    if w == [] then 0 else (if w[0] then 1 else 0) + 2 * Value(w[1..])
  }

  /** y >> m */
  function ShiftRight(y: nat, m: nat): nat {
    if m == 0 then y else ShiftRight(y / 2, m - 1)
  }

  lemma {:induction false} LowBitsSplit(y: nat, m: nat, n: nat)
    ensures LowBits(y, m + n) == LowBits(y, m) + LowBits(ShiftRight(y, m), n)
  {
    if m > 0 {
      LowBitsSplit(y / 2, m - 1, n);
    }
  }

  lemma {:induction false} ShiftRightAway(y: nat, m: nat)
    requires y < Pow2(m)
    ensures ShiftRight(y, m) == 0
  {
    if m > 0 {
      ShiftRightAway(y / 2, m - 1);
    }
  }

  lemma ProductHalves(hi: nat, n: nat)
    requires n > 0
    ensures hi * Pow2(n) == 2 * (hi * Pow2(n - 1))
  {
  }

  lemma HalfOfSum(lo: nat, rest: nat)
    ensures (lo + 2 * rest) / 2 == lo / 2 + rest && (lo + 2 * rest) % 2 == lo % 2
  {
  }

  /** The low part of lo + (hi << n), and what remains of it. */
  lemma {:induction false} LowBitsOfSum(lo: nat, hi: nat, n: nat)
    requires lo < Pow2(n)
    ensures LowBits(lo + hi * Pow2(n), n) == LowBits(lo, n)
    ensures ShiftRight(lo + hi * Pow2(n), n) == hi
  {
    if n > 0 {
      ProductHalves(hi, n);
      HalfOfSum(lo, hi * Pow2(n - 1));
      LowBitsOfSum(lo / 2, hi, n - 1);
    }
  }

  /** (y >> k) & 1 */
  predicate BitSet(y: nat, k: nat) { ShiftRight(y, k) % 2 != 0 }

  /** y | (1 << k) */
  function SetBit(y: nat, k: nat): nat {
    if BitSet(y, k) then y else y + Pow2(k)
  }

  lemma {:induction false} BitOfValue(w: seq<bool>, k: nat)
    ensures BitSet(Value(w), k) <==> k < |w| && w[k]
  {
    if w == [] {
      ShiftRightOfZero(k);
    } else if k > 0 {
      BitOfValue(w[1..], k - 1);
    }
  }

  lemma {:induction false} ShiftRightOfZero(k: nat)
    ensures ShiftRight(0, k) == 0
  {
    if k > 0 {
      ShiftRightOfZero(k - 1);
    }
  }

  lemma {:induction false} LowBitsAt(y: nat, n: nat, k: nat)
    requires k < n
    ensures LowBits(y, n)[k] <==> BitSet(y, k)
  {
    if k > 0 {
      LowBitsAt(y / 2, n - 1, k - 1);
    }
  }

  /** Setting the next higher bit appends a one. */
  lemma {:induction false} SetNextBit(w: seq<bool>)
    ensures SetBit(Value(w), |w|) == Value(w + [true])
    ensures Value(w + [false]) == Value(w)
  {
    BitOfValue(w, |w|);
    if w != [] {
      SetNextBit(w[1..]);
      BitOfValue(w[1..], |w| - 1);
      assert (w + [true])[1..] == w[1..] + [true];
      assert (w + [false])[1..] == w[1..] + [false];
    }
  }

  lemma {:induction false} LowBitsInjective(x: nat, y: nat, n: nat)
    requires x < Pow2(n) && y < Pow2(n)
    requires LowBits(x, n) == LowBits(y, n)
    ensures x == y
  {
    if n > 0 {
      assert LowBits(x, n)[0] == LowBits(y, n)[0];
      assert LowBits(x, n)[1..] == LowBits(y, n)[1..];
      LowBitsInjective(x / 2, y / 2, n - 1);
    }
  }
}
