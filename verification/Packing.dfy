/**
 * Coils packed eight to a byte and registers as big-endian byte pairs: pack_bits,
 * unpack_bits and the register loops of src/modbus_pdu.c.
 */
module Packing {
  import opened Bytes
  import opened Bits

  function BitByteCount(qty: nat): nat { (qty + 7) / 8 }

  // ---- Coils ----

  /** Which coils are on: any nonzero byte. */
  function Flags(values: seq<byte>): (w: seq<bool>)
    ensures |w| == |values|
    ensures forall i | 0 <= i < |w| :: w[i] == (values[i] != 0)
  {
    seq(|values|, i requires 0 <= i < |values| => values[i] != 0)
  }

  /** The coils that go into packed byte j. */
  function Group(w: seq<bool>, j: nat): (g: seq<bool>)
    requires 8 * j <= |w|
    ensures |g| <= 8
  {
    w[8 * j..Min(8 * j + 8, |w|)]
  }

  function GroupByte(w: seq<bool>, j: nat): byte
    requires 8 * j <= |w|
  {
    ValueOfAtMostEight(Group(w, j));
    Value(Group(w, j))
  }

  lemma ValueOfAtMostEight(w: seq<bool>)
    requires |w| <= 8
    ensures Value(w) < 0x100
  {
    Pow2Monotone(|w|, 8);
    Pow2Sixteen();
  }

  lemma {:induction false} Pow2Monotone(m: nat, n: nat)
    requires m <= n
    ensures Pow2(m) <= Pow2(n)
  {
    if m < n {
      Pow2Monotone(m, n - 1);
    }
  }

  function Pack(values: seq<byte>): (packed: seq<byte>)
    ensures |packed| == BitByteCount(|values|)
  {
    seq(BitByteCount(|values|), j requires 0 <= j < BitByteCount(|values|) => GroupByte(Flags(values), j))
  }

  /** The coil value at position i of packed data, 0 or 1. */
  function PackedBit(packed: seq<byte>, i: nat): byte
    requires i / 8 < |packed|
  {
    if BitSet(packed[i / 8], i % 8) then 1 else 0
  }

  function Unpack(packed: seq<byte>, qty: nat): (values: seq<byte>)
    requires BitByteCount(qty) <= |packed|
    ensures |values| == qty
  {
    seq(qty, i requires 0 <= i < qty => PackedBit(packed, i))
  }

  /** Every nonzero coil value becomes 1. */
  function Normalised(values: seq<byte>): (r: seq<byte>)
    ensures |r| == |values|
  {
    seq(|values|, i requires 0 <= i < |values| => if values[i] != 0 then 1 else 0)
  }

  /** memset(out + at, 0, n) */
  method ClearBytes(out: array<byte>, at: nat, n: nat)
    requires at + n <= out.Length
    modifies out
    ensures out[..] == old(out[..at]) + seq(n, _ => 0) + old(out[at + n..])
  {
    var j := at;
    while j < at + n
      invariant at <= j <= at + n
      invariant forall p | at <= p < j :: out[p] == 0
      invariant forall p | 0 <= p < at || j <= p < out.Length :: out[p] == old(out[p])
    {
      out[j] := 0;
      j := j + 1;
    }
  }

  /** The n output bytes once the first i coils are in. */
  function PackedSoFar(w: seq<bool>, i: nat, n: nat): (s: seq<byte>)
    requires i <= |w|
    ensures |s| == n
  {
    seq(n, k requires 0 <= k < n => ByteSoFar(w, i, k))
  }

  /** The byte of group k once the first i coils are in. */
  function ByteSoFar(w: seq<bool>, i: nat, k: nat): byte
    requires i <= |w|
  {
    if 8 * k < i then GroupByte(w[..i], k) else 0
  }

  /** Coil i sets bit i % 8 of its byte, if it is on. */
  lemma OwnByte(w: seq<bool>, i: nat, j: nat)
    requires i < |w| && j == i / 8
    ensures var b := ByteSoFar(w, i, j);
            SetBit(b, i % 8) < 0x100 && ByteSoFar(w, i + 1, j) == if w[i] then SetBit(b, i % 8) else b
  {
    var g := w[8 * j..i];
    assert Group(w[..i + 1], j) == g + [w[i]];
    SetNextBit(g);
    assert |g| == i % 8;
    ValueOfAtMostEight(g + [true]);
    if 8 * j < i {
      assert Group(w[..i], j) == g;
    } else {
      assert Value(g) == 0;
    }
  }

  /** It does not change the other bytes. */
  lemma OtherByte(w: seq<bool>, i: nat, k: nat)
    requires i < |w| && k != i / 8
    ensures ByteSoFar(w, i + 1, k) == ByteSoFar(w, i, k)
  {
    if 8 * k < i {
      assert 8 * k + 8 <= i;
      GroupOfPrefix(w, i, k);
      GroupOfPrefix(w, i + 1, k);
    }
  }

  /** A full group lies in every prefix that is long enough. */
  lemma GroupOfPrefix(w: seq<bool>, i: nat, k: nat)
    requires 8 * k + 8 <= i <= |w|
    ensures Group(w[..i], k) == w[8 * k..8 * k + 8]
  {
  }

  lemma CoilGoesIn(w: seq<bool>, i: nat, n: nat, j: nat)
    requires i < |w| && j == i / 8 < n
    ensures var s := PackedSoFar(w, i, n);
            SetBit(s[j], i % 8) < 0x100 &&
            PackedSoFar(w, i + 1, n) == if w[i] then s[j := SetBit(s[j], i % 8)] else s
  {
    OwnByte(w, i, j);
    forall k | 0 <= k < n && k != j ensures PackedSoFar(w, i + 1, n)[k] == PackedSoFar(w, i, n)[k] {
      OtherByte(w, i, k);
    }
  }

  /** out[at + j] |= 1 << k */
  method OrBit(out: array<byte>, at: nat, n: nat, j: nat, k: nat)
    requires at + n <= out.Length && j < n && SetBit(out[at..at + n][j], k) < 0x100
    modifies out
    ensures out[at..at + n] == old(out[at..at + n])[j := SetBit(old(out[at..at + n])[j], k)]
    ensures out[..at] == old(out[..at]) && out[at + n..] == old(out[at + n..])
  {
    out[at + j] := SetBit(out[at + j], k);
  }

  method PackBits(values: array<byte>, qty: nat, out: array<byte>, at: nat)
    requires qty <= values.Length && at + BitByteCount(qty) <= out.Length && values != out
    modifies out
    ensures out[..] == old(out[..at]) + Pack(values[..qty]) + old(out[at + BitByteCount(qty)..])
  {
    var n := BitByteCount(qty);
    ghost var front, back := out[..at], out[at + n..];
    ClearBytes(out, at, n);
    NothingPacked(Flags(values[..qty]), n);
    assert out[at..at + n] == seq(n, _ => 0);
    SetCoils(values, qty, out, at, n);
    AllPacked(values[..qty], n);
    assert out[..at] == front && out[at + n..] == back;
    ThreeParts(out[..], at, at + n);
  }

  lemma ThreeParts<T>(s: seq<T>, i: nat, j: nat)
    requires i <= j <= |s|
    ensures s == s[..i] + s[i..j] + s[j..]
  {
  }

  /** The loop of pack_bits, over cleared bytes. */
  method SetCoils(values: array<byte>, qty: nat, out: array<byte>, at: nat, n: nat)
    requires qty <= values.Length && n == BitByteCount(qty) && at + n <= out.Length && values != out
    requires out[at..at + n] == PackedSoFar(Flags(values[..qty]), 0, n)
    modifies out
    ensures out[at..at + n] == PackedSoFar(Flags(values[..qty]), qty, n)
    ensures out[..at] == old(out[..at]) && out[at + n..] == old(out[at + n..])
  {
    ghost var w := Flags(values[..qty]);
    var i := 0;
    while i < qty
      invariant i <= qty
      invariant out[at..at + n] == PackedSoFar(w, i, n)
      invariant out[..at] == old(out[..at]) && out[at + n..] == old(out[at + n..])
    {
      var j := i / 8;
      CoilGoesIn(w, i, n, j);
      if values[i] != 0 {
        OrBit(out, at, n, j, i % 8);
      }
      i := i + 1;
    }
  }

  lemma NothingPacked(w: seq<bool>, n: nat)
    ensures PackedSoFar(w, 0, n) == seq(n, _ => 0)
  {
  }

  lemma AllPacked(values: seq<byte>, n: nat)
    requires n == BitByteCount(|values|)
    ensures PackedSoFar(Flags(values), |values|, n) == Pack(values)
  {
    assert Flags(values)[..|values|] == Flags(values);
  }

  method UnpackBits(packed: array<byte>, at: nat, qty: nat, out: array<byte>)
    requires at + BitByteCount(qty) <= packed.Length && qty <= out.Length && packed != out
    modifies out
    ensures out[..qty] == Unpack(packed[at..at + BitByteCount(qty)], qty)
    ensures out[qty..] == old(out[qty..])
  {
    ghost var source := packed[at..at + BitByteCount(qty)];
    var i := 0;
    while i < qty
      invariant i <= qty
      invariant forall k | 0 <= k < i :: out[k] == PackedBit(source, k)
      invariant forall k | qty <= k < out.Length :: out[k] == old(out[k])
    {
      out[i] := ShiftRight(packed[at + i / 8], i % 8) % 2;
      i := i + 1;
    }
  }

  lemma PackedBitOfPack(values: seq<byte>, i: nat)
    requires i < 8 * BitByteCount(|values|)
    ensures PackedBit(Pack(values), i) == if i < |values| && values[i] != 0 then 1 else 0
  {
    BitOfValue(Group(Flags(values), i / 8), i % 8);
  }

  /** Unpacking what was packed gives the coils normalised to 0 and 1. */
  lemma UnpackOfPack(values: seq<byte>)
    ensures Unpack(Pack(values), |values|) == Normalised(values)
  {
    forall i | 0 <= i < |values| ensures Unpack(Pack(values), |values|)[i] == Normalised(values)[i] {
      PackedBitOfPack(values, i);
    }
  }

  /** Packing leaves the pad bits of the last byte zero. */
  lemma PadBitsZero(values: seq<byte>, i: nat)
    requires |values| <= i < 8 * BitByteCount(|values|)
    ensures !BitSet(Pack(values)[i / 8], i % 8)
  {
    PackedBitOfPack(values, i);
  }

  /** Packing what was unpacked restores the bytes, except that pad bits become zero. */
  lemma PackOfUnpack(packed: seq<byte>, qty: nat, i: nat)
    requires |packed| == BitByteCount(qty) && i < 8 * |packed|
    ensures PackedBit(Pack(Unpack(packed, qty)), i) == if i < qty then PackedBit(packed, i) else 0
  {
    PackedBitOfPack(Unpack(packed, qty), i);
  }

  /** Without pad bits the bytes are restored exactly. */
  lemma PackOfUnpackExact(packed: seq<byte>, qty: nat)
    requires |packed| == BitByteCount(qty)
    requires forall i | qty <= i < 8 * |packed| :: PackedBit(packed, i) == 0
    ensures Pack(Unpack(packed, qty)) == packed
  {
    var packed' := Pack(Unpack(packed, qty));
    forall j | 0 <= j < |packed| ensures packed'[j] == packed[j] {
      Pow2Sixteen();
      forall k | 0 <= k < 8 ensures LowBits(packed'[j], 8)[k] == LowBits(packed[j], 8)[k] {
        var i := 8 * j + k;
        assert i / 8 == j && i % 8 == k;
        PackOfUnpack(packed, qty, i);
        assert PackedBit(packed', i) == PackedBit(packed, i);
        LowBitsAt(packed'[j], 8, k);
        LowBitsAt(packed[j], 8, k);
      }
      assert LowBits(packed'[j], 8) == LowBits(packed[j], 8);
      LowBitsInjective(packed'[j], packed[j], 8);
    }
  }

  // ---- Registers ----

  /** Registers as big-endian byte pairs. */
  function EncodeWords(data: seq<word>): (s: seq<byte>)
    ensures |s| == 2 * |data|
  {
    seq(2 * |data|, i requires 0 <= i < 2 * |data| => if i % 2 == 0 then Hi(data[i / 2]) else Lo(data[i / 2]))
  }

  /** Register number k of those that start at offset at. */
  function NthWord(s: seq<byte>, at: nat, k: nat): word
    requires at + 2 * k + 2 <= |s|
  {
    GetU16(s, at + 2 * k)
  }

  /** n registers read from offset at. */
  function DecodeWords(s: seq<byte>, at: nat, n: nat): (data: seq<word>)
    requires at + 2 * n <= |s|
    ensures |data| == n
  {
    seq(n, i requires 0 <= i < n => NthWord(s, at, i))
  }

  method PutWords(data: array<word>, qty: nat, out: array<byte>, at: nat)
    requires qty <= data.Length && at + 2 * qty <= out.Length
    modifies out
    ensures out[..] == old(out[..at]) + EncodeWords(data[..qty]) + old(out[at + 2 * qty..])
  {
    var i := 0;
    while i < qty
      invariant i <= qty
      invariant forall k | 0 <= k < 2 * i :: out[at + k] == EncodeWords(data[..qty])[k]
      invariant forall k | 0 <= k < out.Length && !(at <= k < at + 2 * i) :: out[k] == old(out[k])
    {
      out[at + 2 * i], out[at + 2 * i + 1] := Hi(data[i]), Lo(data[i]);
      i := i + 1;
    }
    assert out[..at] == old(out[..at]);
    assert out[at + 2 * qty..] == old(out[at + 2 * qty..]);
  }

  method GetWords(s: array<byte>, at: nat, qty: nat, out: array<word>)
    requires at + 2 * qty <= s.Length && qty <= out.Length
    modifies out
    ensures out[..qty] == DecodeWords(s[..], at, qty)
    ensures out[qty..] == old(out[qty..])
  {
    ghost var bytes := s[..];
    var i := 0;
    while i < qty
      invariant i <= qty && s[..] == bytes
      invariant forall k | 0 <= k < i :: out[k] == NthWord(bytes, at, k)
      invariant forall k | qty <= k < out.Length :: out[k] == old(out[k])
    {
      out[i] := Join(s[at + 2 * i], s[at + 2 * i + 1]);
      i := i + 1;
    }
  }

  /** Decoding after encoding, wherever the encoded bytes stand. */
  lemma DecodeOfEncode(before: seq<byte>, data: seq<word>, after: seq<byte>)
    ensures DecodeWords(before + EncodeWords(data) + after, |before|, |data|) == data
  {
    var e := EncodeWords(data);
    var s := before + e + after;
    forall i | 0 <= i < |data| ensures DecodeWords(s, |before|, |data|)[i] == data[i] {
      var k := 2 * i;
      assert s[|before| + k] == e[k] && s[|before| + (k + 1)] == e[k + 1];
      assert e[k] == Hi(data[i]) && e[k + 1] == Lo(data[i]);
    }
  }
}
