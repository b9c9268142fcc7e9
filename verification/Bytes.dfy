/**
 * Integer views of the fixed-width C types.  A uint8_t is a `byte`, a uint16_t is a
 * `word`; every place where the C code shifts, masks, ors or truncates is written out
 * here in terms of / and %, or bit by bit.
 */
module Bytes {
  type byte = x: int | 0 <= x < 0x100
  type word = x: int | 0 <= x < 0x1_0000

  /** (uint8_t)(w >> 8) */
  function Hi(w: word): byte { w / 0x100 }

  /** (uint8_t)(w & 0xFF) */
  function Lo(w: word): byte { w % 0x100 }

  /** (hi << 8) | lo */
  function Join(hi: byte, lo: byte): word { 0x100 * hi + lo }

  lemma JoinOfParts(w: word)
    ensures Join(Hi(w), Lo(w)) == w
  {
  }

  lemma PartsOfJoin(hi: byte, lo: byte)
    ensures Hi(Join(hi, lo)) == hi && Lo(Join(hi, lo)) == lo
  {
  }

  /** get_u16 at offset i */
  function GetU16(s: seq<byte>, i: nat): word
    requires i + 1 < |s|
  {
    Join(s[i], s[i + 1])
  }

  /** (uint8_t)n */
  function TruncateByte(n: nat): byte { n % 0x100 }

  function Min(a: nat, b: nat): nat { if a <= b then a else b }

  function Max(a: nat, b: nat): nat { if a <= b then b else a }

  lemma Associative<T>(a: seq<T>, b: seq<T>, c: seq<T>)
    ensures (a + b) + c == a + (b + c)
  {
  }

  lemma SliceOfPrefix<T>(s: seq<T>, prefix: seq<T>, i: nat, j: nat)
    requires i <= j <= |prefix| && prefix <= s
    ensures prefix[i..j] == s[i..j]
  {
  }

  lemma InitOfConcat<T>(a: seq<T>, b: seq<T>)
    requires b != []
    ensures (a + b)[..|a + b| - 1] == a + b[..|b| - 1] && (a + b)[|a + b| - 1] == b[|b| - 1]
  {
  }

  lemma InitAndLast<T>(s: seq<T>)
    requires s != []
    ensures s == s[..|s| - 1] + [s[|s| - 1]]
  {
  }
}
