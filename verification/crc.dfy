/** The CRC-16 register of the remote frame: reflected polynomial 0xA001, initial value 0xFFFF. */
module Crc16 {

  function CrcBit(x: bv16): bv16 { if x & 1 != 0 then (x >> 1) ^ 0xA001 else x >> 1 }

  function CrcBits(x: bv16, n: nat): bv16 { if n == 0 then x else CrcBit(CrcBits(x, n - 1)) }

  /** The register after one message byte. */
  function CrcByte(x: bv16, b: bv8): bv16 { CrcBits(Mix(x, b), 8) }

  function Mix(x: bv16, b: bv8): bv16 { x ^ (b as bv16) }

  /** The register after a message, started at x. */
  function CrcFrom(x: bv16, data: seq<bv8>): bv16 {
    if data == [] then x else CrcByte(CrcFrom(x, data[..|data| - 1]), data[|data| - 1])
  }

  function Crc(data: seq<bv8>): bv16 { CrcFrom(0xFFFF, data) }

  // ---------- the register step is a bijection ----------

  /** The step run backwards: the polynomial's top bit tells which branch was taken. */
  function CrcUnbit(y: bv16): bv16 { if y & 0x8000 != 0 then ((y ^ 0xA001) << 1) | 1 else y << 1 }

  lemma BitInjective(x: bv16, y: bv16)
    requires CrcBit(x) == CrcBit(y)
    ensures x == y
  {
  }

  lemma UnbitEven(y: bv16)
    requires y & 0x8000 == 0
    ensures CrcBit(y << 1) == y
  {
  }

  lemma UnbitOdd(y: bv16)
    requires y & 0x8000 != 0
    ensures CrcBit(((y ^ 0xA001) << 1) | 1) == y
  {
  }

  lemma BitOnto(y: bv16)
    ensures CrcBit(CrcUnbit(y)) == y
  {
    hide CrcBit;
    if y & 0x8000 != 0 { UnbitOdd(y); } else { UnbitEven(y); }
  }

  lemma BitBijective(x: bv16)
    ensures CrcUnbit(CrcBit(x)) == x && CrcBit(CrcUnbit(x)) == x
  {
    hide CrcBit, CrcUnbit;
    BitOnto(x);
    BitOnto(CrcBit(x));
    BitInjective(CrcUnbit(CrcBit(x)), x);
  }

  lemma {:induction false} BitsInjective(x: bv16, y: bv16, n: nat)
    requires CrcBits(x, n) == CrcBits(y, n)
    ensures x == y
  {
    if n > 0 {
      BitInjective(CrcBits(x, n - 1), CrcBits(y, n - 1));
      BitsInjective(x, y, n - 1);
    }
  }

  lemma MixKeepsRegister(x: bv16, y: bv16, b: bv8)
    requires Mix(x, b) == Mix(y, b)
    ensures x == y
  {
  }

  lemma MixKeepsByte(x: bv16, b: bv8, c: bv8)
    requires Mix(x, b) == Mix(x, c)
    ensures b == c
  {
  }

  /** For one byte, different registers stay different. */
  lemma RegisterInjective(x: bv16, y: bv16, b: bv8)
    requires CrcByte(x, b) == CrcByte(y, b)
    ensures x == y
  {
    hide CrcBits, Mix;
    BitsInjective(Mix(x, b), Mix(y, b), 8);
    MixKeepsRegister(x, y, b);
  }

  /** For one register, different bytes give different registers. */
  lemma ByteInjective(x: bv16, b: bv8, c: bv8)
    requires CrcByte(x, b) == CrcByte(x, c)
    ensures b == c
  {
    hide CrcBits, Mix;
    BitsInjective(Mix(x, b), Mix(x, c), 8);
    MixKeepsByte(x, b, c);
  }

  lemma {:induction false} SuffixInjective(x: bv16, y: bv16, data: seq<bv8>)
    requires CrcFrom(x, data) == CrcFrom(y, data)
    ensures x == y
  {
    hide CrcByte;
    if data != [] {
      var last := data[|data| - 1];
      RegisterInjective(CrcFrom(x, data[..|data| - 1]), CrcFrom(y, data[..|data| - 1]), last);
      SuffixInjective(x, y, data[..|data| - 1]);
    }
  }

  lemma {:induction false} CrcOfConcat(x: bv16, a: seq<bv8>, b: seq<bv8>)
    ensures CrcFrom(x, a + b) == CrcFrom(CrcFrom(x, a), b)
  {
    hide CrcByte;
    if b == [] {
      assert a + b == a;
    } else {
      CrcOfConcat(x, a, b[..|b| - 1]);
      assert (a + b)[..|a + b| - 1] == a + b[..|b| - 1];
    }
  }

  /** Two messages of any length that differ in exactly one byte have different CRCs. */
  lemma OneByteIsSeen(data: seq<bv8>, i: nat, c: bv8)
    requires i < |data| && data[i] != c
    ensures Crc(data[i := c]) != Crc(data)
  {
    hide CrcByte;
    var before, after := data[..i], data[i + 1..];
    var x := Crc(before);
    assert data == before + [data[i]] + after && data[i := c] == before + [c] + after;
    CrcOfConcat(0xFFFF, before + [data[i]], after);
    CrcOfConcat(0xFFFF, before + [c], after);
    assert (before + [data[i]])[..i] == before && (before + [c])[..i] == before;
    if Crc(data[i := c]) == Crc(data) {
      SuffixInjective(CrcByte(x, c), CrcByte(x, data[i]), after);
      ByteInjective(x, c, data[i]);
      assert false;
    }
  }

  // ---------- the register as two bytes ----------

  function CrcLow(x: bv16): bv8 { (x & 0xFF) as bv8 }
  function CrcHigh(x: bv16): bv8 { (x >> 8) as bv8 }
  function CrcJoin(low: bv8, high: bv8): bv16 { (low as bv16) | ((high as bv16) << 8) }

  lemma CrcSplit(x: bv16)
    ensures CrcJoin(CrcLow(x), CrcHigh(x)) == x
  {
  }

  lemma CrcJoinInjective(low: bv8, high: bv8)
    ensures CrcLow(CrcJoin(low, high)) == low && CrcHigh(CrcJoin(low, high)) == high
  {
  }
}
