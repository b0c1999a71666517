/**
 What the CRC register computes: the remainder of polynomial division over GF(2), as section 2.5.1.2 of MODBUS over
 Serial Line V1.02 defines it. Polynomials are lists of coefficients, the highest power first.
 */
module CrcDivision {
  import opened Crc16

  // ---------- the definition ----------

  type Poly = seq<bool>

  /** x^16 + x^15 + x^2 + 1: entry i is the coefficient of x^(16 - i). */
  const GENERATOR: Poly := seq(17, i => i == 0 || i == 1 || i == 14 || i == 16)

  /** Schoolbook division: cancel the leading coefficient until fewer than seventeen are left. */
  function Remainder(d: Poly): (r: Poly)
    ensures |d| >= 16 ==> |r| == 16
    decreases |d|
  {
    if |d| <= 16 then d
    else if d[0] then Remainder(Cancelled(d)) else Remainder(d[1..])
  }

  /** Minus the generator, aligned with the leading coefficient, which drops out. */
  function Cancelled(d: Poly): (c: Poly)
    requires |d| > 16
    ensures |c| == |d| - 1
  {
    seq(|d| - 1, i requires 0 <= i < |d| - 1 => if i < 16 then d[i + 1] != GENERATOR[i + 1] else d[i + 1])
  }

  function Mask8(i: nat): bv8
    requires i < 8
  {
    if i == 0 then 1 else if i == 1 then 2 else if i == 2 then 4 else if i == 3 then 8
    else if i == 4 then 16 else if i == 5 then 32 else if i == 6 then 64 else 128
  }

  predicate Has8(b: bv8, mask: bv8) { b & mask != 0 }

  /** The bits of a byte in the order they are sent, least significant first. */
  function ByteBits(b: bv8): (p: Poly)
    ensures |p| == 8
  {
    seq(8, i requires 0 <= i < 8 => Has8(b, Mask8(i)))
  }

  function MessageBits(data: seq<bv8>): Poly {
    if data == [] then [] else ByteBits(data[0]) + MessageBits(data[1..])
  }

  /** The message times x^16, its first sixteen coefficients inverted. */
  function Dividend(message: Poly): Poly { Combined(message + Zeros(16), Ones(16)) }

  function Zeros(n: nat): Poly { seq(n, _ => false) }
  function Ones(n: nat): Poly { seq(n, _ => true) }

  /** Addition over GF(2), aligned at the highest power of d. */
  function Combined(d: Poly, r: Poly): Poly {
    seq(|d|, i requires 0 <= i < |d| => d[i] != (i < |r| && r[i]))
  }

  /** The CRC of a message, lowest bit of the register first: a reflected register holds x^15 in its lowest bit. */
  function CrcByDivision(data: seq<bv8>): Poly { Remainder(Dividend(MessageBits(data))) }

  // ---------- the register as a polynomial ----------

  function Mask16(i: nat): bv16
    requires i < 16
  {
    if i == 0 then 0x1 else if i == 1 then 0x2 else if i == 2 then 0x4 else if i == 3 then 0x8
    else if i == 4 then 0x10 else if i == 5 then 0x20 else if i == 6 then 0x40 else if i == 7 then 0x80
    else if i == 8 then 0x100 else if i == 9 then 0x200 else if i == 10 then 0x400 else if i == 11 then 0x800
    else if i == 12 then 0x1000 else if i == 13 then 0x2000 else if i == 14 then 0x4000
    else 0x8000
  }

  predicate Has16(x: bv16, mask: bv16) { x & mask != 0 }

  function RegisterBits(x: bv16): (p: Poly)
    ensures |p| == 16
  {
    seq(16, i requires 0 <= i < 16 => Has16(x, Mask16(i)))
  }

  lemma SameBits(x: bv16, y: bv16)
    requires Has16(x, 0x1) == Has16(y, 0x1) && Has16(x, 0x2) == Has16(y, 0x2)
    requires Has16(x, 0x4) == Has16(y, 0x4) && Has16(x, 0x8) == Has16(y, 0x8)
    requires Has16(x, 0x10) == Has16(y, 0x10) && Has16(x, 0x20) == Has16(y, 0x20)
    requires Has16(x, 0x40) == Has16(y, 0x40) && Has16(x, 0x80) == Has16(y, 0x80)
    requires Has16(x, 0x100) == Has16(y, 0x100) && Has16(x, 0x200) == Has16(y, 0x200)
    requires Has16(x, 0x400) == Has16(y, 0x400) && Has16(x, 0x800) == Has16(y, 0x800)
    requires Has16(x, 0x1000) == Has16(y, 0x1000) && Has16(x, 0x2000) == Has16(y, 0x2000)
    requires Has16(x, 0x4000) == Has16(y, 0x4000) && Has16(x, 0x8000) == Has16(y, 0x8000)
    ensures x == y
  {
  }

  /** Different registers have different bits, so equal bits pin the register. */
  lemma RegisterBitsInjective(x: bv16, y: bv16)
    requires RegisterBits(x) == RegisterBits(y)
    ensures x == y
  {
    hide Has16;
    forall i | 0 <= i < 16 ensures Has16(x, Mask16(i)) == Has16(y, Mask16(i)) {
      assert RegisterBits(x)[i] == RegisterBits(y)[i];
    }
    MasksCover(x, y);
    SameBits(x, y);
  }

  lemma MasksCover(x: bv16, y: bv16)
    requires forall i :: 0 <= i < 16 ==> Has16(x, Mask16(i)) == Has16(y, Mask16(i))
    ensures Has16(x, 0x1) == Has16(y, 0x1) && Has16(x, 0x2) == Has16(y, 0x2)
    ensures Has16(x, 0x4) == Has16(y, 0x4) && Has16(x, 0x8) == Has16(y, 0x8)
    ensures Has16(x, 0x10) == Has16(y, 0x10) && Has16(x, 0x20) == Has16(y, 0x20)
    ensures Has16(x, 0x40) == Has16(y, 0x40) && Has16(x, 0x80) == Has16(y, 0x80)
    ensures Has16(x, 0x100) == Has16(y, 0x100) && Has16(x, 0x200) == Has16(y, 0x200)
    ensures Has16(x, 0x400) == Has16(y, 0x400) && Has16(x, 0x800) == Has16(y, 0x800)
    ensures Has16(x, 0x1000) == Has16(y, 0x1000) && Has16(x, 0x2000) == Has16(y, 0x2000)
    ensures Has16(x, 0x4000) == Has16(y, 0x4000) && Has16(x, 0x8000) == Has16(y, 0x8000)
  {
    hide Has16;
    assert Mask16(0) == 0x1 && Mask16(1) == 0x2 && Mask16(2) == 0x4 && Mask16(3) == 0x8;
    assert Mask16(4) == 0x10 && Mask16(5) == 0x20 && Mask16(6) == 0x40 && Mask16(7) == 0x80;
    assert Mask16(8) == 0x100 && Mask16(9) == 0x200 && Mask16(10) == 0x400 && Mask16(11) == 0x800;
    assert Mask16(12) == 0x1000 && Mask16(13) == 0x2000 && Mask16(14) == 0x4000 && Mask16(15) == 0x8000;
  }

  /** One step of the register, on its bits. */
  function Shifted(r: Poly): (s: Poly)
    requires |r| == 16
    ensures |s| == 16
  {
    seq(16, i requires 0 <= i < 16 => (i < 15 && r[i + 1]) != (r[0] && GENERATOR[i + 1]))
  }

  function Xor(x: bv16, y: bv16): bv16 { x ^ y }
  function Half(x: bv16): bv16 { x >> 1 }
  function Twice(x: bv16): bv16 { x << 1 }
  function Wide(b: bv8): bv16 { b as bv16 }
  predicate OneBit(mask: bv16) { mask & (mask - 1) == 0 }
  predicate AboveByte(mask: bv16) { mask & 0xFF == 0 }

  lemma HasXorRaw(x: bv16, y: bv16, mask: bv16)
    requires mask & (mask - 1) == 0
    ensures Has16(x ^ y, mask) == (Has16(x, mask) != Has16(y, mask))
  {
  }

  /** Addition acts on each bit alone. */
  lemma HasXor(x: bv16, y: bv16, mask: bv16)
    requires OneBit(mask)
    ensures Has16(Xor(x, y), mask) == (Has16(x, mask) != Has16(y, mask))
  {
    hide Has16;
    HasXorRaw(x, y, mask);
  }

  lemma HasHalf(x: bv16, mask: bv16)
    ensures Has16(Half(x), mask) == Has16(x, Twice(mask))
  {
  }

  lemma HasNone(x: bv16)
    ensures !Has16(x, 0)
  {
  }

  lemma HasWide(b: bv8, mask: bv8)
    ensures Has16(Wide(b), Wide(mask)) == Has8(b, mask)
  {
  }

  lemma HasHigh(b: bv8, mask: bv16)
    requires AboveByte(mask)
    ensures !Has16(Wide(b), mask)
  {
  }

  lemma MaskFacts(i: nat)
    requires i < 16
    ensures OneBit(Mask16(i))
    ensures Twice(Mask16(i)) == if i < 15 then Mask16(i + 1) else 0
    ensures if i < 8 then Mask16(i) == Wide(Mask8(i)) else AboveByte(Mask16(i))
    ensures Has16(0xA001, Mask16(i)) == GENERATOR[i + 1]
  {
  }

  lemma BitIs(x: bv16)
    ensures CrcBit(x) == if Has16(x, 1) then Xor(Half(x), 0xA001) else Half(x)
  {
  }

  lemma MixIs(x: bv16, b: bv8)
    ensures Mix(x, b) == Xor(x, Wide(b))
  {
  }

  lemma StepBit(x: bv16, i: nat)
    requires i < 16
    ensures Has16(CrcBit(x), Mask16(i)) == ((i < 15 && Has16(x, Mask16(i + 1))) != (Has16(x, 1) && GENERATOR[i + 1]))
  {
    hide Has16, Mask16, CrcBit, Xor, Half, Twice, OneBit, AboveByte, Wide;
    MaskFacts(i);
    HasHalf(x, Mask16(i));
    HasNone(x);
    HasXor(Half(x), 0xA001, Mask16(i));
    BitIs(x);
  }

  lemma BitShifts(x: bv16)
    ensures RegisterBits(CrcBit(x)) == Shifted(RegisterBits(x))
  {
    hide CrcBit, Has16, Mask16;
    FirstMask();
    forall i | 0 <= i < 16 ensures RegisterBits(CrcBit(x))[i] == Shifted(RegisterBits(x))[i] { StepBit(x, i); }
  }

  lemma FirstMask()
    ensures Mask16(0) == 1
  {
  }

  lemma MixBit(x: bv16, b: bv8, i: nat)
    requires i < 16
    ensures Has16(Mix(x, b), Mask16(i)) == (Has16(x, Mask16(i)) != (i < 8 && Has8(b, Mask8(i))))
  {
    hide Has16, Has8, Mask16, Mask8, Mix, Xor, Half, Twice, OneBit, AboveByte, Wide;
    MaskFacts(i);
    MixIs(x, b);
    HasXor(x, Wide(b), Mask16(i));
    if i < 8 { HasWide(b, Mask8(i)); } else { HasHigh(b, Mask16(i)); }
  }

  lemma MixAdds(x: bv16, b: bv8)
    ensures RegisterBits(Mix(x, b)) == Combined(RegisterBits(x), ByteBits(b))
  {
    hide Mix, Has16, Has8, Mask16, Mask8;
    forall i | 0 <= i < 16 ensures RegisterBits(Mix(x, b))[i] == Combined(RegisterBits(x), ByteBits(b))[i] {
      MixBit(x, b, i);
    }
  }

  lemma LowHas(x: bv16, mask: bv8)
    ensures Has8(CrcLow(x), mask) == Has16(x, Wide(mask))
  {
  }

  lemma HighHas(x: bv16, mask: bv8)
    ensures Has8(CrcHigh(x), mask) == Has16(x, Wide(mask) << 8)
  {
  }

  lemma HighMask(i: nat)
    requires 8 <= i < 16
    ensures Mask16(i) == Wide(Mask8(i - 8)) << 8
  {
  }

  /** The register sent low byte first is its bits in order. */
  lemma RegisterAsBytes(x: bv16)
    ensures ByteBits(CrcLow(x)) + ByteBits(CrcHigh(x)) == RegisterBits(x)
  {
    hide Has8, Has16, Mask8, Mask16, CrcLow, CrcHigh, Wide, OneBit, AboveByte, Twice;
    var p, q := ByteBits(CrcLow(x)) + ByteBits(CrcHigh(x)), RegisterBits(x);
    forall i | 0 <= i < 16 ensures p[i] == q[i] {
      MaskFacts(i);
      if i < 8 { LowHas(x, Mask8(i)); } else { HighHas(x, Mask8(i - 8)); HighMask(i); }
    }
  }

  // ---------- the register divides ----------

  /** What is still to be divided: the rest of the message times x^16, the register added at its highest powers. */
  function Pending(r: Poly, message: Poly): (p: Poly)
    ensures |p| == |message| + 16
  {
    Combined(message + Zeros(16), r)
  }

  /** A register step divides one more zero coefficient. */
  lemma ShiftDivides(r: Poly, message: Poly)
    requires |r| == 16
    ensures Remainder(Pending(r, [false] + message)) == Remainder(Pending(Shifted(r), message))
  {
    hide Remainder;
    var d, e := Pending(r, [false] + message), Pending(Shifted(r), message);
    RemainderStep(d);
    if r[0] {
      forall i | 0 <= i < |e| ensures Cancelled(d)[i] == e[i] { }
      assert Cancelled(d) == e;
    } else {
      forall i | 0 <= i < |e| ensures d[1..][i] == e[i] { }
      assert d[1..] == e;
    }
  }

  lemma RemainderStep(d: Poly)
    requires |d| > 16
    ensures Remainder(d) == if d[0] then Remainder(Cancelled(d)) else Remainder(d[1..])
  {
    hide Cancelled;
  }

  function Shifts(r: Poly, n: nat): (s: Poly)
    requires |r| == 16
    ensures |s| == 16
  {
    if n == 0 then r else Shifted(Shifts(r, n - 1))
  }

  lemma {:induction false} ShiftsDivide(r: Poly, n: nat, message: Poly)
    requires |r| == 16
    ensures Remainder(Pending(r, Zeros(n) + message)) == Remainder(Pending(Shifts(r, n), message))
    decreases n
  {
    hide Remainder, Pending, Shifted;
    if n == 0 {
      assert Zeros(0) + message == message;
    } else {
      assert Zeros(n) + message == Zeros(n - 1) + ([false] + message);
      ShiftsDivide(r, n - 1, [false] + message);
      ShiftDivides(Shifts(r, n - 1), message);
    }
  }

  lemma {:induction false} BitsShift(x: bv16, n: nat)
    ensures RegisterBits(CrcBits(x, n)) == Shifts(RegisterBits(x), n)
  {
    hide RegisterBits, CrcBit, Shifted;
    if n > 0 {
      BitsShift(x, n - 1);
      BitShifts(CrcBits(x, n - 1));
    }
  }

  /** Adding a byte to the register is the same as having it at the front of the message. */
  lemma AddingIsReading(r: Poly, byte: Poly, message: Poly)
    requires |r| == 16 && |byte| == 8
    ensures Pending(r, byte + message) == Pending(Combined(r, byte), Zeros(8) + message)
  {
    var p, q := Pending(r, byte + message), Pending(Combined(r, byte), Zeros(8) + message);
    forall i | 0 <= i < |p| ensures p[i] == q[i] { }
  }

  lemma ByteDivides(x: bv16, b: bv8, message: Poly)
    ensures Remainder(Pending(RegisterBits(x), ByteBits(b) + message))
         == Remainder(Pending(RegisterBits(CrcByte(x, b)), message))
  {
    hide Remainder, Pending, RegisterBits, ByteBits, Combined, CrcBits, Mix;
    var r := RegisterBits(x);
    AddingIsReading(r, ByteBits(b), message);
    MixAdds(x, b);
    ShiftsDivide(RegisterBits(Mix(x, b)), 8, message);
    BitsShift(Mix(x, b), 8);
  }

  /** The register after a message, taken from its front. */
  lemma CrcFromFront(x: bv16, data: seq<bv8>)
    requires data != []
    ensures CrcFrom(x, data) == CrcFrom(CrcByte(x, data[0]), data[1..])
  {
    hide CrcByte;
    CrcOfConcat(x, [data[0]], data[1..]);
    assert data == [data[0]] + data[1..];
    assert [data[0]][..0] == [];
  }

  lemma {:induction false} RegisterDivides(x: bv16, data: seq<bv8>)
    ensures RegisterBits(CrcFrom(x, data)) == Remainder(Pending(RegisterBits(x), MessageBits(data)))
    decreases |data|
  {
    hide Remainder, Pending, RegisterBits, ByteBits, CrcByte, CrcFrom;
    if data == [] {
      NothingPending(x);
      NothingRead(x);
    } else {
      CrcFromFront(x, data);
      RegisterDivides(CrcByte(x, data[0]), data[1..]);
      ByteDivides(x, data[0], MessageBits(data[1..]));
    }
  }

  lemma NothingPending(x: bv16)
    ensures Remainder(Pending(RegisterBits(x), [])) == RegisterBits(x)
  {
    hide Has16, Mask16;
    var r := RegisterBits(x);
    assert [] + Zeros(16) == Zeros(16);
    assert Pending(r, []) == r;
  }

  lemma NothingRead(x: bv16)
    ensures CrcFrom(x, []) == x
  {
  }

  lemma AllOnes()
    ensures RegisterBits(0xFFFF) == Ones(16)
  {
  }

  /** For every message, the register holds the remainder of the division, and no other register does. */
  lemma CrcIsRemainder(data: seq<bv8>)
    ensures RegisterBits(Crc(data)) == CrcByDivision(data)
    ensures forall x: bv16 :: RegisterBits(x) == CrcByDivision(data) ==> x == Crc(data)
  {
    hide Remainder, RegisterBits, CrcFrom, MessageBits, Combined;
    AllOnes();
    RegisterDivides(0xFFFF, data);
    forall x: bv16 | RegisterBits(x) == CrcByDivision(data) ensures x == Crc(data) {
      RegisterBitsInjective(x, Crc(data));
    }
  }

  // ---------- the loop ----------

  /** The loop as the source runs it, one byte and one bit at a time, leaves the remainder in the register. */
  method RemoteCrc16(data: seq<bv8>) returns (crc: bv16)
    ensures crc == Crc(data)
    ensures RegisterBits(crc) == CrcByDivision(data)
  {
    crc := 0xFFFF;
    for i := 0 to |data|
      invariant crc == CrcFrom(0xFFFF, data[..i])
    {
      ghost var before := crc;
      crc := crc ^ (data[i] as bv16);
      for bit := 0 to 8
        invariant crc == CrcBits(Mix(before, data[i]), bit)
      {
        if crc & 1 != 0 {
          crc := (crc >> 1) ^ 0xA001;
        } else {
          crc := crc >> 1;
        }
      }
      assert data[..i + 1][..i] == data[..i];
    }
    assert data[..|data|] == data;
    CrcIsRemainder(data);
  }

  // ---------- the published check value ----------

  lemma CheckSteps()
    ensures CrcByte(0xFFFF, 0x31) == 0x947E
    ensures CrcByte(0x947E, 0x32) == 0xF595
    ensures CrcByte(0xF595, 0x33) == 0x7A75
    ensures CrcByte(0x7A75, 0x34) == 0x30BA
    ensures CrcByte(0x30BA, 0x35) == 0xA471
    ensures CrcByte(0xA471, 0x36) == 0x32E4
    ensures CrcByte(0x32E4, 0x37) == 0x9D73
    ensures CrcByte(0x9D73, 0x38) == 0x37DD
    ensures CrcByte(0x37DD, 0x39) == 0x4B37
  {
  }

  /** The CRC of the nine digits "123456789". */
  lemma CheckValue()
    ensures Crc([0x31, 0x32, 0x33, 0x34, 0x35, 0x36, 0x37, 0x38, 0x39]) == 0x4B37
  {
    hide CrcByte;
    CheckSteps();
    var five: seq<bv8>, four: seq<bv8> := [0x31, 0x32, 0x33, 0x34, 0x35], [0x36, 0x37, 0x38, 0x39];
    assert five + four == [0x31, 0x32, 0x33, 0x34, 0x35, 0x36, 0x37, 0x38, 0x39];
    CrcOfConcat(0xFFFF, five, four);
    FiveBytes(0xFFFF, five);
    FourBytes(CrcFrom(0xFFFF, five), four);
  }

  lemma FourBytes(x: bv16, d: seq<bv8>)
    requires |d| == 4
    ensures CrcFrom(x, d) == CrcByte(CrcByte(CrcByte(CrcByte(x, d[0]), d[1]), d[2]), d[3])
  {
    hide CrcByte;
    assert d[..1][..0] == [] && CrcFrom(x, d[..1]) == CrcByte(x, d[0]);
    assert d[..2][..1] == d[..1] && CrcFrom(x, d[..2]) == CrcByte(CrcFrom(x, d[..1]), d[1]);
    assert d[..3][..2] == d[..2] && CrcFrom(x, d[..3]) == CrcByte(CrcFrom(x, d[..2]), d[2]);
  }

  lemma FiveBytes(x: bv16, d: seq<bv8>)
    requires |d| == 5
    ensures CrcFrom(x, d) == CrcByte(CrcByte(CrcByte(CrcByte(CrcByte(x, d[0]), d[1]), d[2]), d[3]), d[4])
  {
    hide CrcByte;
    FourBytes(x, d[..4]);
  }
}
