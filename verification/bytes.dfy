/** Option and Result values, fixed-width integers, and bytes as integers and as bits. */
module Bytes {

  datatype Option<+T> = None | Some(value: T)

  /** The error classes the runtime distinguishes; the message text is not modelled. */
  datatype Errc = InvalidArgument | Rejected | Busy

  datatype Result<+T> = Ok(value: T) | Err(code: Errc)

  type u8 = x: int | 0 <= x < 0x100
  type u16 = x: int | 0 <= x < 0x1_0000
  type u32 = x: int | 0 <= x < 0x1_0000_0000

  function Max(a: int, b: int): int { if a < b then b else a }

  // ---------- a byte as eight bits ----------

  function ValueOf(b: bv8): u8 { b as int }

  lemma IncrementByte(b: bv8)
    requires ValueOf(b) < 255
    ensures ValueOf(b + 1) == ValueOf(b) + 1
  {
  }

  lemma {:induction false} BitsExist(x: u8)
    ensures exists b: bv8 :: ValueOf(b) == x
  {
    if x == 0 {
      assert ValueOf(0) == 0;
    } else {
      BitsExist(x - 1);
      var b: bv8 :| ValueOf(b) == x - 1;
      IncrementByte(b);
    }
  }

  /** The eight bits of an unsigned byte value. */
  function BitsOf(x: u8): (b: bv8)
    ensures ValueOf(b) == x
  {
    BitsExist(x);
    var b: bv8 :| ValueOf(b) == x;
    b
  }

  lemma BitsOfValue(b: bv8)
    ensures BitsOf(ValueOf(b)) == b
  {
    ValueInjective(BitsOf(ValueOf(b)), b);
  }

  lemma ValueInjective(a: bv8, b: bv8)
    requires ValueOf(a) == ValueOf(b)
    ensures a == b
  {
    assert (a as int) as bv8 == a;
  }

  // ---------- a 16-bit word as two bytes ----------

  function HighByte(x: u16): u8 { x / 256 }
  function LowByte(x: u16): u8 { x % 256 }

  /** The 16-bit value with the given high and low byte. */
  function Join(high: u8, low: u8): u16 { high * 256 + low }

  lemma JoinOfSplit(x: u16)
    ensures Join(HighByte(x), LowByte(x)) == x
  {
  }

  lemma SplitOfJoin(high: u8, low: u8)
    ensures HighByte(Join(high, low)) == high && LowByte(Join(high, low)) == low
  {
  }
}
