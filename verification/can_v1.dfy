/**
 The CAN V1 wire contract: identifier packing, serial-number comparison, relative
 validity, and the stateless encoder and decoder of the four messages.
 */
module CanV1 {
  import opened Bytes

  const PROTOCOL_VERSION: u8 := 1
  const MAX_NODE_ID: u8 := 31
  const MIN_VALIDITY := 1
  const MAX_VALIDITY := 250
  const VALIDITY_UNIT_NS := 10_000_000

  datatype OutputResult = Applied | StaleSequence | SessionMismatch | Expired | InvalidMask | NotReady

  datatype Message =
    | Heartbeat(node: u8, bootId: u16, sessionId: u16, hbSeq: u16)
    | Status(node: u8, interlockReady: bool, sessionId: u16, inputBits: u16, faultCode: u16)
    | Command(node: u8, mask: bv8, sessionId: u16, sequence: u16, values: bv8, validity: u8)
    | OutputStatus(node: u8, result: OutputResult, sessionId: u16, sequence: u16, mirror: bv8)

  type WireCommand = m: Message | m.Command? witness Command(1, 1, 1, 1, 0, 1)
  type WireStatus = m: Message | m.OutputStatus? witness OutputStatus(1, Applied, 1, 0, 0)

  /** The eight payload bytes of a frame, index by index. */
  datatype Data = Data(b0: u8, b1: u8, b2: u8, b3: u8, b4: u8, b5: u8, b6: u8, b7: u8)

  /** A classic CAN frame as SocketCAN carries it: identifier and flag bits in one word. */
  datatype CanFrame = CanFrame(canId: u32, len: nat, data: Data)

  // ---------- identifiers ----------

  function FunctionCode(m: Message): u8 {
    match m
    case Heartbeat(_, _, _, _) => 1
    case Status(_, _, _, _, _) => 2
    case Command(_, _, _, _, _, _) => 3
    case OutputStatus(_, _, _, _, _) => 4
  }

  const COMMAND_FUNCTION: u8 := 3

  /** Bits 10..5 hold the function, bits 4..0 the node. */
  function MakeId(code: u8, node: u8): (id: u32)
    ensures code < 64 ==> id < 0x800
  {
    code * 32 + node % 32
  }

  /** The low eleven bits: all of a standard identifier, without the flags above it. */
  function StandardId(canId: u32): (id: u32)
    ensures id < 0x800
  {
    canId % 0x800
  }

  function NodeOfId(raw11: u32): u8 { raw11 % 32 }

  function FunctionOfId(raw11: u32): u8 { raw11 / 32 % 64 }

  /** Bit 31: extended frame. */
  predicate IsExtended(canId: u32) { canId >= 0x8000_0000 }

  /** Bit 30: remote transmission request. */
  predicate IsRtr(canId: u32) { canId % 0x8000_0000 >= 0x4000_0000 }

  predicate IsStandardData(canId: u32)
    ensures IsStandardData(canId) <==> canId < 0x4000_0000
  {
    !IsExtended(canId) && !IsRtr(canId)
  }

  // ---------- encoding ----------

  function ResultCode(r: OutputResult): u8 {
    match r
    case Applied => 0
    case StaleSequence => 1
    case SessionMismatch => 2
    case Expired => 3
    case InvalidMask => 4
    case NotReady => 5
  }

  function ResultOfCode(b: u8): OutputResult
    requires b <= 5
  {
    if b == 0 then Applied
    else if b == 1 then StaleSequence
    else if b == 2 then SessionMismatch
    else if b == 3 then Expired
    else if b == 4 then InvalidMask
    else NotReady
  }

  /** What the wire contract demands of a message's own fields. */
  predicate Legal(m: Message) {
    && 1 <= m.node <= MAX_NODE_ID
    && m.sessionId != 0
    && (m.Heartbeat? ==> m.bootId != 0)
    && (m.Command? ==> m.mask != 0 && m.sequence != 0 && MIN_VALIDITY <= m.validity <= MAX_VALIDITY)
  }

  function Payload(m: Message): Data {
    match m
    case Heartbeat(_, boot, session, hb) =>
      Data(PROTOCOL_VERSION, 0, HighByte(boot), LowByte(boot), HighByte(session), LowByte(session),
       HighByte(hb), LowByte(hb))
    case Status(_, ready, session, inputs, fault) =>
      Data(PROTOCOL_VERSION, if ready then 1 else 0, HighByte(session), LowByte(session),
       HighByte(inputs), LowByte(inputs), HighByte(fault), LowByte(fault))
    case Command(_, mask, session, sequence, values, validity) =>
      Data(PROTOCOL_VERSION, ValueOf(mask), HighByte(session), LowByte(session),
       HighByte(sequence), LowByte(sequence), ValueOf(values), validity)
    case OutputStatus(_, result, session, sequence, mirror) =>
      Data(PROTOCOL_VERSION, ResultCode(result), HighByte(session), LowByte(session),
       HighByte(sequence), LowByte(sequence), ValueOf(mirror), 0)
  }

  function FrameOf(m: Message): CanFrame {
    CanFrame(MakeId(FunctionCode(m), m.node), 8, Payload(m))
  }

  function Encode(m: Message): Result<CanFrame> {
    if Legal(m) then Ok(FrameOf(m)) else Err(InvalidArgument)
  }

  // ---------- decoding ----------

  /** Flags, length, node and function: everything checked before a payload byte is read. */
  predicate FrameLayerOk(f: CanFrame, expected: u8) {
    && IsStandardData(f.canId)
    && f.len == 8
    && NodeOfId(StandardId(f.canId)) != 0
    && NodeOfId(StandardId(f.canId)) <= MAX_NODE_ID
    && FunctionOfId(StandardId(f.canId)) == expected
  }

  function ParseHeartbeat(node: u8, data: Data): Result<Message> {
    if data.b0 != PROTOCOL_VERSION || data.b1 != 0 then Err(Rejected) else
      var m := Heartbeat(node, Join(data.b2, data.b3), Join(data.b4, data.b5), Join(data.b6, data.b7));
      if m.bootId == 0 || m.sessionId == 0 then Err(Rejected) else Ok(m)
  }

  function ParseStatus(node: u8, data: Data): Result<Message> {
    if data.b0 != PROTOCOL_VERSION || data.b1 >= 2 then Err(Rejected) else
      var m := Status(node, data.b1 == 1, Join(data.b2, data.b3),
                      Join(data.b4, data.b5), Join(data.b6, data.b7));
      if m.sessionId == 0 then Err(Rejected) else Ok(m)
  }

  function ParseCommand(node: u8, data: Data): (r: Result<Message>)
    ensures r.Ok? ==> r.value.Command? && r.value.node == node
  {
    if data.b0 != PROTOCOL_VERSION then Err(Rejected) else
      var m := Command(node, BitsOf(data.b1), Join(data.b2, data.b3), Join(data.b4, data.b5),
                       BitsOf(data.b6), data.b7);
      if data.b1 == 0 || m.sessionId == 0 || m.sequence == 0
         || m.validity < MIN_VALIDITY || m.validity > MAX_VALIDITY
      then Err(Rejected) else Ok(m)
  }

  function ParseOutputStatus(node: u8, data: Data): Result<Message> {
    if data.b0 != PROTOCOL_VERSION
       || data.b7 != 0 || data.b1 > 5 then Err(Rejected) else
      var m := OutputStatus(node, ResultOfCode(data.b1),
                            Join(data.b2, data.b3), Join(data.b4, data.b5), BitsOf(data.b6));
      if m.sessionId == 0 then Err(Rejected) else Ok(m)
  }

  function Parse(code: u8, node: u8, data: Data): Result<Message> {
    if code == 1 then ParseHeartbeat(node, data)
    else if code == 2 then ParseStatus(node, data)
    else if code == 3 then ParseCommand(node, data)
    else if code == 4 then ParseOutputStatus(node, data)
    else Err(Rejected)
  }

  /** The decoder a node uses: only the command function is admitted. */
  function DecodeCommand(f: CanFrame): (r: Result<Message>)
    ensures r.Ok? ==> r.value.Command?
  {
    if FrameLayerOk(f, COMMAND_FUNCTION) then ParseCommand(NodeOfId(StandardId(f.canId)), f.data)
    else Err(Rejected)
  }

  /** Dispatch on the function field of the identifier. */
  function Decode(f: CanFrame): Result<Message> {
    var code := FunctionOfId(StandardId(f.canId));
    if FrameLayerOk(f, code) then Parse(code, NodeOfId(StandardId(f.canId)), f.data)
    else Err(Rejected)
  }

  // ---------- encoder and decoder agree ----------

  lemma IdUnpackOfPack(code: u8, node: u8)
    requires code < 64 && node <= MAX_NODE_ID
    ensures var id := MakeId(code, node);
            IsStandardData(id) && NodeOfId(StandardId(id)) == node && FunctionOfId(StandardId(id)) == code
  {
    var id := MakeId(code, node);
    assert StandardId(id) == id == 32 * code + node;
    assert id / 32 == code;
  }

  lemma LegalFrameLayer(m: Message)
    requires Legal(m)
    ensures FrameLayerOk(FrameOf(m), FunctionCode(m))
    ensures FunctionOfId(StandardId(FrameOf(m).canId)) == FunctionCode(m)
    ensures NodeOfId(StandardId(FrameOf(m).canId)) == m.node
  {
    hide Payload, MakeId, StandardId, NodeOfId, FunctionOfId, IsStandardData;
    IdUnpackOfPack(FunctionCode(m), m.node);
  }

  lemma ParseOfPayload(m: Message)
    requires Legal(m)
    ensures Parse(FunctionCode(m), m.node, Payload(m)) == Ok(m)
  {
    hide HighByte, LowByte, Join, ValueOf, BitsOf;
    JoinOfSplit(m.sessionId);
    match m
    case Heartbeat(_, boot, _, hb) => JoinOfSplit(boot); JoinOfSplit(hb);
    case Status(_, _, _, inputs, fault) => JoinOfSplit(inputs); JoinOfSplit(fault);
    case Command(_, mask, _, sequence, values, _) =>
      JoinOfSplit(sequence); BitsOfValue(mask); BitsOfValue(values); ZeroByte(mask);
    case OutputStatus(_, _, _, sequence, mirror) => JoinOfSplit(sequence); BitsOfValue(mirror);
  }

  lemma ZeroByte(b: bv8)
    ensures ValueOf(b) == 0 <==> b == 0
  {
    if ValueOf(b) == 0 { ValueInjective(b, 0); }
  }

  /** Every message that encodes is read back unchanged. */
  lemma RoundTrip(m: Message)
    requires Encode(m).Ok?
    ensures Decode(Encode(m).value) == Ok(m)
    ensures m.Command? ==> DecodeCommand(Encode(m).value) == Ok(m)
  {
    hide Payload, ParseHeartbeat, ParseStatus, ParseCommand, ParseOutputStatus;
    LegalFrameLayer(m);
    ParseOfPayload(m);
  }

  lemma PayloadOfParse(code: u8, node: u8, data: Data)
    requires 1 <= node <= MAX_NODE_ID
    requires Parse(code, node, data).Ok?
    ensures var m := Parse(code, node, data).value;
            Legal(m) && m.node == node && FunctionCode(m) == code && Payload(m) == data
  {
    hide HighByte, LowByte, Join, ValueOf, BitsOf;
    var m := Parse(code, node, data).value;
    SplitOfJoin(data.b2, data.b3);
    SplitOfJoin(data.b4, data.b5);
    SplitOfJoin(data.b6, data.b7);
    if m.Command? { ZeroByte(m.mask); }
  }

  /** The frame a decoder sees once the identifier bits it never looks at are cleared. */
  function Canonical(f: CanFrame): CanFrame { f.(canId := StandardId(f.canId)) }

  lemma IdPackOfUnpack(canId: u32)
    ensures MakeId(FunctionOfId(StandardId(canId)), NodeOfId(StandardId(canId))) == StandardId(canId)
    ensures StandardId(StandardId(canId)) == StandardId(canId)
  {
    hide StandardId;
    var id := StandardId(canId);
    assert StandardId(id) == id by { SmallId(id); }
    assert id == 32 * (id / 32) + id % 32 && id / 32 < 64;
  }

  lemma SmallId(id: u32)
    requires id < 0x800
    ensures StandardId(id) == id
  {
  }

  lemma DecodedIsEncoding(f: CanFrame, m: Message)
    requires Decode(f) == Ok(m)
    ensures IsStandardData(f.canId) && Encode(m) == Ok(Canonical(f))
  {
    hide Payload, Parse, MakeId, StandardId, NodeOfId, FunctionOfId;
    IdPackOfUnpack(f.canId);
    PayloadOfParse(FunctionOfId(StandardId(f.canId)), NodeOfId(StandardId(f.canId)), f.data);
  }

  lemma DecodeOfCanonical(f: CanFrame)
    requires IsStandardData(f.canId)
    ensures Decode(f) == Decode(Canonical(f))
  {
    hide Parse, NodeOfId, FunctionOfId;
    IdPackOfUnpack(f.canId);
  }

  /**
   A frame decodes exactly when it is a standard data frame whose canonical form is the
   encoding of some legal message, and then it decodes to that message. Identifier bits
   11 to 29 are ignored: frames differing only there decode alike.
   */
  lemma DecodeAcceptsExactlyEncodings(f: CanFrame, m: Message)
    ensures Decode(f) == Ok(m) <==> IsStandardData(f.canId) && Encode(m) == Ok(Canonical(f))
  {
    hide Decode, FrameOf, Legal;
    if Decode(f) == Ok(m) {
      DecodedIsEncoding(f, m);
    }
    if IsStandardData(f.canId) && Encode(m) == Ok(Canonical(f)) {
      DecodeOfCanonical(f);
      RoundTrip(m);
    }
  }

  /** The ignored bits are real: setting bit 11 of any encoded frame's identifier goes unseen. */
  lemma IgnoredIdentifierBit(m: Message)
    requires Legal(m)
    ensures var f := FrameOf(m).(canId := FrameOf(m).canId + 0x800);
            Decode(f) == Ok(m) && Encode(m) != Ok(f)
  {
    hide Payload, Parse, FrameLayerOk;
    var f := FrameOf(m).(canId := FrameOf(m).canId + 0x800);
    assert Canonical(f) == FrameOf(m) && IsStandardData(f.canId);
    DecodeAcceptsExactlyEncodings(f, m);
  }

  // ---------- serial numbers ----------

  /** Signed reading of a 16-bit word. */
  function ToInt16(x: u16): int { if x < 0x8000 then x else x - 0x1_0000 }

  /** The Linux form: difference in 16 bits, read as signed, is positive. */
  predicate SeqNewer(a: u16, b: u16) { a != b && ToInt16((a - b) % 0x1_0000) > 0 }

  /** The firmware form: difference in 16 bits is below half the space. */
  predicate McuSeqNewer(candidate: u16, previous: u16) {
    candidate != previous && (candidate - previous) % 0x1_0000 < 0x8000
  }

  /** Both forms are the section 3.2 comparison of RFC 1982 with SERIAL_BITS = 16. */
  lemma NewerIsRfc1982(a: u16, b: u16)
    ensures SeqNewer(a, b) <==> McuSeqNewer(a, b)
    ensures SeqNewer(a, b) <==> (a < b && b - a > 0x8000) || (a > b && a - b < 0x8000)
  {
  }

  /** The runtime's unbounded sequence folded into the wire range 1..65535. */
  function WireSequence(s: nat): (w: u16)
    requires s >= 1
    ensures 1 <= w <= 0xFFFF
  {
    (s - 1) % 0xFFFF + 1
  }

  lemma WireStep(s: nat, k: nat)
    requires s >= 1
    ensures var r := k % 0xFFFF;
            WireSequence(s + k) ==
              if WireSequence(s) + r > 0xFFFF then WireSequence(s) + r - 0xFFFF else WireSequence(s) + r
  {
    var p, r := (s - 1) % 0xFFFF, k % 0xFFFF;
    assert s - 1 + k == 0xFFFF * ((s - 1) / 0xFFFF + k / 0xFFFF) + (p + r);
    if p + r >= 0xFFFF {
      assert s - 1 + k == 0xFFFF * ((s - 1) / 0xFFFF + k / 0xFFFF + 1) + (p + r - 0xFFFF);
    }
  }

  /**
   Exactly when a later runtime sequence is still newer on the wire: the gap reduced
   modulo 65535, plus one if the fold crosses from 65535 to 1, lies in 1..32767.
   */
  lemma WireNewerExactly(s: nat, k: nat)
    requires s >= 1
    ensures SeqNewer(WireSequence(s + k), WireSequence(s)) <==>
              var r := k % 0xFFFF;
              r >= 1 && (if WireSequence(s) + r > 0xFFFF then r + 1 else r) <= 0x7FFF
  {
    WireStep(s, k);
  }

  /** Gaps up to 32766 are always safe; 32767 fails exactly when the fold is crossed. */
  lemma WireGapBound(s: nat, k: nat)
    requires s >= 1
    ensures 1 <= k <= 32766 ==> SeqNewer(WireSequence(s + k), WireSequence(s))
    ensures SeqNewer(WireSequence(s + 32767), WireSequence(s)) <==> WireSequence(s) + 32767 <= 0xFFFF
  {
    hide WireSequence, SeqNewer;
    WireNewerExactly(s, k);
    WireNewerExactly(s, 32767);
  }

  // ---------- relative validity ----------

  function Validity10ms(now: int, deadline: int): Result<u8> {
    var remaining := deadline - now;
    if remaining < VALIDITY_UNIT_NS then Err(InvalidArgument) else
      var units := (remaining + VALIDITY_UNIT_NS - 1) / VALIDITY_UNIT_NS;
      if units > MAX_VALIDITY then Err(InvalidArgument) else Ok(units)
  }

  /** The receiver's local deadline for a relative validity. */
  function DeadlineOf(receive: int, validity: u8): int { receive + validity * VALIDITY_UNIT_NS }

  /** Encodable exactly for 10..2500 ms remaining; rounding only ever adds, by less than 10 ms. */
  lemma ValidityExact(now: int, deadline: int)
    ensures Validity10ms(now, deadline).Ok? <==> 10_000_000 <= deadline - now <= 2_500_000_000
    ensures Validity10ms(now, deadline).Ok? ==>
              var v := Validity10ms(now, deadline).value;
              && MIN_VALIDITY <= v <= MAX_VALIDITY
              && deadline - now <= v * VALIDITY_UNIT_NS < deadline - now + VALIDITY_UNIT_NS
  {
  }
}
