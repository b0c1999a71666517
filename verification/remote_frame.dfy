/** The remote control frame, its encoder, and the parser that resynchronises on a byte stream. */
module RemoteFrames {
  import opened Bytes
  import opened Crc16
  import opened CrcDivision

  const PROTOCOL_VERSION: bv8 := 1
  const HEADER_SIZE := 12
  const CRC_SIZE := 2
  const MAX_PAYLOAD := 512
  const MAX_FRAME := HEADER_SIZE + MAX_PAYLOAD + CRC_SIZE
  const RX_CAPACITY := 2 * MAX_FRAME

  datatype RemoteFrame = RemoteFrame(version: bv8, kind: bv8, flags: bv8, sequence: u16, payload: seq<bv8>)

  predicate Encodable(f: RemoteFrame) { |f.payload| <= MAX_PAYLOAD && f.version == PROTOCOL_VERSION }

  // ---------- words in little-endian order ----------

  function Low(x: u16): bv8 { BitsOf(LowByte(x)) }
  function High(x: u16): bv8 { BitsOf(HighByte(x)) }
  function ReadU16(low: bv8, high: bv8): u16 { Join(ValueOf(high), ValueOf(low)) }

  lemma ReadOfWrite(x: u16)
    ensures ReadU16(Low(x), High(x)) == x
  {
    JoinOfSplit(x);
  }

  lemma WriteOfRead(low: bv8, high: bv8)
    ensures Low(ReadU16(low, high)) == low && High(ReadU16(low, high)) == high
  {
    hide ValueOf;
    SplitOfJoin(ValueOf(high), ValueOf(low));
    BitsOfValue(low);
    BitsOfValue(high);
  }

  // ---------- encoding ----------

  /** The header, its reserved byte given. */
  function Header(f: RemoteFrame, reserved: bv8): (h: seq<bv8>)
    requires |f.payload| <= MAX_PAYLOAD
    ensures |h| == HEADER_SIZE
  {
    [0x52, 0x43, 0x52, 0x42, f.version, f.kind, f.flags, reserved,
     Low(f.sequence), High(f.sequence), Low(|f.payload|), High(|f.payload|)]
  }

  function Sealed(body: seq<bv8>): seq<bv8> { body + [CrcLow(Crc(body)), CrcHigh(Crc(body))] }

  function Encoding(f: RemoteFrame): seq<bv8>
    requires Encodable(f)
  {
    Sealed(Header(f, 0) + f.payload)
  }

  /** Appends the encoding to out, or leaves out alone and refuses. */
  method EncodeRemoteFrame(f: RemoteFrame, out: seq<bv8>) returns (ok: bool, out': seq<bv8>)
    ensures ok <==> f.version == 1 && |f.payload| <= 512
    ensures out' == if Encodable(f) then out + Encoding(f) else out
  {
    hide Crc, CrcLow, CrcHigh, Low, High;
    if |f.payload| > MAX_PAYLOAD {
      return false, out;
    }
    if f.version != PROTOCOL_VERSION {
      return false, out;
    }
    out' := out + [0x52, 0x43, 0x52, 0x42];
    out' := out' + [f.version, f.kind, f.flags, 0];
    out' := out' + [Low(f.sequence), High(f.sequence)];
    out' := out' + [Low(|f.payload|), High(|f.payload|)];
    assert out' == out + Header(f, 0);
    out' := out' + f.payload;
    assert out'[|out|..] == Header(f, 0) + f.payload;
    var crc := RemoteCrc16(out'[|out|..]);
    out' := out' + [CrcLow(crc), CrcHigh(crc)];
    ok := true;
  }

  // ---------- parsing ----------

  datatype Item = Popped(frame: RemoteFrame) | InvalidMagic | UnsupportedVersion | OversizePayload | BadCrc

  predicate HasMagic(buffer: seq<bv8>)
    requires 4 <= |buffer|
  {
    buffer[0] == 0x52 && buffer[1] == 0x43 && buffer[2] == 0x52 && buffer[3] == 0x42
  }

  /** The length of the frame that a good header announces. */
  function FrameLength(buffer: seq<bv8>): nat
    requires HEADER_SIZE <= |buffer|
  {
    HEADER_SIZE + ReadU16(buffer[10], buffer[11]) + CRC_SIZE
  }

  function FrameIn(buffer: seq<bv8>, n: nat): RemoteFrame
    requires HEADER_SIZE + CRC_SIZE <= n <= |buffer|
  {
    RemoteFrame(buffer[4], buffer[5], buffer[6], ReadU16(buffer[8], buffer[9]), buffer[HEADER_SIZE..n - CRC_SIZE])
  }

  predicate CrcMatches(buffer: seq<bv8>, n: nat)
    requires HEADER_SIZE + CRC_SIZE <= n <= |buffer|
  {
    Crc(buffer[..n - CRC_SIZE]) == CrcJoin(buffer[n - 2], buffer[n - 1])
  }

  /** What the front of the buffer is and how many bytes that takes; nothing when more bytes are needed. */
  function Front(buffer: seq<bv8>): (r: Option<(Item, nat)>)
    ensures r.Some? ==> 0 < r.value.1 <= |buffer|
    ensures r.None? ==> |buffer| < MAX_FRAME
  {
    if |buffer| < HEADER_SIZE then None
    else if !HasMagic(buffer) then Some((InvalidMagic, 1))
    else if buffer[4] != PROTOCOL_VERSION then Some((UnsupportedVersion, HEADER_SIZE))
    else
      var n := FrameLength(buffer);
      if n > MAX_FRAME then Some((OversizePayload, HEADER_SIZE))
      else if |buffer| < n then None
      else if !CrcMatches(buffer, n) then Some((BadCrc, n))
      else Some((Popped(FrameIn(buffer, n)), n))
  }

  /** Everything the buffer yields until more bytes are needed, and the bytes left over. */
  function Drain(buffer: seq<bv8>): (r: (seq<Item>, seq<bv8>))
    ensures |r.1| < MAX_FRAME && Front(r.1).None?
    decreases |buffer|
  {
    var front := Front(buffer);
    if front.None? then ([], buffer)
    else var rest := Drain(buffer[front.value.1..]); ([front.value.0] + rest.0, rest.1)
  }

  predicate Overflows(buffer: seq<bv8>, bytes: seq<bv8>) { bytes != [] && |buffer| + |bytes| > RX_CAPACITY }

  function Appended(buffer: seq<bv8>, bytes: seq<bv8>): seq<bv8> {
    if Overflows(buffer, bytes) then [] else buffer + bytes
  }

  class RemoteFrameParser {
    var buffer: seq<bv8>

    constructor ()
      ensures buffer == []
    {
      buffer := [];
    }

    /** Drops everything, exactly when the bytes would not fit. */
    method Append(bytes: seq<bv8>) returns (overflow: bool)
      modifies this
      ensures overflow <==> bytes != [] && |old(buffer)| + |bytes| > 1052
      ensures buffer == Appended(old(buffer), bytes)
    {
      if bytes == [] {
        return false;
      }
      if |buffer| + |bytes| > RX_CAPACITY {
        buffer := [];
        return true;
      }
      buffer := buffer + bytes;
      return false;
    }

    method TryPop() returns (item: Option<Item>)
      modifies this
      ensures var front := Front(old(buffer));
              if front.None? then item == None && buffer == old(buffer)
              else item == Some(front.value.0) && buffer == old(buffer)[front.value.1..]
    {
      hide CrcJoin, Crc, ReadU16;
      if |buffer| < HEADER_SIZE {
        return None;
      }
      if !HasMagic(buffer) {
        buffer := buffer[1..];
        return Some(InvalidMagic);
      }
      if buffer[4] != PROTOCOL_VERSION {
        buffer := buffer[HEADER_SIZE..];
        return Some(UnsupportedVersion);
      }
      var payloadLen := ReadU16(buffer[10], buffer[11]);
      if payloadLen > MAX_PAYLOAD {
        buffer := buffer[HEADER_SIZE..];
        return Some(OversizePayload);
      }
      var frameLen := HEADER_SIZE + payloadLen + CRC_SIZE;
      if |buffer| < frameLen {
        return None;
      }
      var expected := RemoteCrc16(buffer[..HEADER_SIZE + payloadLen]);
      var actual := CrcJoin(buffer[HEADER_SIZE + payloadLen], buffer[HEADER_SIZE + payloadLen + 1]);
      if expected != actual {
        buffer := buffer[frameLen..];
        return Some(BadCrc);
      }
      item := Some(Popped(FrameIn(buffer, frameLen)));
      buffer := buffer[frameLen..];
    }
  }

  // ---------- the verdict on a prefix is final ----------

  /** Once something has been recognised, later bytes change neither what it is nor how long it is. */
  lemma VerdictIsFinal(buffer: seq<bv8>, more: seq<bv8>)
    requires Front(buffer).Some?
    ensures Front(buffer + more) == Front(buffer)
    ensures (buffer + more)[Front(buffer).value.1..] == buffer[Front(buffer).value.1..] + more
  {
    hide Crc, CrcJoin, ReadU16;
    if HasMagic(buffer) && buffer[4] == PROTOCOL_VERSION && FrameLength(buffer) <= MAX_FRAME {
      var n := FrameLength(buffer);
      assert (buffer + more)[..n - CRC_SIZE] == buffer[..n - CRC_SIZE];
      assert (buffer + more)[HEADER_SIZE..n - CRC_SIZE] == buffer[HEADER_SIZE..n - CRC_SIZE];
    }
  }

  /** Draining in two instalments gives what draining at once gives. */
  lemma {:induction false} DrainInTwo(a: seq<bv8>, b: seq<bv8>)
    ensures var first := Drain(a);
            var second := Drain(first.1 + b);
            Drain(a + b) == (first.0 + second.0, second.1)
    decreases |a|
  {
    hide Front;
    var front := Front(a);
    if front.Some? {
      FrontBounds(a);
      VerdictIsFinal(a, b);
      DrainInTwo(a[front.value.1..], b);
      var rest := Drain(a[front.value.1..]);
      var second := Drain(rest.1 + b);
      assert [front.value.0] + (rest.0 + second.0) == ([front.value.0] + rest.0) + second.0;
    } else {
      assert [] + Drain(a + b).0 == Drain(a + b).0;
    }
  }

  lemma FrontBounds(buffer: seq<bv8>)
    ensures Front(buffer).Some? ==> 0 < Front(buffer).value.1 <= |buffer|
  {
  }

  lemma DrainUnfolds(buffer: seq<bv8>)
    ensures var front, all := Front(buffer), Drain(buffer);
            if front.None? then all == ([], buffer)
            else var rest := Drain(buffer[front.value.1..]); all.0 == [front.value.0] + rest.0 && all.1 == rest.1
  {
    hide Front;
  }

  function Flatten(chunks: seq<seq<bv8>>): seq<bv8> {
    if chunks == [] then [] else chunks[0] + Flatten(chunks[1..])
  }

  /** Appending and draining chunk by chunk, from a residue. */
  function Feed(residue: seq<bv8>, chunks: seq<seq<bv8>>): (seq<Item>, seq<bv8>)
    decreases |chunks|
  {
    if chunks == [] then ([], residue)
    else
      var now := Drain(Appended(residue, chunks[0]));
      var later := Feed(now.1, chunks[1..]);
      (now.0 + later.0, later.1)
  }

  /** No chunk finds the buffer too full for it. */
  ghost predicate Fits(residue: seq<bv8>, chunks: seq<seq<bv8>>)
    decreases |chunks|
  {
    chunks == [] || (!Overflows(residue, chunks[0]) && Fits(Drain(residue + chunks[0]).1, chunks[1..]))
  }

  /** However a stream that never overflows is cut up, it yields the items and leaves the bytes of the whole stream. */
  lemma {:induction false} ChunkingDoesNotMatter(residue: seq<bv8>, chunks: seq<seq<bv8>>)
    requires Front(residue).None? && Fits(residue, chunks)
    ensures Feed(residue, chunks) == Drain(residue + Flatten(chunks))
    decreases |chunks|
  {
    hide Front, Drain;
    if chunks == [] {
      DrainUnfolds(residue);
      assert residue + Flatten(chunks) == residue;
    } else {
      DrainInTwo(residue + chunks[0], Flatten(chunks[1..]));
      ChunkingDoesNotMatter(Drain(residue + chunks[0]).1, chunks[1..]);
      assert residue + Flatten(chunks) == (residue + chunks[0]) + Flatten(chunks[1..]);
    }
  }

  /** A drained buffer is short enough that chunks of up to 527 bytes always fit. */
  lemma {:induction false} SmallChunksFit(residue: seq<bv8>, chunks: seq<seq<bv8>>)
    requires |residue| < MAX_FRAME
    requires forall i :: 0 <= i < |chunks| ==> |chunks[i]| <= 527
    ensures Fits(residue, chunks)
    decreases |chunks|
  {
    hide Front;
    if chunks != [] {
      SmallChunksFit(Drain(residue + chunks[0]).1, chunks[1..]);
    }
  }

  // ---------- what is encoded is what is parsed ----------

  lemma SealMatches(body: seq<bv8>, tail: seq<bv8>)
    requires HEADER_SIZE <= |body|
    ensures CrcMatches(Sealed(body) + tail, |body| + CRC_SIZE)
  {
    hide Crc, CrcLow, CrcHigh, CrcJoin;
    assert (Sealed(body) + tail)[..|body|] == body;
    CrcSplit(Crc(body));
  }

  /** The encoding of a frame, whatever follows it, is parsed as that frame. */
  lemma EncodingIsParsed(f: RemoteFrame, tail: seq<bv8>)
    requires Encodable(f)
    ensures Front(Encoding(f) + tail) == Some((Popped(f), |Encoding(f)|))
    ensures (Encoding(f) + tail)[|Encoding(f)|..] == tail
  {
    hide Crc, CrcLow, CrcHigh, CrcJoin, CrcMatches, Low, High, ReadU16;
    var body := Header(f, 0) + f.payload;
    var all := Encoding(f) + tail;
    SealMatches(body, tail);
    ReadOfWrite(f.sequence);
    ReadOfWrite(|f.payload|);
    assert all[HEADER_SIZE..|body|] == f.payload;
    assert all[..HEADER_SIZE] == Header(f, 0);
  }

  /**
   The bytes of an encoding, one by one, and its last two: the remainder of the division of everything before them,
   lowest register bit first.
   */
  lemma EncodingLayout(f: RemoteFrame)
    requires Encodable(f)
    ensures f.version == 1 && |f.payload| <= 512
    ensures var e, n := Encoding(f), |f.payload|;
            && |e| == 14 + n
            && e[0] == 0x52 && e[1] == 0x43 && e[2] == 0x52 && e[3] == 0x42 && e[4] == 1
            && e[5] == f.kind && e[6] == f.flags && e[7] == 0
            && ValueOf(e[8]) + 256 * ValueOf(e[9]) == f.sequence
            && ValueOf(e[10]) + 256 * ValueOf(e[11]) == n
            && e[12..12 + n] == f.payload
            && ByteBits(e[12 + n]) + ByteBits(e[13 + n]) == CrcByDivision(e[..12 + n])
  {
    hide Crc, CrcLow, CrcHigh, ByteBits, CrcByDivision, ValueOf, Low, High;
    var body := Header(f, 0) + f.payload;
    var e := Encoding(f);
    assert e[..|body|] == body && e[12..|body|] == f.payload;
    LittleEndian(f.sequence);
    LittleEndian(|f.payload|);
    RegisterAsBytes(Crc(body));
    CrcIsRemainder(body);
  }

  lemma LittleEndian(x: u16)
    ensures ValueOf(Low(x)) + 256 * ValueOf(High(x)) == x
  {
    hide ValueOf;
    JoinOfSplit(x);
  }

  /** The parser's only slack is the reserved byte: what it accepts is a frame sealed around some reserved byte. */
  lemma AcceptedIsAnEncoding(buffer: seq<bv8>)
    requires Front(buffer).Some? && Front(buffer).value.0.Popped?
    ensures var (item, n) := Front(buffer).value;
            && Encodable(item.frame)
            && buffer[..n] == Sealed(Header(item.frame, buffer[7]) + item.frame.payload)
            && (buffer[7] == 0 ==> buffer[..n] == Encoding(item.frame))
  {
    hide Crc, CrcLow, CrcHigh, CrcJoin, Low, High, ReadU16;
    var n := FrameLength(buffer);
    WriteOfRead(buffer[8], buffer[9]);
    WriteOfRead(buffer[10], buffer[11]);
    CrcJoinInjective(buffer[n - 2], buffer[n - 1]);
    var f := FrameIn(buffer, n);
    assert buffer[..n - 2] == Header(f, buffer[7]) + f.payload;
    assert buffer[..n] == buffer[..n - 2] + [buffer[n - 2], buffer[n - 1]];
  }

  ghost predicate AllEncodable(fs: seq<RemoteFrame>) { forall i :: 0 <= i < |fs| ==> Encodable(fs[i]) }

  function EncodingOf(fs: seq<RemoteFrame>): seq<bv8>
    requires AllEncodable(fs)
  {
    if fs == [] then [] else Encoding(fs[0]) + EncodingOf(fs[1..])
  }

  function Delivered(fs: seq<RemoteFrame>): (items: seq<Item>)
    ensures |items| == |fs| && forall i :: 0 <= i < |fs| ==> items[i] == Popped(fs[i])
  {
    if fs == [] then [] else [Popped(fs[0])] + Delivered(fs[1..])
  }

  /** Encodings laid end to end are delivered as exactly the frames that were encoded, then the tail is parsed. */
  lemma {:induction false} StreamIsDelivered(fs: seq<RemoteFrame>, tail: seq<bv8>)
    requires AllEncodable(fs)
    ensures Drain(EncodingOf(fs) + tail) == (Delivered(fs) + Drain(tail).0, Drain(tail).1)
    decreases |fs|
  {
    hide Front, Encoding, Drain;
    if fs == [] {
      assert EncodingOf(fs) + tail == tail;
      assert Delivered(fs) + Drain(tail).0 == Drain(tail).0;
    } else {
      var rest := EncodingOf(fs[1..]) + tail;
      assert EncodingOf(fs) + tail == Encoding(fs[0]) + rest;
      EncodingIsParsed(fs[0], rest);
      FrontBounds(Encoding(fs[0]) + rest);
      DrainUnfolds(Encoding(fs[0]) + rest);
      StreamIsDelivered(fs[1..], tail);
      assert [Popped(fs[0])] + (Delivered(fs[1..]) + Drain(tail).0) == Delivered(fs) + Drain(tail).0;
    }
  }

  lemma BytesAsRegister(low: bv8, high: bv8)
    ensures RegisterBits(CrcJoin(low, high)) == ByteBits(low) + ByteBits(high)
  {
    hide RegisterBits, ByteBits, CrcJoin, CrcLow, CrcHigh;
    CrcJoinInjective(low, high);
    RegisterAsBytes(CrcJoin(low, high));
  }

  /** The stored CRC matches exactly if its two bytes are the remainder of the division of what precedes them. */
  lemma MatchIsRemainder(buffer: seq<bv8>, n: nat)
    requires 14 <= n <= |buffer|
    ensures CrcMatches(buffer, n) <==>
              ByteBits(buffer[n - 2]) + ByteBits(buffer[n - 1]) == CrcByDivision(buffer[..n - 2])
  {
    hide RegisterBits, ByteBits, CrcJoin, Crc, CrcByDivision;
    BytesAsRegister(buffer[n - 2], buffer[n - 1]);
    CrcIsRemainder(buffer[..n - 2]);
    if RegisterBits(CrcJoin(buffer[n - 2], buffer[n - 1])) == RegisterBits(Crc(buffer[..n - 2])) {
      RegisterBitsInjective(CrcJoin(buffer[n - 2], buffer[n - 1]), Crc(buffer[..n - 2]));
    }
  }

  lemma ReadIs(low: bv8, high: bv8)
    ensures ReadU16(low, high) == ValueOf(low) + 256 * ValueOf(high)
  {
    hide ValueOf;
  }

  predicate StartsWithMagic(buffer: seq<bv8>)
    requires 12 <= |buffer|
  {
    buffer[0] == 0x52 && buffer[1] == 0x43 && buffer[2] == 0x52 && buffer[3] == 0x42
  }

  /** What the parser makes of any buffer, from the wire format alone. */
  lemma FrontExactly(buffer: seq<bv8>)
    ensures Front(buffer) ==
              if |buffer| < 12 then None
              else if !StartsWithMagic(buffer) then Some((InvalidMagic, 1))
              else if buffer[4] != 1 then Some((UnsupportedVersion, 12))
              else BodyExactly(buffer, ValueOf(buffer[10]) + 256 * ValueOf(buffer[11]))
  {
    hide CrcMatches, ValueOf, ReadU16, BodyExactly;
    if |buffer| >= 12 && HasMagic(buffer) && buffer[4] == 1 {
      BodyIs(buffer);
    }
  }

  /** A good header announces n payload bytes. */
  function BodyExactly(buffer: seq<bv8>, n: nat): Option<(Item, nat)>
    requires 12 <= |buffer|
  {
    if n > 512 then Some((OversizePayload, 12))
    else if |buffer| < 14 + n then None
    else if ByteBits(buffer[12 + n]) + ByteBits(buffer[13 + n]) != CrcByDivision(buffer[..12 + n])
    then Some((BadCrc, 14 + n))
    else
      var sequence := Join(ValueOf(buffer[9]), ValueOf(buffer[8]));
      Some((Popped(RemoteFrame(buffer[4], buffer[5], buffer[6], sequence, buffer[12..12 + n])), 14 + n))
  }

  lemma BodyIs(buffer: seq<bv8>)
    requires 12 <= |buffer| && HasMagic(buffer) && buffer[4] == 1
    ensures Front(buffer) == BodyExactly(buffer, ValueOf(buffer[10]) + 256 * ValueOf(buffer[11]))
  {
    hide ByteBits, CrcByDivision, CrcMatches, ValueOf, HasMagic, FrameLength, FrameIn, Join;
    var n := ValueOf(buffer[10]) + 256 * ValueOf(buffer[11]);
    LengthIs(buffer);
    if 14 + n <= |buffer| {
      MatchIsRemainder(buffer, 14 + n);
      FrameIs(buffer, n);
    }
  }

  lemma LengthIs(buffer: seq<bv8>)
    requires 12 <= |buffer|
    ensures FrameLength(buffer) == 14 + (ValueOf(buffer[10]) + 256 * ValueOf(buffer[11]))
  {
    hide ValueOf, ReadU16;
    ReadIs(buffer[10], buffer[11]);
  }

  lemma FrameIs(buffer: seq<bv8>, n: nat)
    requires 14 + n <= |buffer|
    ensures FrameIn(buffer, 14 + n)
         == RemoteFrame(buffer[4], buffer[5], buffer[6], Join(ValueOf(buffer[9]), ValueOf(buffer[8])),
                        buffer[12..12 + n])
  {
    hide ValueOf;
  }

  // ---------- recovery after corruption ----------

  /** A byte outside magic, version and length: the parser still finds the end of the frame. */
  predicate Framed(i: nat) { 5 <= i < 10 || HEADER_SIZE <= i }

  lemma CorruptedCrc(e: seq<bv8>, i: nat, c: bv8)
    requires HEADER_SIZE + CRC_SIZE <= |e| && CrcMatches(e, |e|)
    requires i < |e| && e[i] != c
    ensures !CrcMatches(e[i := c], |e|)
  {
    hide Crc, CrcJoin;
    var m := |e| - CRC_SIZE;
    if i < m {
      assert e[i := c][..m] == e[..m][i := c];
      OneByteIsSeen(e[..m], i, c);
    } else {
      assert e[i := c][..m] == e[..m];
      CrcJoinInjective(e[m], e[m + 1]);
      CrcJoinInjective(e[i := c][m], e[i := c][m + 1]);
    }
  }

  /** One wrong byte in a frame is reported as BadCrc, and exactly that frame is discarded. */
  lemma CorruptionIsContained(f: RemoteFrame, i: nat, c: bv8, tail: seq<bv8>)
    requires Encodable(f) && i < |Encoding(f)| && Framed(i) && Encoding(f)[i] != c
    ensures var bad := Encoding(f)[i := c];
            Front(bad + tail) == Some((BadCrc, |bad|)) && (bad + tail)[|bad|..] == tail
  {
    hide Crc, CrcLow, CrcHigh, CrcJoin, CrcMatches, Low, High, ReadU16;
    var e := Encoding(f);
    var body := Header(f, 0) + f.payload;
    SealMatches(body, []);
    assert Sealed(body) + [] == e;
    CorruptedCrc(e, i, c);
    ReadOfWrite(|f.payload|);
    MatchIsLocal(e[i := c], tail);
    assert e[..HEADER_SIZE] == Header(f, 0);
  }

  lemma MatchIsLocal(e: seq<bv8>, tail: seq<bv8>)
    requires HEADER_SIZE + CRC_SIZE <= |e|
    ensures CrcMatches(e + tail, |e|) <==> CrcMatches(e, |e|)
  {
    hide Crc, CrcJoin;
    assert (e + tail)[..|e| - CRC_SIZE] == e[..|e| - CRC_SIZE];
  }

  /** In a stream of frames with one byte of one frame corrupted, that frame is BadCrc and all others are delivered. */
  lemma OthersAreDelivered(before: seq<RemoteFrame>, f: RemoteFrame, after: seq<RemoteFrame>, i: nat, c: bv8)
    requires AllEncodable(before) && Encodable(f) && AllEncodable(after)
    requires i < |Encoding(f)| && Framed(i) && Encoding(f)[i] != c
    ensures Drain(EncodingOf(before) + (Encoding(f)[i := c] + EncodingOf(after)))
         == (Delivered(before) + ([BadCrc] + Delivered(after)), [])
  {
    hide Front, Encoding;
    var bad := Encoding(f)[i := c];
    var rest := bad + EncodingOf(after);
    StreamIsDelivered(before, rest);
    CorruptionIsContained(f, i, c, EncodingOf(after));
    FrontBounds(rest);
    StreamIsDelivered(after, []);
    assert EncodingOf(after) + [] == EncodingOf(after);
    EmptyNeedsMore();
    assert Delivered(after) + [] == Delivered(after);
  }

  lemma EmptyNeedsMore()
    ensures Front([]).None? && Drain([]) == ([], [])
  {
  }

  // ---------- resynchronisation after garbage ----------

  function Skips(n: nat): (items: seq<Item>)
    ensures |items| == n && forall i :: 0 <= i < n ==> items[i] == InvalidMagic
  {
    if n == 0 then [] else [InvalidMagic] + Skips(n - 1)
  }

  /** The magic does not begin at any of the first n positions. */
  ghost predicate NoMagicBefore(buffer: seq<bv8>, n: nat) {
    forall k :: 0 <= k < n && k + 4 <= |buffer| ==> !HasMagic(buffer[k..])
  }

  lemma GarbageIsSkipped(buffer: seq<bv8>)
    requires HEADER_SIZE <= |buffer| && !HasMagic(buffer)
    ensures Drain(buffer) == ([InvalidMagic] + Drain(buffer[1..]).0, Drain(buffer[1..]).1)
  {
    hide Crc, CrcJoin, ReadU16;
  }

  /**
   The parser finds its way back: whatever bytes g precede a stream of frames, if the magic does not begin inside them,
   each byte of g costs one InvalidMagic and then every frame is delivered.
   */
  lemma {:induction false} Resynchronises(g: seq<bv8>, fs: seq<RemoteFrame>, tail: seq<bv8>)
    requires AllEncodable(fs) && fs != []
    requires NoMagicBefore(g + (EncodingOf(fs) + tail), |g|)
    ensures Drain(g + (EncodingOf(fs) + tail))
         == (Skips(|g|) + (Delivered(fs) + Drain(tail).0), Drain(tail).1)
    decreases |g|
  {
    hide Front, Drain, HasMagic, Encoding;
    var stream := EncodingOf(fs) + tail;
    StreamIsDelivered(fs, tail);
    if g == [] {
      assert g + stream == stream;
      assert Skips(0) + (Delivered(fs) + Drain(tail).0) == Delivered(fs) + Drain(tail).0;
    } else {
      var all := g + stream;
      assert all[0..] == all && all[1..] == g[1..] + stream;
      EncodingIsLong(fs[0]);
      assert !HasMagic(all[0..]);
      GarbageIsSkipped(all);
      forall k | 0 <= k < |g| - 1 && k + 4 <= |all[1..]| ensures !HasMagic(all[1..][k..]) {
        assert all[1..][k..] == all[k + 1..];
      }
      Resynchronises(g[1..], fs, tail);
      assert [InvalidMagic] + (Skips(|g| - 1) + (Delivered(fs) + Drain(tail).0))
          == Skips(|g|) + (Delivered(fs) + Drain(tail).0);
    }
  }

  lemma EncodingIsLong(f: RemoteFrame)
    requires Encodable(f)
    ensures |Encoding(f)| >= HEADER_SIZE + CRC_SIZE
  {
    hide Crc, CrcLow, CrcHigh, Low, High;
  }
}
