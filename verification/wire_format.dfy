/** The byte layout of the four messages, written out as the wire contract tabulates it. */
module WireFormat {
  import opened Bytes
  import opened CanV1

  /** Function in bits 10 to 5, node in bits 4 to 0. */
  lemma IdLayout(code: u8, node: u8)
    requires code < 64 && 1 <= node <= 31
    ensures var id := 32 * code + node;
            id < 0x800 && StandardId(id) == id && NodeOfId(id) == node && FunctionOfId(id) == code
  {
  }

  lemma DecodeParses(code: u8, node: u8, data: Data)
    requires code < 64 && 1 <= node <= 31
    ensures Decode(CanFrame(32 * code + node, 8, data)) == Parse(code, node, data)
  {
    hide StandardId, NodeOfId, FunctionOfId, Parse;
    IdLayout(code, node);
  }

  function Frame(id: u32, b1: u8, b2: u8, b3: u8, b4: u8, b5: u8, b6: u8, b7: u8): CanFrame {
    CanFrame(id, 8, Data(1, b1, b2, b3, b4, b5, b6, b7))
  }

  /** The result codes in the order of their numbers. */
  const RESULTS := [Applied, StaleSequence, SessionMismatch, Expired, InvalidMask, NotReady]

  /**
   Every frame of version 1 from a legal node, byte by byte, words high byte first. Heartbeat: a zero, boot, session,
   counter. Status: interlock flag, session, inputs, fault code. Command: mask, session, sequence, values, validity.
   Output status: result code, session, sequence, mirror, a zero. All other payloads are refused.
   */
  lemma WireLayout(node: u8, b1: u8, b2: u8, b3: u8, b4: u8, b5: u8, b6: u8, b7: u8)
    requires 1 <= node <= 31
    ensures Decode(Frame(32 * 1 + node, b1, b2, b3, b4, b5, b6, b7)) ==
              if b1 == 0 && 256 * b2 + b3 != 0 && 256 * b4 + b5 != 0
              then Ok(Heartbeat(node, 256 * b2 + b3, 256 * b4 + b5, 256 * b6 + b7)) else Err(Rejected)
    ensures Decode(Frame(32 * 2 + node, b1, b2, b3, b4, b5, b6, b7)) ==
              if b1 <= 1 && 256 * b2 + b3 != 0
              then Ok(Status(node, b1 == 1, 256 * b2 + b3, 256 * b4 + b5, 256 * b6 + b7)) else Err(Rejected)
    ensures Decode(Frame(32 * 3 + node, b1, b2, b3, b4, b5, b6, b7)) ==
              if b1 != 0 && 256 * b2 + b3 != 0 && 256 * b4 + b5 != 0 && 1 <= b7 <= 250
              then Ok(Command(node, BitsOf(b1), 256 * b2 + b3, 256 * b4 + b5, BitsOf(b6), b7)) else Err(Rejected)
    ensures Decode(Frame(32 * 4 + node, b1, b2, b3, b4, b5, b6, b7)) ==
              if b1 <= 5 && 256 * b2 + b3 != 0 && b7 == 0
              then Ok(OutputStatus(node, RESULTS[b1], 256 * b2 + b3, 256 * b4 + b5, BitsOf(b6)))
              else Err(Rejected)
  {
    hide Decode, BitsOf;
    var data := Data(1, b1, b2, b3, b4, b5, b6, b7);
    DecodeParses(1, node, data);
    DecodeParses(2, node, data);
    DecodeParses(3, node, data);
    DecodeParses(4, node, data);
  }

  /**
   Remote and extended frames carry SocketCAN's flag bits 30 and 31. They, short frames, other versions, every
   identifier of node 0 and every identifier of an unknown function are refused whatever else they hold.
   */
  lemma RejectedLayers(f: CanFrame)
    ensures var id := f.canId % 0x800;
            || f.len != 8 || f.canId >= 0x4000_0000 || f.data.b0 != 1 || id % 32 == 0 || id / 32 == 0 || id / 32 > 4
            ==> Decode(f).Err?
  {
  }
}
