/** NFC-reader mode: reader mode and RF field selection, and frames sent to a
    tag whose answer comes back prefixed by its length (pyHydrabus/nfc.py). */
module NFCMode {
  import opened Bytes
  import opened Outcomes
  import opened Frames
  import opened Transport

  const ModeIso14443A := 0
  const ModeIso15693 := 1

  /** `0b110 | value`, the mode command. */
  function ModeCommand(value: byte): (cmd: byte)
    ensures cmd & 0x06 == 0x06
    ensures cmd & !0x06 == value & !0x06
    ensures value < 2 ==> cmd as int == 0x06 + value as int
  {
    0x06 | value
  }

  /** `0b010 | value`, the RF field command. */
  function RfCommand(value: byte): (cmd: byte)
    ensures cmd & 0x02 == 0x02
    ensures cmd & !0x02 == value & !0x02
    ensures value < 2 ==> cmd as int == 0x02 + value as int
  {
    0x02 | value
  }

  /** A tag answer as the device sends it: a length byte L, then L bytes.
      Returns the answer and the replies after it; a short script yields
      what arrived. */
  function LengthPrefixed(rs: seq<byte>): (reply: (seq<byte>, seq<byte>))
    ensures reply.0 + reply.1 == Drop(rs, 1)
  {
    var rest := Drop(rs, 1);
    (Take(rest, Status(rs)), Drop(rest, Status(rs)))
  }

  /** Reading a length-prefixed answer recovers exactly the answer, however
      many bytes follow it. */
  lemma LengthPrefixedRoundTrip(answer: seq<byte>, after: seq<byte>)
    requires |answer| < 256
    ensures LengthPrefixed([ByteOf(|answer|)] + answer + after) == (answer, after)
  {
    var rs := [ByteOf(|answer|)] + answer + after;
    assert Drop(rs, 1) == answer + after;
    assert (answer + after)[..|answer|] == answer;
  }

  /** The `write` frame: opcode 0x05, the CRC flag, the data length, as single bytes. */
  function WriteFrame(data: seq<byte>, crc: int): seq<Field> {
    [Raw([0x05]), Int(crc, 1, Big), Int(|data|, 1, Big)]
  }

  /** The `write_bits` frame: opcode 0x04, the data, the bit count as one byte. */
  function WriteBitsFrame(data: seq<byte>, numBits: int): seq<Field> {
    [Raw([0x04]), Raw(data), Int(numBits, 1, Big)]
  }

  class NFC {
    const port: Port
    var mode: int
    var rf: int

    constructor (port: Port)
      ensures this.port == port && mode == 0 && rf == 0
    {
      this.port := port;
      mode := 0;
      rf := 0;
    }

    function Mode(): int
      reads this
    {
      mode
    }

    /** The `mode` setter: one byte out, nothing read back; OverflowError
        (and no change) for a value that is not a byte. */
    method SetMode(value: int) returns (r: Result<()>)
      modifies this, port
      ensures rf == old(rf) && port.replies == old(port.replies)
      ensures Fits(value, 1) ==>
        r == Ok(()) && Mode() == value
        && port.sent == old(port.sent) + [ModeCommand(ByteOf(value))]
      ensures !Fits(value, 1) ==>
        r == Raise(OverflowError) && mode == old(mode) && port.sent == old(port.sent)
    {
      if !Fits(value, 1) {
        return Raise(OverflowError);
      }
      port.Write([ModeCommand(ByteOf(value))]);
      mode := value;
      r := Ok(());
    }

    function Rf(): int
      reads this
    {
      rf
    }

    /** The `rf` setter: one byte out, nothing read back; OverflowError
        (and no change) for a value that is not a byte. */
    method SetRf(value: int) returns (r: Result<()>)
      modifies this, port
      ensures mode == old(mode) && port.replies == old(port.replies)
      ensures Fits(value, 1) ==>
        r == Ok(()) && Rf() == value
        && port.sent == old(port.sent) + [RfCommand(ByteOf(value))]
      ensures !Fits(value, 1) ==>
        r == Raise(OverflowError) && rf == old(rf) && port.sent == old(port.sent)
    {
      if !Fits(value, 1) {
        return Raise(OverflowError);
      }
      port.Write([RfCommand(ByteOf(value))]);
      rf := value;
      r := Ok(());
    }

    /** Reads a length byte L and returns the next L bytes. */
    method ReadAnswer() returns (answer: seq<byte>)
      modifies port
      ensures port.sent == old(port.sent)
      ensures (answer, port.replies) == LengthPrefixed(old(port.replies))
    {
      var length := port.Read(1);
      answer := port.Read(FromLittleEndian(length));
    }

    /** `write`: sends the frame then the data, and returns the tag's
        length-prefixed answer. */
    method Write(data: seq<byte>, crc: int) returns (r: Result<seq<byte>>)
      modifies port
      ensures var e := Emit(WriteFrame(data, crc));
        port.sent == old(port.sent) + e.bytes + (if e.complete then data else [])
        && if !e.complete then r == Raise(OverflowError) && port.replies == old(port.replies)
           else r.Ok? && (r.value, port.replies) == LengthPrefixed(old(port.replies))
    {
      var ok := port.WriteFrame(WriteFrame(data, crc));
      if !ok {
        return Raise(OverflowError);
      }
      port.Write(data);
      var answer := ReadAnswer();
      r := Ok(answer);
    }

    /** `write_bits`: sends 0x04, the data and the bit count, and returns the
        tag's length-prefixed answer. */
    method WriteBits(data: seq<byte>, numBits: int) returns (r: Result<seq<byte>>)
      modifies port
      ensures var e := Emit(WriteBitsFrame(data, numBits));
        port.sent == old(port.sent) + e.bytes
        && if !e.complete then r == Raise(OverflowError) && port.replies == old(port.replies)
           else r.Ok? && (r.value, port.replies) == LengthPrefixed(old(port.replies))
    {
      var ok := port.WriteFrame(WriteBitsFrame(data, numBits));
      if !ok {
        return Raise(OverflowError);
      }
      var answer := ReadAnswer();
      r := Ok(answer);
    }
  }
}
