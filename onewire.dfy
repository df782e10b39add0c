/** 1-Wire mode, with the SWIO debug-register access the same firmware mode
    offers (pyHydrabus/onewire.py). */
module OneWireMode {
  import opened Bytes
  import opened Outcomes
  import opened Frames
  import opened Transport
  import opened Registers
  import opened Bulk

  /** Configuration register: bit 2 enables the pull-up; bit 3 selects SWIO. */
  const DefaultConfig: byte := 0x04
  const SwioConfig: byte := 0x08
  const PullupBit := 2

  /** The default register has the pull-up on; the SWIO register has it off. */
  lemma PullupDefaults()
    ensures Flag(DefaultConfig, PullupBit) == 1
    ensures Flag(SwioConfig, PullupBit) == 0
  {
  }

  /** `swio_read_reg`'s request: 0x20, then the register address in one byte. */
  function SwioReadFrame(address: int): seq<Field> {
    [Raw([0x20]), Int(address, 1, Little)]
  }

  /** `swio_write_reg`'s request: 0x30, the address in one byte, the value in
      four little-endian bytes. */
  function SwioWriteFrame(address: int, value: int): seq<Field> {
    [Raw([0x30]), Int(address, 1, Little), Int(value, 4, Little)]
  }

  lemma SwioWriteFrameLayout(address: int, value: int)
    requires Fits(address, 1) && Fits(value, 4)
    ensures var bs := Emit(SwioWriteFrame(address, value)).bytes;
      |bs| == 6 && bs[0] == 0x30 && bs[1] as int == address
      && FromLittleEndian(bs[2..]) == value
  {
    EmitThree(0x30, Int(address, 1, Little), Int(value, 4, Little));
    var bs := Emit(SwioWriteFrame(address, value)).bytes;
    assert bs[2..] == LittleEndian(value, 4);
    LittleEndianRoundTrip(value, 4);
  }

  /** One more bulk transfer in `write`: the log gains piece `i`'s frame
      and one more reply is consumed. */
  lemma WriteAdvance(pieces: seq<seq<byte>>, i: nat, sent0: seq<byte>, rs: seq<byte>)
    requires Sized(pieces) && i < |pieces|
    ensures 1 <= |pieces[i]| <= MaxBulk && Sized(pieces[..i]) && Sized(pieces[..i + 1])
    ensures sent0 + BulkFrames(pieces[..i]) + BulkFrame(pieces[i]) == sent0 + BulkFrames(pieces[..i + 1])
    ensures Drop(Drop(rs, i), 1) == Drop(rs, i + 1)
  {
    BulkFramesPrefix(pieces, i);
    Associative(sent0, BulkFrames(pieces[..i]), BulkFrame(pieces[i]));
    DropDrop(rs, i, 1);
  }

  class OneWire {
    const port: Port
    var config: byte

    /** Construction configures the port with the default register. */
    constructor (port: Port)
      modifies port
      ensures this.port == port && config == DefaultConfig
      ensures port.sent == old(port.sent) + [ConfigCommand(0x40, DefaultConfig)]
      ensures port.replies == Drop(old(port.replies), 1)
    {
      this.port := port;
      config := DefaultConfig;
      new;
      var _ := ConfigurePort();
    }

    /** `_configure_port`: sends `0x40 | config`, true iff the device acks 0x01. */
    method ConfigurePort() returns (ok: bool)
      modifies port
      ensures port.sent == old(port.sent) + [ConfigCommand(0x40, config)]
      ensures port.replies == Drop(old(port.replies), 1)
      ensures ok == Replied(old(port.replies), 0x01)
    {
      port.Write([ConfigCommand(0x40, config)]);
      var status := port.Read(1);
      ok := status == [0x01];
    }

    /** `reset`: the 1-Wire reset command; always true. */
    method Reset() returns (ok: bool)
      modifies port
      ensures ok
      ensures port.sent == old(port.sent) + [0x02] && port.replies == old(port.replies)
    {
      port.Write([0x02]);
      ok := true;
    }

    /** `read_byte`: command 0x04, then one reply byte (none on timeout). */
    method ReadByte() returns (r: seq<byte>)
      modifies port
      ensures port.sent == old(port.sent) + [0x04]
      ensures r == Take(old(port.replies), 1) && port.replies == Drop(old(port.replies), 1)
    {
      port.Write([0x04]);
      r := port.Read(1);
    }

    /** `bulk_write`: refuses an empty or over-long payload before any I/O;
        otherwise writes the opcode and the data, then reads (and ignores)
        one status byte. */
    method BulkWrite(data: seq<byte>) returns (r: Result<()>)
      modifies port
      ensures |data| == 0 || |data| > MaxBulk ==>
        r == Raise(ValueError)
        && port.sent == old(port.sent) && port.replies == old(port.replies)
      ensures 1 <= |data| <= MaxBulk ==>
        r == Ok(())
        && port.sent == old(port.sent) + BulkFrame(data)
        && port.replies == Drop(old(port.replies), 1)
    {
      if !(|data| > 0) || !(|data| <= MaxBulk) {
        return Raise(ValueError);
      }
      port.Write([BulkCommand(|data|)]);
      port.Write(data);
      var _ := port.Read(1);
      r := Ok(());
    }

    /** `write`: one bulk transfer per piece of `split(data, 16)`, in order;
        each consumes one status byte. */
    method Write(data: seq<byte>)
      modifies port
      ensures port.sent == old(port.sent) + BulkFrames(Split(data))
      ensures port.replies == Drop(old(port.replies), |Split(data)|)
    {
      var pieces := Split(data);
      ghost var sent0, rs := port.sent, port.replies;
      for i := 0 to |pieces|
        invariant Sized(pieces[..i])
        invariant port.sent == sent0 + BulkFrames(pieces[..i])
        invariant port.replies == Drop(rs, i)
      {
        WriteChunk(pieces, i, sent0, rs);
      }
      assert pieces[..|pieces|] == pieces;
    }

    /** One iteration of `write`: the bulk transfer of piece `i`. */
    method WriteChunk(pieces: seq<seq<byte>>, i: nat, ghost sent0: seq<byte>, ghost rs: seq<byte>)
      requires Sized(pieces) && i < |pieces| && Sized(pieces[..i])
      requires port.sent == sent0 + BulkFrames(pieces[..i]) && port.replies == Drop(rs, i)
      modifies port
      ensures Sized(pieces[..i + 1])
      ensures port.sent == sent0 + BulkFrames(pieces[..i + 1]) && port.replies == Drop(rs, i + 1)
    {
      WriteAdvance(pieces, i, sent0, rs);
      var _ := BulkWrite(pieces[i]);
    }

    /** `read(n)`: `n` `read_byte` commands, their replies concatenated. */
    method Read(n: int) returns (r: seq<byte>)
      modifies port
      ensures port.sent == old(port.sent) + Repeat([0x04], n)
      ensures r == Take(old(port.replies), n) && port.replies == Drop(old(port.replies), n)
    {
      ghost var sent0, rs := port.sent, port.replies;
      r := [];
      var count := if n < 0 then 0 else n;
      for i := 0 to count
        invariant port.sent == sent0 + Repeat([0x04], i)
        invariant r == Take(rs, i) && port.replies == Drop(rs, i)
      {
        TakeMore(rs, i, 1);
        DropDrop(rs, i, 1);
        var b := ReadByte();
        r := r + b;
      }
      assert Take(rs, count) == Take(rs, n) && Drop(rs, count) == Drop(rs, n);
    }

    function Pullup(): int
      reads this
    {
      Flag(config, PullupBit)
    }

    /** The `pullup` setter: moves bit 2 only and resends the register. */
    method SetPullup(value: int)
      modifies this, port
      ensures config == WithFlag(old(config), PullupBit, value)
      ensures Pullup() == if value == 0 then 0 else 1
      ensures port.sent == old(port.sent) + [ConfigCommand(0x40, config)]
      ensures port.replies == Drop(old(port.replies), 1)
    {
      config := WithFlag(config, PullupBit, value);
      var _ := ConfigurePort();
    }

    /** `swio_init`: the register becomes exactly the SWIO setting. */
    method SwioInit()
      modifies this, port
      ensures config == SwioConfig && Pullup() == 0
      ensures port.sent == old(port.sent) + [ConfigCommand(0x40, SwioConfig)]
      ensures port.replies == Drop(old(port.replies), 1)
    {
      config := SwioConfig;
      var _ := ConfigurePort();
    }

    /** `swio_read_reg`: the register value, the next four reply bytes read
        little-endian; OverflowError, after the opcode alone, for an address
        that does not fit in a byte. */
    method SwioReadReg(address: int) returns (r: Result<nat>)
      modifies port
      ensures var e := Emit(SwioReadFrame(address));
        port.sent == old(port.sent) + e.bytes
        && if !e.complete then r == Raise(OverflowError) && port.replies == old(port.replies)
           else r == Ok(FromLittleEndian(Take(old(port.replies), 4)))
                && port.replies == Drop(old(port.replies), 4)
    {
      var ok := port.WriteFrame(SwioReadFrame(address));
      if !ok {
        return Raise(OverflowError);
      }
      var value := port.Read(4);
      r := Ok(FromLittleEndian(value));
    }

    /** `swio_write_reg`: true iff the device acks 0x01. */
    method SwioWriteReg(address: int, value: int) returns (r: Result<bool>)
      modifies port
      ensures var e := Emit(SwioWriteFrame(address, value));
        port.sent == old(port.sent) + e.bytes
        && if !e.complete then r == Raise(OverflowError) && port.replies == old(port.replies)
           else r == Ok(Replied(old(port.replies), 0x01))
                && port.replies == Drop(old(port.replies), 1)
    {
      var ok := port.WriteFrame(SwioWriteFrame(address, value));
      if !ok {
        return Raise(OverflowError);
      }
      var status := port.Read(1);
      r := Ok(status == [0x01]);
    }
  }
}
