/** eMMC mode: card registers (CID, CSD, EXT_CSD) and single 512-byte block
    transfers addressed by a big-endian block number (pyHydrabus/mmc.py). */
module MMCMode {
  import opened Bytes
  import opened Outcomes
  import opened Frames
  import opened Transport
  import opened Registers

  /** Configuration register: bit 0 selects the 4-bit data bus. */
  const DefaultConfig: byte := 0x0

  const BlockSize := 512

  /** A block command as sent: opcode, then the block number in four
      big-endian bytes. */
  function BlockFrame(op: byte, blockNum: int): seq<Field> {
    [Raw([op]), Int(blockNum, 4, Big)]
  }

  /** The block number travels most significant byte first, the reverse of
      the little-endian argument of SDIO commands. */
  lemma BlockFrameLayout(op: byte, blockNum: int)
    requires Fits(blockNum, 4)
    ensures var bs := Emit(BlockFrame(op, blockNum)).bytes;
      |bs| == 5 && bs[0] == op
      && FromBigEndian(bs[1..]) == blockNum
      && bs[1..] == Reversed(LittleEndian(blockNum, 4))
  {
    EmitTwo(op, Int(blockNum, 4, Big));
    var bs := Emit(BlockFrame(op, blockNum)).bytes;
    assert bs[1..] == BigEndian(blockNum, 4);
    BigEndianRoundTrip(blockNum, 4);
    BigIsReversedLittle(blockNum, 4);
  }

  class MMC {
    const port: Port
    var config: byte

    constructor (port: Port)
      ensures this.port == port && config == DefaultConfig
    {
      this.port := port;
      config := DefaultConfig;
    }

    /** `_configure_port`: sends the register, true iff the device acks 0x01. */
    method ConfigurePort() returns (ok: bool)
      modifies port
      ensures port.sent == old(port.sent) + [ConfigCommand(0x80, config)]
      ensures port.replies == Drop(old(port.replies), 1)
      ensures ok == Replied(old(port.replies), 0x01)
    {
      port.Write([ConfigCommand(0x80, config)]);
      var status := port.Read(1);
      ok := status == [0x01];
    }

    function BusWidth(): int
      reads this
    {
      BusWidthOf(config)
    }

    /** The `bus_width` setter; the register is resent even for a refused value. */
    method SetBusWidth(value: int)
      modifies this, port
      ensures config == WithBusWidth(old(config), value)
      ensures port.sent == old(port.sent) + [ConfigCommand(0x80, config)]
      ensures port.replies == Drop(old(port.replies), 1)
    {
      config := WithBusWidth(config, value);
      var _ := ConfigurePort();
    }

    /** Reads a card register: sends `op`, consumes the status byte without
        looking at it, and returns the next `n` bytes. */
    method ReadRegister(op: byte, n: nat) returns (r: seq<byte>)
      modifies port
      ensures port.sent == old(port.sent) + [op]
      ensures r == Take(Drop(old(port.replies), 1), n)
      ensures port.replies == Drop(Drop(old(port.replies), 1), n)
    {
      port.Write([op]);
      var _ := port.Read(1);
      r := port.Read(n);
    }

    /** The `cid` property: opcode 0x02, 16 bytes whatever the status. */
    method Cid() returns (r: seq<byte>)
      modifies port
      ensures port.sent == old(port.sent) + [0x02]
      ensures r == Take(Drop(old(port.replies), 1), 16)
      ensures port.replies == Drop(Drop(old(port.replies), 1), 16)
    {
      r := ReadRegister(0x02, 16);
    }

    /** The `csd` property: opcode 0x03, 16 bytes whatever the status. */
    method Csd() returns (r: seq<byte>)
      modifies port
      ensures port.sent == old(port.sent) + [0x03]
      ensures r == Take(Drop(old(port.replies), 1), 16)
      ensures port.replies == Drop(Drop(old(port.replies), 1), 16)
    {
      r := ReadRegister(0x03, 16);
    }

    /** The `ext_csd` property: opcode 0x06, 512 bytes whatever the status. */
    method ExtCsd() returns (r: seq<byte>)
      modifies port
      ensures port.sent == old(port.sent) + [0x06]
      ensures r == Take(Drop(old(port.replies), 1), 512)
      ensures port.replies == Drop(Drop(old(port.replies), 1), 512)
    {
      r := ReadRegister(0x06, 512);
    }

    /** Block `write`: opcode 0x05, the block number, the data; true iff the
        status is 1. */
    method Write(data: seq<byte>, blockNum: int) returns (r: Result<bool>)
      modifies port
      ensures var e := Emit(BlockFrame(0x05, blockNum));
        port.sent == old(port.sent) + e.bytes + (if e.complete then data else [])
        && if !e.complete then r == Raise(OverflowError) && port.replies == old(port.replies)
           else r == Ok(Status(old(port.replies)) == 1)
                && port.replies == Drop(old(port.replies), 1)
    {
      var ok := port.WriteFrame(BlockFrame(0x05, blockNum));
      if !ok {
        return Raise(OverflowError);
      }
      port.Write(data);
      var status := port.Read(1);
      r := Ok(FromLittleEndian(status) == 1);
    }

    /** Block `read`: opcode 0x04 and the block number; a 512-byte block on
        status 1, the empty string otherwise. */
    method Read(blockNum: int) returns (r: Result<seq<byte>>)
      modifies port
      ensures var e := Emit(BlockFrame(0x04, blockNum));
        var rs := old(port.replies);
        port.sent == old(port.sent) + e.bytes
        && if !e.complete then r == Raise(OverflowError) && port.replies == rs
           else if Status(rs) == 1 then
             r == Ok(Take(rs[1..], BlockSize)) && port.replies == Drop(rs[1..], BlockSize)
           else r == Ok([]) && port.replies == Drop(rs, 1)
    {
      var ok := port.WriteFrame(BlockFrame(0x04, blockNum));
      if !ok {
        return Raise(OverflowError);
      }
      var status := port.Read(1);
      if FromLittleEndian(status) == 1 {
        var block := port.Read(BlockSize);
        r := Ok(block);
      } else {
        r := Ok([]);
      }
    }
  }
}
