/** SDIO mode: SD-card commands with no, short (4-byte) or long (16-byte)
    responses, and single 512-byte block transfers
    (pyHydrabus/sdio.py). */
module SDIOMode {
  import opened Bytes
  import opened Outcomes
  import opened Frames
  import opened Transport
  import opened Registers

  /** Configuration register: bit 0 selects the 4-bit data bus, bit 1 the
      fast (24 MHz) clock; both clear at start. */
  const DefaultConfig: byte := 0x0

  const BlockSize := 512

  function FrequencyOf(c: byte): int {
    if c & 0x2 != 0 then 1 else 0
  }

  /** The register after `frequency = value`: 0 (slow) and 1 (fast) select
      the clock, any other value leaves the register as it was. */
  function WithFrequency(c: byte, value: int): (r: byte)
    ensures value == 0 || value == 1 ==> FrequencyOf(r) == value
    ensures value != 0 && value != 1 ==> r == c
    ensures r & !0x2 == c & !0x2
    ensures BusWidthOf(r) == BusWidthOf(c)
  {
    if value == 0 then c & !(1 << 1)
    else if value == 1 then c | (1 << 1)
    else c
  }

  /** A card command as sent: opcode, the command index in one byte, the
      argument in four little-endian bytes. */
  function CommandFrame(op: byte, cmdId: int, cmdArg: int): seq<Field> {
    [Raw([op]), Int(cmdId, 1, Little), Int(cmdArg, 4, Little)]
  }

  /** The bytes of a command whose fields fit. */
  lemma CommandFrameBytes(op: byte, cmdId: int, cmdArg: int)
    requires Fits(cmdId, 1) && Fits(cmdArg, 4)
    ensures Emit(CommandFrame(op, cmdId, cmdArg)) ==
      Emitted([op, ByteOf(cmdId)] + LittleEndian(cmdArg, 4), true)
  {
    EmitThree(op, Int(cmdId, 1, Little), Int(cmdArg, 4, Little));
    OneByte(cmdId);
    assert [op] + [ByteOf(cmdId)] == [op, ByteOf(cmdId)];
  }

  lemma CommandFrameLayout(op: byte, cmdId: int, cmdArg: int)
    requires Fits(cmdId, 1) && Fits(cmdArg, 4)
    ensures var bs := Emit(CommandFrame(op, cmdId, cmdArg)).bytes;
      |bs| == 6 && bs[0] == op && bs[1] as int == cmdId
      && FromLittleEndian(bs[2..]) == cmdArg
  {
    CommandFrameBytes(op, cmdId, cmdArg);
    var bs := [op, ByteOf(cmdId)] + LittleEndian(cmdArg, 4);
    assert bs[2..] == LittleEndian(cmdArg, 4);
    LittleEndianRoundTrip(cmdArg, 4);
  }

  class SDIO {
    const port: Port
    var config: byte

    constructor (port: Port)
      ensures this.port == port && config == DefaultConfig
    {
      this.port := port;
      config := DefaultConfig;
    }

    /** `_configure_port`: sends the register, true iff the device acks 0x01. */
    method ConfigurePort() returns (ok: bool)
      modifies port
      ensures port.sent == old(port.sent) + [ConfigCommand(0x80, config)]
      ensures port.replies == Drop(old(port.replies), 1)
      ensures ok == Replied(old(port.replies), 0x01)
    {
      port.Write([ConfigCommand(0x80, config)]);
      var status := port.Read(1);
      ok := status == [0x01];
    }

    function BusWidth(): int
      reads this
    {
      BusWidthOf(config)
    }

    /** The `bus_width` setter; the register is resent even for a refused value. */
    method SetBusWidth(value: int)
      modifies this, port
      ensures config == WithBusWidth(old(config), value)
      ensures port.sent == old(port.sent) + [ConfigCommand(0x80, config)]
      ensures port.replies == Drop(old(port.replies), 1)
    {
      config := WithBusWidth(config, value);
      var _ := ConfigurePort();
    }

    function Frequency(): int
      reads this
    {
      FrequencyOf(config)
    }

    /** The `frequency` setter; the register is resent even for a refused value. */
    method SetFrequency(value: int)
      modifies this, port
      ensures config == WithFrequency(old(config), value)
      ensures port.sent == old(port.sent) + [ConfigCommand(0x80, config)]
      ensures port.replies == Drop(old(port.replies), 1)
    {
      config := WithFrequency(config, value);
      var _ := ConfigurePort();
    }

    /** `send_no`: a command without response; true iff the status is 1. */
    method SendNo(cmdId: int, cmdArg: int) returns (r: Result<bool>)
      modifies port
      ensures var e := Emit(CommandFrame(0x04, cmdId, cmdArg));
        port.sent == old(port.sent) + e.bytes
        && if !e.complete then r == Raise(OverflowError) && port.replies == old(port.replies)
           else r == Ok(Status(old(port.replies)) == 1)
                && port.replies == Drop(old(port.replies), 1)
    {
      var ok := port.WriteFrame(CommandFrame(0x04, cmdId, cmdArg));
      if !ok {
        return Raise(OverflowError);
      }
      var status := port.Read(1);
      r := Ok(FromLittleEndian(status) == 1);
    }

    /** A command whose response of `n` bytes follows a status of 1; any
        other status gives None and reads nothing more. */
    method SendWithResponse(op: byte, cmdId: int, cmdArg: int, n: nat)
      returns (r: Result<Option<seq<byte>>>)
      modifies port
      ensures var e := Emit(CommandFrame(op, cmdId, cmdArg));
        var rs := old(port.replies);
        port.sent == old(port.sent) + e.bytes
        && if !e.complete then r == Raise(OverflowError) && port.replies == rs
           else if Status(rs) == 1 then
             r == Ok(Some(Take(rs[1..], n))) && port.replies == Drop(rs[1..], n)
           else r == Ok(None) && port.replies == Drop(rs, 1)
    {
      var ok := port.WriteFrame(CommandFrame(op, cmdId, cmdArg));
      if !ok {
        return Raise(OverflowError);
      }
      var status := port.Read(1);
      if FromLittleEndian(status) == 1 {
        var data := port.Read(n);
        r := Ok(Some(data));
      } else {
        r := Ok(None);
      }
    }

    /** `send_short`: opcode 0x05, a 4-byte response on status 1. */
    method SendShort(cmdId: int, cmdArg: int) returns (r: Result<Option<seq<byte>>>)
      modifies port
      ensures var e := Emit(CommandFrame(0x05, cmdId, cmdArg));
        var rs := old(port.replies);
        port.sent == old(port.sent) + e.bytes
        && if !e.complete then r == Raise(OverflowError) && port.replies == rs
           else if Status(rs) == 1 then
             r == Ok(Some(Take(rs[1..], 4))) && port.replies == Drop(rs[1..], 4)
           else r == Ok(None) && port.replies == Drop(rs, 1)
    {
      r := SendWithResponse(0x05, cmdId, cmdArg, 4);
    }

    /** `send_long`: opcode 0x06, a 16-byte response on status 1. */
    method SendLong(cmdId: int, cmdArg: int) returns (r: Result<Option<seq<byte>>>)
      modifies port
      ensures var e := Emit(CommandFrame(0x06, cmdId, cmdArg));
        var rs := old(port.replies);
        port.sent == old(port.sent) + e.bytes
        && if !e.complete then r == Raise(OverflowError) && port.replies == rs
           else if Status(rs) == 1 then
             r == Ok(Some(Take(rs[1..], 16))) && port.replies == Drop(rs[1..], 16)
           else r == Ok(None) && port.replies == Drop(rs, 1)
    {
      r := SendWithResponse(0x06, cmdId, cmdArg, 16);
    }

    /** Block `write`: opcode 0x09 and the command, then the data; true iff
        the status is 1. */
    method Write(cmdId: int, cmdArg: int, data: seq<byte>) returns (r: Result<bool>)
      modifies port
      ensures var e := Emit(CommandFrame(0x09, cmdId, cmdArg));
        port.sent == old(port.sent) + e.bytes + (if e.complete then data else [])
        && if !e.complete then r == Raise(OverflowError) && port.replies == old(port.replies)
           else r == Ok(Status(old(port.replies)) == 1)
                && port.replies == Drop(old(port.replies), 1)
    {
      var ok := port.WriteFrame(CommandFrame(0x09, cmdId, cmdArg));
      if !ok {
        return Raise(OverflowError);
      }
      port.Write(data);
      var status := port.Read(1);
      r := Ok(FromLittleEndian(status) == 1);
    }

    /** Block `read`: opcode 0x0D and the command; a 512-byte block on
        status 1, the empty string otherwise. */
    method Read(cmdId: int, cmdArg: int) returns (r: Result<seq<byte>>)
      modifies port
      ensures var e := Emit(CommandFrame(0x0D, cmdId, cmdArg));
        var rs := old(port.replies);
        port.sent == old(port.sent) + e.bytes
        && if !e.complete then r == Raise(OverflowError) && port.replies == rs
           else if Status(rs) == 1 then
             r == Ok(Take(rs[1..], BlockSize)) && port.replies == Drop(rs[1..], BlockSize)
           else r == Ok([]) && port.replies == Drop(rs, 1)
    {
      var block := SendWithResponse(0x0D, cmdId, cmdArg, BlockSize);
      match block
      case Raise(e) => r := Raise(e);
      case Ok(None) => r := Ok([]);
      case Ok(Some(data)) => r := Ok(data);
    }
  }
}
