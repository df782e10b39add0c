/** I2C mode: bus conditions, byte reads with ACK/NACK, write-then-read,
    bulk writes and the address scan (pyHydrabus/i2c.py). */
module I2CMode {
  import opened Bytes
  import opened Outcomes
  import opened Frames
  import opened Transport
  import opened Registers
  import opened Bulk

  /** Configuration register: bit 2 enables the pull-ups. */
  const DefaultConfig: byte := 0x0
  const PullupBit := 2
  /** The highest speed setting (1 MHz); 0 is 50 kHz. */
  const MaxSpeed := 3
  /** The scan covers the 7-bit addresses 1..0x77. */
  const FirstAddress := 1
  const LastAddress := 0x77

  /** `set_speed`'s command `0b0110_0000 | speed`. */
  function SpeedCommand(speed: int): (cmd: byte)
    requires 0 <= speed <= MaxSpeed
    ensures cmd & 0xFC == 0x60
    ensures (cmd & 0x03) as int == speed
  {
    0x60 | ByteOf(speed)
  }

  /** The address byte of a scan probe, `(i << 1).to_bytes(1)`: the 7-bit
      address above a clear R/W bit (a write); `int.from_bytes(addr) >> 1`
      gives the address back. */
  function AddressByte(i: int): (b: byte)
    requires 0 <= i < 128
    ensures b as int == 2 * i
    ensures b & 0x01 == 0
    ensures FromBigEndian([b]) / 2 == i
  {
    assert FromBigEndian([ByteOf(2 * i)]) == 2 * i by {
      assert [ByteOf(2 * i)][..0] == [];
    }
    ByteOf(2 * i)
  }

  /** `write_read`'s header: 0x08, then the data length and the read length
      in two big-endian bytes each. */
  function WriteReadFrame(data: seq<byte>, readLen: int): seq<Field> {
    [Raw([0x08]), Int(|data|, 2, Big), Int(readLen, 2, Big)]
  }

  lemma WriteReadFrameLayout(data: seq<byte>, readLen: int)
    requires Fits(|data|, 2) && Fits(readLen, 2)
    ensures var bs := Emit(WriteReadFrame(data, readLen)).bytes;
      |bs| == 5 && bs[0] == 0x08
      && FromBigEndian(bs[1..3]) == |data| && FromBigEndian(bs[3..5]) == readLen
  {
    EmitThree(0x08, Int(|data|, 2, Big), Int(readLen, 2, Big));
    var bs := Emit(WriteReadFrame(data, readLen)).bytes;
    assert bs[1..3] == BigEndian(|data|, 2);
    assert bs[3..5] == BigEndian(readLen, 2);
    BigEndianRoundTrip(|data|, 2);
    BigEndianRoundTrip(readLen, 2);
  }

  /** `clock_stretch`'s request: 0x20, then the timeout in four big-endian bytes. */
  function ClockStretchFrame(clocks: int): seq<Field> {
    [Raw([0x20]), Int(clocks, 4, Big)]
  }

  /** The bytes at even positions of `s`: `s[0], s[2], ...`. */
  function Evens(s: seq<byte>): (r: seq<byte>)
    ensures |r| == (|s| + 1) / 2
    ensures forall j | 0 <= j < |r| :: r[j] == s[2 * j]
    decreases |s|
  {
    if |s| <= 1 then s
    else
      var rest := Evens(s[2..]);
      EvensCons(s, rest);
      [s[0]] + rest
  }

  lemma EvensCons(s: seq<byte>, rest: seq<byte>)
    requires 2 <= |s| && |rest| == (|s| - 1) / 2
    requires forall j | 0 <= j < |rest| :: rest[j] == s[2..][2 * j]
    ensures forall j | 0 <= j < |rest| + 1 :: ([s[0]] + rest)[j] == s[2 * j]
  {
    forall j | 0 <= j < |rest| + 1
      ensures ([s[0]] + rest)[j] == s[2 * j]
    {
      if j > 0 {
        assert ([s[0]] + rest)[j] == rest[j - 1] == s[2..][2 * (j - 1)];
      }
    }
  }

  /** One more data byte and its ACK or NACK status: the data byte joins
      the result and both leave the queue. */
  lemma EvensStep(s: seq<byte>, i: nat)
    ensures Evens(Take(s, 2 * (i + 1))) == Evens(Take(s, 2 * i)) + Take(Drop(s, 2 * i), 1)
    ensures Drop(Drop(Drop(s, 2 * i), 1), 1) == Drop(s, 2 * (i + 1))
  {
    assert 2 * (i + 1) == 2 * i + 2;
    DropDrop(s, 2 * i, 1);
    DropDrop(s, 2 * i + 1, 1);
    if |s| <= 2 * i {
      assert Take(s, 2 * i + 2) == s == Take(s, 2 * i);
      assert Take(Drop(s, 2 * i), 1) == [];
    } else {
      assert Take(Drop(s, 2 * i), 1) == [s[2 * i]];
      EvensStepInside(s, i);
    }
  }

  lemma EvensStepInside(s: seq<byte>, i: nat)
    requires 2 * i < |s|
    ensures Evens(Take(s, 2 * i + 2)) == Evens(Take(s, 2 * i)) + [s[2 * i]]
  {
    var a, b := Evens(Take(s, 2 * i + 2)), Evens(Take(s, 2 * i)) + [s[2 * i]];
    assert |a| == i + 1 == |b|;
    forall j | 0 <= j < |a|
      ensures a[j] == b[j]
    {
      if j < i {
        assert b[j] == Evens(Take(s, 2 * i))[j];
      }
    }
  }

  /** The number of bytes `read(length)` reads: `length`, but at least one. */
  function ReadCount(length: int): (k: nat)
    ensures k >= 1 && (length >= 1 ==> k == length)
  {
    if length >= 1 then length else 1
  }

  /** One scan probe of address `i` against the pending replies `rs`: start,
      a one-byte bulk write of the address, stop.  The address byte is sent
      only once the bulk command is acked with 0x01, and the probe finds a
      device when the byte after the address is 0x00. */
  function Probe(i: int, rs: seq<byte>): (x: Exchange<bool>)
    requires FirstAddress <= i <= LastAddress
    ensures x.result <==> Replied(Drop(rs, 1), 0x01) && Replied(Drop(Drop(rs, 1), 1), 0x00)
  {
    var r1 := Drop(rs, 1);
    if Replied(r1, 0x01) then
      var r2 := Drop(r1, 1);
      Exchange([0x02, BulkCommand(1), AddressByte(i), 0x03], Drop(Drop(r2, 1), 1), Replied(r2, 0x00))
    else
      Exchange([0x02, BulkCommand(1), 0x03], Drop(Drop(r1, 1), 1), false)
  }

  function Ascending(s: seq<int>): bool {
    forall j, k | 0 <= j < k < |s| :: s[j] < s[k]
  }

  /** `scan` from address `i` on: the probes of `i..0x77` in turn, and the
      addresses whose probe found a device, ascending and within range. */
  function ScanFrom(i: int, rs: seq<byte>): (x: Exchange<seq<int>>)
    requires FirstAddress <= i
    ensures Ascending(x.result)
    ensures forall a | a in x.result :: i <= a <= LastAddress
    decreases LastAddress + 1 - i
  {
    if i > LastAddress then Exchange([], rs, [])
    else
      var p := Probe(i, rs);
      var t := ScanFrom(i + 1, p.rest);
      if p.result then
        PrependAscending(i, t.result);
        Exchange(p.written + t.written, t.rest, [i] + t.result)
      else
        Exchange(p.written + t.written, t.rest, t.result)
  }

  /** The scan from `i` is the probe of `i` followed by the scan from `i + 1`. */
  lemma ScanStep(i: int, rs: seq<byte>)
    requires FirstAddress <= i <= LastAddress
    ensures var p := Probe(i, rs);
      var t := ScanFrom(i + 1, p.rest);
      ScanFrom(i, rs) == Exchange(p.written + t.written, t.rest, (if p.result then [i] else []) + t.result)
  {
    var p := Probe(i, rs);
    var t := ScanFrom(i + 1, p.rest);
    assert [] + t.result == t.result;
  }

  /** The scan's loop invariant carried over one probe. */
  lemma ScanAdvance(i: int, rs: seq<byte>, sent: seq<byte>, seen: seq<int>,
                    sent0: seq<byte>, x: Exchange<seq<int>>)
    requires FirstAddress <= i <= LastAddress
    requires sent + ScanFrom(i, rs).written == sent0 + x.written
    requires seen + ScanFrom(i, rs).result == x.result
    requires ScanFrom(i, rs).rest == x.rest
    ensures var p := Probe(i, rs);
      var t := ScanFrom(i + 1, p.rest);
      && sent + p.written + t.written == sent0 + x.written
      && seen + (if p.result then [i] else []) + t.result == x.result
      && t.rest == x.rest
  {
    var p := Probe(i, rs);
    var t := ScanFrom(i + 1, p.rest);
    ScanStep(i, rs);
    Associative(sent, p.written, t.written);
    Associative(seen, if p.result then [i] else [], t.result);
  }

  lemma PrependAscending(i: int, s: seq<int>)
    requires Ascending(s) && forall a | a in s :: i < a
    ensures Ascending([i] + s)
  {
    var r := [i] + s;
    forall j, k | 0 <= j < k < |r|
      ensures r[j] < r[k]
    {
      assert r[k] == s[k - 1] && s[k - 1] in s;
      if j > 0 {
        assert r[j] == s[j - 1];
      }
    }
  }

  /** The replies pending when the scan that started at `i` reaches `j`. */
  function RepliesAt(i: int, j: int, rs: seq<byte>): seq<byte>
    requires FirstAddress <= i <= j <= LastAddress + 1
    decreases j - i
  {
    if i == j then rs else RepliesAt(i + 1, j, Probe(i, rs).rest)
  }

  /** The scan from `i` reports `i` exactly when the probe of `i` found a
      device, and a later address exactly when the scan from `i + 1` does. */
  lemma ScanHead(i: int, j: int, rs: seq<byte>)
    requires FirstAddress <= i <= j <= LastAddress
    ensures var p := Probe(i, rs);
      j in ScanFrom(i, rs).result
      <==> (if i == j then p.result else j in ScanFrom(i + 1, p.rest).result)
  {
    var p := Probe(i, rs);
    var t := ScanFrom(i + 1, p.rest);
    ScanStep(i, rs);
    if i == j {
      assert i !in t.result;
    }
  }

  /** The scan reports address `j` exactly when the probe of `j`, made on the
      replies left by the probes before it, found a device. */
  lemma {:induction false} ScanFinds(i: int, j: int, rs: seq<byte>)
    requires FirstAddress <= i <= j <= LastAddress
    ensures j in ScanFrom(i, rs).result <==> Probe(j, RepliesAt(i, j, rs)).result
    decreases j - i
  {
    ScanHead(i, j, rs);
    if i < j {
      var p := Probe(i, rs);
      ScanFinds(i + 1, j, p.rest);
      assert RepliesAt(i, j, rs) == RepliesAt(i + 1, j, p.rest);
    }
  }

  /** The whole scan: every address of the range is reported iff its probe
      found a device, in ascending order. */
  lemma ScanResult(rs: seq<byte>)
    ensures Ascending(ScanFrom(FirstAddress, rs).result)
    ensures forall j | FirstAddress <= j <= LastAddress ::
      j in ScanFrom(FirstAddress, rs).result <==> Probe(j, RepliesAt(FirstAddress, j, rs)).result
    ensures forall a | a in ScanFrom(FirstAddress, rs).result :: FirstAddress <= a <= LastAddress
  {
    forall j | FirstAddress <= j <= LastAddress
      ensures j in ScanFrom(FirstAddress, rs).result <==> Probe(j, RepliesAt(FirstAddress, j, rs)).result
    {
      ScanFinds(FirstAddress, j, rs);
    }
  }

  class I2C {
    const port: Port
    var config: byte

    /** Construction configures the port with the default register. */
    constructor (port: Port)
      modifies port
      ensures this.port == port && config == DefaultConfig
      ensures port.sent == old(port.sent) + [ConfigCommand(0x40, DefaultConfig)]
      ensures port.replies == Drop(old(port.replies), 1)
    {
      this.port := port;
      config := DefaultConfig;
      new;
      var _ := ConfigurePort();
    }

    /** `_configure_port`: sends `0x40 | config`, true iff the device acks 0x01. */
    method ConfigurePort() returns (ok: bool)
      modifies port
      ensures port.sent == old(port.sent) + [ConfigCommand(0x40, config)]
      ensures port.replies == Drop(old(port.replies), 1)
      ensures ok == Replied(old(port.replies), 0x01)
    {
      port.Write([ConfigCommand(0x40, config)]);
      var status := port.Read(1);
      ok := status == [0x01];
    }

    /** A one-byte bus command that fails only on an explicit 0x00 reply. */
    method Command(op: byte) returns (ok: bool)
      modifies port
      ensures port.sent == old(port.sent) + [op]
      ensures port.replies == Drop(old(port.replies), 1)
      ensures ok == !Replied(old(port.replies), 0x00)
    {
      port.Write([op]);
      var status := port.Read(1);
      ok := status != [0x00];
    }

    /** `start`: the start condition, 0x02. */
    method Start() returns (ok: bool)
      modifies port
      ensures port.sent == old(port.sent) + [0x02]
      ensures port.replies == Drop(old(port.replies), 1)
      ensures ok == !Replied(old(port.replies), 0x00)
    {
      ok := Command(0x02);
    }

    /** `stop`: the stop condition, 0x03. */
    method Stop() returns (ok: bool)
      modifies port
      ensures port.sent == old(port.sent) + [0x03]
      ensures port.replies == Drop(old(port.replies), 1)
      ensures ok == !Replied(old(port.replies), 0x00)
    {
      ok := Command(0x03);
    }

    /** `send_ack`: 0x06. */
    method SendAck() returns (ok: bool)
      modifies port
      ensures port.sent == old(port.sent) + [0x06]
      ensures port.replies == Drop(old(port.replies), 1)
      ensures ok == !Replied(old(port.replies), 0x00)
    {
      ok := Command(0x06);
    }

    /** `send_nack`: 0x07. */
    method SendNack() returns (ok: bool)
      modifies port
      ensures port.sent == old(port.sent) + [0x07]
      ensures port.replies == Drop(old(port.replies), 1)
      ensures ok == !Replied(old(port.replies), 0x00)
    {
      ok := Command(0x07);
    }

    /** `read_byte`: 0x04, then one reply byte (none on timeout). */
    method ReadByte() returns (r: seq<byte>)
      modifies port
      ensures port.sent == old(port.sent) + [0x04]
      ensures r == Take(old(port.replies), 1) && port.replies == Drop(old(port.replies), 1)
    {
      port.Write([0x04]);
      r := port.Read(1);
    }

    /** `write_read`: the header, then (unless the device answers 0x00 at
        once) the data; the `readLen` bytes that follow an 0x01 ack, None
        otherwise.  OverflowError when a length does not fit in two bytes.
        The early status is read with a zero timeout: `arrived` says whether
        the device had already sent it; when it had not, nothing is consumed
        and the data is written. */
    method WriteRead(data: seq<byte>, readLen: int, arrived: bool) returns (r: Result<Option<seq<byte>>>)
      modifies port
      ensures var e := Emit(WriteReadFrame(data, readLen));
        var rs := old(port.replies);
        var r1 := if arrived then Drop(rs, 1) else rs;
        if !e.complete then
          r == Raise(OverflowError) && port.sent == old(port.sent) + e.bytes && port.replies == rs
        else if arrived && Replied(rs, 0x00) then
          r == Ok(None) && port.sent == old(port.sent) + e.bytes && port.replies == r1
        else
          port.sent == old(port.sent) + e.bytes + data
          && if !Replied(r1, 0x01) then r == Ok(None) && port.replies == Drop(r1, 1)
             else r == Ok(Some(Take(Drop(r1, 1), readLen)))
                  && port.replies == Drop(Drop(r1, 1), readLen)
    {
      var ok := port.WriteFrame(WriteReadFrame(data, readLen));
      if !ok {
        return Raise(OverflowError);
      }
      var status: seq<byte> := [];
      if arrived {
        status := port.Read(1);
      }
      if status == [0x00] {
        return Ok(None);
      }
      port.Write(data);
      var ack := port.Read(1);
      if ack != [0x01] {
        return Ok(None);
      }
      var answer := port.Read(readLen);
      r := Ok(Some(answer));
    }

    /** `write`: `write_read` with nothing to read; only its exception shows. */
    method Write(data: seq<byte>, arrived: bool) returns (r: Result<()>)
      modifies port
      ensures var e := Emit(WriteReadFrame(data, 0));
        var rs := old(port.replies);
        var r1 := if arrived then Drop(rs, 1) else rs;
        if !e.complete then
          r == Raise(OverflowError) && port.sent == old(port.sent) + e.bytes && port.replies == rs
        else
          r == Ok(())
          && if arrived && Replied(rs, 0x00) then
               port.sent == old(port.sent) + e.bytes && port.replies == r1
             else
               port.sent == old(port.sent) + e.bytes + data && port.replies == Drop(r1, 1)
    {
      var x := WriteRead(data, 0, arrived);
      if x.Raise? {
        return Raise(x.error);
      }
      r := Ok(());
    }

    /** `read(length)`: a `read_byte` and an ACK for every byte but the last,
        which is followed by a NACK; the bytes read, in order.  At least one
        byte is read, even for a length below 1. */
    method Read(length: int) returns (r: seq<byte>)
      modifies port
      ensures var k := ReadCount(length);
        port.sent == old(port.sent) + Repeat([0x04, 0x06], k - 1) + [0x04, 0x07]
        && r == Evens(Take(old(port.replies), 2 * k))
        && port.replies == Drop(old(port.replies), 2 * k)
    {
      ghost var sent0, rs := port.sent, port.replies;
      var k := ReadCount(length);
      r := [];
      for i := 0 to k - 1
        invariant port.sent == sent0 + Repeat([0x04, 0x06], i)
        invariant r == Evens(Take(rs, 2 * i)) && port.replies == Drop(rs, 2 * i)
      {
        EvensStep(rs, i);
        RepeatSnoc([0x04, 0x06], i);
        Associative(sent0, Repeat([0x04, 0x06], i), [0x04, 0x06]);
        var b := ReadAndAnswer(0x06);
        r := r + b;
      }
      EvensStep(rs, k - 1);
      var b := ReadAndAnswer(0x07);
      r := r + b;
    }

    /** A `read_byte` followed by `send_ack` or `send_nack`, whose status is
        consumed and not looked at. */
    method ReadAndAnswer(answer: byte) returns (r: seq<byte>)
      modifies port
      ensures port.sent == old(port.sent) + [0x04, answer]
      ensures r == Take(old(port.replies), 1)
      ensures port.replies == Drop(Drop(old(port.replies), 1), 1)
    {
      r := ReadByte();
      var _ := Command(answer);
    }

    /** `bulk_write`: refuses an empty or over-long payload before any I/O;
        sends the data only once the opcode is acked with 0x01 and returns
        one status byte per data byte, None when the opcode is not acked. */
    method BulkWrite(data: seq<byte>) returns (r: Result<Option<seq<byte>>>)
      modifies port
      ensures var rs := old(port.replies);
        if |data| == 0 || |data| > MaxBulk then
          r == Raise(ValueError) && port.sent == old(port.sent) && port.replies == rs
        else if !Replied(rs, 0x01) then
          r == Ok(None) && port.sent == old(port.sent) + [BulkCommand(|data|)]
          && port.replies == Drop(rs, 1)
        else
          r == Ok(Some(Take(Drop(rs, 1), |data|)))
          && port.sent == old(port.sent) + BulkFrame(data)
          && port.replies == Drop(Drop(rs, 1), |data|)
    {
      if !(|data| > 0) || !(|data| <= MaxBulk) {
        return Raise(ValueError);
      }
      port.Write([BulkCommand(|data|)]);
      var status := port.Read(1);
      if status != [0x01] {
        return Ok(None);
      }
      port.Write(data);
      var acks := port.Read(|data|);
      r := Ok(Some(acks));
    }

    /** `scan`: probes addresses 1..0x77 in turn and returns those that
        answered, as `ScanFrom` describes. */
    method Scan() returns (found: seq<int>)
      modifies port
      ensures var x := ScanFrom(FirstAddress, old(port.replies));
        port.sent == old(port.sent) + x.written && port.replies == x.rest && found == x.result
    {
      ghost var sent0, x0 := port.sent, ScanFrom(FirstAddress, port.replies);
      ghost var x := x0;
      found := [];
      for i := FirstAddress to LastAddress + 1
        invariant x == ScanFrom(i, port.replies)
        invariant port.sent + x.written == sent0 + x0.written
        invariant found + x.result == x0.result && x.rest == x0.rest
      {
        found, x := ScanOne(i, found, sent0, x0, x);
      }
    }

    /** One iteration of `scan`'s loop: the probe of `i`, and the address
        appended when it answered; `x`, what is left of the scan, shrinks by
        that probe and the loop invariant carries over. */
    method ScanOne(i: int, found: seq<int>, ghost sent0: seq<byte>, ghost x0: Exchange<seq<int>>,
                   ghost x: Exchange<seq<int>>)
      returns (found': seq<int>, ghost x': Exchange<seq<int>>)
      requires FirstAddress <= i <= LastAddress && x == ScanFrom(i, port.replies)
      requires port.sent + x.written == sent0 + x0.written
      requires found + x.result == x0.result && x.rest == x0.rest
      modifies port
      ensures x' == ScanFrom(i + 1, port.replies)
      ensures port.sent + x'.written == sent0 + x0.written
      ensures found' + x'.result == x0.result && x'.rest == x0.rest
    {
      ScanAdvance(i, port.replies, port.sent, found, sent0, x0);
      var acked := ProbeAddress(i);
      x' := ScanFrom(i + 1, port.replies);
      found' := found;
      if acked {
        var addr := AddressByte(i);
        found' := found + [FromBigEndian([addr]) / 2];
      }
    }

    /** One iteration of `scan`: start, bulk write of the address byte, stop. */
    method ProbeAddress(i: int) returns (acked: bool)
      requires FirstAddress <= i <= LastAddress
      modifies port
      ensures var p := Probe(i, old(port.replies));
        port.sent == old(port.sent) + p.written && port.replies == p.rest && acked == p.result
    {
      var addr := AddressByte(i);
      var _ := Start();
      var ack := BulkWrite([addr]);
      acked := ack == Ok(Some([0x00]));
      var _ := Stop();
    }

    /** `set_speed`: ValueError above 1 MHz and OverflowError for a negative
        speed, both before any I/O; otherwise true iff the device acks 0x01. */
    method SetSpeed(speed: int) returns (r: Result<bool>)
      modifies port
      ensures speed > MaxSpeed ==>
        r == Raise(ValueError) && port.sent == old(port.sent) && port.replies == old(port.replies)
      ensures speed < 0 ==>
        r == Raise(OverflowError) && port.sent == old(port.sent) && port.replies == old(port.replies)
      ensures 0 <= speed <= MaxSpeed ==>
        r == Ok(Replied(old(port.replies), 0x01))
        && port.sent == old(port.sent) + [SpeedCommand(speed)]
        && port.replies == Drop(old(port.replies), 1)
    {
      if !(speed <= MaxSpeed) {
        return Raise(ValueError);
      }
      if speed < 0 {
        return Raise(OverflowError);
      }
      port.Write([SpeedCommand(speed)]);
      var status := port.Read(1);
      r := Ok(status == [0x01]);
    }

    /** `clock_stretch`: 0x20 and the timeout in clocks; true iff acked 0x01. */
    method ClockStretch(clocks: int) returns (r: Result<bool>)
      modifies port
      ensures var e := Emit(ClockStretchFrame(clocks));
        port.sent == old(port.sent) + e.bytes
        && if !e.complete then r == Raise(OverflowError) && port.replies == old(port.replies)
           else r == Ok(Replied(old(port.replies), 0x01))
                && port.replies == Drop(old(port.replies), 1)
    {
      var ok := port.WriteFrame(ClockStretchFrame(clocks));
      if !ok {
        return Raise(OverflowError);
      }
      var status := port.Read(1);
      r := Ok(status == [0x01]);
    }

    function Pullup(): int
      reads this
    {
      Flag(config, PullupBit)
    }

    /** The `pullup` setter: moves bit 2 only and resends the register. */
    method SetPullup(value: int)
      modifies this, port
      ensures config == WithFlag(old(config), PullupBit, value)
      ensures Pullup() == if value == 0 then 0 else 1
      ensures port.sent == old(port.sent) + [ConfigCommand(0x40, config)]
      ensures port.replies == Drop(old(port.replies), 1)
    {
      config := WithFlag(config, PullupBit, value);
      var _ := ConfigurePort();
    }
  }
}
