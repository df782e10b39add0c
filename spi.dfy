/** SPI mode: chip select, bulk transfers, write-then-read, reads by
    16-byte filler transfers, and the polarity/phase/device register
    (pyHydrabus/spi.py). */
module SPIMode {
  import opened Bytes
  import opened Outcomes
  import opened Frames
  import opened Transport
  import opened Registers
  import opened Bulk

  /** Configuration register: bit 2 polarity, bit 1 phase, bit 0 device
      (1 = SPI1, 0 = SPI2).  The default has phase 1 on SPI2. */
  const DefaultConfig: byte := 0x02
  const PolarityBit := 2
  const PhaseBit := 1
  const DeviceBit := 0
  /** Chip select starts high (released). */
  const DefaultCs := 1
  /** The highest speed setting. */
  const MaxSpeed := 7

  /** An opcode with an integer parameter or-ed in, `base | param`, for a
      parameter that fits in a byte (a larger or negative one makes
      `to_bytes(1)` raise OverflowError). */
  function OpWith(base: byte, param: int): (cmd: byte)
    requires 0 <= param < 256
    ensures cmd & base == base
    ensures cmd & !base == ByteOf(param) & !base
  {
    ConfigCommand(base, ByteOf(param))
  }

  /** The `cs` setter's command `0x02 | mode`: 0x02 for low, 0x03 for high. */
  lemma CsCommands()
    ensures OpWith(0x02, 0) == 0x02 && OpWith(0x02, 1) == 0x03
  {
  }

  /** `write_read`'s header: `0x04 | drive_cs`, then the data length and
      the read length in two big-endian bytes each. */
  function WriteReadFrame(data: seq<byte>, readLen: int, driveCs: int): seq<Field>
    requires 0 <= driveCs < 256
  {
    [Raw([OpWith(0x04, driveCs)]), Int(|data|, 2, Big), Int(readLen, 2, Big)]
  }

  lemma WriteReadFrameLayout(data: seq<byte>, readLen: int, driveCs: int)
    requires 0 <= driveCs < 256 && Fits(|data|, 2) && Fits(readLen, 2)
    ensures var bs := Emit(WriteReadFrame(data, readLen, driveCs)).bytes;
      |bs| == 5 && bs[0] == OpWith(0x04, driveCs)
      && FromBigEndian(bs[1..3]) == |data| && FromBigEndian(bs[3..5]) == readLen
  {
    EmitThree(OpWith(0x04, driveCs), Int(|data|, 2, Big), Int(readLen, 2, Big));
    var bs := Emit(WriteReadFrame(data, readLen, driveCs)).bytes;
    assert bs[1..3] == BigEndian(|data|, 2);
    assert bs[3..5] == BigEndian(readLen, 2);
    BigEndianRoundTrip(|data|, 2);
    BigEndianRoundTrip(readLen, 2);
  }

  /** `n` filler bytes 0xFF, clocked out to read `n` bytes. */
  function Filler(n: int): (s: seq<byte>)
    ensures |s| == if n < 0 then 0 else n
    ensures forall i | 0 <= i < |s| :: s[i] == 0xFF
  {
    if n <= 0 then [] else seq(n, _ => 0xFF)
  }

  /** The chunk `read` transfers next when `n` bytes remain. */
  function ChunkSize(n: int): int {
    if n >= MaxBulk then MaxBulk else n
  }

  /** The bytes already read in front of the outcome of the rest of a read. */
  function Prepend(done: seq<byte>, rest: Option<seq<byte>>): Option<seq<byte>> {
    match rest
    case None => None
    case Some(v) => Some(done + v)
  }

  lemma PrependTwice(a: seq<byte>, b: seq<byte>, rest: Option<seq<byte>>)
    ensures Prepend(a, Prepend(b, rest)) == Prepend(a + b, rest)
  {
    if rest.Some? {
      Associative(a, b, rest.value);
    }
  }

  /** The transfers of `read` once chip select is handled: while bytes
      remain, a bulk transfer of 0xFF filler, 16 bytes or the remainder.
      The result is None when a transfer is not acked (`result += None`
      then raises TypeError), and the concatenated reply bytes otherwise. */
  function Transfer(n: int, rs: seq<byte>): (x: Exchange<Option<seq<byte>>>)
    ensures x.result.Some? ==> |x.result.value| <= if n < 0 then 0 else n
    decreases n
  {
    if n <= 0 then Exchange([], rs, Some([]))
    else
      var k := ChunkSize(n);
      if !Replied(rs, 0x01) then Exchange([BulkCommand(k)], Drop(rs, 1), None)
      else
        var got := Take(Drop(rs, 1), k);
        var t := Transfer(n - k, Drop(Drop(rs, 1), k));
        Exchange(BulkFrame(Filler(k)) + t.written, t.rest, Prepend(got, t.result))
  }

  /** A transfer the device acks: the filler frame, the bytes it clocked
      in, then the transfers for the rest. */
  lemma TransferAcked(n: int, rs: seq<byte>)
    requires n > 0 && Replied(rs, 0x01)
    ensures var k := ChunkSize(n);
      var t := Transfer(n - k, Drop(Drop(rs, 1), k));
      Transfer(n, rs) == Exchange(BulkFrame(Filler(k)) + t.written, t.rest, Prepend(Take(Drop(rs, 1), k), t.result))
  {
  }

  /** A transfer the device refuses ends the read with None. */
  lemma TransferRefused(n: int, rs: seq<byte>)
    requires n > 0 && !Replied(rs, 0x01)
    ensures Transfer(n, rs) == Exchange([BulkCommand(ChunkSize(n))], Drop(rs, 1), None)
  {
  }

  /** The loop invariant of `read` carried over one acked transfer: `sent`
      and `done` were the bytes written and read before it. */
  lemma TransferCarries(n: int, rs: seq<byte>, sent: seq<byte>, done: seq<byte>,
                        start: seq<byte>, x: Exchange<Option<seq<byte>>>)
    requires n > 0 && Replied(rs, 0x01)
    requires sent + Transfer(n, rs).written == start + x.written && Transfer(n, rs).rest == x.rest
    requires x.result == Prepend(done, Transfer(n, rs).result)
    ensures var k := ChunkSize(n);
      var t := Transfer(n - k, Drop(Drop(rs, 1), k));
      && sent + BulkFrame(Filler(k)) + t.written == start + x.written && t.rest == x.rest
      && x.result == Prepend(done + Take(Drop(rs, 1), k), t.result)
  {
    var k := ChunkSize(n);
    var t := Transfer(n - k, Drop(Drop(rs, 1), k));
    TransferAcked(n, rs);
    Associative(sent, BulkFrame(Filler(k)), t.written);
    PrependTwice(done, Take(Drop(rs, 1), k), t.result);
  }

  /** A read that completes issues exactly the bulk transfers a write of
      `n` filler bytes would: `split(b"\xff" * n, 16)`, pieces of 16 bytes
      and a shorter last one, whose sizes sum to `n`. */
  lemma {:induction false} TransferPieces(n: int, rs: seq<byte>)
    requires Transfer(n, rs).result.Some?
    ensures Transfer(n, rs).written == BulkFrames(Split(Filler(n)))
    decreases n
  {
    if n > 0 {
      var k := ChunkSize(n);
      var rest := Drop(Drop(rs, 1), k);
      var t := Transfer(n - k, rest);
      assert Replied(rs, 0x01);
      TransferAcked(n, rs);
      TransferPieces(n - k, rest);
      FillerFrames(n);
    }
  }

  /** `split` cuts the filler into a full piece and the filler for the rest. */
  lemma SplitFiller(n: int)
    requires n > 0
    ensures Split(Filler(n)) == [Filler(ChunkSize(n))] + Split(Filler(n - ChunkSize(n)))
  {
    var f := Filler(n);
    if n > MaxBulk {
      assert f[MaxBulk..] == Filler(n - MaxBulk);
      assert f[..MaxBulk] == Filler(MaxBulk);
    } else {
      assert Filler(n - ChunkSize(n)) == [];
    }
  }

  /** The bulk frames of `split` on the filler: one full piece, then the
      frames for the rest. */
  lemma FillerFrames(n: int)
    requires n > 0
    ensures Sized(Split(Filler(n - ChunkSize(n))))
    ensures BulkFrames(Split(Filler(n))) ==
      BulkFrame(Filler(ChunkSize(n))) + BulkFrames(Split(Filler(n - ChunkSize(n))))
  {
    SplitFiller(n);
    BulkFramesCons(Filler(ChunkSize(n)), Split(Filler(n - ChunkSize(n))));
  }

  /** The number of filler transfers a read of `n` bytes makes: one per
      16 bytes, the last one shorter. */
  function TransferCount(n: int): (c: nat)
    ensures n > 0 ==> c >= 1
    decreases n
  {
    if n <= 0 then 0 else 1 + TransferCount(n - ChunkSize(n))
  }

  /** The result of a completed read has one byte per requested byte when
      the device answered every transfer in full. */
  lemma {:induction false} TransferLength(n: int, rs: seq<byte>)
    requires n >= 0 && |rs| >= n + TransferCount(n)
    requires Transfer(n, rs).result.Some?
    ensures |Transfer(n, rs).result.value| == n
    decreases n
  {
    if n > 0 {
      var k := ChunkSize(n);
      var rest := Drop(Drop(rs, 1), k);
      var t := Transfer(n - k, rest);
      assert Replied(rs, 0x01);
      TransferAcked(n, rs);
      assert |rest| == |rs| - 1 - k && |Take(Drop(rs, 1), k)| == k;
      assert t.result.Some?;
      TransferLength(n - k, rest);
    }
  }

  /** What `write_read` does once its header is written, against the
      pending replies `rs`.  The first status is read with a zero timeout:
      `arrived` says whether the device's answer is there by then.  0x00
      gives None; 0x01 with no data to send gives the `readLen` bytes that
      follow; an empty answer sends the data and gives the bytes after an
      0x01 ack (None on any other ack); any other answer gives None. */
  function WriteReadReply(data: seq<byte>, readLen: int, arrived: bool, rs: seq<byte>)
    : (x: Exchange<Option<seq<byte>>>)
    requires Fits(readLen, 2)
    ensures x.result.Some? ==> |x.result.value| <= readLen
    ensures x.written == [] || x.written == data
    ensures x.result.Some? ==> (arrived && Replied(rs, 0x01) && data == []) || !arrived || rs == []
  {
    var ret := if arrived then Take(rs, 1) else [];
    var r1 := if arrived then Drop(rs, 1) else rs;
    if ret == [0x00] then Exchange([], r1, None)
    else if ret == [0x01] && |data| == 0 then Exchange([], Drop(r1, readLen), Some(Take(r1, readLen)))
    else if ret == [] then
      if !Replied(r1, 0x01) then Exchange(data, Drop(r1, 1), None)
      else Exchange(data, Drop(Drop(r1, 1), readLen), Some(Take(Drop(r1, 1), readLen)))
    else Exchange([], r1, None)
  }

  /** `write_read` against the pending replies `rs`: the header, then the
      reply as `WriteReadReply` describes.  OverflowError, after the bytes
      written so far, when `drive_cs` does not fit in a byte or a length in
      two. */
  function WriteReadExchange(data: seq<byte>, readLen: int, driveCs: int, arrived: bool,
                             rs: seq<byte>): (x: Exchange<Result<Option<seq<byte>>>>)
    ensures x.result.Raise? <==> !(0 <= driveCs < 256) || !Fits(|data|, 2) || !Fits(readLen, 2)
    ensures x.result.Raise? ==> x.result.error == OverflowError && x.rest == rs
    ensures x.result.Ok? && x.result.value.Some? ==> |x.result.value.value| <= readLen
    ensures x.result.Ok? ==>
      var header := Emit(WriteReadFrame(data, readLen, driveCs)).bytes;
      x.written == header || x.written == header + data
    ensures x.result.Ok? && x.result.value.Some? ==>
      (arrived && Replied(rs, 0x01) && data == []) || !arrived || rs == []
  {
    if !(0 <= driveCs < 256) then Exchange([], rs, Raise(OverflowError))
    else
      EmitThree(OpWith(0x04, driveCs), Int(|data|, 2, Big), Int(readLen, 2, Big));
      var e := Emit(WriteReadFrame(data, readLen, driveCs));
      if !e.complete then Exchange(e.bytes, rs, Raise(OverflowError))
      else
        var y := WriteReadReply(data, readLen, arrived, rs);
        assert e.bytes + y.written == e.bytes || e.bytes + y.written == e.bytes + data;
        Exchange(e.bytes + y.written, y.rest, Ok(y.result))
  }

  /** The answers `write_read` tells apart.  An early 0x00 gives None and
      consumes it; an early 0x01 with no data gives the `readLen` replies
      after it; with no early answer the data is sent, and the `readLen`
      replies after an 0x01 ack come back (None, the ack consumed, on any
      other ack); any other early answer gives None with nothing sent. */
  lemma WriteReadReplyCases(data: seq<byte>, readLen: int, arrived: bool, rs: seq<byte>)
    requires Fits(readLen, 2)
    ensures var x := WriteReadReply(data, readLen, arrived, rs);
      var r1 := if arrived then Drop(rs, 1) else rs;
      && (arrived && Replied(rs, 0x00) ==> x == Exchange([], Drop(rs, 1), None))
      && (arrived && Replied(rs, 0x01) && data == [] ==>
            x == Exchange([], Drop(Drop(rs, 1), readLen), Some(Take(Drop(rs, 1), readLen))))
      && (!arrived || rs == [] ==>
            x.written == data
            && (Replied(r1, 0x01) ==>
                  x.result == Some(Take(Drop(r1, 1), readLen)) && x.rest == Drop(Drop(r1, 1), readLen))
            && (!Replied(r1, 0x01) ==> x.result == None && x.rest == Drop(r1, 1)))
      && (arrived && rs != [] && rs[0] != 0x00 && (rs[0] != 0x01 || data != []) ==>
            x == Exchange([], Drop(rs, 1), None))
  {
    if arrived && rs != [] {
      assert Take(rs, 1) == [rs[0]];
    }
  }

  /** A `write_read` whose header fits writes that header, then behaves as
      `WriteReadReply` on the replies it found. */
  lemma WriteReadExchangeReply(data: seq<byte>, readLen: int, driveCs: int, arrived: bool,
                               rs: seq<byte>)
    requires 0 <= driveCs < 256 && Fits(|data|, 2) && Fits(readLen, 2)
    ensures var x := WriteReadExchange(data, readLen, driveCs, arrived, rs);
      var y := WriteReadReply(data, readLen, arrived, rs);
      x == Exchange(Emit(WriteReadFrame(data, readLen, driveCs)).bytes + y.written, y.rest, Ok(y.result))
  {
    EmitThree(OpWith(0x04, driveCs), Int(|data|, 2, Big), Int(readLen, 2, Big));
  }

  class SPI {
    const port: Port
    var config: byte
    var csVal: int

    /** Construction configures the port with the default register. */
    constructor (port: Port)
      modifies port
      ensures this.port == port && config == DefaultConfig && csVal == DefaultCs
      ensures port.sent == old(port.sent) + [ConfigCommand(0x80, DefaultConfig)]
      ensures port.replies == Drop(old(port.replies), 1)
    {
      this.port := port;
      config := DefaultConfig;
      csVal := DefaultCs;
      new;
      var _ := ConfigurePort();
    }

    /** `_configure_port`: sends `0x80 | config`, true iff the device acks 0x01. */
    method ConfigurePort() returns (ok: bool)
      modifies port
      ensures port.sent == old(port.sent) + [ConfigCommand(0x80, config)]
      ensures port.replies == Drop(old(port.replies), 1)
      ensures ok == Replied(old(port.replies), 0x01)
    {
      port.Write([ConfigCommand(0x80, config)]);
      var status := port.Read(1);
      ok := status == [0x01];
    }

    function Cs(): int
      reads this
    {
      csVal
    }

    /** The `cs` setter: sends `0x02 | mode` and caches `mode` only when the
        device acks 0x01; OverflowError, with nothing sent, for a mode that
        does not fit in a byte. */
    method SetCs(mode: int) returns (r: Result<()>)
      modifies this, port
      ensures config == old(config)
      ensures !(0 <= mode < 256) ==>
        r == Raise(OverflowError) && csVal == old(csVal)
        && port.sent == old(port.sent) && port.replies == old(port.replies)
      ensures 0 <= mode < 256 ==>
        r == Ok(())
        && port.sent == old(port.sent) + [OpWith(0x02, mode)]
        && port.replies == Drop(old(port.replies), 1)
        && csVal == if Replied(old(port.replies), 0x01) then mode else old(csVal)
    {
      if !(0 <= mode < 256) {
        return Raise(OverflowError);
      }
      port.Write([OpWith(0x02, mode)]);
      var status := port.Read(1);
      if status == [0x01] {
        csVal := mode;
      }
      r := Ok(());
    }

    /** `bulk_write`: refuses an empty or over-long payload before any I/O;
        sends the data only once the opcode is acked with 0x01 and returns
        the bytes clocked in, None when the opcode is not acked. */
    method BulkWrite(data: seq<byte>) returns (r: Result<Option<seq<byte>>>)
      modifies port
      ensures var rs := old(port.replies);
        if |data| == 0 || |data| > MaxBulk then
          r == Raise(ValueError) && port.sent == old(port.sent) && port.replies == rs
        else if !Replied(rs, 0x01) then
          r == Ok(None) && port.sent == old(port.sent) + [BulkCommand(|data|)]
          && port.replies == Drop(rs, 1)
        else
          r == Ok(Some(Take(Drop(rs, 1), |data|)))
          && port.sent == old(port.sent) + BulkFrame(data)
          && port.replies == Drop(Drop(rs, 1), |data|)
    {
      if !(|data| > 0) || !(|data| <= MaxBulk) {
        return Raise(ValueError);
      }
      port.Write([BulkCommand(|data|)]);
      var status := port.Read(1);
      if status != [0x01] {
        return Ok(None);
      }
      port.Write(data);
      var got := port.Read(|data|);
      r := Ok(Some(got));
    }

    /** `write_read`, as `WriteReadExchange` describes. */
    method WriteRead(data: seq<byte>, readLen: int, driveCs: int, arrived: bool)
      returns (r: Result<Option<seq<byte>>>)
      modifies port
      ensures var x := WriteReadExchange(data, readLen, driveCs, arrived, old(port.replies));
        r == x.result && port.sent == old(port.sent) + x.written && port.replies == x.rest
    {
      if !(0 <= driveCs < 256) {
        return Raise(OverflowError);
      }
      ghost var e := Emit(WriteReadFrame(data, readLen, driveCs));
      var ok := port.WriteFrame(WriteReadFrame(data, readLen, driveCs));
      if !ok {
        return Raise(OverflowError);
      }
      EmitThree(OpWith(0x04, driveCs), Int(|data|, 2, Big), Int(readLen, 2, Big));
      ghost var y := WriteReadReply(data, readLen, arrived, port.replies);
      Associative(old(port.sent), e.bytes, y.written);
      var answer := ReadReply(data, readLen, arrived);
      r := Ok(answer);
    }

    /** The part of `write_read` after the header, as `WriteReadReply`
        describes. */
    method ReadReply(data: seq<byte>, readLen: int, arrived: bool) returns (r: Option<seq<byte>>)
      requires Fits(readLen, 2)
      modifies port
      ensures var x := WriteReadReply(data, readLen, arrived, old(port.replies));
        r == x.result && port.sent == old(port.sent) + x.written && port.replies == x.rest
    {
      var ret: seq<byte> := [];
      if arrived {
        ret := port.Read(1);
      }
      if ret == [0x00] {
        r := None;
      } else if ret == [0x01] && |data| == 0 {
        var answer := port.Read(readLen);
        r := Some(answer);
      } else if ret == [] {
        port.Write(data);
        var ack := port.Read(1);
        if ack != [0x01] {
          return None;
        }
        var answer := port.Read(readLen);
        r := Some(answer);
      } else {
        r := None;
      }
    }

    /** `write`: `write_read` with nothing to read; only its exception shows. */
    method Write(data: seq<byte>, driveCs: int, arrived: bool) returns (r: Result<()>)
      modifies port
      ensures var x := WriteReadExchange(data, 0, driveCs, arrived, old(port.replies));
        port.sent == old(port.sent) + x.written && port.replies == x.rest
        && r == if x.result.Raise? then Raise(x.result.error) else Ok(())
    {
      var x := WriteRead(data, 0, driveCs, arrived);
      if x.Raise? {
        return Raise(x.error);
      }
      r := Ok(());
    }

    /** `read`: with `driveCs == 0`, chip select is pulled low before the
        transfers and released after them; with any other value it is left
        alone.  A transfer that is not acked raises TypeError, and chip
        select then stays low. */
    method Read(readLen: int, driveCs: int) returns (r: Result<seq<byte>>)
      modifies this, port
      ensures config == old(config)
      ensures var rs := old(port.replies);
        var drive := driveCs == 0;
        var r1 := if drive then Drop(rs, 1) else rs;
        var cs1 := if drive && Replied(rs, 0x01) then 0 else old(csVal);
        var x := Transfer(readLen, r1);
        var pre := if drive then [OpWith(0x02, 0)] else [];
        if x.result.None? then
          r == Raise(TypeError) && csVal == cs1
          && port.sent == old(port.sent) + pre + x.written && port.replies == x.rest
        else
          r == Ok(x.result.value)
          && port.sent == old(port.sent) + pre + x.written + (if drive then [OpWith(0x02, 1)] else [])
          && port.replies == (if drive then Drop(x.rest, 1) else x.rest)
          && csVal == if drive && Replied(x.rest, 0x01) then 1 else cs1
    {
      ghost var rs, drive := port.replies, driveCs == 0;
      ghost var pre: seq<byte> := if drive then [OpWith(0x02, 0)] else [];
      ghost var r1 := if drive then Drop(rs, 1) else rs;
      ghost var cs1 := if drive && Replied(rs, 0x01) then 0 else csVal;
      if driveCs == 0 {
        var _ := SetCs(0);
      }
      assert port.sent == old(port.sent) + pre && port.replies == r1 && csVal == cs1;
      ghost var x := Transfer(readLen, r1);
      var result := Transfers(readLen);
      assert port.sent == old(port.sent) + pre + x.written && port.replies == x.rest;
      if result.None? {
        return Raise(TypeError);
      }
      if driveCs == 0 {
        var _ := SetCs(1);
      }
      r := Ok(result.value);
    }

    /** The loop of `read`: filler transfers of 16 bytes or the remainder
        while bytes remain; None as soon as one is not acked. */
    method Transfers(readLen: int) returns (result: Option<seq<byte>>)
      modifies port
      ensures var x := Transfer(readLen, old(port.replies));
        result == x.result && port.sent == old(port.sent) + x.written && port.replies == x.rest
    {
      ghost var start, x := port.sent, Transfer(readLen, port.replies);
      ghost var y := x;
      var done: seq<byte> := [];
      assert x.result.Some? ==> [] + x.result.value == x.result.value;
      var remaining := readLen;
      while remaining > 0
        invariant y == Transfer(remaining, port.replies)
        invariant port.sent + y.written == start + x.written && y.rest == x.rest
        invariant x.result == Prepend(done, y.result)
        decreases remaining
      {
        var acked;
        acked, done, remaining, y := TransferStep(remaining, done, start, x, y);
        if !acked {
          return None;
        }
      }
      assert done + [] == done && port.sent + [] == port.sent;
      result := Some(done);
    }

    /** One pass of `read`'s loop: a filler transfer of 16 bytes or the
        remainder.  Acked, its bytes join `done` and the loop invariant
        carries over to what remains; not acked, the whole read has ended
        with None. */
    method TransferStep(remaining: int, done: seq<byte>, ghost start: seq<byte>,
                        ghost x: Exchange<Option<seq<byte>>>, ghost y: Exchange<Option<seq<byte>>>)
      returns (acked: bool, done': seq<byte>, remaining': int, ghost y': Exchange<Option<seq<byte>>>)
      requires remaining > 0 && y == Transfer(remaining, port.replies)
      requires port.sent + y.written == start + x.written && y.rest == x.rest
      requires x.result == Prepend(done, y.result)
      modifies port
      ensures 0 <= remaining' < remaining
      ensures acked ==>
        y' == Transfer(remaining', port.replies)
        && port.sent + y'.written == start + x.written && y'.rest == x.rest
        && x.result == Prepend(done', y'.result)
      ensures !acked ==> x.result == None && port.sent == start + x.written && port.replies == x.rest
    {
      var toRead := ChunkSize(remaining);
      ghost var before, rs := port.sent, port.replies;
      var got := BulkWrite(Filler(toRead));
      remaining' := remaining - toRead;
      if got == Ok(None) {
        TransferRefused(remaining, rs);
        return false, done, remaining', y;
      }
      assert Replied(rs, 0x01);
      TransferCarries(remaining, rs, before, done, start, x);
      done' := done + got.value.value;
      acked, y' := true, Transfer(remaining', port.replies);
    }

    /** `set_speed`: ValueError above the fastest setting and OverflowError
        for a negative speed, both before any I/O; otherwise `0x60 | speed`,
        true iff the device acks 0x01. */
    method SetSpeed(speed: int) returns (r: Result<bool>)
      modifies port
      ensures speed > MaxSpeed ==>
        r == Raise(ValueError) && port.sent == old(port.sent) && port.replies == old(port.replies)
      ensures speed < 0 ==>
        r == Raise(OverflowError) && port.sent == old(port.sent) && port.replies == old(port.replies)
      ensures 0 <= speed <= MaxSpeed ==>
        r == Ok(Replied(old(port.replies), 0x01))
        && port.sent == old(port.sent) + [OpWith(0x60, speed)]
        && port.replies == Drop(old(port.replies), 1)
    {
      if !(speed <= MaxSpeed) {
        return Raise(ValueError);
      }
      if speed < 0 {
        return Raise(OverflowError);
      }
      port.Write([OpWith(0x60, speed)]);
      var status := port.Read(1);
      r := Ok(status == [0x01]);
    }

    function Polarity(): int
      reads this
    {
      Flag(config, PolarityBit)
    }

    function Phase(): int
      reads this
    {
      Flag(config, PhaseBit)
    }

    function Device(): int
      reads this
    {
      Flag(config, DeviceBit)
    }

    /** The `polarity` setter: moves bit 2 only and resends the register. */
    method SetPolarity(value: int)
      modifies this, port
      ensures csVal == old(csVal)
      ensures config == WithFlag(old(config), PolarityBit, value)
      ensures Polarity() == (if value == 0 then 0 else 1)
      ensures Phase() == old(Phase()) && Device() == old(Device())
      ensures port.sent == old(port.sent) + [ConfigCommand(0x80, config)]
      ensures port.replies == Drop(old(port.replies), 1)
    {
      config := WithFlag(config, PolarityBit, value);
      var _ := ConfigurePort();
    }

    /** The `phase` setter: moves bit 1 only and resends the register. */
    method SetPhase(value: int)
      modifies this, port
      ensures csVal == old(csVal)
      ensures config == WithFlag(old(config), PhaseBit, value)
      ensures Phase() == (if value == 0 then 0 else 1)
      ensures Polarity() == old(Polarity()) && Device() == old(Device())
      ensures port.sent == old(port.sent) + [ConfigCommand(0x80, config)]
      ensures port.replies == Drop(old(port.replies), 1)
    {
      config := WithFlag(config, PhaseBit, value);
      var _ := ConfigurePort();
    }

    /** The `device` setter: starts again from the default register, so
        polarity and phase are reset whatever they were. */
    method SetDevice(value: int)
      modifies this, port
      ensures csVal == old(csVal)
      ensures config == WithFlag(DefaultConfig, DeviceBit, value)
      ensures Polarity() == 0 && Phase() == 1 && Device() == (if value == 0 then 0 else 1)
      ensures port.sent == old(port.sent) + [ConfigCommand(0x80, config)]
      ensures port.replies == Drop(old(port.replies), 1)
    {
      config := DefaultConfig;
      config := WithFlag(config, DeviceBit, value);
      var _ := ConfigurePort();
    }
  }
}
