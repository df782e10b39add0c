/** SWD mode: debug-port and access-port register accesses over the
    raw-wire layer, with the packet request, ACK and parity rules of the SWD
    protocol (section B4.2 of the ARM Debug Interface Architecture
    Specification ADIv5.2) (pyHydrabus/swd.py). */
module SWDMode {
  import opened Bytes
  import opened Outcomes
  import opened Transport
  import opened Registers

  /** Raw-wire register value the driver configures. */
  const SwdConfig: byte := 0x0A
  /** Request bases: start (bit 0) and park (bit 7) set, RnW (bit 2) set
      for a read. */
  const ReadBase: byte := 0x85
  const WriteBase: byte := 0x81
  /** The ABORT flags written by `abort()` and on WAIT: all of DAPABORT,
      STKCMPCLR, STKERRCLR, WDERRCLR and ORUNERRCLR. */
  const DefaultAbortFlags := 0x1F
  /** DP register addresses: ABORT, SELECT, RDBUFF. */
  const AbortAddress := 0x0
  const SelectAddress := 0x8
  const RdBuffAddress := 0xC

  /** The outcome of an SWD operation against the pending replies: the
      raw-wire operations issued, the replies left, the result. */
  datatype Step<T> = Step(ops: seq<WireOp>, rest: seq<byte>, result: Result<T>)

  function Pow2(n: nat): (p: nat)
    ensures p >= 1
  {
    if n == 0 then 1 else 2 * Pow2(n - 1)
  }

  /** The number of ones among bits 1 to 4 (APnDP, RnW, A2, A3). */
  function MiddleOnes(v: byte): int {
    Flag(v, 1) + Flag(v, 2) + Flag(v, 3) + Flag(v, 4)
  }

  lemma Halve(x: byte)
    ensures (x as int) % 2 == Flag(x, 0)
    ensures (x as int) / 2 == (x >> 1) as int
  {
  }

  lemma PopcountStep(n: nat)
    ensures Popcount(n) == n % 2 + Popcount(n / 2)
  {
  }

  /** `Popcount` of a byte: its low bit, then the count of the rest. */
  lemma PopcountByte(t: byte)
    ensures Popcount(t as int) == Flag(t, 0) + Popcount((t >> 1) as int)
  {
    Halve(t);
    PopcountStep(t as int);
  }

  /** Shifting `v & 0b11110` right brings bits 1 to 4 down to bit 0 in turn
      and leaves nothing after the fifth shift. */
  lemma MiddleBits(v: byte)
    ensures Flag(v & 0x1E, 0) == 0
    ensures Flag((v & 0x1E) >> 1, 0) == Flag(v, 1)
    ensures Flag((v & 0x1E) >> 1 >> 1, 0) == Flag(v, 2)
    ensures Flag((v & 0x1E) >> 1 >> 1 >> 1, 0) == Flag(v, 3)
    ensures Flag((v & 0x1E) >> 1 >> 1 >> 1 >> 1, 0) == Flag(v, 4)
    ensures (v & 0x1E) >> 1 >> 1 >> 1 >> 1 >> 1 == 0
  {
  }

  /** `bin(value & 0b11110).count("1")` counts exactly bits 1 to 4. */
  lemma MiddleOnesPopcount(v: byte)
    ensures Popcount((v & 0x1E) as int) == MiddleOnes(v)
  {
    var t0 := v & 0x1E;
    var t1 := t0 >> 1;
    var t2 := t1 >> 1;
    var t3 := t2 >> 1;
    var t4 := t3 >> 1;
    PopcountByte(t0); PopcountByte(t1); PopcountByte(t2); PopcountByte(t3); PopcountByte(t4);
    MiddleBits(v);
  }

  /** `_apply_dp_parity`: sets bit 5 when bits 1 to 4 hold an odd number of
      ones, and touches no other bit. */
  function ApplyDpParity(v: byte): (r: byte)
    ensures r & !0x20 == v & !0x20
    ensures Bit(r, 5) <==> Bit(v, 5) || MiddleOnes(v) % 2 == 1
  {
    MiddleOnesPopcount(v);
    if Popcount((v & 0x1E) as int) % 2 == 1 then v | (1 << 5) else v
  }

  /** With bit 5 clear beforehand, the request has even parity over bits 1
      to 5: the parity bit is the exclusive or of APnDP, RnW, A2 and A3. */
  lemma DpParityEven(v: byte)
    ensures MiddleOnes(ApplyDpParity(v)) == MiddleOnes(v)
    ensures !Bit(v, 5) ==> (MiddleOnes(ApplyDpParity(v)) + Flag(ApplyDpParity(v), 5)) % 2 == 0
  {
    var r := ApplyDpParity(v);
    assert Flag(r, 1) == Flag(v, 1) && Flag(r, 2) == Flag(v, 2);
    assert Flag(r, 3) == Flag(v, 3) && Flag(r, 4) == Flag(v, 4);
  }

  /** `addr & 0b1100` for any integer (two's complement): bits A[3:2]. */
  function AddrBits(addr: int): (a: int)
    ensures a in {0, 4, 8, 12}
  {
    (addr % 16) / 4 * 4
  }

  /** The packet request of `read_dp` (`read`) or `write_dp`:
      `base | to_ap << 1 | (addr & 0b1100) << 1`, then parity.  None when
      `to_ap` makes the value leave the byte, where `to_bytes(1)` raises
      OverflowError. */
  function DpRequest(read: bool, addr: int, toAp: int): (req: Option<byte>)
    ensures req.Some? <==> 0 <= toAp < 128
    ensures 0 <= toAp <= 1 ==>
      var r := req.value;
      Bit(r, 0) && !Bit(r, 6) && Bit(r, 7)
      && Bit(r, 2) == read
      && Flag(r, 1) == toAp
      && 2 * Flag(r, 4) + Flag(r, 3) == AddrBits(addr) / 4
      && (MiddleOnes(r) + Flag(r, 5)) % 2 == 0
  {
    if !(0 <= toAp < 128) then None
    else
      var base := if read then ReadBase else WriteBase;
      var v := base | (ByteOf(toAp) << 1) | (ByteOf(AddrBits(addr)) << 1);
      DpParityEven(v);
      Some(ApplyDpParity(v))
  }

  /** The ACK as `read_dp` assembles it: `ord(bit) << i` summed over the
      bits read, the first one least significant. */
  function AckSum(bits: seq<byte>): int {
    if bits == [] then 0
    else AckSum(bits[..|bits| - 1]) + bits[|bits| - 1] as int * Pow2(|bits| - 1)
  }

  lemma {:induction false} AckLsbFirst(bits: seq<byte>)
    requires |bits| == 3
    ensures AckSum(bits) == bits[0] as int + 2 * bits[1] as int + 4 * bits[2] as int
  {
    var b2, b1, b0 := bits[..2], bits[..1], bits[..0];
    assert bits[..|bits| - 1] == b2 && b2[..|b2| - 1] == b1 && b1[..|b1| - 1] == b0;
    assert AckSum(b0) == 0;
    assert AckSum(b1) == bits[0] as int;
    assert Pow2(1) == 2 && Pow2(2) == 4;
    assert AckSum(b2) == bits[0] as int + 2 * bits[1] as int;
  }

  /** With one-bit replies, the three ACK encodings are told apart: OK is
      the bits 1, 0, 0 on the wire, WAIT 0, 1, 0 and FAULT 0, 0, 1. */
  lemma AckCodes(bits: seq<byte>)
    requires |bits| == 3 && forall i | 0 <= i < 3 :: bits[i] <= 1
    ensures AckSum(bits) == 1 <==> bits == [1, 0, 0]
    ensures AckSum(bits) == 2 <==> bits == [0, 1, 0]
    ensures AckSum(bits) == 4 <==> bits == [0, 0, 1]
  {
    AckLsbFirst(bits);
  }

  /** The parity byte `write_dp` sends after the value: 0x01 when the value
      has an odd number of ones. */
  function ParityByte(value: int): (b: byte)
    requires value >= 0
    ensures b as int == Popcount(value) % 2
  {
    if Popcount(value) % 2 == 1 then 0x01 else 0x00
  }

  /** The data phase of a DP write: the value in four little-endian bytes,
      then its parity byte. */
  function DataPhase(value: int): seq<WireOp>
    requires Fits(value, 4)
  {
    [Send(LittleEndian(value, 4)), Send([ParityByte(value)])]
  }

  /** The last two operations of a log survive anything written before them. */
  lemma LastTwo(front: seq<WireOp>, back: seq<WireOp>)
    ensures |back| >= 2 ==> (front + back)[|front + back| - 2..] == back[|back| - 2..]
  {
    if |back| >= 2 {
      var n := |front + back|;
      assert (front + back)[n - 2] == back[|back| - 2];
      assert (front + back)[n - 1] == back[|back| - 1];
    }
  }

  /** `write_dp(addr, value, to_ap, ignore_status)` against the replies `rs`:
      the request, then three ACK bits (TypeError when the replies run out),
      then as `WriteDpAnswerSpec` describes. */
  function WriteDpSpec(addr: int, value: int, toAp: int, ignore: bool, rs: seq<byte>): (x: Step<()>)
    ensures |x.rest| <= |rs|
    ensures x.result.Ok? ==> |x.rest| + 3 <= |rs|
    ensures !(0 <= toAp < 128) ==> x == Step([], rs, Raise(OverflowError))
    ensures x.result == Raise(OverflowError) ==> !(0 <= toAp < 128) || !Fits(value, 4)
    ensures x.result.Ok? ==>
      Fits(value, 4) && |x.ops| >= 2
      && x.ops[|x.ops| - 2..] == DataPhase(value)
    ensures ignore && |rs| >= 3 && 0 <= toAp < 128 && Fits(value, 4) ==> x.result.Ok?
    decreases |rs|, 1
  {
    match DpRequest(false, addr, toAp)
    case None => Step([], rs, Raise(OverflowError))
    case Some(req) =>
      if |rs| < 3 then Step([Send([req])], [], Raise(TypeError))
      else
        var y := WriteDpAnswerSpec(AckSum(rs[..3]), rs[3..], addr, value, toAp, ignore);
        LastTwo([Send([req])], y.ops);
        Step([Send([req])] + y.ops, y.rest, y.result)
  }

  /** What `write_dp` does once the ACK `ack` has been read, with `r3` the
      replies left: two clocks; unless the status is ignored, WAIT (2) syncs,
      writes ABORT and retries, and anything but OK (1) syncs and raises
      ValueError; then the value in four little-endian bytes (OverflowError
      if it does not fit) and its parity byte. */
  function WriteDpAnswerSpec(ack: int, r3: seq<byte>, addr: int, value: int, toAp: int, ignore: bool)
    : (x: Step<()>)
    requires 0 <= toAp < 128
    ensures |x.rest| <= |r3|
    ensures x.result == Raise(OverflowError) ==> !Fits(value, 4)
    ensures x.result.Ok? ==>
      Fits(value, 4) && |x.ops| >= 2
      && x.ops[|x.ops| - 2..] == DataPhase(value)
    ensures ignore && Fits(value, 4) ==> x.result.Ok?
    decreases |r3| + 1, 0
  {
    var head := [Clocks(2)];
    if !ignore && ack == 2 then
      var w := WaitSpec(r3, addr, value, toAp);
      LastTwo(head, w.ops);
      Step(head + w.ops, w.rest, w.result)
    else if !ignore && ack != 1 then Step(head + [Send([0x00])], r3, Raise(ValueError))
    else if !Fits(value, 4) then Step(head, r3, Raise(OverflowError))
    else
      LastTwo(head, DataPhase(value));
      Step(head + DataPhase(value), r3, Ok(()))
  }

  /** A `write_dp` whose `to_ap` fits begins with its request byte. */
  lemma WriteDpStartsWithRequest(addr: int, value: int, toAp: int, ignore: bool, rs: seq<byte>)
    requires 0 <= toAp < 128
    ensures var x := WriteDpSpec(addr, value, toAp, ignore, rs);
      x.ops != [] && x.ops[0] == Send([DpRequest(false, addr, toAp).value])
  {
  }

  /** After a WAIT answer `write_dp` syncs, writes ABORT with the default
      flags, and, unless that raised, repeats the write (status checked). */
  function WaitSpec(r3: seq<byte>, addr: int, value: int, toAp: int): (x: Step<()>)
    requires 0 <= toAp < 128
    ensures |x.rest| <= |r3|
    ensures x.result == Raise(OverflowError) ==> !Fits(value, 4)
    ensures x.result.Ok? ==>
      Fits(value, 4) && |x.ops| >= 2
      && x.ops[|x.ops| - 2..] == DataPhase(value)
    decreases |r3|, 2
  {
    var abort := WriteDpSpec(AbortAddress, DefaultAbortFlags, 0, false, r3);
    if abort.result.Raise? then
      Step([Send([0x00])] + abort.ops, abort.rest, abort.result)
    else
      var retry := WriteDpSpec(addr, value, toAp, false, abort.rest);
      LastTwo([Send([0x00])] + abort.ops, retry.ops);
      Step([Send([0x00])] + abort.ops + retry.ops, retry.rest, retry.result)
  }

  /** `read_dp(addr, to_ap)` against the replies `rs`: the request, then
      three ACK bits (TypeError when the replies run out), then as
      `ReadDpAnswerSpec` describes. */
  function ReadDpSpec(addr: int, toAp: int, rs: seq<byte>): (x: Step<nat>)
    ensures |x.rest| <= |rs|
    ensures x.result == Raise(OverflowError) <==> !(0 <= toAp < 128)
    ensures !(0 <= toAp < 128) ==> x.ops == [] && x.rest == rs
    ensures 0 <= toAp < 128 ==> x.ops != [] && x.ops[0] == Send([DpRequest(true, addr, toAp).value])
    ensures x.result.Ok? ==> x.result.value < Pow256(4)
    decreases |rs|, 1
  {
    match DpRequest(true, addr, toAp)
    case None => Step([], rs, Raise(OverflowError))
    case Some(req) =>
      if |rs| < 3 then Step([Send([req])], [], Raise(TypeError))
      else
        var y := ReadDpAnswerSpec(AckSum(rs[..3]), rs[3..], addr, toAp);
        Step([Send([req])] + y.ops, y.rest, y.result)
  }

  /** What `read_dp` does once the ACK `ack` has been read, with `r3` the
      replies left: OK (1) reads the value in four little-endian bytes and
      syncs; WAIT (2) syncs, writes ABORT and retries; anything else syncs
      and raises ValueError. */
  function ReadDpAnswerSpec(ack: int, r3: seq<byte>, addr: int, toAp: int): (x: Step<nat>)
    requires 0 <= toAp < 128
    ensures |x.rest| <= |r3|
    ensures x.result != Raise(OverflowError)
    ensures x.result.Ok? ==> x.result.value < Pow256(4)
    decreases |r3|, 0
  {
    if ack == 1 then
      Step([Send([0x00])], Drop(r3, 4), Ok(FromLittleEndian(Take(r3, 4))))
    else if ack == 2 then
      var abort := WriteDpSpec(AbortAddress, DefaultAbortFlags, 0, false, r3);
      if abort.result.Raise? then
        Step([Send([0x00])] + abort.ops, abort.rest, Raise(abort.result.error))
      else
        var retry := ReadDpSpec(addr, toAp, abort.rest);
        Step([Send([0x00])] + abort.ops + retry.ops, retry.rest, retry.result)
    else Step([Send([0x00])], r3, Raise(ValueError))
  }

  /** The answers to a `read_dp` ACK other than WAIT: OK syncs and yields
      the four bytes that follow, read little-endian; any other ACK syncs,
      consumes nothing more and raises ValueError. */
  lemma ReadDpAnswerCases(ack: int, r3: seq<byte>, addr: int, toAp: int)
    requires 0 <= toAp < 128
    ensures var x := ReadDpAnswerSpec(ack, r3, addr, toAp);
      (ack == 1 ==>
        x.ops == [Send([0x00])] && x.rest == Drop(r3, 4) && x.result.Ok?
        && (|r3| >= 4 ==> LittleEndian(x.result.value, 4) == r3[..4]))
      && (ack != 1 && ack != 2 ==> x == Step([Send([0x00])], r3, Raise(ValueError)))
  {
    if ack == 1 && |r3| >= 4 {
      FromLittleEndianRoundTrip(r3[..4]);
    }
  }

  /** A WAIT answer to `read_dp`: a sync, then the ABORT write with the
      default flags; an exception of that write propagates, otherwise the
      outcome is that of the repeated `read_dp` on the replies left. */
  lemma ReadDpWaitCase(r3: seq<byte>, addr: int, toAp: int)
    requires 0 <= toAp < 128
    ensures var x := ReadDpAnswerSpec(2, r3, addr, toAp);
      var abort := WriteDpSpec(AbortAddress, DefaultAbortFlags, 0, false, r3);
      |x.ops| >= 2 && x.ops[0] == Send([0x00])
      && x.ops[1] == Send([DpRequest(false, AbortAddress, 0).value])
      && (abort.result.Raise? ==> x.result == Raise(abort.result.error) && x.rest == abort.rest)
      && (abort.result.Ok? ==>
            x.result == ReadDpSpec(addr, toAp, abort.rest).result
            && x.rest == ReadDpSpec(addr, toAp, abort.rest).rest)
  {
    WriteDpStartsWithRequest(AbortAddress, DefaultAbortFlags, 0, false, r3);
  }

  /** The answers to a `write_dp` ACK: two clocks first, always; with the
      status checked, an ACK neither OK nor WAIT syncs and raises ValueError
      before any data is sent, and WAIT goes on as `WaitSpec`; with OK or an
      ignored status the data phase follows, or OverflowError when the
      value does not fit four bytes. */
  lemma WriteDpAnswerCases(ack: int, r3: seq<byte>, addr: int, value: int, toAp: int, ignore: bool)
    requires 0 <= toAp < 128
    ensures var x := WriteDpAnswerSpec(ack, r3, addr, value, toAp, ignore);
      x.ops != [] && x.ops[0] == Clocks(2)
      && (!ignore && ack != 1 && ack != 2 ==>
            x == Step([Clocks(2), Send([0x00])], r3, Raise(ValueError)))
      && (!ignore && ack == 2 ==>
            var w := WaitSpec(r3, addr, value, toAp);
            x.ops[1..] == w.ops && x.rest == w.rest && x.result == w.result)
      && (ignore || ack == 1 ==>
            if Fits(value, 4) then x == Step([Clocks(2)] + DataPhase(value), r3, Ok(()))
            else x == Step([Clocks(2)], r3, Raise(OverflowError)))
  {
    if !ignore && ack == 2 {
      var w := WaitSpec(r3, addr, value, toAp);
      assert ([Clocks(2)] + w.ops)[1..] == w.ops;
    }
  }

  /** After WAIT, `write_dp` syncs and writes ABORT with the default flags;
      an exception of that write propagates, otherwise the outcome is that
      of the same write repeated with the status checked. */
  lemma WaitCases(r3: seq<byte>, addr: int, value: int, toAp: int)
    requires 0 <= toAp < 128
    ensures var x := WaitSpec(r3, addr, value, toAp);
      var abort := WriteDpSpec(AbortAddress, DefaultAbortFlags, 0, false, r3);
      |x.ops| >= 2 && x.ops[0] == Send([0x00])
      && x.ops[1] == Send([DpRequest(false, AbortAddress, 0).value])
      && (abort.result.Raise? ==> x.result == abort.result && x.rest == abort.rest)
      && (abort.result.Ok? ==>
            x.result == WriteDpSpec(addr, value, toAp, false, abort.rest).result
            && x.rest == WriteDpSpec(addr, value, toAp, false, abort.rest).rest)
  {
    WriteDpStartsWithRequest(AbortAddress, DefaultAbortFlags, 0, false, r3);
  }

  /** A `write_dp` acknowledged OK with the status checked sends exactly the
      request, two clocks and the data phase, and consumes the three ACK
      bits. */
  lemma WriteDpAcked(addr: int, value: int, toAp: int, rs: seq<byte>)
    requires 0 <= toAp < 128 && Fits(value, 4)
    requires |rs| >= 3 && AckSum(rs[..3]) == 1
    ensures WriteDpSpec(addr, value, toAp, false, rs)
      == Step([Send([DpRequest(false, addr, toAp).value]), Clocks(2)] + DataPhase(value), rs[3..], Ok(()))
  {
    WriteDpAnswerCases(1, rs[3..], addr, value, toAp, false);
  }

  /** A `read_dp` acknowledged OK returns the four bytes after the ACK bits,
      read little-endian. */
  lemma ReadDpAcked(addr: int, toAp: int, rs: seq<byte>)
    requires 0 <= toAp < 128
    requires |rs| >= 7 && AckSum(rs[..3]) == 1
    ensures var x := ReadDpSpec(addr, toAp, rs);
      x.result.Ok? && LittleEndian(x.result.value, 4) == rs[3..7] && x.rest == rs[7..]
  {
    ReadDpAnswerCases(1, rs[3..], addr, toAp);
    assert rs[3..][..4] == rs[3..7];
  }

  /** The DP SELECT value of `read_ap`/`write_ap`:
      `address << 24 | (bank & 0b11110000)`, the AP in the top byte and the
      register bank in bits 4 to 7.  It fits the 32-bit register exactly
      when the AP address is a byte. */
  function SelectValue(address: int, bank: int): (v: int)
    ensures Fits(v, 4) <==> 0 <= address < 256
    ensures Fits(v, 4) ==> v / 0x100_0000 == address && v % 0x100_0000 == (bank % 256) / 16 * 16
  {
    assert Pow256(4) == 0x1_0000_0000 by {
      assert Pow256(2) == 0x1_0000;
    }
    address * 0x100_0000 + (bank % 256) / 16 * 16
  }

  class SWD {
    const wire: Wire
    var config: byte

    /** Construction configures the raw-wire port for SWD. */
    constructor (wire: Wire)
      modifies wire
      ensures this.wire == wire && config == SwdConfig
      ensures wire.ops == old(wire.ops) + [Configure(SwdConfig)]
      ensures wire.replies == old(wire.replies)
    {
      this.wire := wire;
      config := SwdConfig;
      new;
      wire.ConfigurePort(config);
    }

    /** `_sync`: one zero byte. */
    method Sync()
      modifies wire
      ensures wire.ops == old(wire.ops) + [Send([0x00])] && wire.replies == old(wire.replies)
    {
      wire.Write([0x00]);
    }

    /** The three `read_bit` calls of an ACK; `ord(b"")` raises TypeError
        when the replies run out. */
    method ReadAck() returns (r: Result<int>)
      modifies wire
      ensures wire.ops == old(wire.ops)
      ensures wire.replies == Drop(old(wire.replies), 3)
      ensures r == if |old(wire.replies)| < 3 then Raise(TypeError)
                   else Ok(AckSum(old(wire.replies)[..3]))
    {
      ghost var rs := wire.replies;
      var status := 0;
      for i := 0 to 3
        invariant wire.ops == old(wire.ops)
        invariant i <= |rs| && wire.replies == rs[i..] && status == AckSum(rs[..i])
      {
        var bit := wire.ReadBit();
        if bit == [] {
          return Raise(TypeError);
        }
        assert rs[..i + 1][..i] == rs[..i];
        status := status + bit[0] as int * Pow2(i);
      }
      r := Ok(status);
    }

    /** `write_dp`, as `WriteDpSpec` describes. */
    method WriteDp(addr: int, value: int, toAp: int, ignoreStatus: bool) returns (r: Result<()>)
      modifies wire
      ensures var x := WriteDpSpec(addr, value, toAp, ignoreStatus, old(wire.replies));
        r == x.result && wire.ops == old(wire.ops) + x.ops && wire.replies == x.rest
      decreases |wire.replies|, 1
    {
      ghost var rs := wire.replies;
      var req := DpRequest(false, addr, toAp);
      if req.None? {
        return Raise(OverflowError);
      }
      wire.Write([req.value]);
      var ack := ReadAck();
      if ack.Raise? {
        return Raise(ack.error);
      }
      r := WriteDpAnswer(ack.value, rs[3..], addr, value, toAp, ignoreStatus);
      ghost var y := WriteDpAnswerSpec(ack.value, rs[3..], addr, value, toAp, ignoreStatus);
      assert WriteDpSpec(addr, value, toAp, ignoreStatus, rs) == Step([Send([req.value])] + y.ops, y.rest, y.result);
      Associative(old(wire.ops), [Send([req.value])], y.ops);
    }

    /** What `write_dp` does once the ACK `ack` has been read. */
    method WriteDpAnswer(ack: int, ghost r3: seq<byte>, addr: int, value: int, toAp: int,
                         ignoreStatus: bool) returns (r: Result<()>)
      requires wire.replies == r3 && 0 <= toAp < 128
      modifies wire
      ensures var y := WriteDpAnswerSpec(ack, r3, addr, value, toAp, ignoreStatus);
        r == y.result && wire.ops == old(wire.ops) + y.ops && wire.replies == y.rest
      decreases |r3| + 1, 0
    {
      wire.ClockPulses(2);
      if !ignoreStatus {
        if ack == 2 {
          r := WriteDpAfterWait(r3, addr, value, toAp);
          Associative(old(wire.ops), [Clocks(2)], WaitSpec(r3, addr, value, toAp).ops);
          return;
        }
        if ack != 1 {
          Sync();
          return Raise(ValueError);
        }
      }
      if !Fits(value, 4) {
        return Raise(OverflowError);
      }
      wire.Write(LittleEndian(value, 4));
      wire.Write([ParityByte(value)]);
      r := Ok(());
    }

    /** `write_dp` on WAIT: sync, ABORT, and the same write again unless the
        abort raised. */
    method WriteDpAfterWait(ghost r3: seq<byte>, addr: int, value: int, toAp: int) returns (r: Result<()>)
      requires wire.replies == r3 && 0 <= toAp < 128
      modifies wire
      ensures var x := WaitSpec(r3, addr, value, toAp);
        r == x.result && wire.ops == old(wire.ops) + x.ops && wire.replies == x.rest
      decreases |r3|, 2
    {
      ghost var ops0 := wire.ops;
      ghost var abortX := WriteDpSpec(AbortAddress, DefaultAbortFlags, 0, false, r3);
      Sync();
      var abort := WriteDp(AbortAddress, DefaultAbortFlags, 0, false);
      Associative(ops0, [Send([0x00])], abortX.ops);
      if abort.Raise? {
        return abort;
      }
      ghost var retryX := WriteDpSpec(addr, value, toAp, false, abortX.rest);
      r := WriteDp(addr, value, toAp, false);
      Associative4(ops0, [Send([0x00])], abortX.ops, retryX.ops);
    }

    /** `read_dp`, as `ReadDpSpec` describes. */
    method ReadDp(addr: int, toAp: int) returns (r: Result<nat>)
      modifies wire
      ensures var x := ReadDpSpec(addr, toAp, old(wire.replies));
        r == x.result && wire.ops == old(wire.ops) + x.ops && wire.replies == x.rest
      decreases |wire.replies|, 1
    {
      ghost var rs := wire.replies;
      var req := DpRequest(true, addr, toAp);
      if req.None? {
        return Raise(OverflowError);
      }
      wire.Write([req.value]);
      var ack := ReadAck();
      if ack.Raise? {
        return Raise(ack.error);
      }
      r := ReadDpAnswer(ack.value, rs[3..], addr, toAp);
      ghost var x := ReadDpSpec(addr, toAp, rs);
      ghost var y := ReadDpAnswerSpec(ack.value, rs[3..], addr, toAp);
      assert x == Step([Send([req.value])] + y.ops, y.rest, y.result);
      Associative(old(wire.ops), [Send([req.value])], y.ops);
    }

    /** What `read_dp` does once the ACK `ack` has been read, with `r3`
        the replies left. */
    method ReadDpAnswer(ack: int, ghost r3: seq<byte>, addr: int, toAp: int) returns (r: Result<nat>)
      requires wire.replies == r3 && 0 <= toAp < 128
      modifies wire
      ensures var y := ReadDpAnswerSpec(ack, r3, addr, toAp);
        r == y.result && wire.ops == old(wire.ops) + y.ops && wire.replies == y.rest
      decreases |r3|, 0
    {
      if ack == 1 {
        var bs := wire.Read(4);
        Sync();
        r := Ok(FromLittleEndian(bs));
      } else if ack == 2 {
        ghost var ops0 := wire.ops;
        ghost var abortX := WriteDpSpec(AbortAddress, DefaultAbortFlags, 0, false, r3);
        Sync();
        var abort := WriteDp(AbortAddress, DefaultAbortFlags, 0, false);
        Associative(ops0, [Send([0x00])], abortX.ops);
        if abort.Raise? {
          return Raise(abort.error);
        }
        ghost var retryX := ReadDpSpec(addr, toAp, abortX.rest);
        r := ReadDp(addr, toAp);
        Associative4(ops0, [Send([0x00])], abortX.ops, retryX.ops);
      } else {
        Sync();
        r := Raise(ValueError);
      }
    }

    /** `read_ap`: selects the AP and bank through DP SELECT, issues the AP
        read of register `bank & 0b1100`, and returns what the following
        RDBUFF read gives, not the posted AP read. */
    method ReadAp(address: int, bank: int) returns (r: Result<nat>)
      modifies wire
      ensures var rs := old(wire.replies);
        var s1 := WriteDpSpec(SelectAddress, SelectValue(address, bank), 0, false, rs);
        var s2 := ReadDpSpec(AddrBits(bank), 1, s1.rest);
        var s3 := ReadDpSpec(RdBuffAddress, 0, s2.rest);
        if s1.result.Raise? then
          r == Raise(s1.result.error) && wire.ops == old(wire.ops) + s1.ops && wire.replies == s1.rest
        else if s2.result.Raise? then
          r == Raise(s2.result.error) && wire.ops == old(wire.ops) + s1.ops + s2.ops
          && wire.replies == s2.rest
        else
          r == s3.result && wire.ops == old(wire.ops) + s1.ops + s2.ops + s3.ops
          && wire.replies == s3.rest
    {
      var select := WriteDp(SelectAddress, SelectValue(address, bank), 0, false);
      if select.Raise? {
        return Raise(select.error);
      }
      var posted := ReadDp(AddrBits(bank), 1);
      if posted.Raise? {
        return Raise(posted.error);
      }
      r := ReadDp(RdBuffAddress, 0);
    }

    /** `write_ap`: selects the AP and bank through DP SELECT, then writes
        the value to AP register `bank & 0b1100`. */
    method WriteAp(address: int, bank: int, value: int) returns (r: Result<()>)
      modifies wire
      ensures var rs := old(wire.replies);
        var s1 := WriteDpSpec(SelectAddress, SelectValue(address, bank), 0, false, rs);
        var s2 := WriteDpSpec(AddrBits(bank), value, 1, false, s1.rest);
        if s1.result.Raise? then
          r == s1.result && wire.ops == old(wire.ops) + s1.ops && wire.replies == s1.rest
        else
          r == s2.result && wire.ops == old(wire.ops) + s1.ops + s2.ops && wire.replies == s2.rest
    {
      r := WriteDp(SelectAddress, SelectValue(address, bank), 0, false);
      if r.Raise? {
        return;
      }
      r := WriteDp(AddrBits(bank), value, 1, false);
    }

    /** `abort(flags)`: exactly a write of the flags (by default 0x1F, every
        sticky flag and the AP abort) to DP ABORT. */
    method Abort(flags: int := DefaultAbortFlags) returns (r: Result<()>)
      modifies wire
      ensures var x := WriteDpSpec(AbortAddress, flags, 0, false, old(wire.replies));
        r == x.result && wire.ops == old(wire.ops) + x.ops && wire.replies == x.rest
    {
      r := WriteDp(AbortAddress, flags, 0, false);
    }
  }
}
