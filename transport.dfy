/** The serial link to the device, seen from the host: an append-only log of
    the bytes written and a scripted queue of the bytes the device will send.
    A read of `n` bytes takes what the queue holds, up to `n`; when the queue
    runs dry the read returns short, as a serial read does on timeout.  Also
    the raw-wire primitives the SWD driver is built on. */
module Transport {
  import opened Bytes
  import opened Frames

  /** The first `n` bytes of `s`, or all of `s` when it is shorter. */
  function Take(s: seq<byte>, n: int): (r: seq<byte>)
    ensures |r| == if 0 <= n <= |s| then n else if n < 0 then 0 else |s|
    ensures forall i | 0 <= i < |r| :: r[i] == s[i]
  {
    if n < 0 then [] else if n <= |s| then s[..n] else s
  }

  /** What is left of `s` after a read of `n` bytes. */
  function Drop(s: seq<byte>, n: int): (r: seq<byte>)
    ensures Take(s, n) + r == s
  {
    if n < 0 then s else if n <= |s| then s[n..] else []
  }

  lemma DropDrop(s: seq<byte>, a: nat, b: nat)
    ensures Drop(Drop(s, a), b) == Drop(s, a + b)
  {
  }

  lemma Associative<T>(a: seq<T>, b: seq<T>, c: seq<T>)
    ensures a + b + c == a + (b + c)
  {
  }

  lemma Associative4<T>(a: seq<T>, b: seq<T>, c: seq<T>, d: seq<T>)
    ensures a + b + c + d == a + (b + c + d)
  {
  }

  /** Two reads in a row return what one read of both lengths would. */
  lemma TakeMore(s: seq<byte>, a: nat, b: nat)
    ensures Take(s, a) + Take(Drop(s, a), b) == Take(s, a + b)
  {
  }

  /** `s` written `n` times over (none when `n` is not positive). */
  function Repeat(s: seq<byte>, n: int): seq<byte>
    decreases n
  {
    if n <= 0 then [] else Repeat(s, n - 1) + s
  }

  lemma RepeatSnoc(s: seq<byte>, n: nat)
    ensures Repeat(s, n + 1) == Repeat(s, n) + s
  {
  }

  /** A status byte as the drivers decode it, `int.from_bytes(read(1), ...)`:
      the next reply byte, or 0 when none arrives. */
  function Status(rs: seq<byte>): (v: nat)
    ensures rs == [] ==> v == 0
    ensures rs != [] ==> v == rs[0] as int
  {
    FromLittleEndian(Take(rs, 1))
  }

  /** True when the next reply is exactly the byte `b` (`read(1) == bytes([b])`). */
  predicate Replied(rs: seq<byte>, b: byte) {
    Take(rs, 1) == [b]
  }

  /** The effect of one driver operation on a transport whose pending replies
      were `rs`: what it wrote, the replies it left, what it returned. */
  datatype Exchange<T> = Exchange(written: seq<byte>, rest: seq<byte>, result: T)

  class Port {
    /** Every byte written so far, in order. */
    var sent: seq<byte>
    /** The bytes the device has yet to send. */
    var replies: seq<byte>

    constructor (script: seq<byte>)
      ensures sent == [] && replies == script
    {
      sent := [];
      replies := script;
    }

    method Write(bs: seq<byte>)
      modifies this
      ensures sent == old(sent) + bs && replies == old(replies)
    {
      sent := sent + bs;
    }

    /** Writes a command frame one field at a time, as the drivers do, and
        stops at the first integer that `to_bytes` cannot encode. */
    method WriteFrame(fs: seq<Field>) returns (ok: bool)
      modifies this
      ensures ok == Emit(fs).complete
      ensures sent == old(sent) + Emit(fs).bytes && replies == old(replies)
    {
      var i := 0;
      while i < |fs|
        invariant 0 <= i <= |fs|
        invariant sent + Emit(fs[i..]).bytes == old(sent) + Emit(fs).bytes
        invariant Emit(fs[i..]).complete == Emit(fs).complete
        invariant replies == old(replies)
      {
        EmitFrom(fs, i);
        if !Encodable(fs[i]) {
          return false;
        }
        Associative(sent, FieldBytes(fs[i]), Emit(fs[i + 1..]).bytes);
        sent := sent + FieldBytes(fs[i]);
        i := i + 1;
      }
      assert fs[i..] == [];
      ok := true;
    }

    method Read(n: int) returns (r: seq<byte>)
      modifies this
      ensures r == Take(old(replies), n) && replies == Drop(old(replies), n)
      ensures sent == old(sent)
    {
      r := Take(replies, n);
      replies := Drop(replies, n);
    }
  }

  /** What the SWD driver asks of the raw-wire layer beneath it. */
  datatype WireOp =
    | Send(bytes: seq<byte>)      // write(bytes)
    | Clocks(count: int)          // clocks(count)
    | Configure(config: byte)     // the raw-wire port configuration

  /** The raw-wire layer: a log of the operations issued and one queue of
      reply bytes, consumed by `read` and by `read_bit` (one byte per bit). */
  class Wire {
    var ops: seq<WireOp>
    var replies: seq<byte>

    constructor (script: seq<byte>)
      ensures ops == [] && replies == script
    {
      ops := [];
      replies := script;
    }

    method Write(bs: seq<byte>)
      modifies this
      ensures ops == old(ops) + [Send(bs)] && replies == old(replies)
    {
      ops := ops + [Send(bs)];
    }

    method ClockPulses(count: int)
      modifies this
      ensures ops == old(ops) + [Clocks(count)] && replies == old(replies)
    {
      ops := ops + [Clocks(count)];
    }

    method ConfigurePort(config: byte)
      modifies this
      ensures ops == old(ops) + [Configure(config)] && replies == old(replies)
    {
      ops := ops + [Configure(config)];
    }

    method Read(n: int) returns (r: seq<byte>)
      modifies this
      ensures r == Take(old(replies), n) && replies == Drop(old(replies), n)
      ensures ops == old(ops)
    {
      r := Take(replies, n);
      replies := Drop(replies, n);
    }

    /** `read_bit()`: one reply byte, or the empty string when none arrives. */
    method ReadBit() returns (r: seq<byte>)
      modifies this
      ensures r == Take(old(replies), 1) && replies == Drop(old(replies), 1)
      ensures ops == old(ops)
    {
      r := Take(replies, 1);
      replies := Drop(replies, 1);
    }
  }
}
