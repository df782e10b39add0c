/** Bytes on the wire, and the integer codecs behind Python's `int.to_bytes`
    and `int.from_bytes`, which every driver uses to lay out command fields. */
module Bytes {

  type byte = bv8

  /** Byte order argument of `to_bytes` / `from_bytes`. */
  datatype Order = Big | Little

  lemma ByteValue(x: int)
    requires 0 <= x < 256
    ensures (x as bv8) as int == x
  {
    if x < 16 {} else if x < 32 {} else if x < 48 {} else if x < 64 {}
    else if x < 80 {} else if x < 96 {} else if x < 112 {} else if x < 128 {}
    else if x < 144 {} else if x < 160 {} else if x < 176 {} else if x < 192 {}
    else if x < 208 {} else if x < 224 {} else if x < 240 {} else {}
  }

  /** The byte whose numeric value is `x`. */
  function ByteOf(x: int): (b: byte)
    requires 0 <= x < 256
    ensures b as int == x
  {
    ByteValue(x);
    x as bv8
  }

  /** Reading a byte's value back as a byte gives the byte. */
  lemma ByteOfValue(b: byte)
    ensures ByteOf(b as int) == b
  {
    if b < 16 {} else if b < 64 {} else if b < 128 {} else {}
  }

  /** The low byte and the rest of `lo + 256 * hi`. */
  lemma SplitLow(lo: int, hi: int)
    requires 0 <= lo < 256 && 0 <= hi
    ensures (lo + 256 * hi) % 256 == lo && (lo + 256 * hi) / 256 == hi
  {
  }

  /** Bit `k` (0 = least significant) of a byte. */
  predicate Bit(b: byte, k: nat)
    requires k < 8
  {
    b & (1 << k) != 0
  }

  function Pow256(n: nat): (p: nat)
    ensures p >= 1
  {
    if n == 0 then 1 else 256 * Pow256(n - 1)
  }

  /** `v.to_bytes(n, "little")`, defined when `v` fits in `n` bytes. */
  function LittleEndian(v: int, n: nat): (bs: seq<byte>)
    requires 0 <= v < Pow256(n)
    ensures |bs| == n
    decreases n
  {
    if n == 0 then []
    else [ByteOf(v % 256)] + LittleEndian(v / 256, n - 1)
  }

  /** `int.from_bytes(bs, "little")`; the empty string decodes to 0. */
  function FromLittleEndian(bs: seq<byte>): (v: nat)
    ensures v < Pow256(|bs|)
  {
    if bs == [] then 0
    else
      var rest := FromLittleEndian(bs[1..]);
      assert 256 * rest <= 256 * (Pow256(|bs| - 1) - 1);
      bs[0] as int + 256 * rest
  }

  /** `v.to_bytes(n, "big")`, defined when `v` fits in `n` bytes. */
  function BigEndian(v: int, n: nat): (bs: seq<byte>)
    requires 0 <= v < Pow256(n)
    ensures |bs| == n
    decreases n
  {
    if n == 0 then []
    else BigEndian(v / 256, n - 1) + [ByteOf(v % 256)]
  }

  /** `int.from_bytes(bs, "big")`; the empty string decodes to 0. */
  function FromBigEndian(bs: seq<byte>): (v: nat)
    ensures v < Pow256(|bs|)
  {
    if bs == [] then 0
    else
      var rest := FromBigEndian(bs[..|bs| - 1]);
      assert 256 * rest <= 256 * (Pow256(|bs| - 1) - 1);
      256 * rest + bs[|bs| - 1] as int
  }

  predicate Fits(v: int, n: nat) {
    0 <= v < Pow256(n)
  }

  /** `v.to_bytes(n, order)`. */
  function ToBytes(v: int, n: nat, order: Order): (bs: seq<byte>)
    requires Fits(v, n)
    ensures |bs| == n
  {
    match order
    case Big => BigEndian(v, n)
    case Little => LittleEndian(v, n)
  }

  /** `int.from_bytes(bs, order)`. */
  function FromBytes(bs: seq<byte>, order: Order): (v: nat)
    ensures Fits(v, |bs|)
  {
    match order
    case Big => FromBigEndian(bs)
    case Little => FromLittleEndian(bs)
  }

  lemma {:induction false} LittleEndianRoundTrip(v: int, n: nat)
    requires 0 <= v < Pow256(n)
    ensures FromLittleEndian(LittleEndian(v, n)) == v
    decreases n
  {
    if n > 0 {
      LittleEndianRoundTrip(v / 256, n - 1);
      assert LittleEndian(v, n)[1..] == LittleEndian(v / 256, n - 1);
    }
  }

  /** Encoding `b + 256 * r` little-endian puts `b` in front of `r`'s bytes. */
  lemma LittleEndianCons(b: byte, r: int, n: nat)
    requires 0 <= r < Pow256(n)
    ensures 0 <= b as int + 256 * r < Pow256(n + 1)
    ensures LittleEndian(b as int + 256 * r, n + 1) == [b] + LittleEndian(r, n)
  {
    var v := b as int + 256 * r;
    SplitLow(b as int, r);
    ByteOfValue(b);
    assert v % 256 == b as int && v / 256 == r;
  }

  lemma {:induction false} FromLittleEndianRoundTrip(bs: seq<byte>)
    ensures LittleEndian(FromLittleEndian(bs), |bs|) == bs
  {
    if bs != [] {
      FromLittleEndianRoundTrip(bs[1..]);
      LittleEndianCons(bs[0], FromLittleEndian(bs[1..]), |bs| - 1);
      assert bs == [bs[0]] + bs[1..];
    }
  }

  lemma {:induction false} BigEndianRoundTrip(v: int, n: nat)
    requires 0 <= v < Pow256(n)
    ensures FromBigEndian(BigEndian(v, n)) == v
    decreases n
  {
    if n > 0 {
      BigEndianRoundTrip(v / 256, n - 1);
      var bs := BigEndian(v, n);
      assert bs[..|bs| - 1] == BigEndian(v / 256, n - 1);
    }
  }

  /** Encoding `256 * r + b` big-endian puts `b` after `r`'s bytes. */
  lemma BigEndianSnoc(r: int, b: byte, n: nat)
    requires 0 <= r < Pow256(n)
    ensures 0 <= 256 * r + b as int < Pow256(n + 1)
    ensures BigEndian(256 * r + b as int, n + 1) == BigEndian(r, n) + [b]
  {
    var v := 256 * r + b as int;
    SplitLow(b as int, r);
    ByteOfValue(b);
    assert v % 256 == b as int && v / 256 == r;
  }

  lemma {:induction false} FromBigEndianRoundTrip(bs: seq<byte>)
    ensures BigEndian(FromBigEndian(bs), |bs|) == bs
  {
    if bs != [] {
      var init, last := bs[..|bs| - 1], bs[|bs| - 1];
      assert FromBigEndian(bs) == 256 * FromBigEndian(init) + last as int;
      FromBigEndianRoundTrip(init);
      BigEndianSnoc(FromBigEndian(init), last, |init|);
      assert bs == init + [last];
    }
  }

  /** A value below 256 is its own one-byte encoding in either order. */
  lemma OneByte(v: int)
    requires 0 <= v < 256
    ensures LittleEndian(v, 1) == [ByteOf(v)] && BigEndian(v, 1) == [ByteOf(v)]
  {
    assert LittleEndian(v, 1) == [ByteOf(v % 256)] + LittleEndian(v / 256, 0);
    assert BigEndian(v, 1) == BigEndian(v / 256, 0) + [ByteOf(v % 256)];
  }

  /** Decoding with the order a field was encoded with gives the value back. */
  lemma ToBytesRoundTrip(v: int, n: nat, order: Order)
    requires Fits(v, n)
    ensures FromBytes(ToBytes(v, n, order), order) == v
  {
    match order
    case Big => BigEndianRoundTrip(v, n);
    case Little => LittleEndianRoundTrip(v, n);
  }

  /** Every `n`-byte string is the encoding of exactly one value. */
  lemma FromBytesRoundTrip(bs: seq<byte>, order: Order)
    ensures ToBytes(FromBytes(bs, order), |bs|, order) == bs
  {
    match order
    case Big => FromBigEndianRoundTrip(bs);
    case Little => FromLittleEndianRoundTrip(bs);
  }

  function Reversed(s: seq<byte>): (r: seq<byte>)
    ensures |r| == |s|
  {
    if s == [] then [] else Reversed(s[1..]) + [s[0]]
  }

  /** The two byte orders lay out the same value in opposite directions. */
  lemma {:induction false} BigIsReversedLittle(v: int, n: nat)
    requires 0 <= v < Pow256(n)
    ensures BigEndian(v, n) == Reversed(LittleEndian(v, n))
    decreases n
  {
    if n > 0 {
      BigIsReversedLittle(v / 256, n - 1);
      var le := LittleEndian(v, n);
      assert le[1..] == LittleEndian(v / 256, n - 1);
    }
  }

  /** Number of one bits of a non-negative integer: `bin(v).count("1")`. */
  function Popcount(v: nat): nat {
    if v == 0 then 0 else v % 2 + Popcount(v / 2)
  }
}
