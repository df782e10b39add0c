/** Bulk transfers, shared by the I2C, SPI and 1-Wire modes: up to 16 data
    bytes behind one opcode that carries their count, and the cutting of a
    longer string into such pieces (`split(data, 16)`). */
module Bulk {
  import opened Bytes
  import opened Outcomes

  const MaxBulk := 16

  /** The bulk opcode `0b0001_0000 | (n - 1)` for `n` (1 to 16) data bytes:
      it lies in 0x10..0x1F and its low nibble gives the count back. */
  function BulkCommand(n: int): (op: byte)
    requires 1 <= n <= MaxBulk
    ensures 0x10 <= op <= 0x1F
    ensures op & 0xF0 == 0x10
    ensures (op & 0x0F) as int + 1 == n
  {
    0x10 | ByteOf(n - 1)
  }

  /** The concatenation of the pieces, in order. */
  function Flatten(pieces: seq<seq<byte>>): seq<byte> {
    if pieces == [] then [] else pieces[0] + Flatten(pieces[1..])
  }

  /** Every piece is a valid bulk payload. */
  predicate Sized(pieces: seq<seq<byte>>) {
    forall i | 0 <= i < |pieces| :: 1 <= |pieces[i]| <= MaxBulk
  }

  /** `split(data, 16)`: consecutive pieces of 16 bytes, the last one shorter
      when the length is not a multiple of 16, and none for empty data. */
  function Split(data: seq<byte>): (pieces: seq<seq<byte>>)
    ensures Flatten(pieces) == data
    ensures Sized(pieces)
    ensures forall i | 0 <= i < |pieces| - 1 :: |pieces[i]| == MaxBulk
    ensures |pieces| == (|data| + MaxBulk - 1) / MaxBulk
    decreases |data|
  {
    if data == [] then []
    else if |data| <= MaxBulk then [data]
    else
      var rest := Split(data[MaxBulk..]);
      assert ([data[..MaxBulk]] + rest)[1..] == rest;
      assert data == data[..MaxBulk] + data[MaxBulk..];
      [data[..MaxBulk]] + rest
  }

  /** One bulk transfer as written: the opcode, then the payload. */
  function BulkFrame(piece: seq<byte>): (bs: seq<byte>)
    requires 1 <= |piece| <= MaxBulk
  {
    [BulkCommand(|piece|)] + piece
  }

  /** The bytes written by one bulk transfer per piece, in order. */
  function BulkFrames(pieces: seq<seq<byte>>): seq<byte>
    requires Sized(pieces)
  {
    if pieces == [] then [] else BulkFrame(pieces[0]) + BulkFrames(pieces[1..])
  }

  lemma BulkFramesCons(piece: seq<byte>, pieces: seq<seq<byte>>)
    requires Sized(pieces) && 1 <= |piece| <= MaxBulk
    ensures Sized([piece] + pieces)
    ensures BulkFrames([piece] + pieces) == BulkFrame(piece) + BulkFrames(pieces)
  {
    assert ([piece] + pieces)[1..] == pieces;
  }

  lemma {:induction false} BulkFramesSnoc(pieces: seq<seq<byte>>, piece: seq<byte>)
    requires Sized(pieces) && 1 <= |piece| <= MaxBulk
    ensures Sized(pieces + [piece])
    ensures BulkFrames(pieces + [piece]) == BulkFrames(pieces) + BulkFrame(piece)
  {
    if pieces != [] {
      assert (pieces + [piece])[1..] == pieces[1..] + [piece];
      BulkFramesSnoc(pieces[1..], piece);
    }
  }

  /** The frames of the first `i + 1` pieces: those of the first `i`, then
      piece `i`'s. */
  lemma BulkFramesPrefix(pieces: seq<seq<byte>>, i: nat)
    requires Sized(pieces) && i < |pieces|
    ensures 1 <= |pieces[i]| <= MaxBulk
    ensures Sized(pieces[..i]) && Sized(pieces[..i + 1])
    ensures BulkFrames(pieces[..i + 1]) == BulkFrames(pieces[..i]) + BulkFrame(pieces[i])
  {
    assert pieces[..i + 1] == pieces[..i] + [pieces[i]];
    BulkFramesSnoc(pieces[..i], pieces[i]);
  }

  /** How the device reads a stream of bulk transfers: each opcode in
      0x10..0x1F announces `(op & 0x0F) + 1` payload bytes. */
  function ParseBulk(bs: seq<byte>): Option<seq<byte>>
    decreases |bs|
  {
    if bs == [] then Some([])
    else if bs[0] & 0xF0 != 0x10 then None
    else
      var n := (bs[0] & 0x0F) as int + 1;
      if |bs| < 1 + n then None
      else match ParseBulk(bs[1 + n..])
        case None => None
        case Some(rest) => Some(bs[1..1 + n] + rest)
  }

  /** One bulk transfer in front of a stream the device parses as `rest`
      is parsed as its payload followed by `rest`. */
  lemma ParseBulkCons(piece: seq<byte>, tail: seq<byte>, rest: seq<byte>)
    requires 1 <= |piece| <= MaxBulk && ParseBulk(tail) == Some(rest)
    ensures ParseBulk(BulkFrame(piece) + tail) == Some(piece + rest)
  {
    var bs := BulkFrame(piece) + tail;
    assert bs[0] == BulkCommand(|piece|);
    assert bs[1..1 + |piece|] == piece;
    assert bs[1 + |piece|..] == tail;
  }

  /** The device recovers the payloads, concatenated, from the transfers. */
  lemma {:induction false} ParseBulkFrames(pieces: seq<seq<byte>>)
    requires Sized(pieces)
    ensures ParseBulk(BulkFrames(pieces)) == Some(Flatten(pieces))
  {
    if pieces != [] {
      ParseBulkFrames(pieces[1..]);
      ParseBulkCons(pieces[0], BulkFrames(pieces[1..]), Flatten(pieces[1..]));
    }
  }

  /** Writing `data` in bulk transfers of `split(data, 16)` delivers exactly
      `data` to the device, whatever its length. */
  lemma SplitDelivers(data: seq<byte>)
    ensures ParseBulk(BulkFrames(Split(data))) == Some(data)
  {
    ParseBulkFrames(Split(data));
  }
}
