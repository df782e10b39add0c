/** Command frames: every driver writes a command as a sequence of fields,
    literal bytes or integers laid out by `int.to_bytes`.  Writing stops at the
    first integer that does not fit its width, because `to_bytes` raises
    OverflowError before that field reaches the transport. */
module Frames {
  import opened Bytes
  import opened Outcomes

  datatype Field = Raw(bytes: seq<byte>) | Int(value: int, width: nat, order: Order)

  /** The layout of a field, which is all a receiver knows in advance. */
  datatype Shape = RawShape(length: nat) | IntShape(width: nat, order: Order)

  predicate Encodable(f: Field) {
    f.Raw? || Fits(f.value, f.width)
  }

  predicate AllEncodable(fs: seq<Field>) {
    forall i | 0 <= i < |fs| :: Encodable(fs[i])
  }

  function ShapeOf(f: Field): Shape {
    match f
    case Raw(bs) => RawShape(|bs|)
    case Int(_, w, o) => IntShape(w, o)
  }

  function Shapes(fs: seq<Field>): (ss: seq<Shape>)
    ensures |ss| == |fs|
    ensures forall i | 0 <= i < |fs| :: ss[i] == ShapeOf(fs[i])
  {
    if fs == [] then [] else [ShapeOf(fs[0])] + Shapes(fs[1..])
  }

  function Length(s: Shape): nat {
    match s
    case RawShape(n) => n
    case IntShape(w, _) => w
  }

  function FrameLength(ss: seq<Shape>): nat {
    if ss == [] then 0 else Length(ss[0]) + FrameLength(ss[1..])
  }

  function FieldBytes(f: Field): (bs: seq<byte>)
    requires Encodable(f)
    ensures |bs| == Length(ShapeOf(f))
  {
    match f
    case Raw(bs) => bs
    case Int(v, w, o) => ToBytes(v, w, o)
  }

  /** What reaches the transport, and whether every field was written. */
  datatype Emitted = Emitted(bytes: seq<byte>, complete: bool)

  function Emit(fs: seq<Field>): (e: Emitted)
    ensures e.complete <==> AllEncodable(fs)
    ensures e.complete ==> |e.bytes| == FrameLength(Shapes(fs))
  {
    if fs == [] then Emitted([], true)
    else if !Encodable(fs[0]) then Emitted([], false)
    else
      var rest := Emit(fs[1..]);
      assert AllEncodable(fs) <==> AllEncodable(fs[1..]) by {
        if AllEncodable(fs[1..]) {
          forall i | 0 <= i < |fs| ensures Encodable(fs[i]) {
            if i > 0 { assert fs[i] == fs[1..][i - 1]; }
          }
        }
      }
      assert Shapes(fs)[1..] == Shapes(fs[1..]);
      Emitted(FieldBytes(fs[0]) + rest.bytes, rest.complete)
  }

  /** Emitting a frame field by field, as the drivers do. */
  lemma EmitCons(f: Field, fs: seq<Field>)
    ensures Emit([f] + fs) ==
      if Encodable(f) then Emitted(FieldBytes(f) + Emit(fs).bytes, Emit(fs).complete)
      else Emitted([], false)
  {
    assert ([f] + fs)[1..] == fs;
  }

  /** A frame of a command byte and one integer field. */
  lemma EmitTwo(op: byte, a: Field)
    ensures Emit([Raw([op]), a]) ==
      if !Encodable(a) then Emitted([op], false)
      else Emitted([op] + FieldBytes(a), true)
  {
    assert Emit([]) == Emitted([], true);
    EmitCons(a, []);
    assert [a] + [] == [a];
    EmitCons(Raw([op]), [a]);
    assert [Raw([op])] + [a] == [Raw([op]), a];
  }

  /** Emitting the frame from field `i` on: field `i`, then the rest. */
  lemma EmitFrom(fs: seq<Field>, i: nat)
    requires i < |fs|
    ensures Emit(fs[i..]) ==
      if Encodable(fs[i]) then Emitted(FieldBytes(fs[i]) + Emit(fs[i + 1..]).bytes, Emit(fs[i + 1..]).complete)
      else Emitted([], false)
  {
    assert [fs[i]] + fs[i + 1..] == fs[i..];
    EmitCons(fs[i], fs[i + 1..]);
  }

  /** A frame of a command byte and two integer fields, written one field
      at a time. */
  lemma EmitThree(op: byte, a: Field, b: Field)
    ensures Emit([Raw([op]), a, b]) ==
      if !Encodable(a) then Emitted([op], false)
      else if !Encodable(b) then Emitted([op] + FieldBytes(a), false)
      else Emitted([op] + FieldBytes(a) + FieldBytes(b), true)
  {
    assert Emit([]) == Emitted([], true);
    EmitCons(b, []);
    assert [b] + [] == [b];
    EmitCons(a, [b]);
    assert [a] + [b] == [a, b];
    EmitCons(Raw([op]), [a, b]);
    assert [Raw([op])] + [a, b] == [Raw([op]), a, b];
  }

  /** Where each field of a completely written three-field frame sits. */
  lemma ThreeFieldSlices(op: byte, a: Field, b: Field)
    requires Encodable(a) && Encodable(b)
    ensures var bs := Emit([Raw([op]), a, b]).bytes;
      var la := |FieldBytes(a)|;
      |bs| == 1 + la + |FieldBytes(b)| && bs[0] == op
      && bs[1..1 + la] == FieldBytes(a) && bs[1 + la..] == FieldBytes(b)
  {
    EmitThree(op, a, b);
  }

  /** Where the integer sits in a completely written two-field frame. */
  lemma TwoFieldSlices(op: byte, a: Field)
    requires Encodable(a)
    ensures var bs := Emit([Raw([op]), a]).bytes;
      |bs| == 1 + |FieldBytes(a)| && bs[0] == op && bs[1..] == FieldBytes(a)
  {
    EmitTwo(op, a);
  }

  /** Reads one field of shape `s` from exactly its bytes. */
  function DecodeField(s: Shape, bs: seq<byte>): Field
    requires |bs| == Length(s)
  {
    match s
    case RawShape(_) => Raw(bs)
    case IntShape(w, o) => Int(FromBytes(bs, o), w, o)
  }

  lemma DecodeFieldBytes(f: Field)
    requires Encodable(f)
    ensures DecodeField(ShapeOf(f), FieldBytes(f)) == f
  {
    match f
    case Raw(_) =>
    case Int(v, w, o) => ToBytesRoundTrip(v, w, o);
  }

  /** Reads a frame of the given layout back into fields; None when the byte
      count does not match the layout. */
  function Decode(ss: seq<Shape>, bs: seq<byte>): Option<seq<Field>> {
    if ss == [] then (if bs == [] then Some([]) else None)
    else
      var n := Length(ss[0]);
      if |bs| < n then None
      else
        match Decode(ss[1..], bs[n..])
        case None => None
        case Some(tail) => Some([DecodeField(ss[0], bs[..n])] + tail)
  }

  /** The codec round trip: a frame whose fields were all written decodes,
      by its layout alone, to the very fields that were sent. */
  lemma {:induction false} DecodeEmit(fs: seq<Field>)
    requires AllEncodable(fs)
    ensures Decode(Shapes(fs), Emit(fs).bytes) == Some(fs)
  {
    if fs != [] {
      assert AllEncodable(fs[1..]) by {
        forall i | 0 <= i < |fs| - 1 ensures Encodable(fs[1..][i]) {
          assert fs[1..][i] == fs[i + 1];
        }
      }
      DecodeEmit(fs[1..]);
      assert Encodable(fs[0]);
      var head := FieldBytes(fs[0]);
      var bs := Emit(fs).bytes;
      var ss := Shapes(fs);
      var n := |head|;
      assert bs == head + Emit(fs[1..]).bytes;
      assert bs[..n] == head && bs[n..] == Emit(fs[1..]).bytes;
      assert ss[0] == ShapeOf(fs[0]) && ss[1..] == Shapes(fs[1..]);
      DecodeFieldBytes(fs[0]);
      assert fs == [fs[0]] + fs[1..];
    }
  }

  /** A field read back from bytes of its shape is encodable, has that
      shape, and encodes to those very bytes. */
  lemma DecodeFieldEncodes(s: Shape, bs: seq<byte>)
    requires |bs| == Length(s)
    ensures var f := DecodeField(s, bs); Encodable(f) && ShapeOf(f) == s && FieldBytes(f) == bs
  {
    match s
    case RawShape(_) =>
    case IntShape(w, o) => FromBytesRoundTrip(bs, o);
  }

  lemma ConsFields(f: Field, fs: seq<Field>)
    ensures AllEncodable([f] + fs) <==> Encodable(f) && AllEncodable(fs)
    ensures Shapes([f] + fs) == [ShapeOf(f)] + Shapes(fs)
  {
    var g := [f] + fs;
    assert g[0] == f;
    assert g[1..] == fs;
    assert forall i | 0 <= i < |fs| :: g[i + 1] == fs[i];
    if Encodable(f) && AllEncodable(fs) {
      forall i | 0 <= i < |g| ensures Encodable(g[i]) {
        if i > 0 { assert g[i] == fs[i - 1]; }
      }
    }
  }

  /** The first field read from `bs`, in front of fields that re-encode to
      the rest of `bs` with the rest of the layout, re-encodes to `bs` with
      the whole layout. */
  lemma EmitDecodedCons(ss: seq<Shape>, bs: seq<byte>, tail: seq<Field>)
    requires ss != [] && Length(ss[0]) <= |bs|
    requires AllEncodable(tail) && Shapes(tail) == ss[1..] && Emit(tail).bytes == bs[Length(ss[0])..]
    ensures var fs := [DecodeField(ss[0], bs[..Length(ss[0])])] + tail;
      AllEncodable(fs) && Shapes(fs) == ss && Emit(fs).bytes == bs
  {
    var n := Length(ss[0]);
    var f := DecodeField(ss[0], bs[..n]);
    var fs := [f] + tail;
    DecodeFieldEncodes(ss[0], bs[..n]);
    assert AllEncodable(fs) && Shapes(fs) == ss by {
      ConsFields(f, tail);
      assert [ss[0]] + ss[1..] == ss;
    }
    assert Emit(fs).bytes == bs by {
      EmitCons(f, tail);
      assert bs[..n] + bs[n..] == bs;
    }
  }

  /** Conversely, every byte string that decodes is the frame of what it
      decodes to: no two different commands share a frame. */
  lemma {:induction false} EmitDecode(ss: seq<Shape>, bs: seq<byte>, fs: seq<Field>)
    requires Decode(ss, bs) == Some(fs)
    ensures AllEncodable(fs) && Shapes(fs) == ss && Emit(fs).bytes == bs
  {
    if ss != [] {
      var n := Length(ss[0]);
      var tail := Decode(ss[1..], bs[n..]).value;
      EmitDecode(ss[1..], bs[n..], tail);
      EmitDecodedCons(ss, bs, tail);
    }
  }

  /** When an integer field does not fit, what was written is exactly the
      fields before it. */
  lemma {:induction false} EmitStopsAtOverflow(fs: seq<Field>, k: nat)
    requires k < |fs| && !Encodable(fs[k]) && AllEncodable(fs[..k])
    ensures !Emit(fs).complete
    ensures Emit(fs).bytes == Emit(fs[..k]).bytes
  {
    if k > 0 {
      assert fs[1..][..k - 1] == fs[..k][1..];
      assert AllEncodable(fs[..k][1..]) by {
        forall i | 0 <= i < k - 1 ensures Encodable(fs[..k][1..][i]) {
          assert fs[..k][1..][i] == fs[..k][i + 1];
        }
      }
      assert fs[..k][0] == fs[0];
      EmitStopsAtOverflow(fs[1..], k - 1);
    }
  }
}
