/** Bytes, big-endian integers and the sink every serializer appends to. */
module BigEndian {

  type byte = x: int | 0 <= x < 256

  function Pow256(k: nat): (p: nat)
    ensures p > 0
  {
    if k == 0 then 1 else 256 * Pow256(k - 1)
  }

  /** The `width` low-order bytes of `value`, most significant first. */
  function Encode(value: nat, width: nat): (s: seq<byte>)
    ensures |s| == width
  {
    if width == 0 then [] else Encode(value / 256, width - 1) + [value % 256]
  }

  lemma EncodeByte(b: byte)
    ensures Encode(b, 1) == [b]
  {
    assert Encode(b / 256, 0) == [];
  }

  function Decode(s: seq<byte>): nat {
    if s == [] then 0 else 256 * Decode(s[..|s| - 1]) + s[|s| - 1]
  }

  lemma {:induction false} DecodeBound(s: seq<byte>)
    ensures Decode(s) < Pow256(|s|)
  {
    if s != [] {
      DecodeBound(s[..|s| - 1]);
    }
  }

  lemma DecodeSnoc(s: seq<byte>, b: byte)
    ensures Decode(s + [b]) == 256 * Decode(s) + b
  {
    assert (s + [b])[..|s|] == s;
  }

  /** Reading back what was written gives the value, if it fits. */
  lemma {:induction false} DecodeEncode(value: nat, width: nat)
    requires value < Pow256(width)
    ensures Decode(Encode(value, width)) == value
  {
    if width > 0 {
      DecodeEncode(value / 256, width - 1);
      DecodeSnoc(Encode(value / 256, width - 1), value % 256);
    }
  }

  /** Every string of bytes is the encoding of the number it reads as. */
  lemma {:induction false} EncodeDecode(s: seq<byte>)
    ensures Encode(Decode(s), |s|) == s
  {
    if s != [] {
      EncodeDecode(s[..|s| - 1]);
      assert s == s[..|s| - 1] + [s[|s| - 1]];
    }
  }

  // ----- the writing loop -----

  /** `value >> (8 * bytes)` of an unsigned value. */
  function ShiftRight(value: nat, bytes: nat): nat
    decreases bytes
  {
    if bytes == 0 then value else ShiftRight(value / 256, bytes - 1)
  }

  /** Byte `i` of the encoding is the value shifted right by the bits after it. */
  lemma {:induction false} EncodeAt(value: nat, width: nat, i: nat)
    requires i < width
    ensures Encode(value, width)[i] == ShiftRight(value, width - 1 - i) % 256
  {
    if i < width - 1 {
      EncodeAt(value / 256, width - 1, i);
    }
  }

  /** `Si::Sink<std::uint8_t>` over a container: bytes are appended at the end. */
  class Sink {
    var contents: seq<byte>

    constructor ()
      ensures contents == []
    {
      contents := [];
    }

    method Append(bytes: seq<byte>)
      modifies this
      ensures contents == old(contents) + bytes
    {
      contents := contents + bytes;
    }
  }

  method WriteInteger(to: Sink, value: nat, size: nat)
    modifies to
    ensures to.contents == old(to.contents) + Encode(value, size)
  {
    var bytes := new byte[size](_ => 0);
    for i := 0 to size
      invariant forall k :: 0 <= k < i ==> bytes[k] == Encode(value, size)[k]
      invariant to.contents == old(to.contents)
    {
      EncodeAt(value, size, i);
      bytes[i] := ShiftRight(value, size - 1 - i) % 256;
    }
    assert bytes[..] == Encode(value, size);
    to.Append(bytes[..]);
  }
}
