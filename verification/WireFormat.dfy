/** Values, their encoding by the generated serializers, and the documented wire
    format as a decoder over a whole byte string. */
module WireFormat {
  import opened WireTypes
  import opened BigEndian
  import Utf8
  import Seqs

  /** A value of the C++ type generated for a `Type`. Tuples and structures are
      the sequence of their members, a variant is the position of its
      alternative with the value held. */
  datatype Value =
    | IntegerValue(n: nat)
    | VariantValue(index: nat, value: Value)
    | TupleValue(values: seq<Value>)
    | VectorValue(values: seq<Value>)
    | TextValue(text: seq<byte>)

  /** `find_suitable_uint_cpp_type`, in bytes. */
  function Width(maximum: nat): (w: nat)
  {
    if maximum <= 0xff then 1
    else if maximum <= 0xffff then 2
    else if maximum <= 0xffff_ffff then 4
    else 8
  }

  lemma Powers()
    ensures Pow256(1) == 0x100 && Pow256(2) == 0x1_0000 && Pow256(4) == 0x1_0000_0000
    ensures Pow256(8) == 0x1_0000_0000_0000_0000
  {
    assert Pow256(4) == 256 * (256 * Pow256(2));
    assert Pow256(8) == 256 * (256 * (256 * (256 * Pow256(4))));
  }

  /** The least of the widths there are that holds the maximum. */
  lemma WidthIsLeast(maximum: Uint64, width: nat)
    requires width == 1 || width == 2 || width == 4 || width == 8
    ensures Width(maximum) == 1 || Width(maximum) == 2 || Width(maximum) == 4 || Width(maximum) == 8
    ensures maximum < Pow256(width) <==> Width(maximum) <= width
  {
    hide Pow256;
    Powers();
  }

  lemma WidthHolds(n: nat, maximum: Uint64)
    requires n <= maximum
    ensures n < Pow256(Width(maximum))
  {
    hide Pow256;
    Powers();
  }

  /** The range of a variant's index, `integer{0, elements.size() - 1}` in
      unsigned 64-bit arithmetic. */
  function IndexRange(count: nat): IntegerRange {
    IntegerRange(0, (count - 1) % 0x1_0000_0000_0000_0000)
  }

  /** The types of the members of a tuple or structure, in order. */
  function Members(t: Type): (ts: seq<Type>)
    requires t.Tuple? || t.Structure?
    ensures MaxDepth(ts) < Depth(t)
  {
    if t.Tuple? then t.elements else Whats(t.fields)
  }

  /** The element types of a vector of `count` elements. */
  function Copies(t: Type, count: nat): (ts: seq<Type>)
    ensures |ts| == count
    ensures forall i :: 0 <= i < count ==> ts[i] == t
    ensures MaxDepth(ts) <= Depth(t)
    decreases count
  {
    if count == 0 then [] else [t] + Copies(t, count - 1)
  }

  predicate HasType(t: Type, v: Value)
    decreases v, 0
  {
    match t
    case Integer(range) => v.IntegerValue? && v.n < Pow256(Width(range.maximum))
    case Utf8(_) => v.TextValue?
    case Variant(elements) => v.VariantValue? && v.index < |elements| && HasType(elements[v.index], v.value)
    case Tuple(_) => v.TupleValue? && HaveTypes(Members(t), v.values)
    case Structure(_) => v.TupleValue? && HaveTypes(Members(t), v.values)
    case Vector(_, element) => v.VectorValue? && HaveTypes(Copies(element, |v.values|), v.values)
  }

  predicate HaveTypes(ts: seq<Type>, vs: seq<Value>)
    decreases vs, 1
  {
    |ts| == |vs| && (vs == [] || (HasType(ts[0], vs[0]) && HaveTypes(ts[1..], vs[1..])))
  }

  // ----- serialization -----

  /** What a serializer appended to its sink, and whether it went through. */
  datatype Written = Written(bytes: seq<byte>, ok: bool) {
    /** A serializer run after this one, unless this one returned early. */
    function Then(next: Written): Written {
      if ok then Written(bytes + next.bytes, next.ok) else this
    }
  }

  function WriteRanged(range: IntegerRange, n: nat): Written {
    if n < range.minimum || n > range.maximum then Written([], false)
    else Written(Encode(n, Width(range.maximum)), true)
  }

  function Write(t: Type, v: Value): Written
    requires HasType(t, v)
    decreases v, 0
  {
    match t
    case Integer(range) => WriteRanged(range, v.n)
    case Variant(elements) =>
      WriteRanged(IndexRange(|elements|), v.index).Then(Write(elements[v.index], v.value))
    case Tuple(_) => WriteAll(Members(t), v.values)
    case Structure(_) => WriteAll(Members(t), v.values)
    case Vector(length, element) =>
      WriteRanged(length, |v.values|).Then(WriteAll(Copies(element, |v.values|), v.values))
    case Utf8(codeUnits) =>
      if !Utf8.IsValid(v.text) then Written([], false)
      else WriteRanged(codeUnits, |v.text|).Then(Written(v.text, true))
  }

  function WriteAll(ts: seq<Type>, vs: seq<Value>): Written
    requires HaveTypes(ts, vs)
    decreases vs, 1
  {
    if vs == [] then Written([], true)
    else Write(ts[0], vs[0]).Then(WriteAll(ts[1..], vs[1..]))
  }

  predicate Accepted(t: Type, v: Value) {
    HasType(t, v) && Write(t, v).ok
  }

  predicate AllAccepted(ts: seq<Type>, vs: seq<Value>) {
    HaveTypes(ts, vs) && WriteAll(ts, vs).ok
  }

  // ----- the documented format, read as a whole -----

  datatype Decoded<V> = Complete(value: V, used: nat) | Truncated | Malformed

  function DecodeInteger(width: nat, s: seq<byte>): (d: Decoded<nat>)
    ensures d.Complete? ==> d.used == width <= |s| && d.value == BigEndian.Decode(s[..width])
    ensures !d.Complete? ==> d == Truncated && |s| < width
  {
    if |s| < width then Truncated else Complete(BigEndian.Decode(s[..width]), width)
  }

  function DecodeValue(t: Type, s: seq<byte>): (d: Decoded<Value>)
    ensures d.Complete? ==> d.used <= |s|
    decreases Depth(t), 0
  {
    match t
    case Integer(range) =>
      (match DecodeInteger(Width(range.maximum), s)
       case Complete(n, used) => Complete(IntegerValue(n), used)
       case Truncated => Truncated)
    case Utf8(codeUnits) =>
      (match DecodeInteger(Width(codeUnits.maximum), s)
       case Complete(n, used) =>
         if |s| < used + n then Truncated
         else if Utf8.IsValid(s[used..used + n]) then Complete(TextValue(s[used..used + n]), used + n)
         else Malformed
       case Truncated => Truncated)
    case Variant(elements) =>
      (match DecodeInteger(Width(IndexRange(|elements|).maximum), s)
       case Complete(index, used) =>
         if index >= |elements| then Malformed
         else
           MemberDepth(elements, index);
           (match DecodeValue(elements[index], s[used..])
            case Complete(v, more) => Complete(VariantValue(index, v), used + more)
            case Truncated => Truncated
            case Malformed => Malformed)
       case Truncated => Truncated)
    case Tuple(_) => TupleOf(DecodeAll(Members(t), s))
    case Structure(_) => TupleOf(DecodeAll(Members(t), s))
    case Vector(length, element) =>
      (match DecodeInteger(Width(length.maximum), s)
       case Complete(n, used) =>
         (match DecodeAll(Copies(element, n), s[used..])
          case Complete(vs, more) => Complete(VectorValue(vs), used + more)
          case Truncated => Truncated
          case Malformed => Malformed)
       case Truncated => Truncated)
  }

  function TupleOf(d: Decoded<seq<Value>>): Decoded<Value> {
    match d
    case Complete(vs, used) => Complete(TupleValue(vs), used)
    case Truncated => Truncated
    case Malformed => Malformed
  }

  function DecodeAll(ts: seq<Type>, s: seq<byte>): (d: Decoded<seq<Value>>)
    ensures d.Complete? ==> d.used <= |s| && |d.value| == |ts|
    decreases MaxDepth(ts), 1 + |ts|
  {
    if ts == [] then Complete([], 0)
    else
      match DecodeValue(ts[0], s)
      case Complete(v, used) =>
        (match DecodeAll(ts[1..], s[used..])
         case Complete(vs, more) => Complete([v] + vs, used + more)
         case Truncated => Truncated
         case Malformed => Malformed)
      case Truncated => Truncated
      case Malformed => Malformed
  }

  // ----- decoding inverts serialization -----

  lemma DecodeIntegerWritten(n: nat, width: nat, rest: seq<byte>)
    requires n < Pow256(width)
    ensures DecodeInteger(width, Encode(n, width) + rest) == Complete(n, width)
  {
    DecodeEncode(n, width);
    Seqs.Split(Encode(n, width), rest);
  }

  lemma DecodeRangedWritten(range: IntegerRange, n: nat, tail: seq<byte>)
    requires WriteRanged(range, n).ok
    ensures DecodeInteger(Width(range.maximum), WriteRanged(range, n).bytes + tail) == Complete(n, Width(range.maximum))
    ensures |WriteRanged(range, n).bytes| == Width(range.maximum)
    ensures (WriteRanged(range, n).bytes + tail)[Width(range.maximum)..] == tail
  {
    WidthHolds(n, range.maximum);
    DecodeIntegerWritten(n, Width(range.maximum), tail);
    Seqs.Split(WriteRanged(range, n).bytes, tail);
  }

  lemma DecodeTextWritten(codeUnits: IntegerRange, v: Value, rest: seq<byte>)
    requires Accepted(Utf8(codeUnits), v)
    ensures var written := Write(Utf8(codeUnits), v).bytes;
            DecodeValue(Utf8(codeUnits), written + rest) == Complete(v, |written|)
  {
    DecodeRangedWritten(codeUnits, |v.text|, v.text + rest);
    var header := WriteRanged(codeUnits, |v.text|).bytes;
    var s := Write(Utf8(codeUnits), v).bytes + rest;
    assert s == header + (v.text + rest);
    assert s[|header|..|header| + |v.text|] == v.text;
  }

  lemma DecodeVariantFrom(elements: seq<Type>, s: seq<byte>, index: nat)
    requires var w := Width(IndexRange(|elements|).maximum);
             && DecodeInteger(w, s) == Complete(index, w) && index < |elements|
             && DecodeValue(elements[index], s[w..]).Complete?
    ensures var w := Width(IndexRange(|elements|).maximum);
            var Complete(x, n) := DecodeValue(elements[index], s[w..]);
            DecodeValue(Variant(elements), s) == Complete(VariantValue(index, x), w + n)
  {
  }

  lemma DecodeVariantWritten(elements: seq<Type>, v: Value, rest: seq<byte>)
    requires Accepted(Variant(elements), v)
    requires var body := Write(elements[v.index], v.value).bytes;
             DecodeValue(elements[v.index], body + rest) == Complete(v.value, |body|)
    ensures var written := Write(Variant(elements), v).bytes;
            DecodeValue(Variant(elements), written + rest) == Complete(v, |written|)
  {
    var header := WriteRanged(IndexRange(|elements|), v.index).bytes;
    hide DecodeAll, DecodeValue, WriteAll, HaveTypes;
    var body := Write(elements[v.index], v.value).bytes;
    var s := Write(Variant(elements), v).bytes + rest;
    DecodeRangedWritten(IndexRange(|elements|), v.index, body + rest);
    Seqs.Assoc(header, body, rest);
    DecodeVariantFrom(elements, s, v.index);
  }

  lemma DecodeVectorFrom(length: IntegerRange, element: Type, s: seq<byte>, count: nat)
    requires var w := Width(length.maximum);
             && DecodeInteger(w, s) == Complete(count, w)
             && DecodeAll(Copies(element, count), s[w..]).Complete?
    ensures var w := Width(length.maximum);
            var Complete(vs, n) := DecodeAll(Copies(element, count), s[w..]);
            DecodeValue(Vector(length, element), s) == Complete(VectorValue(vs), w + n)
  {
  }

  lemma DecodeVectorWritten(length: IntegerRange, element: Type, v: Value, rest: seq<byte>)
    requires Accepted(Vector(length, element), v)
    requires var body := WriteAll(Copies(element, |v.values|), v.values).bytes;
             DecodeAll(Copies(element, |v.values|), body + rest) == Complete(v.values, |body|)
    ensures var written := Write(Vector(length, element), v).bytes;
            DecodeValue(Vector(length, element), written + rest) == Complete(v, |written|)
  {
    hide Copies, DecodeAll, DecodeValue, WriteAll, HaveTypes;
    var header := WriteRanged(length, |v.values|).bytes;
    var body := WriteAll(Copies(element, |v.values|), v.values).bytes;
    var s := Write(Vector(length, element), v).bytes + rest;
    DecodeRangedWritten(length, |v.values|, body + rest);
    Seqs.Assoc(header, body, rest);
    DecodeVectorFrom(length, element, s, |v.values|);
  }

  /** Every accepted value of every type is read back, with the bytes after it
      left over. */
  lemma {:induction false} DecodeWritten(t: Type, v: Value, rest: seq<byte>)
    requires Accepted(t, v)
    ensures DecodeValue(t, Write(t, v).bytes + rest) == Complete(v, |Write(t, v).bytes|)
    decreases v, 0
  {
    match t
    case Integer(range) =>
      DecodeRangedWritten(range, v.n, rest);
    case Utf8(codeUnits) =>
      DecodeTextWritten(codeUnits, v, rest);
    case Variant(elements) =>
      DecodeWritten(elements[v.index], v.value, rest);
      DecodeVariantWritten(elements, v, rest);
    case Tuple(_) =>
      DecodeAllWritten(Members(t), v.values, rest);
    case Structure(_) =>
      DecodeAllWritten(Members(t), v.values, rest);
    case Vector(length, element) =>
      DecodeAllWritten(Copies(element, |v.values|), v.values, rest);
      DecodeVectorWritten(length, element, v, rest);
  }

  lemma DecodeAllFrom(ts: seq<Type>, s: seq<byte>)
    requires ts != [] && DecodeValue(ts[0], s).Complete?
    requires DecodeAll(ts[1..], s[DecodeValue(ts[0], s).used..]).Complete?
    ensures var Complete(v, used) := DecodeValue(ts[0], s);
            var Complete(vs, more) := DecodeAll(ts[1..], s[used..]);
            DecodeAll(ts, s) == Complete([v] + vs, used + more)
  {
  }

  lemma {:induction false} DecodeAllWritten(ts: seq<Type>, vs: seq<Value>, rest: seq<byte>)
    requires AllAccepted(ts, vs)
    ensures DecodeAll(ts, WriteAll(ts, vs).bytes + rest) == Complete(vs, |WriteAll(ts, vs).bytes|)
    decreases vs, 1
  {
    if vs == [] {
    } else {
      var first := Write(ts[0], vs[0]).bytes;
      var others := WriteAll(ts[1..], vs[1..]).bytes;
      DecodeWritten(ts[0], vs[0], others + rest);
      DecodeAllWritten(ts[1..], vs[1..], rest);
      Seqs.Assoc(first, others, rest);
      Seqs.Split(first, others + rest);
      DecodeAllFrom(ts, WriteAll(ts, vs).bytes + rest);
      Seqs.Cons(vs);
    }
  }

  // ----- what a refused value leaves behind -----

  lemma DecodeVariantTruncated(elements: seq<Type>, s: seq<byte>, index: nat)
    requires var w := Width(IndexRange(|elements|).maximum);
             && DecodeInteger(w, s) == Complete(index, w) && index < |elements|
             && DecodeValue(elements[index], s[w..]) == Truncated
    ensures DecodeValue(Variant(elements), s) == Truncated
  {
  }

  lemma DecodeVectorTruncated(length: IntegerRange, element: Type, s: seq<byte>, count: nat)
    requires var w := Width(length.maximum);
             && DecodeInteger(w, s) == Complete(count, w)
             && DecodeAll(Copies(element, count), s[w..]) == Truncated
    ensures DecodeValue(Vector(length, element), s) == Truncated
  {
  }

  /** The bytes of a value that is refused are those of no value: they end too
      early. */
  lemma {:induction false} RefusedIsTruncated(t: Type, v: Value)
    requires HasType(t, v) && !Write(t, v).ok
    ensures DecodeValue(t, Write(t, v).bytes) == Truncated
    decreases v, 0
  {
    match t
    case Integer(_) =>
    case Utf8(_) =>
    case Variant(elements) =>
      var header := WriteRanged(IndexRange(|elements|), v.index);
      if header.ok {
        RefusedIsTruncated(elements[v.index], v.value);
        DecodeRangedWritten(IndexRange(|elements|), v.index, Write(elements[v.index], v.value).bytes);
        DecodeVariantTruncated(elements, Write(t, v).bytes, v.index);
      }
    case Tuple(_) => RefusedAllIsTruncated(Members(t), v.values);
    case Structure(_) => RefusedAllIsTruncated(Members(t), v.values);
    case Vector(length, element) =>
      var header := WriteRanged(length, |v.values|);
      if header.ok {
        var ts := Copies(element, |v.values|);
        RefusedAllIsTruncated(ts, v.values);
        DecodeRangedWritten(length, |v.values|, WriteAll(ts, v.values).bytes);
        DecodeVectorTruncated(length, element, Write(t, v).bytes, |v.values|);
      }
  }

  lemma {:induction false} RefusedAllIsTruncated(ts: seq<Type>, vs: seq<Value>)
    requires HaveTypes(ts, vs) && !WriteAll(ts, vs).ok
    ensures DecodeAll(ts, WriteAll(ts, vs).bytes) == Truncated
    decreases vs, 1
  {
    hide Write, HasType, DecodeValue;
    if Write(ts[0], vs[0]).ok {
      var first, others := Write(ts[0], vs[0]).bytes, WriteAll(ts[1..], vs[1..]).bytes;
      DecodeWritten(ts[0], vs[0], others);
      RefusedAllIsTruncated(ts[1..], vs[1..]);
      Seqs.Split(first, others);
    } else {
      RefusedIsTruncated(ts[0], vs[0]);
    }
  }

  // ----- serialization inverts decoding -----

  lemma RangedWriteOfDecoded(range: IntegerRange, s: seq<byte>)
    requires |s| >= Width(range.maximum)
    ensures WriteRanged(range, BigEndian.Decode(s[..Width(range.maximum)])).ok
        ==> WriteRanged(range, BigEndian.Decode(s[..Width(range.maximum)])).bytes == s[..Width(range.maximum)]
    ensures BigEndian.Decode(s[..Width(range.maximum)]) < Pow256(Width(range.maximum))
  {
    EncodeDecode(s[..Width(range.maximum)]);
    DecodeBound(s[..Width(range.maximum)]);
  }

  lemma WriteOfDecodedText(codeUnits: IntegerRange, s: seq<byte>)
    requires DecodeValue(Utf8(codeUnits), s).Complete?
    ensures var Complete(v, used) := DecodeValue(Utf8(codeUnits), s);
            && HasType(Utf8(codeUnits), v)
            && (Accepted(Utf8(codeUnits), v) ==> Write(Utf8(codeUnits), v).bytes == s[..used])
  {
    hide WriteRanged, Utf8.IsValid;
    RangedWriteOfDecoded(codeUnits, s);
    var w := Width(codeUnits.maximum);
    var used := DecodeValue(Utf8(codeUnits), s).used;
    assert s[..used] == s[..w] + s[w..used];
  }

  lemma WriteOfDecodedVariant(elements: seq<Type>, s: seq<byte>)
    requires DecodeValue(Variant(elements), s).Complete?
    requires var v := DecodeValue(Variant(elements), s).value;
             var body := s[Width(IndexRange(|elements|).maximum)..];
             && HasType(elements[v.index], v.value)
             && (Accepted(elements[v.index], v.value)
                 ==> Write(elements[v.index], v.value).bytes == body[..DecodeValue(elements[v.index], body).used])
    ensures var Complete(v, used) := DecodeValue(Variant(elements), s);
            && HasType(Variant(elements), v)
            && (Accepted(Variant(elements), v) ==> Write(Variant(elements), v).bytes == s[..used])
  {
    var range := IndexRange(|elements|);
    var w := Width(range.maximum);
    var Complete(v, used) := DecodeValue(Variant(elements), s);
    var inner := DecodeValue(elements[v.index], s[w..]);
    hide BigEndian.Encode, BigEndian.Decode;
    RangedWriteOfDecoded(range, s);
    Seqs.TakeDrop(s, w, inner.used);
  }

  lemma WriteOfDecodedVector(length: IntegerRange, element: Type, s: seq<byte>)
    requires DecodeValue(Vector(length, element), s).Complete?
    requires var vs := DecodeValue(Vector(length, element), s).value.values;
             var ts := Copies(element, |vs|);
             var body := s[Width(length.maximum)..];
             && HaveTypes(ts, vs)
             && (AllAccepted(ts, vs) ==> WriteAll(ts, vs).bytes == body[..DecodeAll(ts, body).used])
    ensures var Complete(v, used) := DecodeValue(Vector(length, element), s);
            && HasType(Vector(length, element), v)
            && (Accepted(Vector(length, element), v) ==> Write(Vector(length, element), v).bytes == s[..used])
  {
    hide Copies, DecodeAll, WriteAll, HaveTypes;
    var w := Width(length.maximum);
    RangedWriteOfDecoded(length, s);
    var used := DecodeValue(Vector(length, element), s).used;
    assert s[..used] == s[..w] + s[w..][..used - w];
  }

  /** Whatever is decoded has the right type, and if the serializer accepts it
      then the bytes read are the ones it writes. */
  lemma {:induction false} WriteOfDecoded(t: Type, s: seq<byte>)
    requires DecodeValue(t, s).Complete?
    ensures HasType(t, DecodeValue(t, s).value)
    ensures Accepted(t, DecodeValue(t, s).value)
        ==> Write(t, DecodeValue(t, s).value).bytes == s[..DecodeValue(t, s).used]
    decreases Depth(t), 0
  {
    match t
    case Integer(range) =>
      RangedWriteOfDecoded(range, s);
    case Utf8(codeUnits) =>
      WriteOfDecodedText(codeUnits, s);
    case Variant(elements) =>
      var v := DecodeValue(t, s).value;
      MemberDepth(elements, v.index);
      WriteOfDecoded(elements[v.index], s[Width(IndexRange(|elements|).maximum)..]);
      WriteOfDecodedVariant(elements, s);
    case Tuple(_) =>
      WriteOfAllDecoded(Members(t), s);
    case Structure(_) =>
      WriteOfAllDecoded(Members(t), s);
    case Vector(length, element) =>
      var v := DecodeValue(t, s).value;
      WriteOfAllDecoded(Copies(element, |v.values|), s[Width(length.maximum)..]);
      WriteOfDecodedVector(length, element, s);
  }

  lemma {:induction false} WriteOfAllDecoded(ts: seq<Type>, s: seq<byte>)
    requires DecodeAll(ts, s).Complete?
    ensures HaveTypes(ts, DecodeAll(ts, s).value)
    ensures AllAccepted(ts, DecodeAll(ts, s).value)
        ==> WriteAll(ts, DecodeAll(ts, s).value).bytes == s[..DecodeAll(ts, s).used]
    decreases MaxDepth(ts), 1 + |ts|
  {
    hide DecodeValue, HasType, Write;
    if ts != [] {
      WriteOfDecoded(ts[0], s);
      var used := DecodeValue(ts[0], s).used;
      var tail := s[used..];
      WriteOfAllDecoded(ts[1..], tail);
      var more := DecodeAll(ts[1..], tail).used;
      Seqs.TakeDrop(s, used, more);
      var vs := DecodeAll(ts, s).value;
      assert vs[1..] == DecodeAll(ts[1..], tail).value;
    }
  }

  /** No encoding is a prefix of the encoding of another value of its type. */
  lemma PrefixFree(t: Type, v1: Value, v2: Value)
    requires Accepted(t, v1) && Accepted(t, v2)
    requires Write(t, v1).bytes <= Write(t, v2).bytes
    ensures v1 == v2
  {
    hide Write, HasType, DecodeValue;
    var b1, b2 := Write(t, v1).bytes, Write(t, v2).bytes;
    DecodeWritten(t, v1, b2[|b1|..]);
    DecodeWritten(t, v2, []);
    assert b1 + b2[|b1|..] == b2;
    assert b2 + [] == b2;
  }

  // ----- serialization as the generated code runs it -----

  method SerializeRanged(sink: Sink, range: IntegerRange, n: nat) returns (ok: bool)
    modifies sink
    ensures sink.contents == old(sink.contents) + WriteRanged(range, n).bytes
    ensures ok == WriteRanged(range, n).ok
  {
    if range.minimum == 0 {
      if n > range.maximum {
        return false;
      }
    } else if n < range.minimum || n > range.maximum {
      return false;
    }
    WriteInteger(sink, n, Width(range.maximum));
    return true;
  }

  lemma WriteAllSnoc(ts: seq<Type>, vs: seq<Value>, t: Type, v: Value)
    requires HaveTypes(ts, vs) && HasType(t, v)
    ensures HaveTypes(ts + [t], vs + [v])
    ensures WriteAll(ts + [t], vs + [v]) == WriteAll(ts, vs).Then(Write(t, v))
    decreases vs
  {
    if vs == [] {
      assert ts + [t] == [t] && vs + [v] == [v];
      assert Write(t, v).Then(Written([], true)) == Write(t, v);
      assert Written([], true).Then(Write(t, v)) == Write(t, v);
    } else {
      WriteAllSnoc(ts[1..], vs[1..], t, v);
      assert (ts + [t])[1..] == ts[1..] + [t] && (vs + [v])[1..] == vs[1..] + [v];
      ThenAssociative(Write(ts[0], vs[0]), WriteAll(ts[1..], vs[1..]), Write(t, v));
    }
  }

  lemma ThenAssociative(a: Written, b: Written, c: Written)
    ensures a.Then(b).Then(c) == a.Then(b.Then(c))
  {
    assert a.bytes + b.bytes + c.bytes == a.bytes + (b.bytes + c.bytes);
  }

  lemma WriteAllFailed(ts: seq<Type>, vs: seq<Value>, i: nat)
    requires HaveTypes(ts, vs) && i <= |vs|
    requires HaveTypes(ts[..i], vs[..i])
    requires !WriteAll(ts[..i], vs[..i]).ok
    ensures WriteAll(ts, vs) == WriteAll(ts[..i], vs[..i])
    decreases vs
  {
    if i > 0 {
      assert ts[..i][1..] == ts[1..][..i - 1] && vs[..i][1..] == vs[1..][..i - 1];
      if Write(ts[0], vs[0]).ok {
        WriteAllFailed(ts[1..], vs[1..], i - 1);
      }
    }
  }

  lemma HaveTypesAt(ts: seq<Type>, vs: seq<Value>, i: nat)
    requires HaveTypes(ts, vs) && i < |vs|
    ensures HasType(ts[i], vs[i])
    decreases vs
  {
    if i > 0 {
      HaveTypesAt(ts[1..], vs[1..], i - 1);
    }
  }

  /** One round of the loop over the elements. */
  lemma WriteAllNext(ts: seq<Type>, vs: seq<Value>, i: nat)
    requires HaveTypes(ts, vs) && i < |vs|
    requires HaveTypes(ts[..i], vs[..i])
    ensures HasType(ts[i], vs[i]) && HaveTypes(ts[..i + 1], vs[..i + 1])
    ensures WriteAll(ts[..i + 1], vs[..i + 1]) == WriteAll(ts[..i], vs[..i]).Then(Write(ts[i], vs[i]))
    ensures !WriteAll(ts[..i + 1], vs[..i + 1]).ok ==> WriteAll(ts, vs) == WriteAll(ts[..i + 1], vs[..i + 1])
  {
    hide Write, WriteAll, HasType;
    HaveTypesAt(ts, vs, i);
    WriteAllSnoc(ts[..i], vs[..i], ts[i], vs[i]);
    assert ts[..i] + [ts[i]] == ts[..i + 1] && vs[..i] + [vs[i]] == vs[..i + 1];
    if !WriteAll(ts[..i + 1], vs[..i + 1]).ok {
      WriteAllFailed(ts, vs, i + 1);
    }
  }

  /** `generate_value_serialization`: appends to the sink until done or until
      the first value that is out of range. */
  method Serialize(sink: Sink, t: Type, v: Value) returns (ok: bool)
    requires HasType(t, v)
    modifies sink
    ensures sink.contents == old(sink.contents) + Write(t, v).bytes
    ensures ok == Write(t, v).ok
    decreases v, 2
  {
    match t
    case Integer(range) =>
      ok := SerializeRanged(sink, range, v.n);
    case Variant(elements) =>
      ok := SerializeVariant(sink, elements, v);
    case Tuple(_) =>
      ok := SerializeAll(sink, Members(t), v.values);
    case Structure(_) =>
      ok := SerializeAll(sink, Members(t), v.values);
    case Vector(length, element) =>
      ok := SerializeVector(sink, length, element, v);
    case Utf8(codeUnits) =>
      ok := SerializeText(sink, codeUnits, v);
  }

  lemma VariantWritten(elements: seq<Type>, v: Value)
    requires HasType(Variant(elements), v)
    ensures v.VariantValue? && v.index < |elements| && HasType(elements[v.index], v.value)
    ensures Write(Variant(elements), v)
         == WriteRanged(IndexRange(|elements|), v.index).Then(Write(elements[v.index], v.value))
  {
    hide WriteRanged;
  }

  method SerializeVariant(sink: Sink, elements: seq<Type>, v: Value) returns (ok: bool)
    requires HasType(Variant(elements), v)
    modifies sink
    ensures sink.contents == old(sink.contents) + Write(Variant(elements), v).bytes
    ensures ok == Write(Variant(elements), v).ok
    decreases v, 1
  {
    hide HasType, Write, WriteRanged;
    VariantWritten(elements, v);
    ok := SerializeRanged(sink, IndexRange(|elements|), v.index);
    if ok {
      ok := Serialize(sink, elements[v.index], v.value);
    }
  }

  method SerializeVector(sink: Sink, length: IntegerRange, element: Type, v: Value) returns (ok: bool)
    requires HasType(Vector(length, element), v)
    modifies sink
    ensures sink.contents == old(sink.contents) + Write(Vector(length, element), v).bytes
    ensures ok == Write(Vector(length, element), v).ok
    decreases v, 1
  {
    ok := SerializeRanged(sink, length, |v.values|);
    if ok {
      ok := SerializeAll(sink, Copies(element, |v.values|), v.values);
    }
  }

  method SerializeText(sink: Sink, codeUnits: IntegerRange, v: Value) returns (ok: bool)
    requires HasType(Utf8(codeUnits), v)
    modifies sink
    ensures sink.contents == old(sink.contents) + Write(Utf8(codeUnits), v).bytes
    ensures ok == Write(Utf8(codeUnits), v).ok
  {
    if !Utf8.IsValid(v.text) {
      return false;
    }
    ok := SerializeRanged(sink, codeUnits, |v.text|);
    if ok {
      sink.Append(v.text);
    }
  }

  method SerializeAll(sink: Sink, ts: seq<Type>, vs: seq<Value>) returns (ok: bool)
    requires HaveTypes(ts, vs)
    modifies sink
    ensures sink.contents == old(sink.contents) + WriteAll(ts, vs).bytes
    ensures ok == WriteAll(ts, vs).ok
    decreases vs, 1
  {
    hide Write, HasType;
    var i := 0;
    while i < |vs|
      invariant 0 <= i <= |vs|
      invariant HaveTypes(ts[..i], vs[..i]) && WriteAll(ts[..i], vs[..i]).ok
      invariant sink.contents == old(sink.contents) + WriteAll(ts[..i], vs[..i]).bytes
    {
      WriteAllNext(ts, vs, i);
      Seqs.Assoc(old(sink.contents), WriteAll(ts[..i], vs[..i]).bytes, Write(ts[i], vs[i]).bytes);
      ok := Serialize(sink, ts[i], vs[i]);
      if !ok {
        return;
      }
      i := i + 1;
    }
    assert ts[..|vs|] == ts && vs[..|vs|] == vs;
    return true;
  }
}
