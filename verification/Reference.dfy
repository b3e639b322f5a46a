/** What the serializers write, told without the parts that they are made of: which
    values are in range, and the bytes up to the first part that is not, the
    members in the order in which they are declared. */
module Reference {
  import opened WireTypes
  import opened BigEndian
  import opened WireFormat
  import opened ParserMachine
  import opened Conformance
  import opened RoundTrip
  import Utf8

  // ----- members, in the order of their declaration -----

  lemma WhatsAre(fields: seq<Field>, ts: seq<Type>)
    requires |ts| == |fields| && forall i :: 0 <= i < |ts| ==> ts[i] == fields[i].what
    ensures Members(Structure(fields)) == ts
  {
    assert Whats(fields) == ts;
  }

  /** A value of a structure has one value for each field, in the order of the
      fields. */
  lemma FieldsTyped(fields: seq<Field>, v: Value)
    ensures HasType(Structure(fields), v)
       <==> (&& v.TupleValue? && |v.values| == |fields|
             && forall i :: 0 <= i < |fields| ==> HasType(fields[i].what, v.values[i]))
  {
    if v.TupleValue? {
      MembersTyped(Members(Structure(fields)), v.values);
    }
  }

  lemma ElementsTyped(elements: seq<Type>, v: Value)
    ensures HasType(Tuple(elements), v)
       <==> (&& v.TupleValue? && |v.values| == |elements|
             && forall i :: 0 <= i < |elements| ==> HasType(elements[i], v.values[i]))
  {
    if v.TupleValue? {
      MembersTyped(elements, v.values);
    }
  }

  lemma MembersTyped(ts: seq<Type>, vs: seq<Value>)
    ensures HaveTypes(ts, vs) <==> |vs| == |ts| && forall i :: 0 <= i < |ts| ==> HasType(ts[i], vs[i])
  {
    if HaveTypes(ts, vs) {
      forall i | 0 <= i < |ts|
        ensures HasType(ts[i], vs[i])
      {
        HaveTypesAt(ts, vs, i);
      }
    } else if |vs| == |ts| && forall i :: 0 <= i < |ts| ==> HasType(ts[i], vs[i]) {
      HaveTypesEach(ts, vs);
    }
  }

  /** A structure is written, decoded and parsed as the tuple of the types of its
      fields, in their order. */
  lemma StructureIsTuple(fields: seq<Field>, ts: seq<Type>, v: Value, s: seq<byte>)
    requires |ts| == |fields| && forall i :: 0 <= i < |ts| ==> ts[i] == fields[i].what
    ensures HasType(Structure(fields), v) <==> HasType(Tuple(ts), v)
    ensures HasType(Tuple(ts), v) ==> Write(Structure(fields), v) == Write(Tuple(ts), v)
    ensures DecodeValue(Structure(fields), s) == DecodeValue(Tuple(ts), s)
    ensures Read(Structure(fields), s) == Read(Tuple(ts), s)
    ensures Initial(Structure(fields)) == Initial(Tuple(ts))
    ensures Parse(Structure(fields), s) == Parse(Tuple(ts), s)
  {
    WhatsAre(fields, ts);
  }

  // ----- the values that can be sent -----

  /** Numbers, lengths and indices are in their range, and texts are valid. The
      highest index is computed in 64 bits, which matters only for more than 2^64
      alternatives. */
  predicate InRange(t: Type, v: Value)
    decreases v
  {
    match t
    case Integer(range) => v.IntegerValue? && range.minimum <= v.n <= range.maximum
    case Utf8(codeUnits) =>
      v.TextValue? && Utf8.IsValid(v.text) && codeUnits.minimum <= |v.text| <= codeUnits.maximum
    case Variant(elements) =>
      && v.VariantValue? && v.index < |elements| && v.index <= (|elements| - 1) % 0x1_0000_0000_0000_0000
      && InRange(elements[v.index], v.value)
    case Tuple(elements) =>
      && v.TupleValue? && |v.values| == |elements|
      && forall i :: 0 <= i < |elements| ==> InRange(elements[i], v.values[i])
    case Structure(fields) =>
      && v.TupleValue? && |v.values| == |fields|
      && forall i :: 0 <= i < |fields| ==> InRange(fields[i].what, v.values[i])
    case Vector(length, element) =>
      && v.VectorValue? && length.minimum <= |v.values| <= length.maximum
      && forall i :: 0 <= i < |v.values| ==> InRange(element, v.values[i])
  }

  predicate AllInRange(ts: seq<Type>, vs: seq<Value>) {
    |vs| == |ts| && forall i :: 0 <= i < |ts| ==> InRange(ts[i], vs[i])
  }

  // ----- the bytes -----

  /** The bytes of a value, or those before its first part that is out of range. */
  function Output(t: Type, v: Value): seq<byte>
    requires HasType(t, v)
    decreases v, 0
  {
    match t
    case Integer(range) => if InRange(t, v) then Encode(v.n, Width(range.maximum)) else []
    case Utf8(codeUnits) => if InRange(t, v) then Encode(|v.text|, Width(codeUnits.maximum)) + v.text else []
    case Variant(elements) =>
      var highest := (|elements| - 1) % 0x1_0000_0000_0000_0000;
      if v.index > highest then [] else Encode(v.index, Width(highest)) + Output(elements[v.index], v.value)
    case Tuple(elements) =>
      MembersTyped(elements, v.values);
      OutputOfElements(elements, v.values)
    case Structure(fields) =>
      FieldsTyped(fields, v);
      OutputOfFields(fields, v.values)
    case Vector(length, element) =>
      MembersTyped(Copies(element, |v.values|), v.values);
      if length.minimum <= |v.values| <= length.maximum
      then Encode(|v.values|, Width(length.maximum)) + OutputOfAll(element, v.values) else []
  }

  /** The elements of a tuple in their order. */
  function OutputOfElements(elements: seq<Type>, vs: seq<Value>): seq<byte>
    requires |vs| == |elements| && forall i :: 0 <= i < |vs| ==> HasType(elements[i], vs[i])
    decreases vs, 1
  {
    if vs == [] then []
    else
      Output(elements[0], vs[0])
      + (if InRange(elements[0], vs[0]) then OutputOfElements(elements[1..], vs[1..]) else [])
  }

  /** The fields of a structure in their order. */
  function OutputOfFields(fields: seq<Field>, vs: seq<Value>): seq<byte>
    requires |vs| == |fields| && forall i :: 0 <= i < |vs| ==> HasType(fields[i].what, vs[i])
    decreases vs, 1
  {
    if vs == [] then []
    else
      Output(fields[0].what, vs[0])
      + (if InRange(fields[0].what, vs[0]) then OutputOfFields(fields[1..], vs[1..]) else [])
  }

  /** The elements of a vector in their order. */
  function OutputOfAll(element: Type, vs: seq<Value>): seq<byte>
    requires forall i :: 0 <= i < |vs| ==> HasType(element, vs[i])
    decreases vs, 1
  {
    if vs == [] then []
    else Output(element, vs[0]) + (if InRange(element, vs[0]) then OutputOfAll(element, vs[1..]) else [])
  }

  // ----- the serializer writes exactly that -----

  lemma {:induction false} OutputOfFieldsIs(fields: seq<Field>, ts: seq<Type>, vs: seq<Value>)
    requires |ts| == |fields| && forall i :: 0 <= i < |ts| ==> ts[i] == fields[i].what
    requires |vs| == |ts| && forall i :: 0 <= i < |vs| ==> HasType(ts[i], vs[i])
    ensures OutputOfFields(fields, vs) == OutputOfElements(ts, vs)
    decreases vs
  {
    if vs != [] {
      OutputOfFieldsIs(fields[1..], ts[1..], vs[1..]);
    }
  }

  lemma {:induction false} OutputOfAllIs(element: Type, ts: seq<Type>, vs: seq<Value>)
    requires |vs| == |ts| && forall i :: 0 <= i < |ts| ==> ts[i] == element && HasType(element, vs[i])
    ensures OutputOfAll(element, vs) == OutputOfElements(ts, vs)
    decreases vs
  {
    if vs != [] {
      OutputOfAllIs(element, ts[1..], vs[1..]);
    }
  }

  lemma FirstInRange(ts: seq<Type>, vs: seq<Value>)
    requires |vs| == |ts| && vs != []
    ensures AllInRange(ts, vs) <==> InRange(ts[0], vs[0]) && AllInRange(ts[1..], vs[1..])
  {
    if InRange(ts[0], vs[0]) && AllInRange(ts[1..], vs[1..]) {
      forall i | 0 <= i < |ts|
        ensures InRange(ts[i], vs[i])
      {
        if i > 0 {
          assert ts[i] == ts[1..][i - 1] && vs[i] == vs[1..][i - 1];
        }
      }
    }
  }

  lemma {:induction false} MembersWritten(ts: seq<Type>, vs: seq<Value>)
    requires |vs| == |ts| && forall i :: 0 <= i < |vs| ==> HasType(ts[i], vs[i])
    ensures HaveTypes(ts, vs) && WriteAll(ts, vs) == Written(OutputOfElements(ts, vs), AllInRange(ts, vs))
    decreases vs, 1
  {
    MembersTyped(ts, vs);
    if vs != [] {
      WrittenExactly(ts[0], vs[0]);
      MembersWritten(ts[1..], vs[1..]);
      FirstInRange(ts, vs);
    }
  }

  /** A value goes through the serializer if and only if it is in range, and what is
      appended to the sink is its output, in either case. */
  lemma {:induction false} WrittenExactly(t: Type, v: Value)
    requires HasType(t, v)
    ensures Write(t, v) == Written(Output(t, v), InRange(t, v))
    decreases v, 0
  {
    match t
    case Integer(_) =>
    case Utf8(_) =>
    case Variant(elements) => WrittenExactly(elements[v.index], v.value);
    case Tuple(elements) =>
      MembersTyped(elements, v.values);
      MembersWritten(elements, v.values);
    case Structure(fields) =>
      FieldsTyped(fields, v);
      var ts := Whats(fields);
      MembersWritten(ts, v.values);
      OutputOfFieldsIs(fields, ts, v.values);
    case Vector(_, element) =>
      var ts := Copies(element, |v.values|);
      MembersTyped(ts, v.values);
      MembersWritten(ts, v.values);
      OutputOfAllIs(element, ts, v.values);
  }

  lemma {:induction false} InRangeHasType(t: Type, v: Value)
    requires InRange(t, v)
    ensures HasType(t, v)
    decreases v
  {
    match t
    case Integer(range) => WidthHolds(v.n, range.maximum);
    case Utf8(_) =>
    case Variant(elements) => InRangeHasType(elements[v.index], v.value);
    case Tuple(elements) =>
      forall i | 0 <= i < |elements|
        ensures HasType(elements[i], v.values[i])
      {
        InRangeHasType(elements[i], v.values[i]);
      }
      ElementsTyped(elements, v);
    case Structure(fields) =>
      forall i | 0 <= i < |fields|
        ensures HasType(fields[i].what, v.values[i])
      {
        InRangeHasType(fields[i].what, v.values[i]);
      }
      FieldsTyped(fields, v);
    case Vector(_, element) =>
      forall i | 0 <= i < |v.values|
        ensures HasType(element, v.values[i])
      {
        InRangeHasType(element, v.values[i]);
      }
      MembersTyped(Copies(element, |v.values|), v.values);
  }

  /** The values that the serializer accepts are those in range. */
  lemma AcceptedExactly(t: Type, v: Value)
    ensures Accepted(t, v) <==> InRange(t, v)
  {
    if HasType(t, v) {
      WrittenExactly(t, v);
    } else if InRange(t, v) {
      InRangeHasType(t, v);
    }
  }

  /** Of fewer alternatives than 2^64 every one can be sent, the last one too. */
  lemma EveryAlternative(elements: seq<Type>, index: nat, x: Value)
    requires index < |elements| <= 0x1_0000_0000_0000_0000
    ensures InRange(Variant(elements), VariantValue(index, x)) <==> InRange(elements[index], x)
  {
  }
}
