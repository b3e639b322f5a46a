/** The bytes from which a parser makes a value, for every type and value. */
module Layout {
  import opened WireTypes
  import opened BigEndian
  import opened WireFormat
  import opened ParserMachine
  import opened Conformance
  import Seqs
  import Utf8

  /** A byte the parser has to see, or one that it throws away. */
  datatype Cell = Fixed(b: byte) | Any

  function Exactly(bytes: seq<byte>): (cells: seq<Cell>)
    ensures |cells| == |bytes| && forall i :: 0 <= i < |bytes| ==> cells[i] == Fixed(bytes[i])
  {
    seq(|bytes|, i requires 0 <= i < |bytes| => Fixed(bytes[i]))
  }

  /** The byte that a member which is not the last one makes the parser lose. */
  function Thrown(lost: bool): seq<Cell> {
    if lost then [Any] else []
  }

  /** Numbers, lengths and texts as they are written, one byte for the index of a
      variant, and any byte after a late member that is not the last. */
  function Shape(t: Type, v: Value): seq<Cell>
    requires HasType(t, v)
    decreases v, 0
  {
    match t
    case Integer(range) => Exactly(Encode(v.n, Width(range.maximum)))
    case Utf8(codeUnits) => Exactly(Encode(|v.text|, Width(codeUnits.maximum)) + v.text)
    case Variant(elements) => [Fixed(v.index % 256)] + Shape(elements[v.index], v.value)
    case Tuple(_) => ShapeAll(Members(t), v.values)
    case Structure(_) => ShapeAll(Members(t), v.values)
    case Vector(length, element) =>
      Exactly(Encode(|v.values|, Width(length.maximum))) + ShapeAll(Copies(element, |v.values|), v.values)
  }

  function ShapeAll(ts: seq<Type>, vs: seq<Value>): seq<Cell>
    requires HaveTypes(ts, vs)
    decreases vs, 1
  {
    if vs == [] then []
    else Shape(ts[0], vs[0]) + (Thrown(|vs| > 1 && Late(vs[0])) + ShapeAll(ts[1..], vs[1..]))
  }

  /** Every index fits the one byte that is read. */
  predicate Reachable(v: Value)
    decreases v, 0
  {
    match v
    case IntegerValue(_) => true
    case TextValue(_) => true
    case VariantValue(index, x) => index < 256 && Reachable(x)
    case TupleValue(vs) => AllReachable(vs)
    case VectorValue(vs) => AllReachable(vs)
  }

  predicate AllReachable(vs: seq<Value>)
    decreases vs, 1
  {
    vs == [] || (Reachable(vs[0]) && AllReachable(vs[1..]))
  }

  predicate Begins(cells: seq<Cell>, s: seq<byte>) {
    |cells| <= |s| && forall i :: 0 <= i < |cells| ==> cells[i] == Any || cells[i] == Fixed(s[i])
  }

  /** A late value completes on the byte after it. */
  predicate Completes(cells: seq<Cell>, late: bool, s: seq<byte>) {
    Begins(cells, s) && (late ==> |s| > |cells|)
  }

  lemma BeginsInTurn(a: seq<Cell>, b: seq<Cell>, s: seq<byte>)
    ensures Begins(a + b, s) <==> Begins(a, s) && Begins(b, s[|a|..])
  {
    if Begins(a + b, s) {
      assert forall i :: 0 <= i < |a| ==> (a + b)[i] == a[i];
      forall i | 0 <= i < |b|
        ensures b[i] == Any || b[i] == Fixed(s[|a|..][i])
      {
        assert (a + b)[|a| + i] == b[i];
      }
    }
  }

  lemma BeginsExactly(bytes: seq<byte>, s: seq<byte>)
    ensures Begins(Exactly(bytes), s) <==> bytes <= s
  {
    if Begins(Exactly(bytes), s) {
      assert bytes == s[..|bytes|];
    }
  }

  lemma ExactlyInTurn(a: seq<byte>, b: seq<byte>)
    ensures Exactly(a + b) == Exactly(a) + Exactly(b)
  {
  }

  // ----- the parser finds a value exactly where its layout begins -----

  predicate Finds(o: Outcome<Value>, v: Value, cells: seq<Cell>) {
    o == Found(v, |cells|, Late(v))
  }

  /** Both directions for one value: found means seen, and seen means found. */
  predicate Exact(t: Type, v: Value, s: seq<byte>)
    requires HasType(t, v)
  {
    var o := Read(t, s);
    && (o.Found? && o.value == v ==> Reachable(v) && Completes(Shape(t, v), Late(v), s))
    && (Reachable(v) && Completes(Shape(t, v), Late(v), s) ==> Finds(o, v, Shape(t, v)))
  }

  predicate ExactAll(ts: seq<Type>, vs: seq<Value>, s: seq<byte>)
    requires HaveTypes(ts, vs) && ts != []
  {
    var o := ReadAll(ts, s);
    && (o.Found? && o.value == vs ==> AllReachable(vs) && Completes(ShapeAll(ts, vs), LastLate(vs), s))
    && (AllReachable(vs) && Completes(ShapeAll(ts, vs), LastLate(vs), s)
        ==> o == Found(vs, |ShapeAll(ts, vs)|, LastLate(vs)))
  }

  /** A number is found exactly where its bytes are. */
  lemma NumberExact(width: nat, n: nat, s: seq<byte>)
    requires 0 < width && n < Pow256(width)
    ensures ReadInteger(width, s) == Found(n, width, false) <==> Encode(n, width) <= s
    ensures ReadInteger(width, s).Found? && ReadInteger(width, s).value == n ==> Encode(n, width) <= s
  {
    if |s| >= width {
      EncodeDecode(s[..width]);
    }
    if Encode(n, width) <= s {
      DecodeEncode(n, width);
      assert s[..width] == Encode(n, width);
    }
  }

  lemma NumberIsExact(range: IntegerRange, n: nat, s: seq<byte>)
    requires n < Pow256(Width(range.maximum))
    ensures Exact(Integer(range), IntegerValue(n), s)
  {
    hide Encode;
    var w := Width(range.maximum);
    NumberExact(w, n, s);
    BeginsExactly(Encode(n, w), s);
  }

  lemma TextIsExact(codeUnits: IntegerRange, text: seq<byte>, s: seq<byte>)
    requires Utf8.IsValid(text) && |text| < Pow256(Width(codeUnits.maximum))
    ensures Exact(Utf8(codeUnits), TextValue(text), s)
  {
    hide Encode, Utf8.IsValid, Read, Shape, Late, Reachable, Exactly, Begins, Pow256;
    var bytes := Encode(|text|, Width(codeUnits.maximum)) + text;
    TextShape(codeUnits, text);
    BeginsExactly(bytes, s);
    if bytes <= s {
      TextFound(codeUnits, text, s);
    } else {
      TextNotFound(codeUnits, text, s);
    }
  }

  lemma TextShape(codeUnits: IntegerRange, text: seq<byte>)
    requires Utf8.IsValid(text) && |text| < Pow256(Width(codeUnits.maximum))
    ensures Shape(Utf8(codeUnits), TextValue(text)) == Exactly(Encode(|text|, Width(codeUnits.maximum)) + text)
    ensures !Late(TextValue(text)) && Reachable(TextValue(text))
  {
    hide Encode, Utf8.IsValid, Exactly, Pow256;
  }

  lemma TextFound(codeUnits: IntegerRange, text: seq<byte>, s: seq<byte>)
    requires Utf8.IsValid(text) && |text| < Pow256(Width(codeUnits.maximum))
    requires Encode(|text|, Width(codeUnits.maximum)) + text <= s
    ensures Read(Utf8(codeUnits), s) == Found(TextValue(text), Width(codeUnits.maximum) + |text|, false)
  {
    hide Encode, Utf8.IsValid, ReadInteger;
    var w := Width(codeUnits.maximum);
    var length := Encode(|text|, w);
    assert length <= s;
    NumberExact(w, |text|, s);
    TakeBoth(length, text, s);
  }

  lemma TextNotFound(codeUnits: IntegerRange, text: seq<byte>, s: seq<byte>)
    requires Utf8.IsValid(text) && |text| < Pow256(Width(codeUnits.maximum))
    requires !(Encode(|text|, Width(codeUnits.maximum)) + text <= s)
    ensures Read(Utf8(codeUnits), s).Found? ==> Read(Utf8(codeUnits), s).value != TextValue(text)
  {
    hide Encode, Utf8.IsValid, ReadInteger;
    var w := Width(codeUnits.maximum);
    var length := Encode(|text|, w);
    NumberExact(w, |text|, s);
    if length <= s && |s| >= w + |text| {
      TakeBoth(length, text, s);
    }
  }

  lemma TakeBoth(a: seq<byte>, b: seq<byte>, s: seq<byte>)
    requires a <= s && |s| >= |a| + |b|
    ensures a + b <= s <==> s[|a|..|a| + |b|] == b
  {
    assert s[..|a| + |b|] == s[..|a|] + s[|a|..|a| + |b|];
    if a + b <= s {
      assert s[..|a| + |b|] == a + b;
    }
  }

  lemma VariantIsExact(elements: seq<Type>, v: Value, s: seq<byte>)
    requires HasType(Variant(elements), v)
    requires s != [] ==> Exact(elements[v.index], v.value, s[1..])
    ensures Exact(Variant(elements), v, s)
  {
    hide Shape, ReadAll, ReadTuple, HaveTypes;
    var cells := Shape(elements[v.index], v.value);
    VariantShape(elements, v);
    BeginsInTurn([Fixed(v.index % 256)], cells, s);
    assert s != [] && v.index < 256 ==> (Begins([Fixed(v.index % 256)], s) <==> s[0] == v.index);
  }

  lemma VariantShape(elements: seq<Type>, v: Value)
    requires HasType(Variant(elements), v)
    ensures v.VariantValue? && v.index < |elements| && HasType(elements[v.index], v.value)
    ensures Shape(Variant(elements), v) == [Fixed(v.index % 256)] + Shape(elements[v.index], v.value)
    ensures Late(v) == Late(v.value) && (Reachable(v) <==> v.index < 256 && Reachable(v.value))
  {
  }

  lemma VectorIsExact(length: IntegerRange, element: Type, vs: seq<Value>, s: seq<byte>)
    requires HasType(Vector(length, element), VectorValue(vs)) && |vs| < Pow256(Width(length.maximum))
    requires var w := Width(length.maximum);
             vs != [] && |s| >= w ==> ExactAll(Copies(element, |vs|), vs, s[w..])
    ensures Exact(Vector(length, element), VectorValue(vs), s)
  {
    hide ShapeAll, ReadAll, AllReachable, Encode, Copies, HaveTypes;
    var w := Width(length.maximum);
    var head, cells := Encode(|vs|, w), ShapeAll(Copies(element, |vs|), vs);
    NumberExact(w, |vs|, s);
    BeginsExactly(head, s);
    BeginsInTurn(Exactly(head), cells, s);
    if vs == [] {
      NoShape(element);
    }
  }

  lemma NoShape(element: Type)
    ensures HaveTypes(Copies(element, 0), []) && ShapeAll(Copies(element, 0), []) == [] && AllReachable([])
  {
  }

  lemma TupleIsExact(t: Type, v: Value, s: seq<byte>)
    requires (t.Tuple? || t.Structure?) && HasType(t, v)
    requires v.values != [] ==> ExactAll(Members(t), v.values, s)
    ensures Exact(t, v, s)
  {
    hide ReadAll, Members, HaveTypes, HasType, Shape, ShapeAll;
    TupleShape(t, v);
    assert v == TupleValue(v.values);
    if v.values == [] {
      assert Members(t) == [] && Shape(t, v) == [] && Late(v) && Reachable(v);
      assert Read(t, s) == if s == [] then More else Found(v, 0, true);
    } else {
      var o := ReadAll(Members(t), s);
      assert Late(v) == LastLate(v.values) && Reachable(v) == AllReachable(v.values);
      assert Read(t, s) == ReadTuple(Members(t), s);
      assert o.Found? ==> Read(t, s) == Found(TupleValue(o.value), o.used, o.late);
    }
  }

  lemma TupleShape(t: Type, v: Value)
    requires (t.Tuple? || t.Structure?) && HasType(t, v)
    ensures v.TupleValue? && HaveTypes(Members(t), v.values) && |Members(t)| == |v.values|
    ensures Shape(t, v) == ShapeAll(Members(t), v.values)
    ensures v.values == [] ==> Shape(t, v) == []
  {
  }

  // ----- members in turn -----

  lemma CompletesInTurn(first: seq<Cell>, lost: bool, rest: seq<Cell>, late: bool, s: seq<byte>)
    ensures var all := first + (Thrown(lost) + rest);
            var start := |first| + |Thrown(lost)|;
            && |all| == start + |rest|
            && (Completes(all, late, s) <==>
                  Completes(first, lost, s) && start <= |s| && Completes(rest, late, s[start..]))
  {
    BeginsInTurn(first, Thrown(lost) + rest, s);
    if Begins(first, s) {
      BeginsInTurn(Thrown(lost), rest, s[|first|..]);
      if |first| + |Thrown(lost)| <= |s| {
        Seqs.DropDrop(s, |first|, |Thrown(lost)|);
      }
    }
  }

  lemma MemberFacts(ts: seq<Type>, vs: seq<Value>)
    requires HaveTypes(ts, vs) && vs != []
    ensures |ts| == |vs| && HasType(ts[0], vs[0]) && HaveTypes(ts[1..], vs[1..])
    ensures ShapeAll(ts, vs)
         == Shape(ts[0], vs[0]) + (Thrown(|vs| > 1 && Late(vs[0])) + ShapeAll(ts[1..], vs[1..]))
    ensures AllReachable(vs) <==> Reachable(vs[0]) && AllReachable(vs[1..])
    ensures LastLate(vs) == if |vs| == 1 then Late(vs[0]) else LastLate(vs[1..])
    ensures |vs| == 1 ==> ShapeAll(ts, vs) == Shape(ts[0], vs[0]) && AllReachable(vs[1..])
  {
    hide Shape, Reachable, Late, HasType;
  }

  lemma OneIsExact(ts: seq<Type>, vs: seq<Value>, s: seq<byte>)
    requires HaveTypes(ts, vs) && |vs| == 1 && HasType(ts[0], vs[0]) && Exact(ts[0], vs[0], s)
    ensures ExactAll(ts, vs, s)
  {
    hide Shape, ShapeAll, Read, HasType, HaveTypes, Late, LastLate, Reachable, AllReachable, Completes;
    MemberFacts(ts, vs);
    assert vs == [vs[0]];
  }

  lemma MembersInTurn(ts: seq<Type>, vs: seq<Value>, s: seq<byte>)
    requires HaveTypes(ts, vs) && |vs| > 1 && HasType(ts[0], vs[0]) && HaveTypes(ts[1..], vs[1..])
    requires Exact(ts[0], vs[0], s)
    requires var start := |Shape(ts[0], vs[0])| + |Thrown(Late(vs[0]))|;
             start <= |s| ==> ExactAll(ts[1..], vs[1..], s[start..])
    ensures ExactAll(ts, vs, s)
  {
    hide Shape, ShapeAll, Read, HasType, HaveTypes, Late, LastLate, Reachable, AllReachable, Completes;
    MemberFacts(ts, vs);
    CompletesInTurn(Shape(ts[0], vs[0]), Late(vs[0]), ShapeAll(ts[1..], vs[1..]), LastLate(vs[1..]), s);
    Seqs.Cons(vs);
    var o := Read(ts[0], s);
    if o.Found? {
      SameMembers(vs, o.value, ReadAll(ts[1..], s[if o.late then o.used + 1 else o.used..]));
    }
  }

  lemma SameMembers(vs: seq<Value>, v: Value, o: Outcome<seq<Value>>)
    requires vs != []
    ensures o.Found? ==> ([v] + o.value == vs <==> v == vs[0] && o.value == vs[1..])
  {
    Seqs.Cons(vs);
    if o.Found? {
      Seqs.Split([v], o.value);
    }
  }

  lemma AcceptedMembers(ts: seq<Type>, vs: seq<Value>)
    requires AllAccepted(ts, vs) && vs != []
    ensures |ts| == |vs| && Accepted(ts[0], vs[0]) && AllAccepted(ts[1..], vs[1..])
  {
    hide Write;
  }

  /** A parser that is given `s` finds an accepted value in it if and only if the
      value can be reached and its layout is the beginning of `s`, with a byte
      after it if the value is late. Then it uses up as much as the layout has. */
  lemma {:induction false} FoundExactly(t: Type, v: Value, s: seq<byte>)
    requires Accepted(t, v)
    ensures Exact(t, v, s)
    decreases v, 0
  {
    match t
    case Integer(range) => NumberIsExact(range, v.n, s);
    case Utf8(codeUnits) =>
      WidthHolds(|v.text|, codeUnits.maximum);
      TextIsExact(codeUnits, v.text, s);
    case Variant(elements) =>
      if s != [] {
        FoundExactly(elements[v.index], v.value, s[1..]);
      }
      VariantIsExact(elements, v, s);
    case Tuple(_) =>
      if v.values != [] {
        AllFoundExactly(Members(t), v.values, s);
      }
      TupleIsExact(t, v, s);
    case Structure(_) =>
      if v.values != [] {
        AllFoundExactly(Members(t), v.values, s);
      }
      TupleIsExact(t, v, s);
    case Vector(length, element) =>
      var w := Width(length.maximum);
      WidthHolds(|v.values|, length.maximum);
      if v.values != [] && |s| >= w {
        AllFoundExactly(Copies(element, |v.values|), v.values, s[w..]);
      }
      VectorIsExact(length, element, v.values, s);
  }

  lemma {:induction false} AllFoundExactly(ts: seq<Type>, vs: seq<Value>, s: seq<byte>)
    requires AllAccepted(ts, vs) && vs != []
    ensures ExactAll(ts, vs, s)
    decreases vs, 1
  {
    hide Exact, ExactAll, Shape, Late;
    AcceptedMembers(ts, vs);
    FoundExactly(ts[0], vs[0], s);
    if |vs| == 1 {
      OneIsExact(ts, vs, s);
    } else {
      var start := |Shape(ts[0], vs[0])| + |Thrown(Late(vs[0]))|;
      if start <= |s| {
        AllFoundExactly(ts[1..], vs[1..], s[start..]);
      }
      MembersInTurn(ts, vs, s);
    }
  }

  // ----- how long the layout is -----

  /** Its length is that of the encoding without index bytes that are not read and
      with the bytes that are lost. */
  lemma {:induction false} ShapeLength(t: Type, v: Value)
    requires HasType(t, v)
    ensures |Shape(t, v)| + Excess(t, v) == Length(t, v) + Lost(v)
    decreases v, 0
  {
    match t
    case Integer(_) =>
    case Utf8(_) =>
    case Variant(elements) => ShapeLength(elements[v.index], v.value);
    case Tuple(_) => ShapeAllLength(Members(t), v.values);
    case Structure(_) => ShapeAllLength(Members(t), v.values);
    case Vector(_, element) => ShapeAllLength(Copies(element, |v.values|), v.values);
  }

  lemma {:induction false} ShapeAllLength(ts: seq<Type>, vs: seq<Value>)
    requires HaveTypes(ts, vs)
    ensures |ShapeAll(ts, vs)| + ExcessAll(ts, vs) == LengthAll(ts, vs) + LostAll(vs)
    decreases vs, 1
  {
    if vs != [] {
      ShapeLength(ts[0], vs[0]);
      ShapeAllLength(ts[1..], vs[1..]);
    }
  }

  /** Of a value that loses nothing and has no wide index it is the encoding. */
  lemma {:induction false} PlainShape(t: Type, v: Value)
    requires Accepted(t, v) && Plain(t, v)
    ensures Reachable(v) && Shape(t, v) == Exactly(Write(t, v).bytes)
    decreases v, 0
  {
    match t
    case Integer(_) =>
    case Utf8(_) =>
    case Variant(elements) =>
      PlainShape(elements[v.index], v.value);
      PlainIndex(elements, v);
    case Tuple(_) => PlainShapeAll(Members(t), v.values);
    case Structure(_) => PlainShapeAll(Members(t), v.values);
    case Vector(length, element) =>
      PlainShapeAll(Copies(element, |v.values|), v.values);
      PlainVector(length, element, v);
  }

  lemma PlainVector(length: IntegerRange, element: Type, v: Value)
    requires Accepted(Vector(length, element), v) && Plain(Vector(length, element), v)
    requires AllReachable(v.values)
    requires ShapeAll(Copies(element, |v.values|), v.values)
          == Exactly(WriteAll(Copies(element, |v.values|), v.values).bytes)
    ensures Reachable(v) && Shape(Vector(length, element), v) == Exactly(Write(Vector(length, element), v).bytes)
  {
    hide ShapeAll, WriteAll, AllReachable, Copies, Encode, LostAll, ExcessAll;
    ExactlyInTurn(Encode(|v.values|, Width(length.maximum)), WriteAll(Copies(element, |v.values|), v.values).bytes);
  }

  lemma PlainIndex(elements: seq<Type>, v: Value)
    requires Accepted(Variant(elements), v) && Plain(Variant(elements), v)
    ensures v.index < 256
    ensures Write(Variant(elements), v).bytes == [v.index] + Write(elements[v.index], v.value).bytes
    ensures Exactly(Write(Variant(elements), v).bytes)
         == [Fixed(v.index)] + Exactly(Write(elements[v.index], v.value).bytes)
  {
    hide Shape;
    EncodeByte(v.index);
  }

  lemma {:induction false} PlainShapeAll(ts: seq<Type>, vs: seq<Value>)
    requires AllAccepted(ts, vs) && AllPlain(ts, vs)
    ensures AllReachable(vs) && ShapeAll(ts, vs) == Exactly(WriteAll(ts, vs).bytes)
    decreases vs, 1
  {
    if vs != [] {
      PlainShape(ts[0], vs[0]);
      PlainShapeAll(ts[1..], vs[1..]);
      ExactlyInTurn(Write(ts[0], vs[0]).bytes, WriteAll(ts[1..], vs[1..]).bytes);
    }
  }
}
