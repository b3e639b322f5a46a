/** What the parsers do with what the serializers write. */
module RoundTrip {
  import opened WireTypes
  import opened BigEndian
  import opened WireFormat
  import opened ParserMachine
  import opened Conformance
  import opened Layout
  import Seqs

  /** Types whose parser reads the documented format. */
  predicate Conforming(t: Type) {
    Narrow(t) && Safe(t)
  }

  /** A value is read back from its own encoding, which is used up exactly. */
  predicate ReadBack(t: Type, v: Value, rest: seq<byte>)
    requires Accepted(t, v)
  {
    var written := Write(t, v).bytes;
    Run(Initial(t), written + rest) == Done(v, |written|, Late(v))
  }

  /** For every type and every string of bytes: an accepted value is parsed from the
      bytes if and only if each of its indices fits a byte and its layout is their
      beginning, followed by another byte if the value is late. */
  lemma ParsedExactly(t: Type, v: Value, s: seq<byte>)
    requires Accepted(t, v)
    ensures var r := Run(Initial(t), s);
            && (r.Done? && r.value == v <==> Reachable(v) && Completes(Shape(t, v), Late(v), s))
            && (r.Done? && r.value == v ==> r.used == |Shape(t, v)| && r.late == Late(v))
  {
    hide Run, Read, Shape, Reachable, Completes;
    RunIsRead(t, s);
    FoundExactly(t, v, s);
  }

  /** The encoding of the value is what its parser has to see for it. */
  predicate FitsLayout(t: Type, v: Value)
    requires Accepted(t, v)
  {
    var written := Write(t, v).bytes;
    Reachable(v) && |written| == |Shape(t, v)| && Begins(Shape(t, v), written)
  }

  /** For every type: an accepted value survives the round trip if and only if its
      encoding fits its layout, and there is a byte after it if it is late. */
  lemma ReadBackExactly(t: Type, v: Value, rest: seq<byte>)
    requires Accepted(t, v)
    ensures ReadBack(t, v, rest) <==> FitsLayout(t, v) && (Late(v) ==> rest != [])
  {
    hide Run, Shape, Reachable, Write, Late;
    var written := Write(t, v).bytes;
    ParsedExactly(t, v, written + rest);
    if |written| == |Shape(t, v)| {
      Seqs.Split(written, rest);
      BeginsPart(Shape(t, v), written, rest);
    }
  }

  lemma BeginsPart(cells: seq<Cell>, s: seq<byte>, rest: seq<byte>)
    requires |cells| <= |s|
    ensures Begins(cells, s + rest) <==> Begins(cells, s)
  {
    assert forall i :: 0 <= i < |cells| ==> (s + rest)[i] == s[i];
  }

  /** The encoding has the length of the layout if and only if the parser loses as
      many bytes as there are index bytes that are not read. */
  lemma LayoutBalances(t: Type, v: Value)
    requires Accepted(t, v)
    ensures |Write(t, v).bytes| == |Shape(t, v)| <==> Lost(v) == Excess(t, v)
  {
    ShapeLength(t, v);
    WrittenLength(t, v);
  }

  /** Hence a value is read back only if these are as many. */
  lemma ReadBackBalances(t: Type, v: Value, rest: seq<byte>, late: bool)
    requires Accepted(t, v)
    requires var written := Write(t, v).bytes;
             Run(Initial(t), written + rest) == Done(v, |written|, late)
    ensures Lost(v) == Excess(t, v) && late == Late(v)
  {
    hide Run, Shape, Reachable, Completes, Write;
    ParsedExactly(t, v, Write(t, v).bytes + rest);
    LayoutBalances(t, v);
  }

  /** Without such an index the parser gets `v` out of its own encoding, which it
      uses up exactly, if and only if `v` has no member that makes it lose a byte. */
  lemma RoundTripExactly(t: Type, v: Value, rest: seq<byte>)
    requires Accepted(t, v) && Excess(t, v) == 0
    ensures Lost(v) == 0 && (Late(v) ==> rest != []) <==> ReadBack(t, v, rest)
  {
    hide ReadBack, Shape, Reachable, Write, Late, Lost, Excess;
    ReadBackExactly(t, v, rest);
    LayoutBalances(t, v);
    if Lost(v) == 0 {
      PlainShape(t, v);
    }
  }

  /** A value of a safe type is read back if and only if no variant in it has an
      index that is written wider than the byte that is read. */
  lemma SafeRoundTripExactly(t: Type, v: Value, rest: seq<byte>)
    requires Safe(t) && Accepted(t, v)
    ensures Excess(t, v) == 0 && (Late(v) ==> rest != []) <==> ReadBack(t, v, rest)
  {
    hide ReadBack, Shape, Reachable, Write, Late, Lost, Excess;
    SafeLosesNothing(t, v);
    ReadBackExactly(t, v, rest);
    LayoutBalances(t, v);
    if Excess(t, v) == 0 {
      RoundTripExactly(t, v, rest);
    }
  }

  // ----- variants of more than 256 alternatives -----

  predicate Wide(elements: seq<Type>) {
    256 < |elements| <= 0x1_0000_0000_0000_0000
  }

  function IndexWidth(elements: seq<Type>): nat {
    Width(IndexRange(|elements|).maximum)
  }

  lemma ShiftRightShrinks(value: nat, bytes: nat)
    ensures ShiftRight(value, bytes) <= value
    ensures bytes > 0 && value > 0 ==> ShiftRight(value, bytes) < value
    decreases bytes
  {
    if bytes > 0 {
      ShiftRightShrinks(value / 256, bytes - 1);
    }
  }

  /** Of an index written wide the byte that is read is that of the index only if
      the index is zero. */
  lemma FirstIndexByte(elements: seq<Type>, v: Value, rest: seq<byte>)
    requires Wide(elements) && Accepted(Variant(elements), v)
    ensures IndexWidth(elements) > 1
    ensures var s := Write(Variant(elements), v).bytes + rest;
            && |s| >= IndexWidth(elements)
            && s[..IndexWidth(elements)] == Encode(v.index, IndexWidth(elements))
            && s[IndexWidth(elements)..] == Write(elements[v.index], v.value).bytes + rest
            && (s[0] == v.index <==> v.index == 0)
  {
    var w := IndexWidth(elements);
    var index, body := Encode(v.index, w), Write(elements[v.index], v.value).bytes;
    assert |elements| - 1 > 0xff;
    assert Write(Variant(elements), v).bytes == index + body;
    Seqs.Assoc(index, body, rest);
    Seqs.Split(index, body + rest);
    WidthHolds(v.index, IndexRange(|elements|).maximum);
    EncodeAt(v.index, w, 0);
    ShiftRightShrinks(v.index, w - 1);
    ShiftRightShrinks(0, w - 1);
    assert index[0] == ShiftRight(v.index, w - 1) % 256 <= ShiftRight(v.index, w - 1);
  }

  /** A value of any other alternative than the first is never read back, neither
      exactly nor with bytes left over or lost, whatever its type. */
  lemma WideVariantNeverRoundTrips(elements: seq<Type>, v: Value, rest: seq<byte>, used: nat, late: bool)
    requires Wide(elements) && Accepted(Variant(elements), v) && v.index != 0
    ensures Run(Initial(Variant(elements)), Write(Variant(elements), v).bytes + rest) != Done(v, used, late)
  {
    var s := Write(Variant(elements), v).bytes + rest;
    RunIsRead(Variant(elements), s);
    FirstIndexByte(elements, v, rest);
  }

  /** A value of the first alternative is read back if and only if what is left of
      the index and the encoding of that alternative fit the alternative's layout. */
  lemma WideVariantFirstAlternative(elements: seq<Type>, v: Value, rest: seq<byte>)
    requires Wide(elements) && Accepted(Variant(elements), v) && v.index == 0
    ensures var cells := Shape(elements[0], v.value);
            var seen := Encode(0, IndexWidth(elements))[1..] + Write(elements[0], v.value).bytes;
            ReadBack(Variant(elements), v, rest)
            <==> Reachable(v.value) && |seen| == |cells| && Begins(cells, seen) && (Late(v.value) ==> rest != [])
    ensures var seen := Encode(0, IndexWidth(elements))[1..] + Write(elements[0], v.value).bytes;
            ReadBack(Variant(elements), v, rest)
            <==> Run(Initial(elements[0]), seen + rest) == Done(v.value, |seen|, Late(v.value))
  {
    hide Shape, Run, ReadBack, Encode;
    var t, w := Variant(elements), IndexWidth(elements);
    var index, body := Encode(0, w), Write(elements[0], v.value).bytes;
    FirstIndexByte(elements, v, rest);
    IndexFirst(elements, v);
    VariantShape(elements, v);
    ReadBackExactly(t, v, rest);
    var cells := Shape(elements[0], v.value);
    assert Write(t, v).bytes == [index[0]] + (index[1..] + body);
    BeginsInTurn([Fixed(0)], cells, Write(t, v).bytes);
    var seen := index[1..] + body;
    ParsedExactly(elements[0], v.value, seen + rest);
    if |seen| == |cells| {
      BeginsPart(cells, seen, rest);
    }
  }

  lemma IndexFirst(elements: seq<Type>, v: Value)
    requires Wide(elements) && Accepted(Variant(elements), v) && v.index == 0
    ensures Write(Variant(elements), v).bytes == Encode(0, IndexWidth(elements)) + Write(elements[0], v.value).bytes
    ensures Encode(0, IndexWidth(elements))[0] == 0
  {
    FirstIndexByte(elements, v, []);
    var written := Write(Variant(elements), v).bytes;
    assert written + [] == written;
    EncodeAt(0, IndexWidth(elements), 0);
    ShiftRightShrinks(0, IndexWidth(elements) - 1);
  }

  // ----- a value that is not read back, and one that is by chance -----

  const NUMBER: Type := Integer(IntegerRange(0, 0xff))

  /** 257 alternatives of the same kind. */
  function Many(t: Type): (ts: seq<Type>)
    ensures |ts| == 257 && forall i :: 0 <= i < 257 ==> ts[i] == t
  {
    Copies(t, 257)
  }

  lemma NumberWritten(n: byte)
    ensures HasType(NUMBER, IntegerValue(n))
    ensures Write(NUMBER, IntegerValue(n)) == Written([n], true)
  {
    assert Pow256(1) == 256;
    EncodeByte(n);
  }

  lemma NumberRead(n: byte, rest: seq<byte>)
    ensures Read(NUMBER, [n] + rest) == Found(IntegerValue(n), 1, false)
  {
    DecodeSnoc([], n);
    assert ([n] + rest)[..1] == [] + [n];
  }

  lemma FirstAlternative(t: Type, x: Value)
    requires Accepted(t, x)
    ensures var v := VariantValue(0, x);
            && Accepted(Variant(Many(t)), v) && IndexWidth(Many(t)) == 2
            && Write(Variant(Many(t)), v).bytes == [0, 0] + Write(t, x).bytes
  {
    hide Many;
    assert Encode(0, 1) == [0];
    assert Encode(0, 2) == [0, 0];
  }

  lemma ReadFirstAlternative(t: Type, s: seq<byte>)
    requires s != [] && s[0] == 0 && Read(t, s[1..]).Found?
    ensures var Found(x, used, late) := Read(t, s[1..]);
            Run(Initial(Variant(Many(t))), s) == Done(VariantValue(0, x), 1 + used, late)
  {
    hide Many;
    RunIsRead(Variant(Many(t)), s);
  }

  /** The number 7 as the first of 257 alternatives is written as 0, 0, 7. What is
      read is the number 0, and the 7 is left over. */
  lemma NumberIsNotReadBack(rest: seq<byte>)
    ensures var t, v := Variant(Many(NUMBER)), VariantValue(0, IntegerValue(7));
            && Accepted(t, v) && Lost(v) == 0 && Write(t, v).bytes == [0, 0, 7] && !ReadBack(t, v, rest)
            && Run(Initial(t), [0, 0, 7] + rest) == Done(VariantValue(0, IntegerValue(0)), 2, false)
  {
    hide Many;
    NumberWritten(7);
    FirstAlternative(NUMBER, IntegerValue(7));
    var s := [0, 0, 7] + rest;
    assert s[1..] == [0] + ([7] + rest);
    NumberRead(0, [7] + rest);
    ReadFirstAlternative(NUMBER, s);
  }

  /** The empty tuple in front of a number makes the parser lose a byte, and here
      it is the one that the index is too wide: the value is read back. */
  lemma LossMakesUpForWidth(n: byte, rest: seq<byte>)
    ensures var t := Variant(Many(Tuple([Tuple([]), NUMBER])));
            var v := VariantValue(0, TupleValue([TupleValue([]), IntegerValue(n)]));
            Accepted(t, v) && Lost(v) == 1 && ReadBack(t, v, rest)
  {
    hide Many;
    var pair, x := Tuple([Tuple([]), NUMBER]), TupleValue([TupleValue([]), IntegerValue(n)]);
    PairWritten(n);
    FirstAlternative(pair, x);
    var s := [0, 0] + Write(pair, x).bytes + rest;
    assert s[1..] == [0, n] + rest;
    PairRead(n, rest);
    ReadFirstAlternative(pair, s);
  }

  lemma PairWritten(n: byte)
    ensures var x := TupleValue([TupleValue([]), IntegerValue(n)]);
            && Accepted(Tuple([Tuple([]), NUMBER]), x) && Lost(x) == 1 && !Late(x)
            && Write(Tuple([Tuple([]), NUMBER]), x).bytes == [n]
  {
    NumberWritten(n);
    var ts, number := [Tuple([]), NUMBER], IntegerValue(n);
    assert ts[1..] == [NUMBER] && [NUMBER][1..] == [];
    AllFromMember([NUMBER], number, []);
    AllFromMember(ts, TupleValue([]), [number]);
    assert [TupleValue([])] + [number] == [TupleValue([]), number];
    assert [number] + [] == [number];
    assert WriteAll([NUMBER], [number]) == Written([n], true);
    assert [TupleValue([]), number][1..] == [number];
    assert Write(ts[0], TupleValue([])) == Written([], true);
    assert WriteAll(ts, [TupleValue([]), number]) == Written([n], true);
  }

  lemma PairRead(n: byte, rest: seq<byte>)
    ensures Read(Tuple([Tuple([]), NUMBER]), [0, n] + rest)
         == Found(TupleValue([TupleValue([]), IntegerValue(n)]), 2, false)
  {
    var ts, s := [Tuple([]), NUMBER], [0, n] + rest;
    assert s[1..] == [n] + rest;
    NumberRead(n, rest);
    assert ts[1..] == [NUMBER];
    assert ReadAll([NUMBER], s[1..]) == Found([IntegerValue(n)], 1, false);
    assert Read(ts[0], s) == Found(TupleValue([]), 0, true);
    assert [TupleValue([])] + [IntegerValue(n)] == [TupleValue([]), IntegerValue(n)];
    assert ReadAll(ts, s) == Found([TupleValue([]), IntegerValue(n)], 2, false);
    assert ReadTuple(ts, s) == Found(TupleValue([TupleValue([]), IntegerValue(n)]), 2, false);
  }

  /** Of a value that loses nothing, every proper prefix leaves the parser
      waiting; its last byte completes it, unless it is late and completes on
      the byte after. */
  lemma Timing(t: Type, v: Value, k: nat)
    requires Accepted(t, v) && Lost(v) == 0 && Excess(t, v) == 0
    requires k <= |Write(t, v).bytes|
    ensures var written := Write(t, v).bytes;
            if k == |written| && !Late(v) then Run(Initial(t), written[..k]) == Done(v, k, false)
            else Run(Initial(t), written[..k]).Waiting?
  {
    var written := Write(t, v).bytes;
    if k == |written| {
      DecodeWritten(t, v, []);
      Seqs.Split(written, []);
      assert written + [] == written && written[..k] == written;
      ReadOfDecoded(t, written);
      RunIsRead(t, written);
    } else {
      var rest := written[k..] + [0];
      RoundTripExactly(t, v, [0]);
      Seqs.Assoc(written[..k], written[k..], [0]);
      assert written[..k] + written[k..] == written;
      RunSplit(Initial(t), written[..k], rest);
    }
  }

  /** For a conforming type the machine's verdict on any string of bytes is the
      documented one. */
  lemma ConformingRun(t: Type, s: seq<byte>)
    requires Conforming(t)
    ensures match DecodeValue(t, s)
            case Complete(v, used) =>
              if Late(v) && used == |s| then Run(Initial(t), s).Waiting?
              else Run(Initial(t), s) == Done(v, used, Late(v))
            case Truncated => Run(Initial(t), s).Waiting?
            case Malformed => Run(Initial(t), s) == Failed
  {
    RunIsRead(t, s);
    SafeRead(t, s);
  }

  /** If the machine completes with a value in range, it has consumed exactly
      the bytes the serializer writes for that value. */
  lemma Canonical(t: Type, s: seq<byte>)
    requires Conforming(t) && Run(Initial(t), s).Done?
    ensures HasType(t, Run(Initial(t), s).value)
    ensures Accepted(t, Run(Initial(t), s).value)
        ==> Write(t, Run(Initial(t), s).value).bytes == s[..Run(Initial(t), s).used]
  {
    ConformingRun(t, s);
    WriteOfDecoded(t, s);
  }

  // ----- immediate completion -----

  /** A type that completes immediately has one value, encoded as nothing. */
  lemma {:induction false} ImmediateIsEmpty(t: Type, v: Value)
    requires Immediate(t) && HasType(t, v)
    ensures v == ImmediateValue(t) && Write(t, v) == Written([], true)
    decreases Depth(t)
  {
    var ts := Members(t);
    if ts != [] {
      MemberDepth(ts, 0);
      assert v.values == [v.values[0]];
      assert HaveTypes(ts[1..], v.values[1..]);
      ImmediateIsEmpty(ts[0], v.values[0]);
      assert WriteAll(ts[1..], v.values[1..]) == Written([], true);
    }
  }

  lemma {:induction false} ImmediateHasType(t: Type)
    requires Immediate(t)
    ensures HasType(t, ImmediateValue(t))
    decreases Depth(t)
  {
    var ts := Members(t);
    if ts != [] {
      MemberDepth(ts, 0);
      ImmediateHasType(ts[0]);
      HaveTypesEach(ts, [ImmediateValue(ts[0])]);
    }
  }

  // ----- a parse operation on the bytes available so far -----

  /** The outcome of a parse operation that has been given `s`: parsers that
      complete immediately are never fed. */
  function Parse(t: Type, s: seq<byte>): (r: Ran)
    ensures r.Done? ==> r.used <= |s|
  {
    if Immediate(t) then Done(ImmediateValue(t), 0, false) else Run(Initial(t), s)
  }

  lemma ParsedHasType(t: Type, s: seq<byte>)
    requires Parse(t, s).Done?
    ensures HasType(t, Parse(t, s).value)
  {
    if Immediate(t) {
      ImmediateHasType(t);
    } else {
      RunIsRead(t, s);
      ReadConserves(t, s);
    }
  }

  // ----- when a parse operation completes before any byte -----

  lemma {:induction false} AllEmpty(ts: seq<Type>, vs: seq<Value>, i: nat)
    requires AllAccepted(ts, vs) && WriteAll(ts, vs).bytes == [] && i < |vs|
    ensures Accepted(ts[i], vs[i]) && Write(ts[i], vs[i]).bytes == []
    decreases i
  {
    if i > 0 {
      AllEmpty(ts[1..], vs[1..], i - 1);
    }
  }

  /** What is encoded as nothing needs to see a byte. */
  lemma {:induction false} EmptyIsLate(t: Type, v: Value)
    requires Accepted(t, v) && Write(t, v).bytes == []
    ensures Late(v) && (t.Tuple? || t.Structure?)
    decreases v
  {
    match t
    case Integer(_) =>
    case Utf8(_) =>
    case Variant(_) =>
    case Vector(_, _) =>
    case _ =>
      if v.values != [] {
        var last := |v.values| - 1;
        AllEmpty(Members(t), v.values, last);
        EmptyIsLate(Members(t)[last], v.values[last]);
      }
  }

  lemma {:induction false} EmptyIsImmediate(t: Type, v: Value)
    requires Accepted(t, v) && Write(t, v).bytes == [] && Lost(v) == 0
    ensures Immediate(t)
    decreases v
  {
    EmptyIsLate(t, v);
    if v.values != [] {
      AllEmpty(Members(t), v.values, 0);
      EmptyIsLate(Members(t)[0], v.values[0]);
      LostAtLeast(v.values, 0);
      MemberDepth(Members(t), 0);
      EmptyIsImmediate(Members(t)[0], v.values[0]);
    }
  }

  lemma {:induction false} ImmediateLosesNothing(t: Type)
    requires Immediate(t)
    ensures Lost(ImmediateValue(t)) == 0
    decreases Depth(t)
  {
    var ts := Members(t);
    if ts != [] {
      MemberDepth(ts, 0);
      ImmediateLosesNothing(ts[0]);
      var vs := [ImmediateValue(ts[0])];
      assert vs[1..] == [];
      assert LostAll(vs) == 0;
    }
  }

  /** A value is found before any byte arrives if and only if it is encoded as
      nothing and loses no byte. */
  lemma ImmediateExactly(t: Type, v: Value)
    requires Accepted(t, v)
    ensures Parse(t, []) == Done(v, 0, false) <==> Write(t, v).bytes == [] && Lost(v) == 0
  {
    if Immediate(t) {
      ImmediateIsEmpty(t, v);
      ImmediateLosesNothing(t);
    } else if Write(t, v).bytes == [] && Lost(v) == 0 {
      EmptyIsImmediate(t, v);
    }
  }

  /** And anything is found only if it is the one value there is. */
  lemma ImmediateOnly(t: Type, v: Value)
    requires Parse(t, []).Done? && HasType(t, v)
    ensures Accepted(t, v) && Write(t, v).bytes == [] && v == Parse(t, []).value
  {
    ImmediateIsEmpty(t, v);
  }

  /** Once decided, more bytes change nothing. */
  lemma ParseMonotone(t: Type, a: seq<byte>, b: seq<byte>)
    requires !Parse(t, a).Waiting?
    ensures Parse(t, a + b) == Parse(t, a)
  {
    if !Immediate(t) {
      RunSplit(Initial(t), a, b);
    }
  }

  /** Of a stream that starts with an encoding, no portion makes the operation
      fail or complete with anything but the value and its bytes. */
  lemma ParseOfPrefix(t: Type, v: Value, rest: seq<byte>, x: seq<byte>)
    requires Conforming(t) && Accepted(t, v)
    requires x <= Write(t, v).bytes + rest
    ensures !Parse(t, x).Failed?
    ensures Parse(t, x).Done? ==> Parse(t, x).value == v && Parse(t, x).used == |Write(t, v).bytes|
    ensures |x| > |Write(t, v).bytes| ==> Parse(t, x).Done?
  {
    hide Run, Write, HasType, Late, Lost, Excess, Safe, Narrow;
    if Immediate(t) {
      ImmediateIsEmpty(t, v);
    } else {
      var s := Write(t, v).bytes + rest + [0];
      Seqs.Assoc(Write(t, v).bytes, rest, [0]);
      SafeLosesNothing(t, v);
      NarrowHasNoExcess(t, v);
      RoundTripExactly(t, v, rest + [0]);
      assert s == x + s[|x|..];
      RunSplit(Initial(t), x, s[|x|..]);
      if |x| > |Write(t, v).bytes| {
        var rest' := x[|Write(t, v).bytes|..];
        assert x == Write(t, v).bytes + rest';
        RoundTripExactly(t, v, rest');
      }
    }
  }
}
