/** When the nested parsers read the documented wire format, and when not. */
module Conformance {
  import opened WireTypes
  import opened BigEndian
  import opened WireFormat
  import opened ParserMachine

  // ----- values whose parser has to see one byte more -----

  /** The parser of such a value completes on the byte after its encoding. */
  predicate Late(v: Value)
    decreases v
  {
    match v
    case IntegerValue(_) => false
    case TextValue(_) => false
    case VariantValue(_, x) => Late(x)
    case TupleValue(vs) => vs == [] || LastLate(vs)
    case VectorValue(vs) => LastLate(vs)
  }

  predicate LastLate(vs: seq<Value>)
    decreases vs
  {
    vs != [] && Late(vs[|vs| - 1])
  }

  /** How many bytes the parser of the value throws away: one for every late
      member that is not the last of its tuple, structure or vector. */
  function Lost(v: Value): nat
    decreases v, 0
  {
    match v
    case IntegerValue(_) => 0
    case TextValue(_) => 0
    case VariantValue(_, x) => Lost(x)
    case TupleValue(vs) => LostAll(vs)
    case VectorValue(vs) => LostAll(vs)
  }

  function LostAll(vs: seq<Value>): nat
    decreases vs, 1
  {
    if vs == [] then 0
    else Lost(vs[0]) + (if |vs| > 1 && Late(vs[0]) then 1 else 0) + LostAll(vs[1..])
  }

  // ----- the types for which nothing can go wrong -----

  /** No parser of such a type completes late. */
  predicate Eager(t: Type)
    decreases Depth(t)
  {
    match t
    case Integer(_) => true
    case Utf8(_) => true
    case Variant(elements) =>
      forall i :: 0 <= i < |elements| ==> (MemberDepth(elements, i); Eager(elements[i]))
    case Tuple(_) =>
      var ts := Members(t);
      ts != [] && (MemberDepth(ts, |ts| - 1); Eager(ts[|ts| - 1]))
    case Structure(_) =>
      var ts := Members(t);
      ts != [] && (MemberDepth(ts, |ts| - 1); Eager(ts[|ts| - 1]))
    case Vector(_, element) => Eager(element)
  }

  /** Everything but the last member of a sequence is eager, at every level. */
  predicate Safe(t: Type)
    decreases Depth(t), 0
  {
    match t
    case Integer(_) => true
    case Utf8(_) => true
    case Variant(elements) =>
      forall i :: 0 <= i < |elements| ==> (MemberDepth(elements, i); Safe(elements[i]))
    case Tuple(_) => SafeMembers(Members(t))
    case Structure(_) => SafeMembers(Members(t))
    case Vector(_, element) => Eager(element) && Safe(element)
  }

  predicate SafeMembers(ts: seq<Type>)
    decreases MaxDepth(ts), 1 + |ts|
  {
    ts == [] || (Safe(ts[0]) && (|ts| > 1 ==> Eager(ts[0])) && SafeMembers(ts[1..]))
  }

  /** Every variant has an index that fits the one byte its parser reads. */
  predicate Narrow(t: Type)
    decreases Depth(t), 0
  {
    match t
    case Integer(_) => true
    case Utf8(_) => true
    case Variant(elements) => 1 <= |elements| <= 256 && AllNarrow(elements)
    case Tuple(_) => AllNarrow(Members(t))
    case Structure(_) => AllNarrow(Members(t))
    case Vector(_, element) => Narrow(element)
  }

  predicate AllNarrow(ts: seq<Type>)
    decreases MaxDepth(ts), 1 + |ts|
  {
    ts == [] || (Narrow(ts[0]) && AllNarrow(ts[1..]))
  }

  lemma NarrowMember(ts: seq<Type>, i: nat)
    requires AllNarrow(ts) && i < |ts|
    ensures Narrow(ts[i])
  {
    if i > 0 {
      NarrowMember(ts[1..], i - 1);
    }
  }

  lemma NarrowCopies(t: Type, count: nat)
    requires Narrow(t)
    ensures AllNarrow(Copies(t, count))
    decreases count
  {
    if count > 0 {
      NarrowCopies(t, count - 1);
      assert Copies(t, count)[1..] == Copies(t, count - 1);
    }
  }

  lemma SafeCopies(t: Type, count: nat)
    requires Safe(t) && Eager(t)
    ensures SafeMembers(Copies(t, count))
    decreases count
  {
    if count > 0 {
      SafeCopies(t, count - 1);
      assert Copies(t, count)[1..] == Copies(t, count - 1);
    }
  }

  // ----- lengths -----

  function Length(t: Type, v: Value): nat
    requires HasType(t, v)
    decreases v, 0
  {
    match t
    case Integer(range) => Width(range.maximum)
    case Utf8(codeUnits) => Width(codeUnits.maximum) + |v.text|
    case Variant(elements) => Width(IndexRange(|elements|).maximum) + Length(elements[v.index], v.value)
    case Tuple(_) => LengthAll(Members(t), v.values)
    case Structure(_) => LengthAll(Members(t), v.values)
    case Vector(length, element) => Width(length.maximum) + LengthAll(Copies(element, |v.values|), v.values)
  }

  function LengthAll(ts: seq<Type>, vs: seq<Value>): nat
    requires HaveTypes(ts, vs)
    decreases vs, 1
  {
    if vs == [] then 0 else Length(ts[0], vs[0]) + LengthAll(ts[1..], vs[1..])
  }

  lemma {:induction false} WrittenLength(t: Type, v: Value)
    requires Accepted(t, v)
    ensures |Write(t, v).bytes| == Length(t, v)
    decreases v, 0
  {
    match t
    case Integer(_) =>
    case Utf8(_) =>
    case Variant(elements) => WrittenLength(elements[v.index], v.value);
    case Tuple(_) => WrittenLengthAll(Members(t), v.values);
    case Structure(_) => WrittenLengthAll(Members(t), v.values);
    case Vector(_, element) => WrittenLengthAll(Copies(element, |v.values|), v.values);
  }

  lemma {:induction false} WrittenLengthAll(ts: seq<Type>, vs: seq<Value>)
    requires AllAccepted(ts, vs)
    ensures |WriteAll(ts, vs).bytes| == LengthAll(ts, vs)
    decreases vs, 1
  {
    if vs != [] {
      WrittenLength(ts[0], vs[0]);
      WrittenLengthAll(ts[1..], vs[1..]);
    }
  }

  // ----- indices written wider than they are read -----

  /** How many bytes of variant indices the encoding has beyond the one byte that
      is read for each. */
  function Excess(t: Type, v: Value): nat
    requires HasType(t, v)
    decreases v, 0
  {
    match t
    case Integer(_) => 0
    case Utf8(_) => 0
    case Variant(elements) => Width(IndexRange(|elements|).maximum) - 1 + Excess(elements[v.index], v.value)
    case Tuple(_) => ExcessAll(Members(t), v.values)
    case Structure(_) => ExcessAll(Members(t), v.values)
    case Vector(_, element) => ExcessAll(Copies(element, |v.values|), v.values)
  }

  function ExcessAll(ts: seq<Type>, vs: seq<Value>): nat
    requires HaveTypes(ts, vs)
    decreases vs, 1
  {
    if vs == [] then 0 else Excess(ts[0], vs[0]) + ExcessAll(ts[1..], vs[1..])
  }

  lemma {:induction false} NarrowHasNoExcess(t: Type, v: Value)
    requires Narrow(t) && HasType(t, v)
    ensures Excess(t, v) == 0
    decreases v, 0
  {
    match t
    case Integer(_) =>
    case Utf8(_) =>
    case Variant(elements) =>
      NarrowMember(elements, v.index);
      NarrowHasNoExcess(elements[v.index], v.value);
    case Tuple(_) => NarrowMembersHaveNoExcess(Members(t), v.values);
    case Structure(_) => NarrowMembersHaveNoExcess(Members(t), v.values);
    case Vector(_, element) =>
      NarrowCopies(element, |v.values|);
      NarrowMembersHaveNoExcess(Copies(element, |v.values|), v.values);
  }

  lemma {:induction false} NarrowMembersHaveNoExcess(ts: seq<Type>, vs: seq<Value>)
    requires AllNarrow(ts) && HaveTypes(ts, vs)
    ensures ExcessAll(ts, vs) == 0
    decreases vs, 1
  {
    if vs != [] {
      NarrowHasNoExcess(ts[0], vs[0]);
      NarrowMembersHaveNoExcess(ts[1..], vs[1..]);
    }
  }

  // ----- conservation: bytes used are bytes encoded plus bytes lost -----

  /** Whatever bytes the parser is given: if it finds a value, the value has the
      parser's type, the look-ahead is decided by the value, and the bytes it
      used up are the length of the encoding, without the index bytes that are
      not read, plus the bytes it lost. */
  lemma {:induction false} ReadConserves(t: Type, s: seq<byte>)
    requires Read(t, s).Found?
    ensures Conserved(t, Read(t, s))
    decreases Depth(t), 1
  {
    match t
    case Integer(range) => DecodeBound(s[..Width(range.maximum)]);
    case Utf8(_) =>
    case Variant(elements) =>
      MemberDepth(elements, s[0]);
      ReadConserves(elements[s[0]], s[1..]);
    case Tuple(_) => ReadTupleConserves(t, s);
    case Structure(_) => ReadTupleConserves(t, s);
    case Vector(length, element) => ReadVectorConserves(length, element, s);
  }

  /** What is found has the type, and no byte is unaccounted for. */
  predicate Conserved(t: Type, o: Outcome<Value>) {
    o.Found? ==>
      && HasType(t, o.value) && o.late == Late(o.value)
      && o.used + Excess(t, o.value) == Length(t, o.value) + Lost(o.value)
  }

  predicate AllConserved(ts: seq<Type>, o: Outcome<seq<Value>>) {
    o.Found? ==>
      && HaveTypes(ts, o.value) && o.late == LastLate(o.value)
      && o.used + ExcessAll(ts, o.value) == LengthAll(ts, o.value) + LostAll(o.value)
  }

  lemma {:induction false} ReadVectorConserves(length: IntegerRange, element: Type, s: seq<byte>)
    ensures Conserved(Vector(length, element), Read(Vector(length, element), s))
    decreases Depth(Vector(length, element)), 0
  {
    hide ReadAll, HaveTypes, LengthAll, ExcessAll, LostAll;
    var w := Width(length.maximum);
    if |s| >= w {
      var n := BigEndian.Decode(s[..w]);
      if n > 0 {
        ReadAllConserves(Copies(element, n), s[w..]);
      } else {
        NoValues(element);
      }
    }
  }

  lemma NoValues(element: Type)
    ensures HaveTypes(Copies(element, 0), []) && LengthAll(Copies(element, 0), []) == 0
    ensures ExcessAll(Copies(element, 0), []) == 0 && LostAll([]) == 0
  {
  }

  lemma {:induction false} ReadTupleConserves(t: Type, s: seq<byte>)
    requires t.Tuple? || t.Structure?
    ensures Conserved(t, Read(t, s))
    decreases MaxDepth(Members(t)), 2 + |Members(t)|
  {
    if Members(t) != [] {
      ReadAllConserves(Members(t), s);
    }
  }

  lemma {:induction false} ReadAllConserves(ts: seq<Type>, s: seq<byte>)
    requires ts != []
    ensures AllConserved(ts, ReadAll(ts, s))
    decreases MaxDepth(ts), 1 + |ts|
  {
    hide Read, HasType, HaveTypes, Length, LengthAll, Excess, ExcessAll, Lost, LostAll, Late, LastLate;
    var first := Read(ts[0], s);
    if first.Found? {
      ReadConserves(ts[0], s);
      var Found(v, used, late) := first;
      if |ts| > 1 {
        var tail := s[if late then used + 1 else used..];
        ReadAllConserves(ts[1..], tail);
        if ReadAll(ts[1..], tail).Found? {
          AllFromMember(ts, v, ReadAll(ts[1..], tail).value);
        }
      } else {
        OneMember(ts);
        AllFromMember(ts, v, []);
        assert [v] + [] == [v];
      }
    }
  }

  lemma OneMember(ts: seq<Type>)
    requires |ts| == 1
    ensures HaveTypes(ts[1..], []) && LengthAll(ts[1..], []) == 0 && ExcessAll(ts[1..], []) == 0
    ensures LostAll([]) == 0
  {
  }

  lemma ConsFacts(v: Value, vs: seq<Value>)
    ensures LostAll([v] + vs) == Lost(v) + (if vs != [] && Late(v) then 1 else 0) + LostAll(vs)
    ensures LastLate([v] + vs) == if vs == [] then Late(v) else LastLate(vs)
  {
    assert ([v] + vs)[1..] == vs;
  }

  lemma AllFromMember(ts: seq<Type>, v: Value, vs: seq<Value>)
    requires ts != [] && HasType(ts[0], v) && HaveTypes(ts[1..], vs)
    ensures HaveTypes(ts, [v] + vs)
    ensures LengthAll(ts, [v] + vs) == Length(ts[0], v) + LengthAll(ts[1..], vs)
    ensures ExcessAll(ts, [v] + vs) == Excess(ts[0], v) + ExcessAll(ts[1..], vs)
    ensures LostAll([v] + vs) == Lost(v) + (if vs != [] && Late(v) then 1 else 0) + LostAll(vs)
    ensures LastLate([v] + vs) == if vs == [] then Late(v) else LastLate(vs)
  {
    assert ([v] + vs)[1..] == vs;
  }

  // ----- values that lose nothing are read as documented -----

  /** What the parser makes of a documented value: it may want one more byte. */
  function Seen(v: Value, used: nat, available: nat): Outcome<Value> {
    if Late(v) && used == available then More else Found(v, used, Late(v))
  }

  function SeenAll(vs: seq<Value>, used: nat, available: nat): Outcome<seq<Value>> {
    if LastLate(vs) && used == available then More else Found(vs, used, LastLate(vs))
  }

  /** The value has no part that the parser would read otherwise. */
  predicate Plain(t: Type, v: Value) {
    HasType(t, v) && Lost(v) == 0 && Excess(t, v) == 0
  }

  predicate AllPlain(ts: seq<Type>, vs: seq<Value>) {
    HaveTypes(ts, vs) && LostAll(vs) == 0 && ExcessAll(ts, vs) == 0
  }

  lemma NarrowIndex(elements: seq<Type>, s: seq<byte>)
    requires Width(IndexRange(|elements|).maximum) == 1
    ensures s != [] ==> DecodeInteger(1, s) == Complete(s[0], 1)
  {
    if s != [] {
      assert s[..1] == [] + [s[0]];
      DecodeSnoc([], s[0]);
    }
  }

  lemma {:induction false} ReadOfDecoded(t: Type, s: seq<byte>)
    requires DecodeValue(t, s).Complete? && Plain(t, DecodeValue(t, s).value)
    ensures Read(t, s) == Seen(DecodeValue(t, s).value, DecodeValue(t, s).used, |s|)
    decreases Depth(t), 0
  {
    match t
    case Integer(_) =>
    case Utf8(_) =>
    case Variant(elements) =>
      NarrowIndex(elements, s);
      MemberDepth(elements, s[0]);
      ReadOfDecoded(elements[s[0]], s[1..]);
      ReadOfDecodedVariant(elements, s);
    case Tuple(_) => ReadOfDecodedTuple(t, s);
    case Structure(_) => ReadOfDecodedTuple(t, s);
    case Vector(length, element) =>
      var n := BigEndian.Decode(s[..Width(length.maximum)]);
      if n > 0 {
        ReadOfAllDecoded(Copies(element, n), s[Width(length.maximum)..]);
      }
      ReadOfDecodedVector(length, element, s);
  }

  lemma ReadOfDecodedVariant(elements: seq<Type>, s: seq<byte>)
    requires Width(IndexRange(|elements|).maximum) == 1 && DecodeValue(Variant(elements), s).Complete?
    requires s[0] < |elements| && DecodeValue(elements[s[0]], s[1..]).Complete? ==>
               var Complete(x, n) := DecodeValue(elements[s[0]], s[1..]);
               Read(elements[s[0]], s[1..]) == Seen(x, n, |s| - 1)
    ensures var Complete(v, used) := DecodeValue(Variant(elements), s);
            Read(Variant(elements), s) == Seen(v, used, |s|)
  {
    hide DecodeAll, ReadAll, ReadTuple, Copies, Depth, MaxDepth, BigEndian.Decode;
    NarrowIndex(elements, s);
    var Complete(x, n) := DecodeValue(elements[s[0]], s[1..]);
    assert DecodeValue(Variant(elements), s) == Complete(VariantValue(s[0], x), 1 + n);
    assert Late(VariantValue(s[0], x)) == Late(x);
  }

  lemma ReadOfDecodedVector(length: IntegerRange, element: Type, s: seq<byte>)
    requires DecodeValue(Vector(length, element), s).Complete?
    requires var w := Width(length.maximum);
             var ts := Copies(element, BigEndian.Decode(s[..w]));
             ts != [] ==>
               var Complete(vs, n) := DecodeAll(ts, s[w..]);
               ReadAll(ts, s[w..]) == SeenAll(vs, n, |s| - w)
    ensures var Complete(v, used) := DecodeValue(Vector(length, element), s);
            Read(Vector(length, element), s) == Seen(v, used, |s|)
  {
    hide DecodeAll, ReadAll;
    var w := Width(length.maximum);
    if BigEndian.Decode(s[..w]) == 0 {
      AllFromNone(Copies(element, 0), s[w..]);
    }
  }

  lemma {:induction false} ReadOfDecodedTuple(t: Type, s: seq<byte>)
    requires t.Tuple? || t.Structure?
    requires DecodeValue(t, s).Complete? && Plain(t, DecodeValue(t, s).value)
    ensures Read(t, s) == Seen(DecodeValue(t, s).value, DecodeValue(t, s).used, |s|)
    decreases MaxDepth(Members(t)), 2 + |Members(t)|
  {
    if Members(t) != [] {
      ReadOfAllDecoded(Members(t), s);
    }
  }

  lemma {:induction false} ReadOfAllDecoded(ts: seq<Type>, s: seq<byte>)
    requires ts != [] && DecodeAll(ts, s).Complete? && AllPlain(ts, DecodeAll(ts, s).value)
    ensures ReadAll(ts, s) == SeenAll(DecodeAll(ts, s).value, DecodeAll(ts, s).used, |s|)
    decreases MaxDepth(ts), 1 + |ts|
  {
    hide DecodeValue, Read, Late, LastLate, Lost, LostAll, Excess, ExcessAll, HasType, HaveTypes, Length, LengthAll;
    var Complete(v, used) := DecodeValue(ts[0], s);
    var vs := DecodeAll(ts[1..], s[used..]).value;
    FirstHasType(ts, v, vs);
    ConsFacts(v, vs);
    AllFromMember(ts, v, vs);
    ReadOfDecoded(ts[0], s);
    if |ts| > 1 {
      ReadOfAllDecoded(ts[1..], s[used..]);
    } else {
      AllFromNone(ts[1..], s[used..]);
      assert [v] + vs == [v];
    }
  }

  lemma FirstHasType(ts: seq<Type>, v: Value, vs: seq<Value>)
    requires HaveTypes(ts, [v] + vs)
    ensures ts != [] && HasType(ts[0], v) && HaveTypes(ts[1..], vs)
  {
    assert ([v] + vs)[1..] == vs;
  }

  // ----- safe types lose nothing, whatever the value -----

  lemma {:induction false} EagerIsNeverLate(t: Type, v: Value)
    requires HasType(t, v) && Eager(t)
    ensures !Late(v)
    decreases v
  {
    match t
    case Integer(_) =>
    case Utf8(_) =>
    case Variant(elements) => EagerIsNeverLate(elements[v.index], v.value);
    case Tuple(_) =>
      HaveTypesAt(Members(t), v.values, |v.values| - 1);
      EagerIsNeverLate(Members(t)[|v.values| - 1], v.values[|v.values| - 1]);
    case Structure(_) =>
      HaveTypesAt(Members(t), v.values, |v.values| - 1);
      EagerIsNeverLate(Members(t)[|v.values| - 1], v.values[|v.values| - 1]);
    case Vector(_, element) =>
      if v.values != [] {
        HaveTypesAt(Copies(element, |v.values|), v.values, |v.values| - 1);
        EagerIsNeverLate(element, v.values[|v.values| - 1]);
      }
  }

  lemma {:induction false} SafeLosesNothing(t: Type, v: Value)
    requires HasType(t, v) && Safe(t)
    ensures Lost(v) == 0
    decreases v, 0
  {
    match t
    case Integer(_) =>
    case Utf8(_) =>
    case Variant(elements) => SafeLosesNothing(elements[v.index], v.value);
    case Tuple(_) => SafeMembersLoseNothing(Members(t), v.values);
    case Structure(_) => SafeMembersLoseNothing(Members(t), v.values);
    case Vector(_, element) =>
      SafeCopies(element, |v.values|);
      SafeMembersLoseNothing(Copies(element, |v.values|), v.values);
  }

  lemma {:induction false} SafeMembersLoseNothing(ts: seq<Type>, vs: seq<Value>)
    requires HaveTypes(ts, vs) && SafeMembers(ts)
    ensures LostAll(vs) == 0
    decreases vs, 1
  {
    if vs != [] {
      SafeLosesNothing(ts[0], vs[0]);
      SafeMembersLoseNothing(ts[1..], vs[1..]);
      if |vs| > 1 {
        EagerIsNeverLate(ts[0], vs[0]);
      }
    }
  }

  // ----- safe types: the documented format, on every input -----

  /** For a safe type the parser and the documented format agree on every string
      of bytes, valid or not, but for the byte of look-ahead. */
  lemma {:induction false} SafeRead(t: Type, s: seq<byte>)
    requires Narrow(t) && Safe(t)
    ensures match DecodeValue(t, s)
            case Complete(v, used) => Read(t, s) == Seen(v, used, |s|)
            case Truncated => Read(t, s) == More
            case Malformed => Read(t, s) == Bad
    decreases Depth(t), 0
  {
    if DecodeValue(t, s).Complete? {
      WriteOfDecoded(t, s);
      SafeLosesNothing(t, DecodeValue(t, s).value);
      NarrowHasNoExcess(t, DecodeValue(t, s).value);
      ReadOfDecoded(t, s);
    } else {
      match t
      case Integer(_) =>
      case Utf8(_) =>
      case Variant(elements) =>
        NarrowIndex(elements, s);
        if s != [] && s[0] < |elements| {
          MemberDepth(elements, s[0]);
          NarrowMember(elements, s[0]);
          SafeRead(elements[s[0]], s[1..]);
        }
      case Tuple(_) => SafeReadAll(Members(t), s);
      case Structure(_) => SafeReadAll(Members(t), s);
      case Vector(length, element) =>
        if |s| >= Width(length.maximum) {
          var n := BigEndian.Decode(s[..Width(length.maximum)]);
          NarrowCopies(element, n);
          SafeCopies(element, n);
          SafeReadAll(Copies(element, n), s[Width(length.maximum)..]);
        }
    }
  }

  lemma {:induction false} SafeReadAll(ts: seq<Type>, s: seq<byte>)
    requires AllNarrow(ts) && SafeMembers(ts) && !DecodeAll(ts, s).Complete?
    ensures ts != [] && ReadAll(ts, s) == if DecodeAll(ts, s).Truncated? then More else Bad
    decreases MaxDepth(ts), 1 + |ts|
  {
    SafeRead(ts[0], s);
    var d := DecodeValue(ts[0], s);
    if d.Complete? {
      WriteOfDecoded(ts[0], s);
      EagerIsNeverLate(ts[0], d.value);
      SafeReadAll(ts[1..], s[d.used..]);
    }
  }

  lemma AllFromNone(ts: seq<Type>, s: seq<byte>)
    requires |ts| == 0
    ensures DecodeAll(ts, s) == Complete([], 0)
  {
  }

  // ----- exactly the safe types are safe -----

  /** Every variant in the type has an alternative. */
  predicate Inhabited(t: Type)
    decreases Depth(t), 0
  {
    match t
    case Integer(_) => true
    case Utf8(_) => true
    case Variant(elements) => elements != [] && AllInhabited(elements)
    case Tuple(_) => AllInhabited(Members(t))
    case Structure(_) => AllInhabited(Members(t))
    case Vector(_, element) => Inhabited(element)
  }

  predicate AllInhabited(ts: seq<Type>)
    decreases MaxDepth(ts), 1 + |ts|
  {
    ts == [] || (Inhabited(ts[0]) && AllInhabited(ts[1..]))
  }

  lemma InhabitedMember(ts: seq<Type>, i: nat)
    requires AllInhabited(ts) && i < |ts|
    ensures Inhabited(ts[i])
  {
    if i > 0 {
      InhabitedMember(ts[1..], i - 1);
    }
  }

  lemma InhabitedCopies(t: Type, count: nat)
    requires Inhabited(t)
    ensures AllInhabited(Copies(t, count))
  {
    if count > 0 {
      InhabitedCopies(t, count - 1);
      assert Copies(t, count)[1..] == Copies(t, count - 1);
    }
  }

  lemma {:induction false} HaveTypesEach(ts: seq<Type>, vs: seq<Value>)
    requires |ts| == |vs|
    requires forall i :: 0 <= i < |ts| ==> HasType(ts[i], vs[i])
    ensures HaveTypes(ts, vs)
    decreases |ts|
  {
    if ts != [] {
      HaveTypesEach(ts[1..], vs[1..]);
    }
  }

  lemma {:induction false} SomeValue(t: Type) returns (v: Value)
    requires Inhabited(t)
    ensures HasType(t, v)
    decreases Depth(t), 0
  {
    match t
    case Integer(range) =>
      assert Pow256(Width(range.maximum)) > 0;
      v := IntegerValue(0);
    case Utf8(_) => v := TextValue([]);
    case Vector(_, element) =>
      v := VectorValue([]);
      assert Copies(element, 0) == [];
    case Variant(elements) =>
      MemberDepth(elements, 0);
      var x := SomeValue(elements[0]);
      v := VariantValue(0, x);
    case Tuple(_) =>
      var vs := SomeValues(Members(t));
      v := TupleValue(vs);
    case Structure(_) =>
      var vs := SomeValues(Members(t));
      v := TupleValue(vs);
  }

  lemma {:induction false} SomeValues(ts: seq<Type>) returns (vs: seq<Value>)
    requires AllInhabited(ts)
    ensures HaveTypes(ts, vs)
    decreases MaxDepth(ts), 1 + |ts|
  {
    if ts == [] {
      vs := [];
    } else {
      var v := SomeValue(ts[0]);
      var rest := SomeValues(ts[1..]);
      vs := [v] + rest;
      AllFromMember(ts, v, rest);
    }
  }

  /** Any value of type `ts[i]` can stand at position `i`. */
  lemma ValuesWith(ts: seq<Type>, i: nat, v: Value) returns (vs: seq<Value>)
    requires AllInhabited(ts) && i < |ts| && HasType(ts[i], v)
    ensures HaveTypes(ts, vs) && vs[i] == v
  {
    var some := SomeValues(ts);
    vs := some[i := v];
    forall k | 0 <= k < |ts|
      ensures HasType(ts[k], vs[k])
    {
      HaveTypesAt(ts, some, k);
    }
    HaveTypesEach(ts, vs);
  }

  lemma {:induction false} LateValue(t: Type) returns (v: Value)
    requires Inhabited(t) && !Eager(t)
    ensures HasType(t, v) && Late(v)
    decreases Depth(t), 1
  {
    match t
    case Variant(elements) =>
      var i :| 0 <= i < |elements| && !Eager(elements[i]);
      MemberDepth(elements, i);
      InhabitedMember(elements, i);
      var x := LateValue(elements[i]);
      v := VariantValue(i, x);
    case Vector(_, element) =>
      var x := LateValue(element);
      v := VectorValue([x]);
      HaveTypesEach(Copies(element, 1), [x]);
    case Tuple(_) => v := LateTuple(t);
    case Structure(_) => v := LateTuple(t);
  }

  lemma {:induction false} LateTuple(t: Type) returns (v: Value)
    requires (t.Tuple? || t.Structure?) && Inhabited(t) && !Eager(t)
    ensures HasType(t, v) && Late(v)
    decreases Depth(t), 0
  {
    var ts := Members(t);
    if ts == [] {
      v := TupleValue([]);
    } else {
      MemberDepth(ts, |ts| - 1);
      InhabitedMember(ts, |ts| - 1);
      var x := LateValue(ts[|ts| - 1]);
      var vs := ValuesWith(ts, |ts| - 1, x);
      v := TupleValue(vs);
    }
  }

  lemma {:induction false} LostAtLeast(vs: seq<Value>, i: nat)
    requires i < |vs|
    ensures LostAll(vs) >= Lost(vs[i])
    ensures i < |vs| - 1 && Late(vs[i]) ==> LostAll(vs) >= 1
    decreases |vs|
  {
    if i > 0 {
      LostAtLeast(vs[1..], i - 1);
    }
  }

  lemma {:induction false} UnsafeMember(ts: seq<Type>) returns (i: nat)
    requires !SafeMembers(ts)
    ensures i < |ts| && (!Safe(ts[i]) || (i < |ts| - 1 && !Eager(ts[i])))
    decreases |ts|
  {
    if !Safe(ts[0]) || (|ts| > 1 && !Eager(ts[0])) {
      i := 0;
    } else {
      var j := UnsafeMember(ts[1..]);
      i := j + 1;
    }
  }

  lemma {:induction false} LossyValue(t: Type) returns (v: Value)
    requires Inhabited(t) && !Safe(t)
    ensures HasType(t, v) && Lost(v) > 0
    decreases Depth(t), 0
  {
    match t
    case Variant(elements) =>
      var i :| 0 <= i < |elements| && !Safe(elements[i]);
      MemberDepth(elements, i);
      InhabitedMember(elements, i);
      var x := LossyValue(elements[i]);
      v := VariantValue(i, x);
    case Vector(_, element) =>
      InhabitedCopies(element, 2);
      SafeMembersNot(element);
      var vs := LossyValues(Copies(element, 2));
      v := VectorValue(vs);
    case Tuple(_) =>
      var vs := LossyValues(Members(t));
      v := TupleValue(vs);
    case Structure(_) =>
      var vs := LossyValues(Members(t));
      v := TupleValue(vs);
  }

  lemma SafeMembersNot(t: Type)
    requires !(Eager(t) && Safe(t))
    ensures !SafeMembers(Copies(t, 2))
  {
    assert Copies(t, 2) == [t, t];
  }

  lemma {:induction false} LossyValues(ts: seq<Type>) returns (vs: seq<Value>)
    requires AllInhabited(ts) && !SafeMembers(ts)
    ensures HaveTypes(ts, vs) && LostAll(vs) > 0
    decreases MaxDepth(ts), 1
  {
    var i := UnsafeMember(ts);
    MemberDepth(ts, i);
    InhabitedMember(ts, i);
    var x: Value;
    if !Safe(ts[i]) {
      x := LossyValue(ts[i]);
    } else {
      x := LateValue(ts[i]);
    }
    vs := ValuesWith(ts, i, x);
    LostAtLeast(vs, i);
  }

  predicate LateValueOf(t: Type, v: Value) {
    HasType(t, v) && Late(v)
  }

  /** A type never completes late if and only if no value of it does. */
  lemma EagerExactly(t: Type)
    requires Inhabited(t)
    ensures Eager(t) <==> !exists v :: LateValueOf(t, v)
  {
    if !Eager(t) {
      var v := LateValue(t);
      assert LateValueOf(t, v);
    } else if exists v :: LateValueOf(t, v) {
      var v :| LateValueOf(t, v);
      EagerIsNeverLate(t, v);
    }
  }

  /** A type, with any number of alternatives in its variants, is safe if and only if
      no value of it makes its parser lose a byte. */
  lemma SafeExactly(t: Type)
    requires Inhabited(t)
    ensures Safe(t) <==> (forall v | HasType(t, v) :: Lost(v) == 0)
  {
    if Safe(t) {
      forall v | HasType(t, v)
        ensures Lost(v) == 0
      {
        SafeLosesNothing(t, v);
      }
    } else {
      var v := LossyValue(t);
      assert HasType(t, v) && Lost(v) != 0;
    }
  }
}
