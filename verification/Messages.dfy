/** Whole messages: what a client and a server append to their writers. */
module Messages {
  import opened WireTypes
  import opened BigEndian
  import opened WireFormat
  import Seqs
  import Utf8

  const MESSAGE_REQUEST: byte := 0
  const MESSAGE_RESPONSE: byte := 1

  /** Method names are at most 255 bytes long; the generator rejects others. */
  type Name = s: seq<byte> | |s| <= 255

  datatype Method = Method(parameters: seq<Type>, result: Type)

  type Interface = map<Name, Method>

  const REQUEST_ID: IntegerRange := IntegerRange(0, 0xffff_ffff_ffff_ffff)
  const MESSAGE_TYPE: IntegerRange := IntegerRange(0, 0xff)
  const HEADER: Type := Tuple([Integer(REQUEST_ID), Utf8(MESSAGE_TYPE)])

  datatype Message =
    | RequestOf(id: nat, name: Name, parameters: seq<Type>, args: seq<Value>)
    | ResponseOf(id: nat, result: Type, value: Value)

  predicate HasTypes(m: Message) {
    match m
    case RequestOf(_, _, ts, args) => HaveTypes(ts, args)
    case ResponseOf(_, t, v) => HasType(t, v)
  }

  /** Message type and request id; for a request also the method's name. */
  function Head(m: Message): seq<byte> {
    match m
    case RequestOf(id, name, _, _) => [MESSAGE_REQUEST] + (Encode(id, 8) + ([|name|] + name))
    case ResponseOf(id, _, _) => [MESSAGE_RESPONSE] + Encode(id, 8)
  }

  function Body(m: Message): Written
    requires HasTypes(m)
  {
    match m
    case RequestOf(_, _, ts, args) => WriteAll(ts, args)
    case ResponseOf(_, t, v) => Write(t, v)
  }

  /** What building the message appends, and whether it went through. */
  function Build(m: Message): Written
    requires HasTypes(m)
  {
    Written(Head(m), true).Then(Body(m))
  }

  /** A message that was built without an error. */
  predicate Built(m: Message) {
    && m.id <= REQUEST_ID.maximum
    && HasTypes(m) && Body(m).ok
    && (m.RequestOf? ==> Utf8.IsValid(m.name))
  }

  function Bytes(m: Message): (s: seq<byte>)
    requires HasTypes(m)
    ensures s != []
  {
    Build(m).bytes
  }

  predicate AllBuilt(ms: seq<Message>) {
    forall i :: 0 <= i < |ms| ==> Built(ms[i])
  }

  function AllBytes(ms: seq<Message>): seq<byte>
    requires AllBuilt(ms)
  {
    if ms == [] then [] else Bytes(ms[0]) + AllBytes(ms[1..])
  }

  lemma {:induction false} AllBytesSnoc(ms: seq<Message>, m: Message)
    requires AllBuilt(ms) && Built(m)
    ensures AllBuilt(ms + [m]) && AllBytes(ms + [m]) == AllBytes(ms) + Bytes(m)
  {
    if ms == [] {
      assert ms + [m] == [m];
    } else {
      assert (ms + [m])[1..] == ms[1..] + [m];
      AllBytesSnoc(ms[1..], m);
      Seqs.Assoc(Bytes(ms[0]), AllBytes(ms[1..]), Bytes(m));
    }
  }

  lemma {:induction false} AllBytesSplit(ms: seq<Message>, i: nat)
    requires AllBuilt(ms) && i <= |ms|
    ensures AllBytes(ms) == AllBytes(ms[..i]) + AllBytes(ms[i..])
  {
    if i > 0 {
      AllBytesSplit(ms[1..], i - 1);
      assert ms[..i][1..] == ms[1..][..i - 1] && ms[1..][i - 1..] == ms[i..];
      Seqs.Assoc(Bytes(ms[0]), AllBytes(ms[1..][..i - 1]), AllBytes(ms[i..]));
    } else {
      assert ms[..0] == [] && ms[0..] == ms;
    }
  }

  lemma PairWritten(t1: Type, t2: Type, v1: Value, v2: Value)
    requires HasType(t1, v1) && HasType(t2, v2)
    ensures HaveTypes([t1, t2], [v1, v2])
    ensures WriteAll([t1, t2], [v1, v2]) == Write(t1, v1).Then(Write(t2, v2))
  {
    hide HasType, Write;
    assert [t1] == [] + [t1] && [v1] == [] + [v1];
    assert [t1, t2] == [t1] + [t2] && [v1, v2] == [v1] + [v2];
    WriteAllSnoc([], [], t1, v1);
    WriteAllSnoc([t1], [v1], t2, v2);
    assert Written([], true).Then(Write(t1, v1)) == Write(t1, v1);
  }

  lemma NameWritten(name: Name)
    requires Utf8.IsValid(name)
    ensures HasType(Utf8(MESSAGE_TYPE), TextValue(name))
    ensures Write(Utf8(MESSAGE_TYPE), TextValue(name)) == Written([|name|] + name, true)
  {
    EncodeByte(|name|);
    hide Encode, Utf8.IsValid;
    assert WriteRanged(MESSAGE_TYPE, |name|) == Written([|name|], true);
  }

  /** The part of a request between its first byte and its arguments is the
      encoding of the header the splitter parses. */
  lemma HeaderWritten(id: nat, name: Name)
    requires id <= REQUEST_ID.maximum && Utf8.IsValid(name)
    ensures var header := TupleValue([IntegerValue(id), TextValue(name)]);
            && Accepted(HEADER, header)
            && Write(HEADER, header).bytes == Encode(id, 8) + ([|name|] + name)
  {
    var id_, name_ := IntegerValue(id), TextValue(name);
    IdWritten(id);
    NameWritten(name);
    PairWritten(Integer(REQUEST_ID), Utf8(MESSAGE_TYPE), id_, name_);
    assert Write(Integer(REQUEST_ID), id_) == Written(Encode(id, 8), true);
  }

  lemma IdWritten(id: nat)
    requires id <= REQUEST_ID.maximum
    ensures Accepted(Integer(REQUEST_ID), IntegerValue(id))
    ensures Write(Integer(REQUEST_ID), IntegerValue(id)).bytes == Encode(id, 8)
  {
    WidthHolds(id, REQUEST_ID.maximum);
  }

  // ----- a stream of messages splits in one way only -----

  /** The receiver's knowledge: the methods, and the result type of every call. */
  predicate Known(interface_: Interface, results: map<nat, Type>, m: Message) {
    match m
    case RequestOf(_, name, ts, _) => name in interface_ && interface_[name].parameters == ts
    case ResponseOf(id, t, _) => id in results && results[id] == t
  }

  lemma SameTail(a: seq<byte>, b: seq<byte>, x: seq<byte>, y: seq<byte>)
    requires |a| == |b| && a + x == b + y
    ensures a == b && x == y
  {
    Seqs.Split(a, x);
    Seqs.Split(b, y);
  }

  lemma SameValue(t: Type, v1: Value, v2: Value, x: seq<byte>, y: seq<byte>)
    requires Accepted(t, v1) && Accepted(t, v2)
    requires Write(t, v1).bytes + x == Write(t, v2).bytes + y
    ensures v1 == v2 && x == y
  {
    DecodeWritten(t, v1, x);
    DecodeWritten(t, v2, y);
    SameTail(Write(t, v1).bytes, Write(t, v2).bytes, x, y);
  }

  lemma SameResponse(m1: Message, m2: Message, x: seq<byte>, y: seq<byte>)
    requires Built(m1) && Built(m2) && m1.ResponseOf? && m2.ResponseOf?
    requires m1.id == m2.id ==> m1.result == m2.result
    requires Bytes(m1) + x == Bytes(m2) + y
    ensures m1 == m2 && x == y
  {
    var b1, b2 := Body(m1).bytes, Body(m2).bytes;
    Seqs.Assoc(Head(m1), b1, x);
    Seqs.Assoc(Head(m2), b2, y);
    SameTail(Head(m1), Head(m2), b1 + x, b2 + y);
    SameTail([MESSAGE_RESPONSE], [MESSAGE_RESPONSE], Encode(m1.id, 8), Encode(m2.id, 8));
    WidthHolds(m1.id, REQUEST_ID.maximum);
    WidthHolds(m2.id, REQUEST_ID.maximum);
    DecodeEncode(m1.id, 8);
    DecodeEncode(m2.id, 8);
    SameValue(m1.result, m1.value, m2.value, x, y);
  }

  /** Requests that begin the same bytes have the same id and name. */
  lemma SameHeader(m1: Message, m2: Message, x: seq<byte>, y: seq<byte>)
    requires m1.RequestOf? && HasTypes(m1) && m1.id <= REQUEST_ID.maximum && Utf8.IsValid(m1.name)
    requires m2.RequestOf? && HasTypes(m2) && m2.id <= REQUEST_ID.maximum && Utf8.IsValid(m2.name)
    requires Bytes(m1) + x == Bytes(m2) + y
    ensures m1.id == m2.id && m1.name == m2.name && Body(m1).bytes + x == Body(m2).bytes + y
  {
    hide HasType, HaveTypes, Write, WriteAll, Body, Encode, Utf8.IsValid;
    var v1 := TupleValue([IntegerValue(m1.id), TextValue(m1.name)]);
    var v2 := TupleValue([IntegerValue(m2.id), TextValue(m2.name)]);
    HeaderWritten(m1.id, m1.name);
    HeaderWritten(m2.id, m2.name);
    var h1, h2 := Write(HEADER, v1).bytes, Write(HEADER, v2).bytes;
    ThreeParts([MESSAGE_REQUEST], h1, Body(m1).bytes, x);
    ThreeParts([MESSAGE_REQUEST], h2, Body(m2).bytes, y);
    SameTail([MESSAGE_REQUEST], [MESSAGE_REQUEST], h1 + (Body(m1).bytes + x), h2 + (Body(m2).bytes + y));
    SameValue(HEADER, v1, v2, Body(m1).bytes + x, Body(m2).bytes + y);
    assert m1.id == v1.values[0].n && m1.name == v1.values[1].text;
    assert m2.id == v2.values[0].n && m2.name == v2.values[1].text;
  }

  lemma ThreeParts(a: seq<byte>, b: seq<byte>, c: seq<byte>, d: seq<byte>)
    ensures ((a + b) + c) + d == a + (b + (c + d))
  {
  }

  lemma SameRequest(m1: Message, m2: Message, x: seq<byte>, y: seq<byte>)
    requires Built(m1) && Built(m2) && m1.RequestOf? && m2.RequestOf?
    requires m1.name == m2.name ==> m1.parameters == m2.parameters
    requires Bytes(m1) + x == Bytes(m2) + y
    ensures m1 == m2 && x == y
  {
    hide WriteAll, Encode, Utf8.IsValid, Bytes;
    SameHeader(m1, m2, x, y);
    SameValue(Tuple(m1.parameters), TupleValue(m1.args), TupleValue(m2.args), x, y);
  }

  lemma SameMessage(interface_: Interface, results: map<nat, Type>, m1: Message, m2: Message, x: seq<byte>,
          y: seq<byte>)
    requires Built(m1) && Built(m2)
    requires Known(interface_, results, m1) && Known(interface_, results, m2)
    requires Bytes(m1) + x == Bytes(m2) + y
    ensures m1 == m2 && x == y
  {
    assert (Bytes(m1) + x)[0] == (Bytes(m2) + y)[0];
    if m1.RequestOf? {
      SameRequest(m1, m2, x, y);
    } else {
      SameResponse(m1, m2, x, y);
    }
  }

  /** Two lists of messages with the same bytes are the same list. */
  lemma {:induction false} UniqueSplit(interface_: Interface, results: map<nat, Type>, a: seq<Message>, b: seq<Message>)
    requires AllBuilt(a) && AllBuilt(b)
    requires forall i :: 0 <= i < |a| ==> Known(interface_, results, a[i])
    requires forall i :: 0 <= i < |b| ==> Known(interface_, results, b[i])
    requires AllBytes(a) == AllBytes(b)
    ensures a == b
    decreases |a|
  {
    if a != [] && b != [] {
      SameMessage(interface_, results, a[0], b[0], AllBytes(a[1..]), AllBytes(b[1..]));
      UniqueSplit(interface_, results, a[1..], b[1..]);
      Seqs.Cons(a);
      Seqs.Cons(b);
    }
  }

  // ----- a message that could not be built is no message -----

  /** The bytes are those of whole messages the receiver knows. */
  predicate Whole(interface_: Interface, results: map<nat, Type>, ms: seq<Message>, bytes: seq<byte>) {
    && AllBuilt(ms) && (forall i :: 0 <= i < |ms| ==> Known(interface_, results, ms[i]))
    && AllBytes(ms) == bytes
  }

  /** A message up to the first part that was refused. */
  predicate Refused(m: Message) {
    && m.id <= REQUEST_ID.maximum && HasTypes(m) && !Body(m).ok
    && (m.RequestOf? ==> Utf8.IsValid(m.name))
  }

  lemma RefusedBody(t: Type, v: Value, other: Value, rest: seq<byte>)
    requires HasType(t, v) && !Write(t, v).ok && Accepted(t, other)
    ensures Write(t, v).bytes != Write(t, other).bytes + rest
  {
    RefusedIsTruncated(t, v);
    DecodeWritten(t, other, rest);
  }

  lemma RefusedRequest(m: Message, other: Message, rest: seq<byte>)
    requires Refused(m) && m.RequestOf? && Built(other) && other.RequestOf?
    requires m.name == other.name ==> m.parameters == other.parameters
    ensures Bytes(m) != Bytes(other) + rest
  {
    hide WriteAll, Encode, Utf8.IsValid, Bytes;
    if Bytes(m) == Bytes(other) + rest {
      assert Bytes(m) + [] == Bytes(m) && Body(m).bytes + [] == Body(m).bytes;
      SameHeader(m, other, [], rest);
      RefusedBody(Tuple(m.parameters), TupleValue(m.args), TupleValue(other.args), rest);
    }
  }

  lemma RefusedResponse(m: Message, other: Message, rest: seq<byte>)
    requires Refused(m) && m.ResponseOf? && Built(other) && other.ResponseOf?
    requires m.id == other.id ==> m.result == other.result
    ensures Bytes(m) != Bytes(other) + rest
  {
    if Bytes(m) == Bytes(other) + rest {
      var b1, b2 := Body(m).bytes, Body(other).bytes;
      Seqs.Assoc(Head(other), b2, rest);
      SameTail(Head(m), Head(other), b1, b2 + rest);
      SameTail([MESSAGE_RESPONSE], [MESSAGE_RESPONSE], Encode(m.id, 8), Encode(other.id, 8));
      WidthHolds(m.id, REQUEST_ID.maximum);
      WidthHolds(other.id, REQUEST_ID.maximum);
      DecodeEncode(m.id, 8);
      DecodeEncode(other.id, 8);
      RefusedBody(m.result, m.value, other.value, rest);
    }
  }

  lemma RefusedIsNotWhole(interface_: Interface, results: map<nat, Type>, ms: seq<Message>, m: Message)
    requires Refused(m) && Known(interface_, results, m)
    ensures !Whole(interface_, results, ms, Bytes(m))
  {
    hide HasType, HaveTypes, WriteAll, Write;
    if Whole(interface_, results, ms, Bytes(m)) {
      assert ms != [];
      var first, rest := ms[0], AllBytes(ms[1..]);
      assert Bytes(m) == Bytes(first) + rest;
      FirstBytes(m);
      FirstBytes(first);
      assert (Bytes(first) + rest)[0] == Bytes(first)[0];
      if m.RequestOf? {
        RefusedRequest(m, first, rest);
      } else {
        RefusedResponse(m, first, rest);
      }
    }
  }

  lemma FirstBytes(m: Message)
    requires HasTypes(m)
    ensures Bytes(m)[0] == if m.RequestOf? then MESSAGE_REQUEST else MESSAGE_RESPONSE
  {
    hide HasType, HaveTypes, WriteAll, Write;
  }

  /** Whole messages that begin with the bytes of others begin with them. */
  lemma {:induction false} WholePrefix(interface_: Interface, results: map<nat, Type>, ms: seq<Message>,
          sent: seq<Message>, x: seq<byte>)
    requires AllBuilt(sent) && Whole(interface_, results, sent, AllBytes(sent))
    requires Whole(interface_, results, ms, AllBytes(sent) + x)
    ensures |sent| <= |ms| && ms[..|sent|] == sent && Whole(interface_, results, ms[|sent|..], x)
    decreases |sent|
  {
    hide Known, HasType, HaveTypes, WriteAll, Write, Head, Utf8.IsValid;
    if sent == [] {
      assert [] + x == x;
    } else {
      Seqs.Assoc(Bytes(sent[0]), AllBytes(sent[1..]), x);
      NotEmpty(ms, sent[0], AllBytes(sent[1..]) + x);
      SameMessage(interface_, results, ms[0], sent[0], AllBytes(ms[1..]), AllBytes(sent[1..]) + x);
      WholePrefix(interface_, results, ms[1..], sent[1..], x);
      assert ms[..|sent|] == [ms[0]] + ms[1..][..|sent| - 1];
      assert ms[1..][|sent| - 1..] == ms[|sent|..];
      Seqs.Cons(sent);
    }
  }

  lemma NotEmpty(ms: seq<Message>, m: Message, rest: seq<byte>)
    requires AllBuilt(ms) && Built(m) && AllBytes(ms) == Bytes(m) + rest
    ensures ms != []
  {
    hide HasType, HaveTypes, WriteAll, Write, Utf8.IsValid;
    assert |Bytes(m) + rest| > 0;
  }

  /** After whole messages, the bytes of one that was refused are not the end of
      any whole messages. */
  lemma RefusedBreaks(interface_: Interface, results: map<nat, Type>, sent: seq<Message>, m: Message, ms: seq<Message>)
    requires AllBuilt(sent) && Whole(interface_, results, sent, AllBytes(sent))
    requires HasTypes(m) && Refused(m) && Known(interface_, results, m)
    ensures !Whole(interface_, results, ms, AllBytes(sent) + Bytes(m))
  {
    hide Refused, Known, Bytes, Whole;
    if Whole(interface_, results, ms, AllBytes(sent) + Bytes(m)) {
      WholePrefix(interface_, results, ms, sent, Bytes(m));
      RefusedIsNotWhole(interface_, results, ms[|sent|..], m);
    }
  }
}
