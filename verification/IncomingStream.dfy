/** How far an endpoint has come in a stream of whole messages. */
module IncomingStream {
  import opened WireTypes
  import opened BigEndian
  import opened WireFormat
  import opened ParserMachine
  import opened RoundTrip
  import opened Conformance
  import opened Messages
  import opened Connection
  import opened ConnectionInvariant
  import Seqs
  import Utf8

  /** Interfaces whose generated code can exchange all its values. */
  predicate Conformable(interface_: Interface) {
    forall name :: name in interface_ ==>
      Utf8.IsValid(name) && Conforming(interface_[name].result) && Conforming(Tuple(interface_[name].parameters))
  }

  /** The calls that the messages ask for, in order. */
  function Asked(ms: seq<Message>): seq<Invocation> {
    if ms == [] then []
    else
      var last := ms[|ms| - 1];
      Asked(ms[..|ms| - 1]) + (if last.RequestOf? then [Invocation(last.id, last.name, last.args)] else [])
  }

  lemma {:induction false} AskedGrows(ms: seq<Message>, m: nat)
    requires m <= |ms|
    ensures Asked(ms[..m]) <= Asked(ms)
    decreases |ms|
  {
    if m == |ms| {
      assert ms[..m] == ms;
    } else {
      AskedGrows(ms[..|ms| - 1], m);
      assert ms[..|ms| - 1][..m] == ms[..m];
    }
  }

  datatype Current = NoOp | SomeOp(op: Op)

  /** The parse operation that is about to run or waits for a read. */
  function CurrentOp(e: Endpoint): Current {
    if e.readers != [] then SomeOp(e.readers[0])
    else if e.stack != [] && e.stack[0].StartParse? then SomeOp(e.stack[0].op)
    else NoOp
  }

  /** What of a message comes before the bytes that an operation parses. */
  function Prefix(p: Purpose): seq<byte> {
    match p
    case MessageType => []
    case ResponseHeader => [MESSAGE_RESPONSE]
    case RequestHeader => [MESSAGE_REQUEST]
    case Result(id, _) => [MESSAGE_RESPONSE] + Encode(id, 8)
    case Argument(id, name, _) => [MESSAGE_REQUEST] + (Encode(id, 8) + ([|name|] + name))
  }

  function Partial(c: Current): seq<byte> {
    match c
    case NoOp => []
    case SomeOp(op) => Prefix(op.purpose) + op.fed
  }

  /** The first `m` messages have been read completely and the bytes after them
      are split between the operation under way and the buffer: none is lost and
      none is read twice. */
  predicate At(e: Endpoint, ms: seq<Message>, m: nat, c: Current) {
    && AllBuilt(ms) && m <= |ms|
    && e.received == (AllBytes(ms[..m]) + Partial(c)) + e.buffer
    && e.received <= AllBytes(ms)
  }

  lemma OneReader(e: Endpoint)
    requires Base(e) && e.readers != []
    ensures e.readers == [e.readers[0]]
  {
  }

  lemma SameAt(e: Endpoint, e': Endpoint, ms: seq<Message>, m: nat, c: Current)
    requires At(e, ms, m, c) && e'.received == e.received && e'.buffer == e.buffer
    ensures At(e', ms, m, c)
  {
  }

  /** An operation that is about to begin a message has been given nothing. */
  lemma NothingYet(e: Endpoint, ms: seq<Message>, m: nat, p: Purpose)
    requires At(e, ms, m, NoOp) && Prefix(p) == []
    ensures At(e, ms, m, SomeOp(Op(p, [])))
  {
  }

  /** More messages may follow later. */
  lemma AtGrows(e: Endpoint, ms: seq<Message>, m: nat, c: Current, next: Message)
    requires At(e, ms, m, c) && Built(next)
    ensures At(e, ms + [next], m, c)
  {
    AllBytesSnoc(ms, next);
    assert (ms + [next])[..m] == ms[..m];
  }

  lemma ReadOn(e: Endpoint, ms: seq<Message>, m: nat, op: Op, bytes: seq<byte>)
    requires At(e, ms, m, SomeOp(op)) && e.readers == [op] && e.received + bytes <= AllBytes(ms)
    ensures At(OnRead(e, bytes), ms, m, SomeOp(op))
    ensures CurrentOp(OnRead(e, bytes)) == SomeOp(op)
  {
    Seqs.Assoc(AllBytes(ms[..m]) + Partial(SomeOp(op)), e.buffer, bytes);
  }

  /** What an operation can see is the beginning of what is left of its message
      and of the messages after that. */
  lemma Visible(e: Endpoint, ms: seq<Message>, m: nat, op: Op, part: seq<byte>, rest: seq<byte>)
    requires At(e, ms, m, SomeOp(op)) && m < |ms|
    requires Bytes(ms[m]) == Prefix(op.purpose) + (part + rest)
    ensures op.fed + e.buffer <= part + (rest + AllBytes(ms[m + 1..]))
  {
    var a, p := AllBytes(ms[..m]), Prefix(op.purpose);
    var more := AllBytes(ms[m + 1..]);
    AllBytesSplit(ms, m);
    assert ms[m..][0] == ms[m] && ms[m..][1..] == ms[m + 1..];
    assert AllBytes(ms[m..]) == Bytes(ms[m]) + more;
    assert AllBytes(ms) == (a + p) + (part + (rest + more)) by {
      Regroup(a, p, part, rest, more);
    }
    assert e.received == (a + p) + (op.fed + e.buffer) by {
      Regroup(a, p, op.fed, e.buffer, []);
      assert e.received == (a + (p + op.fed)) + e.buffer;
    }
    DropCommon(a + p, op.fed + e.buffer, part + (rest + more));
  }

  lemma Regroup(a: seq<byte>, p: seq<byte>, x: seq<byte>, y: seq<byte>, z: seq<byte>)
    ensures a + ((p + (x + y)) + z) == (a + p) + (x + (y + z))
    ensures (a + (p + x)) + y == (a + p) + (x + y)
  {
  }

  lemma DropCommon(a: seq<byte>, x: seq<byte>, y: seq<byte>)
    requires a + x <= a + y
    ensures x <= y
  {
    Seqs.Split(a, x);
    Seqs.Split(a, y);
    assert x == (a + x)[|a|..];
    assert (a + y)[..|a + x|] == a + x;
  }

  /** At the end of the stream there is nothing to see, and no operation past the
      first byte of a message. */
  lemma AtEnd(e: Endpoint, ms: seq<Message>, op: Op)
    requires At(e, ms, |ms|, SomeOp(op))
    ensures Prefix(op.purpose) == [] && op.fed + e.buffer == []
  {
    assert ms[..|ms|] == ms;
    var a := AllBytes(ms);
    assert |e.received| == |a| + |Prefix(op.purpose)| + |op.fed| + |e.buffer|;
  }

  /** An operation that waits on has been given the buffer. */
  lemma FedOn(e: Endpoint, ms: seq<Message>, m: nat, op: Op)
    requires At(e, ms, m, SomeOp(op))
    ensures At(e.(buffer := []), ms, m, SomeOp(Op(op.purpose, op.fed + e.buffer)))
  {
    hide AllBytes;
    FedOnBytes(AllBytes(ms[..m]), Prefix(op.purpose), op.fed, e.buffer);
  }

  lemma FedOnBytes(a: seq<byte>, p: seq<byte>, x: seq<byte>, y: seq<byte>)
    ensures (a + (p + x)) + y == (a + (p + (x + y))) + []
  {
  }

  /** A completed operation within a message is followed by the next one. */
  lemma NextPart(e: Endpoint, ms: seq<Message>, m: nat, op: Op, part: seq<byte>, next: Purpose)
    requires At(e, ms, m, SomeOp(op)) && part <= op.fed + e.buffer
    requires Prefix(next) == Prefix(op.purpose) + part
    ensures At(e.(buffer := (op.fed + e.buffer)[|part|..]), ms, m, SomeOp(Op(next, [])))
  {
    var a, p, x := AllBytes(ms[..m]), Prefix(op.purpose), op.fed + e.buffer;
    Regroup(a, p, op.fed, e.buffer, []);
    assert x == part + x[|part|..];
    Regroup(a, p, part, x[|part|..], []);
    assert Prefix(next) + [] == Prefix(next);
  }

  lemma CloseMessage(a: seq<byte>, p: seq<byte>, fed: seq<byte>, buffer: seq<byte>, part: seq<byte>)
    requires part <= fed + buffer
    ensures (a + (p + fed)) + buffer == ((a + (p + part)) + []) + (fed + buffer)[|part|..]
  {
    var x := fed + buffer;
    assert x == part + x[|part|..];
    assert (a + (p + fed)) + buffer == (a + p) + x;
  }

  /** A completed body is the end of its message. */
  lemma NextMessage(e: Endpoint, ms: seq<Message>, m: nat, op: Op, part: seq<byte>)
    requires At(e, ms, m, SomeOp(op)) && part <= op.fed + e.buffer && m < |ms|
    requires Bytes(ms[m]) == Prefix(op.purpose) + part
    ensures At(e.(buffer := (op.fed + e.buffer)[|part|..]), ms, m + 1, NoOp)
  {
    hide AllBytes, Bytes, AllBuilt, Prefix;
    UpToNext(ms, m);
    CloseMessage(AllBytes(ms[..m]), Prefix(op.purpose), op.fed, e.buffer, part);
  }

  lemma UpToNext(ms: seq<Message>, m: nat)
    requires AllBuilt(ms) && m < |ms|
    ensures AllBuilt(ms[..m]) && AllBuilt(ms[..m + 1]) && AllBytes(ms[..m + 1]) == AllBytes(ms[..m]) + Bytes(ms[m])
  {
    hide AllBytes, Bytes;
    AllBytesSnoc(ms[..m], ms[m]);
    assert ms[..m + 1] == ms[..m] + [ms[m]];
  }

  /** A completed operation has consumed exactly the encoding of its value. */
  lemma ParseAhead(t: Type, v: Value, rest: seq<byte>, x: seq<byte>)
    requires Conforming(t) && Accepted(t, v) && x <= Write(t, v).bytes + rest
    ensures !Parse(t, x).Failed?
    ensures Parse(t, x).Done? ==>
              && Parse(t, x).value == v && Parse(t, x).used == |Write(t, v).bytes|
              && Write(t, v).bytes <= x
  {
    ParseOfPrefix(t, v, rest, x);
  }

  lemma NothingToParse(p: Purpose)
    requires IsHeader(p)
    ensures Parse(PurposeType(p), []).Waiting?
  {
  }

  lemma MessageTypeWritten(n: byte)
    ensures Conforming(Integer(MESSAGE_TYPE))
    ensures Accepted(Integer(MESSAGE_TYPE), IntegerValue(n))
    ensures Write(Integer(MESSAGE_TYPE), IntegerValue(n)).bytes == [n]
  {
    assert Pow256(1) == 256;
    EncodeByte(n);
  }

  lemma HeaderConforms()
    ensures Conforming(HEADER) && Conforming(Integer(REQUEST_ID))
  {
    var ts := HEADER.elements;
    assert ts[1..] == [Utf8(MESSAGE_TYPE)] && ts[1..][1..] == [];
    assert AllNarrow(ts[1..][1..]) && SafeMembers(ts[1..][1..]);
    assert AllNarrow(ts[1..]) && SafeMembers(ts[1..]);
    assert Eager(ts[0]) && Members(HEADER) == ts;
    assert AllNarrow(ts) && SafeMembers(ts);
  }
}
