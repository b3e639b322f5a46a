/** The bytes of requests and responses, in numbers, and what the endpoint that
    reads them does: a request begins with 0 and a response with 1, followed by the
    id in 8 bytes. */
module Framing {
  import opened WireTypes
  import opened BigEndian
  import opened WireFormat
  import opened RoundTrip
  import opened Reference
  import opened Messages
  import opened Connection
  import opened ConnectionInvariant
  import opened Effects
  import opened IncomingStream
  import opened Peer
  import opened Demultiplexing
  import Seqs
  import Utf8
  import W = WriterModel

  // ----- what is written -----

  function RequestHead(id: nat, name: Name): seq<byte> {
    [0] + Encode(id, 8) + [|name|] + name
  }

  function ResponseHead(id: nat): seq<byte> {
    [1] + Encode(id, 8)
  }

  /** The arguments follow the name, up to the first part that is out of range, and
      the request is built if and only if there is none. */
  lemma RequestBuilt(id: nat, name: Name, ts: seq<Type>, args: seq<Value>)
    requires |args| == |ts| && forall i :: 0 <= i < |ts| ==> HasType(ts[i], args[i])
    ensures HaveTypes(ts, args)
    ensures Build(RequestOf(id, name, ts, args))
         == Written(RequestHead(id, name) + OutputOfElements(ts, args), AllInRange(ts, args))
  {
    hide Encode, AllInRange, OutputOfElements;
    MembersWritten(ts, args);
    assert [0] + (Encode(id, 8) + ([|name|] + name)) == RequestHead(id, name);
  }

  lemma ResponseBuilt(id: nat, t: Type, v: Value)
    requires HasType(t, v)
    ensures Build(ResponseOf(id, t, v)) == Written(ResponseHead(id) + Output(t, v), InRange(t, v))
  {
    hide Encode, InRange, Output;
    WrittenExactly(t, v);
  }

  /** What a request of the application adds to the stream. */
  lemma RequestOnWire(e: Endpoint, name: Name, args: seq<Value>)
    requires Enabled(e, DoRequest(name, args))
    ensures var ts := e.interface_[name].parameters;
            && |args| == |ts| && (forall i :: 0 <= i < |ts| ==> HasType(ts[i], args[i]))
            && Connection.Step(e, DoRequest(name, args)).writer.appended
               == e.writer.appended + (RequestHead(|e.issued|, name) + OutputOfElements(ts, args))
  {
    hide HaveTypes, Build, ExpectResponse, Bytes, OutputOfElements, RequestHead, HasType, AllInRange;
    var ts := e.interface_[name].parameters;
    MembersTyped(ts, args);
    RequestBuilt(|e.issued|, name, ts, args);
    RequestAppends(e, name, args);
  }

  lemma RequestAppends(e: Endpoint, name: Name, args: seq<Value>)
    requires Enabled(e, DoRequest(name, args))
    ensures Request(e, name, args).writer.appended
         == e.writer.appended + Build(RequestOf(|e.issued|, name, e.interface_[name].parameters, args)).bytes
  {
    hide HaveTypes, Build, ExpectResponse, Bytes;
    var m := RequestMessage(e, name, args);
    AppendedBy(e.writer, Bytes(m), RequestSent(|e.issued|));
    ExpectStreams(Requested(e, name, args), |e.issued|, e.interface_[name].result);
    BytesAre(m);
  }

  lemma BytesAre(m: Message)
    requires HasTypes(m)
    ensures Bytes(m) == Build(m).bytes
  {
    hide HasTypes, Build;
  }

  lemma AppendedBy(w: W.Writer<Sent>, bytes: seq<byte>, handler: Sent)
    ensures W.Append(w, bytes).appended == w.appended + bytes
    ensures W.SendBuffer(W.Append(w, bytes), handler).appended == w.appended + bytes
  {
  }

  /** And what a result of the implementation adds. */
  lemma ResponseOnWire(e: Endpoint, k: nat, v: Value)
    requires Enabled(e, DoRespond(k, v))
    ensures var (t, id) := (e.interface_[e.invoked[k].name].result, e.invoked[k].request);
            && HasType(t, v)
            && Connection.Step(e, DoRespond(k, v)).writer.appended
               == e.writer.appended + (ResponseHead(id) + Output(t, v))
  {
    hide HasType, Build, Bytes, Output, ResponseHead, InRange;
    ResponseBuilt(e.invoked[k].request, e.interface_[e.invoked[k].name].result, v);
    RespondAppends(e, k, v);
  }

  lemma RespondAppends(e: Endpoint, k: nat, v: Value)
    requires Results(e, k, v)
    ensures Respond(e, k, v).writer.appended == e.writer.appended + Build(ResponseMessage(e, k, v)).bytes
  {
    hide HasType, Build, Bytes;
    var m := ResponseMessage(e, k, v);
    AppendedBy(e.writer, Bytes(m), ResponseSent(k));
    BytesAre(m);
  }

  // ----- what is read -----

  lemma OneByte(b: byte, rest: seq<byte>)
    ensures ([b] + rest)[0] == b && ([b] + rest)[1..] == rest
  {
  }

  /** The first byte of a message: 0 leads to the header of a request and 1 to that
      of a response if somebody waits for it, and everything else is an error. */
  lemma TypeIsDispatched(e: Endpoint, op: Op, b: byte, rest: seq<byte>)
    requires e.stack != [] && e.stack[0] == StartParse(op) && op.purpose.MessageType? && !e.faulty
    requires op.fed + e.buffer == [b] + rest
    ensures var e' := Resume(e);
            var s := e.splitter;
            && (e'.faulty <==> !(b == 0 && s.waitingForRequest) && !(b == 1 && s.waitingForResponse))
            && (b == 0 && s.waitingForRequest ==> e'.stack == [StartParse(Op(RequestHeader, []))] + e.stack[1..])
            && (b == 1 && s.waitingForResponse ==> e'.stack == [StartParse(Op(ResponseHeader, []))] + e.stack[1..])
            && e'.buffer == rest
  {
    hide OnStartParse, Parse, OnMessageType;
    ResumeParse(e, op);
    var x := op.fed + e.buffer;
    OneByte(b, rest);
    TypeParsed(b, x);
    var e1 := e.(stack := e.stack[1..]);
    ParseDone(e1, op);
    TypeGoesOn(e1.(buffer := rest), b);
  }

  lemma TypeGoesOn(e: Endpoint, b: byte)
    requires !e.faulty
    ensures var e' := OnMessageType(e, b);
            var s := e.splitter;
            && (e'.faulty <==> !(b == 0 && s.waitingForRequest) && !(b == 1 && s.waitingForResponse))
            && (b == 0 && s.waitingForRequest ==> e'.stack == [StartParse(Op(RequestHeader, []))] + e.stack)
            && (b == 1 && s.waitingForResponse ==> e'.stack == [StartParse(Op(ResponseHeader, []))] + e.stack)
            && e'.buffer == e.buffer
  {
    hide SplitterError, Accept;
    SplitterErrorFaults(e);
    SplitterErrorStreams(e);
    Accepts(e, b, RequestHeader);
    Accepts(e, b, ResponseHeader);
  }

  lemma Accepts(e: Endpoint, n: nat, header: Purpose)
    ensures var e' := Accept(e, n, header);
            e'.faulty == e.faulty && e'.buffer == e.buffer && e'.stack == [StartParse(Op(header, []))] + e.stack
  {
  }

  /** The id and the name of a request: the arguments of the method of that name are
      read next, from the byte after the name. */
  lemma RequestIsDispatched(e: Endpoint, op: Op, id: nat, name: Name, rest: seq<byte>)
    requires Base(e) && e.stack != [] && e.stack[0] == StartParse(op) && op.purpose.RequestHeader?
    requires id < 0x1_0000_0000_0000_0000 && Utf8.IsValid(name) && name in e.interface_
    requires op.fed + e.buffer == Encode(id, 8) + [|name|] + name + rest
    ensures var e' := Resume(e);
            var next := Op(Argument(id, name, e.interface_[name].parameters), []);
            && e'.stack != [] && e'.stack[0] == StartParse(next) && e'.buffer == rest && e'.splitter.locked
            && !e'.halted
  {
    hide OnStartParse, Parse, OnRequestHeader, Encode, Base, Utf8.IsValid;
    var header := TupleValue([IntegerValue(id), TextValue(name)]);
    var part := Encode(id, 8) + ([|name|] + name);
    HeaderWritten(id, name);
    HeaderConforms();
    HeaderNeverLate(RequestHeader, header);
    assert op.fed + e.buffer == part + rest;
    EnoughToParse(HEADER, header, part + rest);
    ParseAhead(HEADER, header, rest, part + rest);
    ResumeParse(e, op);
    var e1 := e.(stack := e.stack[1..]);
    ParseDone(e1, op);
    Seqs.Split(part, rest);
    RequestReady(e);
    DispatchedRequest(e1.(buffer := rest), id, name);
  }

  /** A name that no method has ends the run, before the implementation is called. */
  lemma UnknownIsFatal(e: Endpoint, op: Op, id: nat, name: Name, rest: seq<byte>)
    requires Base(e) && e.stack != [] && e.stack[0] == StartParse(op) && op.purpose.RequestHeader?
    requires id < 0x1_0000_0000_0000_0000 && Utf8.IsValid(name) && name !in e.interface_
    requires op.fed + e.buffer == Encode(id, 8) + [|name|] + name + rest
    ensures Resume(e).halted && Resume(e).invoked == e.invoked
  {
    hide OnStartParse, Parse, OnRequestHeader, Encode, Base, Utf8.IsValid;
    var header := TupleValue([IntegerValue(id), TextValue(name)]);
    var part := Encode(id, 8) + ([|name|] + name);
    HeaderWritten(id, name);
    HeaderConforms();
    HeaderNeverLate(RequestHeader, header);
    assert op.fed + e.buffer == part + rest;
    EnoughToParse(HEADER, header, part + rest);
    ParseAhead(HEADER, header, rest, part + rest);
    ResumeParse(e, op);
    var e1 := e.(stack := e.stack[1..]);
    ParseDone(e1, op);
    Seqs.Split(part, rest);
    UnknownHalts(e1.(buffer := rest), id, name);
  }

  lemma UnknownHalts(e: Endpoint, id: nat, name: Name)
    requires name !in e.interface_
    ensures OnRequestHeader(e, id, name).halted && OnRequestHeader(e, id, name).invoked == e.invoked
  {
  }

  lemma RequestReady(e: Endpoint)
    requires Base(e) && e.stack != [] && e.stack[0].StartParse? && e.stack[0].op.purpose.RequestHeader?
    ensures e.splitter.waitingForRequest && e.splitter.parsingHeader && !e.splitter.locked && !e.halted
  {
    hide LogFits;
    PopSound(e);
  }

  /** The id of a response to a pending request: its result is read next, as the
      type that the request's method has. */
  lemma ResponseIsDispatched(e: Endpoint, op: Op, id: nat, rest: seq<byte>)
    requires Base(e) && e.stack != [] && e.stack[0] == StartParse(op) && op.purpose.ResponseHeader?
    requires id < 0x1_0000_0000_0000_0000 && id in e.registry.expected
    requires op.fed + e.buffer == Encode(id, 8) + rest
    ensures var e' := Resume(e);
            var next := Op(Result(id, e.registry.expected[id]), []);
            && e'.stack != [] && e'.stack[0] == StartParse(next) && e'.buffer == rest && e'.splitter.locked
            && e'.registry.expected == e.registry.expected - {id}
  {
    hide OnStartParse, Parse, OnResponseHeader, Encode, Base;
    var v := IntegerValue(id);
    IdWritten(id);
    HeaderConforms();
    EnoughToParse(Integer(REQUEST_ID), v, Encode(id, 8) + rest);
    ParseAhead(Integer(REQUEST_ID), v, rest, Encode(id, 8) + rest);
    ResumeParse(e, op);
    var e1 := e.(stack := e.stack[1..]);
    ParseDone(e1, op);
    Seqs.Split(Encode(id, 8), rest);
    ResponseTakes(e1.(buffer := rest), id);
  }

  lemma ResponseTakes(e: Endpoint, id: nat)
    requires id in e.registry.expected
    ensures var e' := OnResponseHeader(e, id);
            var next := Op(Result(id, e.registry.expected[id]), []);
            && e'.stack != [] && e'.stack[0] == StartParse(next) && e'.buffer == e.buffer && e'.splitter.locked
            && e'.registry.expected == e.registry.expected - {id}
  {
  }
}
