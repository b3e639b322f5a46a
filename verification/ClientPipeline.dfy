/** The client's side as an object: it numbers the requests, appends them to the
    writer it shares and registers their callbacks. */
module ClientPipelines {
  import opened BigEndian
  import opened WireFormat
  import opened SplitterModel
  import opened Callers
  import opened Messages
  import opened Connection
  import opened ConnectionAccounting
  import opened BufferedWriters
  import opened MessageSplitters
  import opened ResponseRegistries
  import opened Effects
  import Seqs
  import W = WriterModel

  /** `++next_request_id` on 64 bits. */
  function NextId(id: nat): nat {
    (id + 1) % 0x1_0000_0000_0000_0000
  }

  lemma InRepr(w: BufferedWriter<Sent>)
    requires w.Valid()
    ensures w in w.Repr && (w.state.Sending? ==> w.state.bufferHandlerQueue in w.Repr)
  {
  }

  /** The writer when a message was appended and, if built, sent. */
  function Posted(w: W.Writer<Sent>, m: Message, handler: Sent): W.Writer<Sent>
    requires HasTypes(m)
  {
    if Build(m).ok then W.SendBuffer(W.Append(w, Bytes(m)), handler) else W.Append(w, Bytes(m))
  }

  /** What was built of a refused request stays in the writer's buffer. */
  lemma RefusedIs(e: Endpoint, name: Name, args: seq<Value>)
    requires Enabled(e, DoRequest(name, args)) && !Build(RequestMessage(e, name, args)).ok
    ensures var e' := Connection.Request(e, name, args);
            && e'.writer == W.Append(e.writer, Bytes(RequestMessage(e, name, args)))
            && e'.stack == [User] + e.stack && e'.asserted == e.asserted && e'.interface_ == e.interface_
            && e'.splitter == e.splitter && e'.registry == e.registry && |e'.issued| == |e.issued| + 1
  {
    hide HaveTypes, RequestMessage, Bytes, Build, W.Append;
  }

  lemma BuiltIs(e: Endpoint, name: Name, args: seq<Value>)
    requires Enabled(e, DoRequest(name, args)) && Build(RequestMessage(e, name, args)).ok
    ensures Connection.Request(e, name, args)
         == Connection.ExpectResponse(Requested(e, name, args), |e.issued|, e.interface_[name].result)
    ensures var e' := Connection.Request(e, name, args);
            && e'.writer == W.SendBuffer(W.Append(e.writer, Bytes(RequestMessage(e, name, args))),
                                         RequestSent(|e.issued|))
            && |e'.issued| == |e.issued| + 1 && e'.interface_ == e.interface_
  {
    hide HaveTypes, RequestMessage, Bytes, Build, W.Append, W.SendBuffer, Connection.ExpectResponse;
    ExpectStreams(Requested(e, name, args), |e.issued|, e.interface_[name].result);
  }

  class ClientPipeline {
    const interface_: Interface
    const requests: BufferedWriter<Sent>
    const responses: ExpectedResponseRegistry
    var nextRequestId: nat

    ghost predicate Agrees(e: Endpoint)
      reads this, responses, responses.incoming, requests, requests.Repr
    {
      && requests.Valid() && responses !in requests.Repr && responses.incoming !in requests.Repr
            && this !in requests.Repr
      && responses.Agrees(e) && e.writer == requests.State() && e.interface_ == interface_
      && nextRequestId == |e.issued| % 0x1_0000_0000_0000_0000
    }

    constructor (interface_: Interface, requests: BufferedWriter<Sent>, incoming: MessageSplitter)
      ensures this.interface_ == interface_ && this.requests == requests && nextRequestId == 0
      ensures fresh(responses) && responses.incoming == incoming
      ensures responses.state == NotExpectingResponse && responses.expected == map[]
    {
      this.interface_ := interface_;
      this.requests := requests;
      this.responses := new ExpectedResponseRegistry(incoming);
      nextRequestId := 0;
    }

    method PendingRequests(ghost e: Endpoint) returns (n: nat)
      requires Agrees(e) && Accounted(e)
      ensures n == |Outstanding(e)|
    {
      hide Accounted, Outstanding, BufferedWriter.Valid;
      n := responses.PendingRequests(e);
    }

    /** The builder of the generated client: the name and the arguments. */
    method BuildRequest(sink: Sink, name: Name, args: seq<Value>) returns (ok: bool)
      requires name in interface_ && HaveTypes(interface_[name].parameters, args)
      modifies sink
      ensures sink.contents
           == old(sink.contents) + ([|name|] + name) + WriteAll(interface_[name].parameters, args).bytes
      ensures ok == WriteAll(interface_[name].parameters, args).ok
    {
      sink.Append([|name|]);
      sink.Append(name);
      assert sink.contents == old(sink.contents) + ([|name|] + name);
      ok := SerializeAll(sink, interface_[name].parameters, args);
    }

    /** All the bytes of the request; `sink` is the end of the writer's buffer. */
    method WriteRequest(sink: Sink, id: nat, name: Name, args: seq<Value>) returns (ok: bool)
      requires sink.contents == []
      requires name in interface_ && HaveTypes(interface_[name].parameters, args)
      modifies sink
      ensures sink.contents == Bytes(RequestOf(id, name, interface_[name].parameters, args))
      ensures ok == Build(RequestOf(id, name, interface_[name].parameters, args)).ok
    {
      WriteInteger(sink, MESSAGE_REQUEST, 1);
      EncodeByte(MESSAGE_REQUEST);
      assert sink.contents == [MESSAGE_REQUEST];
      WriteInteger(sink, id, 8);
      ok := BuildRequest(sink, name, args);
      Seqs.Assoc([MESSAGE_REQUEST], Encode(id, 8), [|name|] + name);
    }

    /** The request is appended and, if it could be built, sent. */
    method SendRequest(id: nat, name: Name, args: seq<Value>) returns (ok: bool)
      requires requests.Valid() && this !in requests.Repr
      requires name in interface_ && HaveTypes(interface_[name].parameters, args)
      modifies requests.Repr
      ensures requests.Valid() && fresh(requests.Repr - old(requests.Repr))
      ensures var m := RequestOf(id, name, interface_[name].parameters, args);
              && ok == Build(m).ok
              && requests.State() == Posted(old(requests.State()), m, RequestSent(id))
    {
      hide HasType, HaveTypes, WriteAll, W.Invariant, BufferedWriter.Valid, Bytes, Build, W.SendBuffer;
      InRepr(requests);
      var sink := new Sink();
      ok := WriteRequest(sink, id, name, args);
      requests.Append(sink.contents);
      if ok {
        requests.SendBuffer(RequestSent(id));
      }
    }

    method Request(ghost e: Endpoint, name: Name, args: seq<Value>) returns (ghost todo: seq<Frame>)
      requires Agrees(e) && Enabled(e, DoRequest(name, args)) && MayRun(e, User)
      modifies this, responses, responses.incoming, requests.Repr
      ensures Agrees(Connection.Request(e, name, args))
      ensures Connection.Request(e, name, args).stack == todo + e.stack
      ensures Connection.Request(e, name, args).asserted == e.asserted
    {
      hide HasType, HaveTypes, WriteAll, BufferedWriter.Valid, BufferedWriter.State, Bytes, Build,
           Connection.ExpectResponse, Connection.Request, W.SendBuffer, W.Append;
      var currentId := nextRequestId;
      nextRequestId := NextId(nextRequestId);
      InRepr(requests);
      var ok := SendRequest(currentId, name, args);
      InRepr(requests);
      if !ok {
        RefusedIs(e, name, args);
        return [User];
      }
      BuiltIs(e, name, args);
      todo := responses.ExpectResponse(Requested(e, name, args), currentId, interface_[name].result);
    }
  }
}
