/** The emitted server as an object: it waits for a request, parses the arguments
    with the input locked, calls the implementation and appends the result. */
module GeneratedServers {
  import opened WireTypes
  import opened BigEndian
  import opened WireFormat
  import opened SplitterModel
  import opened Callers
  import opened Messages
  import opened Connection
  import opened Effects
  import opened BufferedWriters
  import opened MessageSplitters
  import opened ClientPipelines
  import W = WriterModel

  lemma ResponsePosted(e: Endpoint, k: nat, v: Value)
    requires Results(e, k, v)
    ensures var m := ResponseMessage(e, k, v);
            var e' := Respond(e, k, v);
            && e'.writer == Posted(e.writer, m, ResponseSent(k)) && e'.interface_ == e.interface_
            && e'.stack == (if Build(m).ok then e.stack else [User] + e.stack)
  {
    hide Results, ResponseMessage, Responded, ResponseRefused, W.SendBuffer, W.Append, Bytes, Build;
    RespondedPosted(e, k, v);
    RefusedPosted(e, k, v);
  }

  lemma RespondedPosted(e: Endpoint, k: nat, v: Value)
    requires Results(e, k, v)
    ensures var e' := Responded(e, k, v);
            && e'.writer == W.SendBuffer(W.Append(e.writer, Bytes(ResponseMessage(e, k, v))), ResponseSent(k))
            && e'.interface_ == e.interface_ && e'.stack == e.stack
  {
    hide Results, ResponseMessage, W.SendBuffer, W.Append, Bytes, Build;
  }

  lemma RefusedPosted(e: Endpoint, k: nat, v: Value)
    requires Results(e, k, v)
    ensures var e' := ResponseRefused(e, k, v);
            && e'.writer == W.Append(e.writer, Bytes(ResponseMessage(e, k, v)))
            && e'.interface_ == e.interface_ && e'.stack == [User] + e.stack
  {
    hide Results, ResponseMessage, W.SendBuffer, W.Append, Bytes, Build;
  }

  lemma UnknownRequest(e: Endpoint, id: nat, name: seq<byte>)
    requires e.splitter.waitingForRequest && e.splitter.parsingHeader && !(|name| <= 255 && name in e.interface_)
    ensures var e' := OnRequestHeader(e, id, name);
            && e'.splitter == e.splitter.(parsingHeader := false, waitingForRequest := false)
            && e'.stack == [AfterRequest(e.splitter.waitingForResponse)] + e.stack
            && e'.interface_ == e.interface_ && e'.asserted == e.asserted && e'.halted
  {
  }

  class AsyncServer {
    const interface_: Interface
    const requests: MessageSplitter
    const responses: BufferedWriter<Sent>

    /** The endpoint's splitter is this server's. */
    ghost predicate Reads(e: Endpoint)
      reads requests
    {
      e.splitter == requests.State() && e.interface_ == interface_
    }

    /** The endpoint's writer is this server's. */
    ghost predicate Writes(e: Endpoint)
      reads responses, responses.Repr
    {
      responses.Valid() && e.writer == responses.State() && e.interface_ == interface_
    }

    /** From the endpoint `e`, the endpoint is now `e'`, with `todo` left to run;
        nothing that the source asserts has failed. */
    ghost predicate Follows(e: Endpoint, e': Endpoint, todo: seq<Frame>)
      reads requests
    {
      Reads(e') && e'.stack == todo + e.stack && e'.asserted == e.asserted
    }

    constructor (interface_: Interface, requests: MessageSplitter, responses: BufferedWriter<Sent>)
      ensures this.interface_ == interface_ && this.requests == requests && this.responses == responses
    {
      this.interface_, this.requests, this.responses := interface_, requests, responses;
    }

    /** `serve_one_request`, one at a time. */
    method ServeOneRequest(ghost e: Endpoint) returns (todo: seq<Frame>)
      requires Reads(e) && !e.busy && MayRun(e, User)
      modifies requests
      ensures Follows(e, Serve(e), todo)
    {
      var starts := requests.WaitForRequest();
      todo := Started(starts);
    }

    /** A request's header has been decoded. An unknown name ends the run with an
        exception. */
    method OnRequest(ghost e: Endpoint, id: nat, name: seq<byte>) returns (todo: seq<Frame>, known: bool)
      requires Reads(e) && MayComplete(e, RequestHeader)
      modifies requests
      ensures Follows(e, OnRequestHeader(e, id, name), todo)
      ensures OnRequestHeader(e, id, name).halted == (e.halted || !known)
    {
      hide OnRequestHeader;
      var continue_ := requests.TakeRequestWaiter();
      if |name| <= 255 && name in interface_ {
        DispatchedRequest(e, id, name);
        assert [StartParse(Op(Argument(id, name, interface_[name].parameters), [])), AfterRequest(continue_)] + e.stack
            == OnRequestHeader(e, id, name).stack;
        requests.LockInput();
        return [StartParse(Op(Argument(id, name, interface_[name].parameters), [])), AfterRequest(continue_)], true;
      }
      UnknownRequest(e, id, name);
      return [AfterRequest(continue_)], false;
    }

    /** The arguments have been parsed: the implementation is called once the
        input is unlocked. */
    method OnArgument(ghost e: Endpoint, id: nat, name: Name, parameters: seq<Type>,
            v: Value) returns (todo: seq<Frame>)
      requires Reads(e) && MayComplete(e, Argument(id, name, parameters)) && HasType(Tuple(parameters), v)
      requires HasWaiter(requests.State()) ==> requests.beginParseMessage
      modifies requests
      ensures Follows(e, OnValue(e, Argument(id, name, parameters), v), todo)
    {
      hide Apply, Push;
      Unlocked(e, Implement(id, name, v.values));
      var starts := requests.UnlockInput();
      todo := Started(starts) + [Implement(id, name, v.values)];
    }

    method OnArgumentError(ghost e: Endpoint, id: nat, name: Name, parameters: seq<Type>) returns (todo: seq<Frame>)
      requires Reads(e) && MayComplete(e, Argument(id, name, parameters))
      requires HasWaiter(requests.State()) ==> requests.beginParseMessage
      modifies requests
      ensures Follows(e, Connection.OnError(e, Argument(id, name, parameters)), todo)
    {
      hide Apply, Push;
      Unlocked(e, ServeError);
      var starts := requests.UnlockInput();
      todo := Started(starts) + [ServeError];
    }

    /** All the bytes of the response; `sink` is the end of the writer's buffer. */
    method WriteResponse(sink: Sink, id: nat, result: Type, v: Value) returns (ok: bool)
      requires sink.contents == [] && HasType(result, v)
      modifies sink
      ensures sink.contents == Bytes(ResponseOf(id, result, v))
      ensures ok == Build(ResponseOf(id, result, v)).ok
    {
      hide HasType;
      WriteInteger(sink, MESSAGE_RESPONSE, 1);
      EncodeByte(MESSAGE_RESPONSE);
      assert sink.contents == [MESSAGE_RESPONSE];
      WriteInteger(sink, id, 8);
      ok := Serialize(sink, result, v);
    }

    /** The implementation's result for its call `k`. */
    method OnResult(ghost e: Endpoint, k: nat, request: nat, name: Name, v: Value) returns (todo: seq<Frame>)
      requires Writes(e) && k < |e.invoked| && e.invoked[k].request == request && e.invoked[k].name == name
      requires name in interface_ && HasType(interface_[name].result, v)
      modifies responses.Repr
      ensures Writes(Respond(e, k, v)) && Respond(e, k, v).stack == todo + e.stack
    {
      hide HasType, Write, W.Invariant, BufferedWriter.Valid, Bytes, Build, W.SendBuffer, Connection.Respond;
      ResponsePosted(e, k, v);
      InRepr(responses);
      var sink := new Sink();
      var ok := WriteResponse(sink, request, interface_[name].result, v);
      responses.Append(sink.contents);
      if !ok {
        return [User];
      }
      responses.SendBuffer(ResponseSent(k));
      todo := [];
      assert todo + e.stack == e.stack;
    }

    /** The implementation's error: nothing is sent. */
    method OnResultError(ghost e: Endpoint, k: nat) returns (todo: seq<Frame>)
      requires Reads(e)
      ensures Follows(e, RespondError(e, k), todo)
    {
      todo := [User];
    }
  }
}
