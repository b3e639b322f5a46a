/** The registry of expected responses as an object that changes its fields. Its
    methods do what the steps of `Connection` do; what is still to be called is
    returned as the frames that are new on the stack. */
module ResponseRegistries {
  import opened WireTypes
  import opened WireFormat
  import opened SplitterModel
  import opened Callers
  import opened Connection
  import opened ConnectionAccounting
  import opened Effects
  import opened MessageSplitters

  class ExpectedResponseRegistry {
    const incoming: MessageSplitter
    var state: ResponseState
    var expected: map<nat, Type>

    /** The endpoint's splitter and registry have these fields. */
    ghost predicate Agrees(e: Endpoint)
      reads this, incoming
    {
      e.splitter == incoming.State() && e.registry == Registry(state, expected)
    }

    /** From the endpoint `e`, the endpoint is now `e'`, with `todo` left to run;
        nothing that the source asserts has failed. */
    ghost predicate Follows(e: Endpoint, e': Endpoint, todo: seq<Frame>)
      reads this, incoming
    {
      Agrees(e') && e'.stack == todo + e.stack && e'.asserted == e.asserted && e'.halted == e.halted
    }

    constructor (incoming: MessageSplitter)
      ensures this.incoming == incoming && state == NotExpectingResponse && expected == map[]
    {
      this.incoming := incoming;
      state := NotExpectingResponse;
      expected := map[];
    }

    /** The number of requests whose callback has not been called, nor is about to
        be, and whose result is not being read. */
    method PendingRequests(ghost e: Endpoint) returns (n: nat)
      requires Agrees(e) && Accounted(e)
      ensures n == |Outstanding(e)|
    {
      hide Accounted, Outstanding;
      PendingIsOutstanding(e);
      n := |expected|;
    }

    /** The entry of an id that is already pending stays. */
    method ExpectResponse(ghost e: Endpoint, id: nat, resultType: Type) returns (ghost todo: seq<Frame>)
      requires Agrees(e)
      requires state == NotExpectingResponse ==> !incoming.waitingForResponse
      modifies this, incoming
      ensures Follows(e, Connection.ExpectResponse(e, id, resultType), todo)
    {
      if id !in expected {
        expected := expected[id := resultType];
      }
      match state {
        case NotExpectingResponse =>
          todo := ParseHeader(e.(registry := Registry(state, expected)));
        case _ =>
          todo := [];
      }
    }

    method ParseHeader(ghost e: Endpoint) returns (ghost todo: seq<Frame>)
      requires Agrees(e) && !incoming.waitingForResponse
      modifies this, incoming
      ensures expected == old(expected)
      ensures Follows(e, Connection.ParseHeader(e), todo)
    {
      state := ParsingHeader;
      var starts := incoming.WaitForResponse();
      todo := Started(starts);
    }

    /** Every pending callback is to be called with the error, in the order of the
        ids. */
    method OnError(ghost e: Endpoint) returns (ghost todo: seq<Frame>)
      requires Agrees(e)
      modifies this
      ensures Follows(e, RegistryError(e), todo)
    {
      var localExpected := expected;
      expected := map[];
      state := NotExpectingResponse;
      todo := [FailAll(|e.errors|, localExpected.Keys)];
    }

    /** The header of a response has been decoded: the splitter takes its waiter
        out, calls it and goes on. */
    method OnResponseHeader(ghost e: Endpoint, id: nat) returns (ghost todo: seq<Frame>)
      requires Agrees(e) && MayComplete(e, ResponseHeader)
      modifies this, incoming
      ensures Follows(e, Connection.OnResponseHeader(e, id), todo)
    {
      hide OnResponseId;
      var continue_ := incoming.TakeResponseWaiter();
      todo := OnRequestId(Dispatch(Assert(e, true), ForResponse), id);
      todo := todo + [Frame.AfterResponse(continue_)];
    }

    /** The response waiter, called with the id of a response. */
    method OnRequestId(ghost e: Endpoint, id: nat) returns (ghost todo: seq<Frame>)
      requires Agrees(e) && state == ParsingHeader
      requires !incoming.parsingHeader && !incoming.locked
      modifies this, incoming
      ensures Follows(e, OnResponseId(e, id), todo)
    {
      if id !in expected {
        state := NotExpectingResponse;
        todo := OnError(e.(registry := Registry(state, expected)));
        return;
      }
      var resultType := expected[id];
      expected := expected - {id};
      state := ParsingResult;
      incoming.LockInput();
      todo := [StartParse(Op(Result(id, resultType), []))];
    }

    /** The result has been parsed: the input is unlocked. */
    method OnResult(ghost e: Endpoint, id: nat, resultType: Type, v: Value) returns (ghost todo: seq<Frame>)
      requires HasType(resultType, v)
      requires Agrees(e) && MayComplete(e, Result(id, resultType))
      requires HasWaiter(incoming.State()) ==> incoming.beginParseMessage
      modifies incoming
      ensures Follows(e, OnValue(e, Result(id, resultType), v), todo)
    {
      hide Apply, Push;
      Unlocked(e, NextResponse(id, v));
      var starts := incoming.UnlockInput();
      todo := Started(starts) + [NextResponse(id, v)];
    }

    /** The rest of it: the next header, and only then the callback. */
    method AfterResult(ghost e: Endpoint, id: nat, v: Value) returns (ghost todo: seq<Frame>)
      requires Agrees(e) && MayRun(e, NextResponse(id, v))
      modifies this, incoming
      ensures Follows(e, OnNextResponse(e, id, v), todo)
    {
      if expected == map[] {
        state := NotExpectingResponse;
        todo := [];
      } else {
        todo := ParseHeader(e.(stack := [Answer(id, v)] + e.stack));
      }
      todo := todo + [Answer(id, v)];
    }

    /** The result cannot be parsed: its callback is dropped with the operation,
        the others are called with the error. */
    method OnResultError(ghost e: Endpoint, id: nat, resultType: Type) returns (ghost todo: seq<Frame>)
      requires Agrees(e) && state == ParsingResult
      modifies this
      ensures Follows(e, Connection.OnError(e, Result(id, resultType)), todo)
      ensures id in Connection.OnError(e, Result(id, resultType)).dropped
    {
      todo := OnError(e.(dropped := e.dropped + [id]));
    }
  }
}
