/** The message splitter as an object that changes its fields. */
module MessageSplitters {
  import opened Connection
  import M = SplitterModel

  datatype Next = ReadRequest | ReadResponse | Fault

  /** The functions it stores and calls are the business of its users: a method
      that may begin a header parse reports whether it does, and one that takes a
      waiter out leaves the call to its user. What the source asserts is required
      here. */
  class MessageSplitter {
    var locked: bool
    var parsingHeader: bool
    var waitingForRequest: bool
    var waitingForResponse: bool
    var beginParseMessage: bool

    ghost function State(): M.Splitter
      reads this
    {
      M.Splitter(locked, parsingHeader, waitingForRequest, waitingForResponse, beginParseMessage)
    }

    constructor ()
      ensures State() == M.Fresh()
    {
      locked, parsingHeader := false, false;
      waitingForRequest, waitingForResponse, beginParseMessage := false, false, false;
    }

    method BeginParseMessage() returns (starts: bool)
      requires beginParseMessage
      requires M.BeginParse(State()).asserted
      modifies this
      ensures State() == M.BeginParse(old(State())).after && starts == M.BeginParse(old(State())).starts
    {
      if locked {
        return false;
      }
      beginParseMessage := false;
      parsingHeader := true;
      return true;
    }

    method WaitForResponse() returns (starts: bool)
      requires !waitingForResponse
      modifies this
      ensures State() == M.WaitForResponse(old(State())).after
      ensures starts == M.WaitForResponse(old(State())).starts
    {
      waitingForResponse := true;
      beginParseMessage := true;
      if parsingHeader {
        return false;
      }
      starts := BeginParseMessage();
    }

    method WaitForRequest() returns (starts: bool)
      requires !waitingForRequest
      modifies this
      ensures State() == M.WaitForRequest(old(State())).after
      ensures starts == M.WaitForRequest(old(State())).starts
    {
      waitingForRequest := true;
      beginParseMessage := true;
      if parsingHeader {
        return false;
      }
      starts := BeginParseMessage();
    }

    method LockInput()
      requires !parsingHeader && !locked
      modifies this
      ensures State() == M.LockInput(old(State())).after
    {
      locked := true;
    }

    method UnlockInput() returns (starts: bool)
      requires !parsingHeader && locked
      requires waitingForRequest || waitingForResponse ==> beginParseMessage
      modifies this
      ensures State() == M.UnlockInput(old(State())).after
      ensures starts == M.UnlockInput(old(State())).starts
    {
      locked := false;
      if !waitingForResponse && !waitingForRequest {
        return false;
      }
      starts := BeginParseMessage();
    }

    /** A decoded response header: the waiter is taken out and is to be called. */
    method TakeResponseWaiter() returns (continue_: bool)
      requires parsingHeader && waitingForResponse
      modifies this
      ensures State() == old(State()).(parsingHeader := false, waitingForResponse := false)
      ensures continue_ == old(waitingForRequest)
    {
      parsingHeader := false;
      continue_ := waitingForRequest;
      waitingForResponse := false;
    }

    method TakeRequestWaiter() returns (continue_: bool)
      requires parsingHeader && waitingForRequest
      modifies this
      ensures State() == old(State()).(parsingHeader := false, waitingForRequest := false)
      ensures continue_ == old(waitingForResponse)
    {
      parsingHeader := false;
      continue_ := waitingForResponse;
      waitingForRequest := false;
    }

    /** What is left to do when the response waiter has returned. */
    method AfterResponse(continue_: bool) returns (starts: bool)
      requires continue_ && waitingForRequest && !parsingHeader ==> beginParseMessage
      modifies this
      ensures State() == M.ContinueFor(old(State()), continue_, old(waitingForRequest)).after
      ensures starts == M.ContinueFor(old(State()), continue_, old(waitingForRequest)).starts
    {
      if continue_ && waitingForRequest && !parsingHeader {
        starts := BeginParseMessage();
      } else {
        starts := false;
      }
    }

    method AfterRequest(continue_: bool) returns (starts: bool)
      requires continue_ && waitingForResponse && !parsingHeader ==> beginParseMessage
      modifies this
      ensures State() == M.ContinueFor(old(State()), continue_, old(waitingForResponse)).after
      ensures starts == M.ContinueFor(old(State()), continue_, old(waitingForResponse)).starts
    {
      if continue_ && waitingForResponse && !parsingHeader {
        starts := BeginParseMessage();
      } else {
        starts := false;
      }
    }

    /** The message type has been decoded: what is parsed next, if anything. */
    method OnMessageType(ghost e: Endpoint, n: nat) returns (next: Next)
      requires e.splitter == State()
      ensures Connection.OnMessageType(e, n) ==
              match next
              case ReadResponse => Accept(e, n, ResponseHeader)
              case ReadRequest => Accept(e, n, RequestHeader)
              case Fault => SplitterError(e)
      ensures next.ReadRequest? <==> n == 0 && waitingForRequest
      ensures next.ReadResponse? <==> n == 1 && waitingForResponse
    {
      hide SplitterError, Accept;
      match n {
        case 1 =>
          if !waitingForResponse {
            return Fault;
          }
          return ReadResponse;
        case 0 =>
          if !waitingForRequest {
            return Fault;
          }
          return ReadRequest;
        case _ => return Fault;
      }
    }

    /** `on_error` up to the call of the response waiter. */
    method OnError(ghost e: Endpoint) returns (hadRequest: bool, hadResponse: bool)
      requires e.splitter == State()
      modifies this
      ensures State() == SplitterError(e).splitter
      ensures SplitterError(e).stack
           == (if hadResponse then [FailAll(|e.errors|, e.registry.expected.Keys)] else [])
              + [Frame.AfterError(hadRequest)] + e.stack
    {
      hadRequest := waitingForRequest;
      hadResponse := waitingForResponse;
      if waitingForResponse {
        waitingForResponse := false;
      }
    }

    /** The rest of `on_error`: the request waiter is taken out to be called. */
    method AfterError(ghost e: Endpoint, hadRequest: bool)
      requires e.splitter == State() && (hadRequest ==> waitingForRequest)
      modifies this
      ensures State() == OnAfterError(e, hadRequest).splitter
      ensures OnAfterError(e, hadRequest).stack == (if hadRequest then [ServeError] else []) + e.stack
      ensures OnAfterError(e, hadRequest).halted == e.halted
    {
      if hadRequest {
        waitingForRequest := false;
      }
    }
  }
}
