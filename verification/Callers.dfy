/** What the methods of the splitter, the registry, the client pipeline and the
    emitted server require of their callers holds wherever they are called: the
    runs of the objects are those of the machine. */
module Callers {
  import opened SplitterModel
  import opened Messages
  import opened Connection
  import opened ConnectionInvariant
  import opened ConnectionAccounting

  /** For the completion of a parse operation. */
  predicate MayComplete(e: Endpoint, p: Purpose) {
    var s := e.splitter;
    match p
    case MessageType => s.parsingHeader && !s.locked
    case ResponseHeader =>
      s.parsingHeader && !s.locked && s.waitingForResponse && e.registry.state == ParsingHeader
    case RequestHeader => s.parsingHeader && !s.locked && s.waitingForRequest
    case Result(_, _) => s.locked && !s.parsingHeader && e.registry.state == ParsingResult
    case Argument(_, _, _) => s.locked && !s.parsingHeader
  }

  /** For the frame that runs next; where the application runs, for a request and
      for `serve_one_request`. */
  predicate MayRun(e: Endpoint, f: Frame) {
    match f
    case StartParse(op) => MayComplete(e, op.purpose)
    case AfterError(hadRequest) => hadRequest ==> e.splitter.waitingForRequest
    case NextResponse(_, _) => e.registry.expected != map[] ==> !e.splitter.waitingForResponse
    case User =>
      && (!e.busy ==> !e.splitter.waitingForRequest)
      && (e.registry.state == NotExpectingResponse ==> !e.splitter.waitingForResponse)
      && |e.issued| !in e.registry.expected
    case _ => true
  }

  predicate Allowed(e: Endpoint) {
    && (e.stack != [] ==> MayRun(e, e.stack[0]))
    && (e.readers != [] ==> MayComplete(e, e.readers[0].purpose))
  }

  /** `begin_parse_message` is set where it may be called: when a body has been
      read, and when a waiter has returned. */
  predicate BeginIsSet(e: Endpoint) {
    var s := e.splitter;
    e.stack != [] ==>
      match e.stack[0]
      case StartParse(op) => !IsHeader(op.purpose) && HasWaiter(s) ==> s.beginParseMessage
      case AfterRequest(continue_) => continue_ && s.waitingForResponse && !s.parsingHeader ==> s.beginParseMessage
      case AfterResponse(continue_) => continue_ && s.waitingForRequest && !s.parsingHeader ==> s.beginParseMessage
      case _ => true
  }

  lemma CompletionAllowed(e: Endpoint, p: Purpose)
    requires Core(e, Somebody(p))
    ensures MayComplete(e, p)
  {
    hide LogFits, Nexts, Serves, Errors;
  }

  lemma FrameAllowed(e: Endpoint)
    requires Base(e) && AccountedFor(e, |e.issued|) && e.stack != []
    ensures MayRun(e, e.stack[0])
  {
    hide LogFits;
    PopFacts(e);
    if e.stack[0].StartParse? {
      CompletionAllowed(e, e.stack[0].op.purpose);
    }
  }

  lemma ReaderAllowed(e: Endpoint)
    requires Base(e) && e.readers != []
    ensures MayComplete(e, e.readers[0].purpose)
  {
    hide Core, Awake;
    CompletionAllowed(e, e.readers[0].purpose);
  }

  lemma BeginAllowed(e: Endpoint)
    requires Base(e) && e.log.known
    ensures BeginIsSet(e)
  {
    hide LogFits, Nexts, Serves, Errors;
  }

  /** Over every run, whatever arrives and whatever fails, the objects that agree
      with the endpoint may be called as the machine goes on; as long as each
      response is that to a pending request `begin_parse_message` is set, too. */
  lemma EveryCallIsAllowed(interface_: Interface, events: seq<Event>)
    requires Legal(New(interface_), events) && !RunAll(New(interface_), events).halted
    ensures var e := RunAll(New(interface_), events);
            Allowed(e) && (e.log.known ==> BeginIsSet(e))
  {
    hide Base, Accounted, New, Connection.Step, Enabled, MayRun, MayComplete, BeginIsSet, AccountedFor;
    var e := RunAll(New(interface_), events);
    Reachable(interface_, events);
    ReachableAccounts(interface_, events);
    NextAccounted(e);
    RunningBase(e);
    if e.stack != [] {
      FrameAllowed(e);
    }
    if e.readers != [] {
      ReaderAllowed(e);
    }
    if e.log.known {
      BeginAllowed(e);
    }
  }

  lemma NextAccounted(e: Endpoint)
    requires Accounted(e)
    ensures AccountedFor(e, |e.issued|)
  {
    hide AccountedFor;
  }
}
