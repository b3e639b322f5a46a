/** Which errors stop an endpoint for good, and after which it reads on in the
    middle of a message. */
module Stopping {
  import opened WireTypes
  import opened BigEndian
  import opened WireFormat
  import opened RoundTrip
  import opened SplitterModel
  import opened Messages
  import opened Connection
  import opened ConnectionInvariant
  import opened Effects
  import opened Progress
  import W = WriterModel

  // ----- the errors -----

  /** The operation runs next. */
  predicate AboutToRun(e: Endpoint, op: Op) {
    Base(e) && e.stack != [] && e.stack[0] == StartParse(op)
  }

  /** What the operation has found is the id of no pending request. */
  predicate UnknownResponse(e: Endpoint, op: Op) {
    && op.purpose.ResponseHeader?
    && var r := Parse(PurposeType(op.purpose), op.fed + e.buffer);
       r.Done? && r.value.IntegerValue? && r.value.n !in e.registry.expected
  }

  predicate Wanted(s: Splitter, n: nat) {
    || (n == MESSAGE_RESPONSE && s.waitingForResponse)
    || (n == MESSAGE_REQUEST && s.waitingForRequest)
  }

  /** It is the type of a message that nobody waits for. */
  predicate UnwantedType(e: Endpoint, op: Op) {
    && op.purpose.MessageType?
    && var r := Parse(PurposeType(op.purpose), op.fed + e.buffer);
       r.Done? && r.value.IntegerValue? && !Wanted(e.splitter, r.value.n)
  }

  /** The arguments of a request cannot be parsed. */
  predicate BadArguments(e: Endpoint, op: Op) {
    op.purpose.Argument? && Parse(PurposeType(op.purpose), op.fed + e.buffer).Failed?
  }

  predicate ParseMeetsError(e: Endpoint, op: Op) {
    Parse(PurposeType(op.purpose), op.fed + e.buffer).Failed? || UnwantedType(e, op) || UnknownResponse(e, op)
  }

  /** The step is one in which an error is met. */
  predicate MeetsError(e: Endpoint, event: Event)
    requires Enabled(e, event)
  {
    match event
    case DoResume => e.stack[0].StartParse? && ParseMeetsError(e, e.stack[0].op)
    case DoReadError => true
    case _ => false
  }

  /** The step decodes the id of a response to no pending request. */
  predicate MeetsUnknown(e: Endpoint, event: Event)
    requires Enabled(e, event)
  {
    event.DoResume? && e.stack[0].StartParse? && UnknownResponse(e, e.stack[0].op)
  }

  /** The step is one of those after whose error the endpoint reads on. */
  predicate ReadsOn(e: Endpoint, event: Event)
    requires Enabled(e, event)
  {
    match event
    case DoResume =>
      e.stack[0].StartParse? && (UnknownResponse(e, e.stack[0].op) || BadArguments(e, e.stack[0].op))
    case DoReadError => e.readers[0].purpose.Argument?
    case _ => false
  }

  /** What the record says about errors. */
  predicate SameMarks(e: Endpoint, e': Endpoint) {
    e'.faulty == e.faulty && e'.dropped == e.dropped && e'.clean == e.clean && e'.log.known == e.log.known
  }

  lemma NotStopped(e: Endpoint, op: Op)
    requires AboutToRun(e, op)
    ensures !Stopped(e) && !e.halted
  {
    hide LogFits;
    PopSound(e);
  }

  lemma ErrorStops(e: Endpoint, p: Purpose)
    requires !Stopped(e)
    ensures Stopped(OnError(e, p)) <==> !p.Argument?
    ensures !OnError(e, p).clean && OnError(e, p).log.known == e.log.known
  {
    hide RegistryError, SplitterError, Apply;
    match p {
      case Result(id, _) =>
        RegistryErrorMarks(Assert(e, e.registry.state == ParsingResult).(dropped := e.dropped + [id]));
      case Argument(_, _, _) =>
        ApplyMarks(Push(e, ServeError), UnlockInput(e.splitter));
      case ResponseHeader => SplitterErrorStops(Assert(e, e.splitter.waitingForResponse));
      case RequestHeader => SplitterErrorStops(Assert(e, e.splitter.waitingForRequest));
      case MessageType => SplitterErrorStops(e);
    }
  }

  lemma RegistryErrorMarks(e: Endpoint)
    ensures SameMarks(e.(clean := false), RegistryError(e))
  {
  }

  lemma SplitterErrorStops(e: Endpoint)
    ensures SplitterError(e).faulty && !SplitterError(e).clean && SplitterError(e).log.known == e.log.known
  {
    hide RegistryError;
    if e.splitter.waitingForResponse {
      RegistryErrorMarks(WaiterFails(Faulted(e)));
    }
  }

  lemma ApplyMarks(e: Endpoint, effect: Effect)
    ensures SameMarks(e, Apply(e, effect))
  {
    hide Apply;
    Applied(e, effect);
  }

  /** What is found without an error of the splitter or of the registry. */
  lemma ValueStops(e: Endpoint, p: Purpose, v: Value)
    requires HasType(PurposeType(p), v) && !Stopped(e)
    ensures match p
            case MessageType => v.IntegerValue? && TypeMarks(e, OnValue(e, p, v), v.n)
            case ResponseHeader => v.IntegerValue? && IdMarks(e, OnValue(e, p, v), v.n)
            case _ => SameMarks(e, OnValue(e, p, v))
  {
    hide SameMarks, IdMarks, Apply, OnMessageType, OnResponseHeader, OnRequestHeader, UnlockInput;
    match p {
      case MessageType => TypeStops(e, v.n);
      case ResponseHeader => ResponseStops(e, v.n);
      case RequestHeader =>
        HaveTypesAt(HEADER.elements, v.values, 0);
        HaveTypesAt(HEADER.elements, v.values, 1);
        RequestStops(e, v.values[0].n, v.values[1].text);
      case Result(id, _) => BodyStops(e, NextResponse(id, v), e.registry.state == ParsingResult);
      case Argument(id, name, _) => BodyStops(e, Implement(id, name, v.values), true);
    }
  }

  /** After the type of a message. */
  predicate TypeMarks(e: Endpoint, e': Endpoint, n: nat) {
    && (Stopped(e') <==> !Wanted(e.splitter, n))
    && (e'.clean <==> e.clean && Wanted(e.splitter, n))
    && e'.log.known == e.log.known
  }

  /** After the id of a response. */
  predicate IdMarks(e: Endpoint, e': Endpoint, id: nat) {
    && !Stopped(e')
    && (e'.clean <==> e.clean && id in e.registry.expected)
    && (e'.log.known <==> e.log.known && id in e.registry.expected)
  }

  lemma TypeStops(e: Endpoint, n: nat)
    requires !Stopped(e)
    ensures TypeMarks(e, OnMessageType(e, n), n)
  {
    hide SplitterError, Accept, Stopped;
    if n == MESSAGE_RESPONSE && e.splitter.waitingForResponse {
      AcceptMarks(e, n, ResponseHeader);
      SameStopped(e, OnMessageType(e, n));
    } else if n == MESSAGE_REQUEST && e.splitter.waitingForRequest {
      AcceptMarks(e, n, RequestHeader);
      SameStopped(e, OnMessageType(e, n));
    } else {
      SplitterErrorStops(e);
      assert OnMessageType(e, n) == SplitterError(e);
      FaultyIsStopped(SplitterError(e));
    }
  }

  lemma FaultyIsStopped(e: Endpoint)
    requires e.faulty
    ensures Stopped(e)
  {
  }

  lemma AcceptMarks(e: Endpoint, n: nat, header: Purpose)
    ensures SameMarks(e, Accept(e, n, header))
  {
  }

  lemma BodyStops(e: Endpoint, f: Frame, condition: bool)
    ensures SameMarks(e, Apply(Push(Assert(e, condition), f), UnlockInput(e.splitter)))
    ensures SameMarks(e, Apply(Push(e, f), UnlockInput(e.splitter)))
  {
    hide Apply, UnlockInput;
    ApplyMarks(Push(Assert(e, condition), f), UnlockInput(e.splitter));
    ApplyMarks(Push(e, f), UnlockInput(e.splitter));
  }

  lemma ResponseStops(e: Endpoint, id: nat)
    requires !Stopped(e)
    ensures IdMarks(e, OnResponseHeader(e, id), id)
  {
    hide Dispatch, OnResponseId;
    var e1 := Assert(e, e.splitter.waitingForResponse && e.splitter.parsingHeader);
    DispatchMarks(e1, ForResponse);
    IdStops(Dispatch(e1, ForResponse), id);
  }

  lemma RequestStops(e: Endpoint, id: nat, name: seq<byte>)
    ensures SameMarks(e, OnRequestHeader(e, id, name))
  {
    hide Dispatch, Apply, LockInput;
    var e1 := Assert(e, e.splitter.waitingForRequest && e.splitter.parsingHeader);
    DispatchMarks(e1, ForRequest);
    ApplyMarks(Dispatch(e1, ForRequest), LockInput(Dispatch(e1, ForRequest).splitter));
  }

  lemma DispatchMarks(e: Endpoint, waiter: Waiter)
    ensures SameMarks(e, Dispatch(e, waiter)) && Dispatch(e, waiter).registry == e.registry
  {
  }

  lemma IdStops(e: Endpoint, id: nat)
    requires !Stopped(e)
    ensures IdMarks(e, OnResponseId(e, id), id)
  {
    hide RegistryError, Apply, LockInput;
    var e1 := Assert(e, e.registry.state == ParsingHeader);
    RegistryErrorMarks(Unknown(e1));
    ApplyMarks(e1.(registry := Registry(ParsingResult, e.registry.expected - {id})), LockInput(e.splitter));
  }

  /** An endpoint that was running has met an error, or not. */
  predicate Marked(e: Endpoint, e': Endpoint, meets: bool, unknown: bool, readsOn: bool) {
    && (Stopped(e') <==> Stopped(e) || (meets && !readsOn))
    && (e'.clean <==> e.clean && !meets)
    && (e'.log.known <==> e.log.known && !unknown)
  }

  lemma ParseStops(e: Endpoint, op: Op)
    requires AboutToRun(e, op)
    ensures Marked(e, Resume(e), ParseMeetsError(e, op), UnknownResponse(e, op),
                   UnknownResponse(e, op) || BadArguments(e, op))
  {
    hide OnStartParse, OnValue, OnError, Parse, Base, Stopped;
    NotStopped(e, op);
    ResumeParse(e, op);
    var e1 := e.(stack := e.stack[1..]);
    SameStopped(e, e1);
    var r := Parse(PurposeType(op.purpose), op.fed + e.buffer);
    if r.Done? {
      ParseDone(e1, op);
      FoundStops(e, e1.(buffer := (op.fed + e.buffer)[r.used..]), op, r.value);
    } else if r.Waiting? {
      ParseWaits(e1, op);
      SameStopped(e, Resume(e));
    } else {
      ParseFails(e1, op);
      ErrorStops(e1, op.purpose);
    }
  }

  lemma FoundStops(e: Endpoint, e1: Endpoint, op: Op, v: Value)
    requires !Stopped(e) && SameMarks(e, e1) && e1.splitter == e.splitter && e1.registry == e.registry
    requires Parse(PurposeType(op.purpose), op.fed + e.buffer).Done?
    requires v == Parse(PurposeType(op.purpose), op.fed + e.buffer).value && HasType(PurposeType(op.purpose), v)
    ensures Marked(e, OnValue(e1, op.purpose, v), ParseMeetsError(e, op), UnknownResponse(e, op),
                   UnknownResponse(e, op) || BadArguments(e, op))
  {
    hide OnValue, Parse, Stopped;
    SameStopped(e, e1);
    ValueStops(e1, op.purpose, v);
    SameStopped(e1, OnValue(e1, op.purpose, v));
  }

  lemma SameStopped(e: Endpoint, e': Endpoint)
    ensures e'.faulty == e.faulty && e'.dropped == e.dropped ==> (Stopped(e') <==> Stopped(e))
  {
  }

  lemma ReadErrorStops(e: Endpoint)
    requires Base(e) && e.readers != []
    ensures var p := e.readers[0].purpose;
            Marked(e, OnError(e.(readers := e.readers[1..]), p), true, false, p.Argument?)
  {
    hide OnError, Stopped;
    ReaderNotStopped(e);
    SameStopped(e, e.(readers := e.readers[1..]));
    ErrorStops(e.(readers := e.readers[1..]), e.readers[0].purpose);
  }

  lemma ReaderNotStopped(e: Endpoint)
    requires Base(e) && e.readers != []
    ensures !Stopped(e)
  {
    hide LogFits;
  }

  // ----- no other step meets an error -----

  lemma ParseHeaderMarks(e: Endpoint)
    ensures SameMarks(e, ParseHeader(e))
  {
    hide Apply, WaitForResponse;
    ApplyMarks(Awaits(e), WaitForResponse(e.splitter));
  }

  lemma ExpectMarks(e: Endpoint, id: nat, t: Type)
    ensures SameMarks(e, ExpectResponse(e, id, t))
  {
    hide ParseHeader;
    ParseHeaderMarks(e.(registry := e.registry.(expected := Inserted(e.registry.expected, id, t))));
  }

  lemma FailAllMarks(e: Endpoint, error: nat, ids: set<nat>)
    ensures SameMarks(e, OnFailAll(e, error, ids))
  {
    hide Least, FailOne;
    if ids != {} {
      FailOneSame(e, error, ids, Least(ids));
    }
  }

  lemma AfterErrorMarks(e: Endpoint, had: bool)
    ensures SameMarks(e, OnAfterError(e, had))
  {
    hide ServeFails;
    ServeFailsMarks(e);
  }

  lemma ServeFailsMarks(e: Endpoint)
    ensures SameMarks(e, ServeFails(e))
  {
  }

  lemma NextResponseMarks(e: Endpoint, id: nat, v: Value)
    ensures SameMarks(e, OnNextResponse(e, id, v))
  {
    hide ParseHeader;
    ParseHeaderMarks(Push(e, Answer(id, v)));
  }

  lemma CallMarks(e: Endpoint, id: nat, v: Value, name: Name, args: seq<Value>)
    ensures SameMarks(e, OnAnswer(e, id, v))
    ensures SameMarks(e, OnImplement(e, id, name, args))
    ensures SameMarks(e, OnServeError(e))
  {
  }

  lemma ResumeMarks(e: Endpoint)
    requires e.stack != [] && !e.stack[0].User? && !e.stack[0].StartParse?
    ensures SameMarks(e, Resume(e))
  {
    hide Apply, ContinueFor, OnNextResponse, OnFailAll, OnServeError, OnAfterError, OnAnswer, OnImplement;
    var e1 := e.(stack := e.stack[1..]);
    match e.stack[0] {
      case AfterRequest(c) => ApplyMarks(e1, ContinueFor(e1.splitter, c, e1.splitter.waitingForResponse));
      case AfterResponse(c) => ApplyMarks(e1, ContinueFor(e1.splitter, c, e1.splitter.waitingForRequest));
      case NextResponse(id, v) => NextResponseMarks(e1, id, v);
      case AfterError(had) => AfterErrorMarks(e1, had);
      case FailAll(error, ids) => FailAllMarks(e1, error, ids);
      case Answer(id, v) => CallMarks(e1, id, v, [], []);
      case Implement(id, name, args) => CallMarks(e1, id, IntegerValue(0), name, args);
      case ServeError => CallMarks(e1, 0, IntegerValue(0), [], []);
    }
  }

  lemma RequestMarks(e: Endpoint, name: Name, args: seq<Value>)
    requires name in e.interface_ && HaveTypes(e.interface_[name].parameters, args)
    ensures SameMarks(e, Request(e, name, args))
  {
    hide HaveTypes, RequestMessage, Build, Bytes, W.SendBuffer, W.Append, ExpectResponse;
    ExpectMarks(Requested(e, name, args), |e.issued|, e.interface_[name].result);
  }

  lemma RespondMarks(e: Endpoint, k: nat, v: Value)
    requires Results(e, k, v)
    ensures SameMarks(e, Respond(e, k, v))
  {
    hide Results, ResponseMessage, Build, Responded, ResponseRefused;
    RespondedMessages(e, k, v);
  }

  lemma OtherMarks(e: Endpoint, event: Event)
    requires Enabled(e, event) && !event.DoReadError? && !event.DoResume?
    ensures SameMarks(e, Connection.Step(e, event))
  {
    hide HaveTypes, Results, Request, Respond, OnError, Resume, Apply, WaitForRequest, OnSent, Report,
         W.Complete, W.CallNext, W.Continue;
    match event {
      case DoRespondError(k) => ReportMarks(e.(open := e.open - {k}), k);
      case DoRequest(name, args) => RequestMarks(e, name, args);
      case DoRespond(k, v) => RespondMarks(e, k, v);
      case DoServe => ApplyMarks(Serving(e), WaitForRequest(e.splitter));
      case DoWriterCall => SentMarks(e.(writer := W.CallNext(e.writer)), e.writer.calling[0]);
      case _ =>
    }
  }

  lemma SentMarks(e: Endpoint, sent: Sent)
    ensures SameMarks(e, OnSent(e, sent))
  {
    hide Report;
    if sent.ResponseSent? {
      ReportMarks(e, sent.invocation);
    }
  }

  lemma ReportMarks(e: Endpoint, k: nat)
    ensures SameMarks(e, Report(e, k))
  {
  }

  lemma NoParseMarks(e: Endpoint, event: Event)
    requires Enabled(e, event) && !event.DoReadError? && (event.DoResume? ==> !e.stack[0].StartParse?)
    ensures SameMarks(e, Connection.Step(e, event))
  {
    hide Resume, SameMarks;
    if event.DoResume? {
      ResumeMarks(e);
    } else {
      OtherMarks(e, event);
    }
  }

  lemma MarksUnchanged(e: Endpoint, e': Endpoint, readsOn: bool)
    requires SameMarks(e, e')
    ensures Marked(e, e', false, false, readsOn)
  {
  }

  /** Whatever the state, and after whatever errors: a step stops the endpoint if
      and only if it meets an error that is neither the id of no pending request nor
      arguments that cannot be parsed or read; and `clean` and `known` tell whether
      an error was met, and whether it was such an id. */
  lemma StopsExactly(e: Endpoint, event: Event)
    requires Base(e) && Enabled(e, event)
    ensures var e' := Connection.Step(e, event);
            && (Stopped(e') <==> Stopped(e) || (MeetsError(e, event) && !ReadsOn(e, event)))
            && (e'.clean <==> e.clean && !MeetsError(e, event))
            && (e'.log.known <==> e.log.known && !MeetsUnknown(e, event))
  {
    hide Base, Stopped, Resume, OnError, UnknownResponse, BadArguments, ParseMeetsError, SameMarks;
    match event {
      case DoResume =>
        if e.stack[0].StartParse? {
          ParseStops(e, e.stack[0].op);
        } else {
          ResumeMarks(e);
          MarksUnchanged(e, Resume(e), false);
        }
      case DoReadError => ReadErrorStops(e);
      case _ =>
        OtherMarks(e, event);
        MarksUnchanged(e, Connection.Step(e, event), false);
    }
  }

  // ----- reading on -----

  lemma ArgumentFacts(e: Endpoint, op: Op)
    requires AboutToRun(e, op) && op.purpose.Argument?
    ensures e.splitter.locked && !e.splitter.parsingHeader && !e.splitter.waitingForRequest
    ensures e.log.known && e.splitter.waitingForResponse ==> e.splitter.beginParseMessage
  {
    hide LogFits;
    PopSound(e);
  }

  /** After arguments that cannot be parsed the next header is read if and only if
      a response is waited for, from the bytes that are left of the request. */
  lemma BadArgumentsReadOn(e: Endpoint, op: Op)
    requires AboutToRun(e, op) && e.log.known && BadArguments(e, op)
    ensures !Stopped(Resume(e)) && !Resume(e).clean && Resume(e).buffer == e.buffer
    ensures Resume(e).headers == e.headers + One(e.splitter.waitingForResponse)
  {
    hide OnStartParse, Parse, Base, Stopped, Apply;
    NotStopped(e, op);
    ArgumentFacts(e, op);
    ResumeParse(e, op);
    var e1 := e.(stack := e.stack[1..]);
    ParseFails(e1, op);
    SameStopped(e, e1);
    ErrorStops(e1, op.purpose);
    Applied(Push(e1, ServeError), UnlockInput(e.splitter));
    ApplyStreams(Push(e1, ServeError), UnlockInput(e.splitter));
  }

  /** The part of the state in which failing callbacks change nothing. */
  predicate SameInput(e: Endpoint, e': Endpoint) {
    && e'.splitter == e.splitter && e'.registry == e.registry && e'.buffer == e.buffer && e'.headers == e.headers
    && e'.faulty == e.faulty && e'.dropped == e.dropped && e'.clean == e.clean && e'.halted == e.halted
    && e'.readers == e.readers && e'.writer == e.writer && e'.begun == e.begun && e'.log == e.log
  }

  lemma FailOneSame(e: Endpoint, error: nat, ids: set<nat>, id: nat)
    ensures SameInput(e, FailOne(e, error, ids, id))
    ensures FailOne(e, error, ids, id).stack == [User, FailAll(error, ids - {id})] + e.stack
  {
  }

  /** The callbacks fail one after the other, the application doing nothing. */
  lemma {:induction false} CallbacksFail(e: Endpoint, error: nat, ids: set<nat>, rest: seq<Frame>)
    returns (events: seq<Event>)
    requires e.stack == [FailAll(error, ids)] + rest && !e.halted
    ensures Legal(e, events) && Unwinding(events)
    ensures RunAll(e, events).stack == rest && SameInput(e, RunAll(e, events))
    decreases |ids|
  {
    hide Least, SameInput, FailOne, Resume;
    var e0 := e.(stack := e.stack[1..]);
    Popped(e);
    ResumeFailAll(e);
    var e1 := Resume(e);
    assert e0.stack == rest;
    if ids == {} {
      events := [DoResume];
      assert Legal(e1, events[1..]) && RunAll(e1, events[1..]) == e1;
    } else {
      var id := Least(ids);
      FailOneSame(e0, error, ids, id);
      var e2 := e1.(stack := e1.stack[1..]);
      Popped(e1);
      var more := CallbacksFail(e2, error, ids - {id}, rest);
      events := [DoResume, DoLeave] + more;
      TwoMore(e, more);
      SameInTurn(e, e0, e1);
      SameInTurn(e, e1, e2);
      SameInTurn(e, e2, RunAll(e, events));
    }
  }

  lemma ResumeFailAll(e: Endpoint)
    requires e.stack != [] && e.stack[0].FailAll?
    ensures var FailAll(error, ids) := e.stack[0];
            var e0 := e.(stack := e.stack[1..]);
            Resume(e) == if ids == {} then e0 else FailOne(e0, error, ids, Least(ids))
  {
    hide Least, FailOne;
  }

  lemma Popped(e: Endpoint)
    requires e.stack != []
    ensures SameInput(e, e.(stack := e.stack[1..]))
  {
  }

  lemma SameInTurn(a: Endpoint, b: Endpoint, c: Endpoint)
    requires SameInput(a, b) && SameInput(b, c)
    ensures SameInput(a, c)
  {
  }

  lemma TwoMore(e: Endpoint, more: seq<Event>)
    requires Enabled(e, DoResume) && Enabled(Resume(e), DoLeave)
    requires Legal(Connection.Step(Resume(e), DoLeave), more)
    ensures Legal(e, [DoResume, DoLeave] + more)
    ensures RunAll(e, [DoResume, DoLeave] + more) == RunAll(Connection.Step(Resume(e), DoLeave), more)
  {
    hide Resume;
    var events := [DoResume, DoLeave] + more;
    assert events[0] == DoResume && events[1..] == [DoLeave] + more;
    assert events[1..][0] == DoLeave && events[1..][1..] == more;
  }

  lemma UnknownFacts(e: Endpoint, op: Op)
    requires AboutToRun(e, op) && op.purpose.ResponseHeader?
    ensures e.splitter.parsingHeader && !e.splitter.locked
    ensures e.log.known && e.splitter.waitingForRequest ==> e.splitter.beginParseMessage
  {
    hide LogFits;
    PopSound(e);
  }

  /** What the application and the writer have is the same. */
  predicate SameApplication(e: Endpoint, e': Endpoint) {
    && e'.interface_ == e.interface_ && e'.issued == e.issued && e'.writer == e.writer
    && e'.readers == e.readers && e'.begun == e.begun
  }

  /** The header is taken, and all callbacks are to fail. */
  lemma UnknownStep(e: Endpoint, op: Op)
    requires AboutToRun(e, op) && UnknownResponse(e, op)
    ensures var e' := Resume(e);
            && e'.stack == [FailAll(|e.errors|, e.registry.expected.Keys)]
                           + ([AfterResponse(e.splitter.waitingForRequest)] + e.stack[1..])
            && e'.splitter == e.splitter.(parsingHeader := false, waitingForResponse := false)
            && e'.headers == e.headers && !Stopped(e') && !e'.clean && !e'.halted
            && SameApplication(e, e') && e'.registry == Registry(NotExpectingResponse, map[])
            && e'.buffer == (op.fed + e.buffer)[Parse(PurposeType(op.purpose), op.fed + e.buffer).used..]
  {
    hide OnStartParse, Parse, Base, OnResponseHeader;
    NotStopped(e, op);
    ResumeParse(e, op);
    var e1 := e.(stack := e.stack[1..]);
    ParseDone(e1, op);
    var r := Parse(PurposeType(op.purpose), op.fed + e.buffer);
    UnknownHeader(e1.(buffer := (op.fed + e.buffer)[r.used..]), r.value.n);
  }

  lemma UnknownHeader(e: Endpoint, id: nat)
    requires id !in e.registry.expected
    ensures var e' := OnResponseHeader(e, id);
            && e'.stack == [FailAll(|e.errors|, e.registry.expected.Keys)]
                           + ([AfterResponse(e.splitter.waitingForRequest)] + e.stack)
            && e'.splitter == e.splitter.(parsingHeader := false, waitingForResponse := false)
            && e'.headers == e.headers && e'.faulty == e.faulty && e'.dropped == e.dropped
            && !e'.clean && e'.halted == e.halted && e'.buffer == e.buffer
            && SameApplication(e, e') && e'.registry == Registry(NotExpectingResponse, map[])
  {
  }

  /** After the id of no pending request every callback fails; then, unless they do
      something about it, the next header is read if and only if a request is
      waited for, from the result of the unknown response. */
  lemma UnknownResponseReadsOn(e: Endpoint, op: Op) returns (events: seq<Event>)
    requires AboutToRun(e, op) && e.log.known && UnknownResponse(e, op)
    ensures Legal(e, events) && Unwinding(events)
    ensures var e' := RunAll(e, events);
            && e'.stack == Started(e.splitter.waitingForRequest) + e.stack[1..]
            && e'.headers == e.headers + One(e.splitter.waitingForRequest) && !Stopped(e') && !e'.clean
            && e'.buffer == (op.fed + e.buffer)[Parse(PurposeType(op.purpose), op.fed + e.buffer).used..]
  {
    hide Resume, Parse, Base, Stopped, Apply;
    NotStopped(e, op);
    UnknownFacts(e, op);
    UnknownStep(e, op);
    var e1 := Resume(e);
    var after := [AfterResponse(e.splitter.waitingForRequest)] + e.stack[1..];
    var failing := CallbacksFail(e1, |e.errors|, e.registry.expected.Keys, after);
    var e2 := RunAll(e1, failing);
    SameStopped(e1, e2);
    GoesOn(e2);
    SameStopped(e2, Resume(e2));
    events := [DoResume] + failing + [DoResume];
    Surrounded(e, failing);
    assert e2.stack[1..] == e.stack[1..];
  }

  lemma Surrounded(e: Endpoint, events: seq<Event>)
    requires Enabled(e, DoResume) && Legal(Resume(e), events) && Enabled(RunAll(Resume(e), events), DoResume)
    ensures Legal(e, [DoResume] + events + [DoResume])
    ensures RunAll(e, [DoResume] + events + [DoResume]) == Resume(RunAll(Resume(e), events))
  {
    hide Resume;
    var e2 := RunAll(Resume(e), events);
    assert [DoResume][1..] == [];
    assert Legal(Resume(e2), []) && RunAll(Resume(e2), []) == Resume(e2);
    LegalInTurn(Resume(e), events, [DoResume]);
    var all := [DoResume] + events + [DoResume];
    assert all[0] == DoResume && all[1..] == events + [DoResume];
  }

  /** The splitter goes on after the response waiter has returned. */
  lemma GoesOn(e: Endpoint)
    requires e.stack != [] && e.stack[0].AfterResponse? && e.stack[0].continue_ == e.splitter.waitingForRequest
    requires !e.splitter.parsingHeader && !e.splitter.locked
    requires e.splitter.waitingForRequest ==> e.splitter.beginParseMessage
    ensures var e' := Resume(e);
            && e'.stack == Started(e.splitter.waitingForRequest) + e.stack[1..]
            && e'.headers == e.headers + One(e.splitter.waitingForRequest)
            && e'.faulty == e.faulty && e'.dropped == e.dropped && e'.clean == e.clean && e'.buffer == e.buffer
  {
    hide Apply;
    var e1 := e.(stack := e.stack[1..]);
    var effect := ContinueFor(e.splitter, e.stack[0].continue_, e.splitter.waitingForRequest);
    Applied(e1, effect);
    ApplyStreams(e1, effect);
  }
}
