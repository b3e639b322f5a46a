/** What becomes of the callbacks that are pending at an error: they are all told,
    or none of them is ever called. Nobody is told by an error of the splitter that
    comes before the response waiter is back. */
module Hanging {
  import opened WireTypes
  import opened BigEndian
  import opened WireFormat
  import opened RoundTrip
  import opened SplitterModel
  import opened Messages
  import opened Connection
  import opened ConnectionInvariant
  import opened ConnectionAccounting
  import opened Effects
  import opened Failures
  import opened Duplex
  import opened Stopping
  import W = WriterModel

  // ----- who is told of an error -----

  /** The registry hears of an error in this operation. */
  predicate Tells(e: Endpoint, p: Purpose) {
    p.Result? || (IsHeader(p) && e.splitter.waitingForResponse)
  }

  /** The step's error, if it meets one, is one that the registry hears of. */
  predicate Told(e: Endpoint, event: Event)
    requires Enabled(e, event)
  {
    match event
    case DoResume => e.stack[0].StartParse? && Tells(e, e.stack[0].op.purpose)
    case DoReadError => Tells(e, e.readers[0].purpose)
    case _ => false
  }

  /** Whoever is pending stays so, and the registry hears of no error. */
  predicate Pends(e: Endpoint, e': Endpoint) {
    e.registry.expected.Keys <= e'.registry.expected.Keys && e'.errors == e.errors
  }

  /** All callbacks are to fail, or they all stay pending. */
  predicate Raised(e: Endpoint, e': Endpoint, told: bool) {
    if told then e'.errors == e.errors + [e.registry.expected.Keys] else Pends(e, e')
  }

  lemma ApplyPends(e: Endpoint, effect: Effect)
    ensures Pends(e, Apply(e, effect))
  {
  }

  lemma PushPends(e: Endpoint, f: Frame)
    ensures Pends(e, Push(e, f))
  {
  }

  // ----- steps other than those of a parse operation -----

  lemma ParseHeaderPends(e: Endpoint)
    ensures Pends(e, ParseHeader(e))
  {
    hide Apply, WaitForResponse;
    ApplyPends(Awaits(e), WaitForResponse(e.splitter));
  }

  lemma ExpectPends(e: Endpoint, id: nat, t: Type)
    ensures Pends(e, ExpectResponse(e, id, t)) && id in ExpectResponse(e, id, t).registry.expected
  {
    hide ParseHeader;
    ParseHeaderPends(e.(registry := e.registry.(expected := Inserted(e.registry.expected, id, t))));
  }

  lemma NextResponsePends(e: Endpoint, id: nat, v: Value)
    ensures Pends(e, OnNextResponse(e, id, v))
  {
    hide ParseHeader;
    ParseHeaderPends(Push(e, Answer(id, v)));
  }

  lemma FailAllPends(e: Endpoint, error: nat, ids: set<nat>)
    ensures Pends(e, OnFailAll(e, error, ids))
  {
    hide Least, FailOne;
    if ids != {} {
      FailOnePends(e, error, ids, Least(ids));
    }
  }

  lemma FailOnePends(e: Endpoint, error: nat, ids: set<nat>, id: nat)
    ensures Pends(e, FailOne(e, error, ids, id))
  {
  }

  lemma AfterErrorPends(e: Endpoint, had: bool)
    ensures Pends(e, OnAfterError(e, had))
  {
    hide Push;
    PushPends(ServeFails(e), ServeError);
  }

  lemma CallPends(e: Endpoint, id: nat, v: Value, name: Name, args: seq<Value>)
    ensures Pends(e, OnAnswer(e, id, v))
    ensures Pends(e, OnImplement(e, id, name, args))
    ensures Pends(e, OnServeError(e))
  {
  }

  lemma ResumePends(e: Endpoint)
    requires e.stack != [] && !e.stack[0].User? && !e.stack[0].StartParse?
    ensures Pends(e, Resume(e))
  {
    hide Apply, ContinueFor, OnNextResponse, OnFailAll, OnServeError, OnAfterError, OnAnswer, OnImplement;
    var e1 := e.(stack := e.stack[1..]);
    match e.stack[0] {
      case AfterRequest(c) => ApplyPends(e1, ContinueFor(e1.splitter, c, e1.splitter.waitingForResponse));
      case AfterResponse(c) => ApplyPends(e1, ContinueFor(e1.splitter, c, e1.splitter.waitingForRequest));
      case NextResponse(id, v) => NextResponsePends(e1, id, v);
      case AfterError(had) => AfterErrorPends(e1, had);
      case FailAll(error, ids) => FailAllPends(e1, error, ids);
      case Answer(id, v) => CallPends(e1, id, v, [], []);
      case Implement(id, name, args) => CallPends(e1, id, IntegerValue(0), name, args);
      case ServeError => CallPends(e1, 0, IntegerValue(0), [], []);
    }
  }

  lemma RequestPends(e: Endpoint, name: Name, args: seq<Value>)
    requires name in e.interface_ && HaveTypes(e.interface_[name].parameters, args)
    ensures Pends(e, Request(e, name, args))
    ensures Build(RequestMessage(e, name, args)).ok ==> |e.issued| in Request(e, name, args).registry.expected
  {
    hide HaveTypes, RequestMessage, Build, Bytes, W.SendBuffer, W.Append, ExpectResponse;
    ExpectPends(Requested(e, name, args), |e.issued|, e.interface_[name].result);
  }

  lemma RespondPends(e: Endpoint, k: nat, v: Value)
    requires Results(e, k, v)
    ensures Pends(e, Respond(e, k, v))
  {
    hide Results, ResponseMessage, Build, Responded, ResponseRefused;
    RespondedMessages(e, k, v);
  }

  lemma SentPends(e: Endpoint, sent: Sent)
    ensures Pends(e, OnSent(e, sent))
  {
    hide Report;
    if sent.ResponseSent? {
      ReportPends(e, sent.invocation);
    }
  }

  lemma ReportPends(e: Endpoint, k: nat)
    ensures Pends(e, Report(e, k))
  {
  }

  /** No operation runs and no read fails in this step. */
  predicate NoParse(e: Endpoint, event: Event)
    requires Enabled(e, event)
  {
    !event.DoReadError? && (event.DoResume? ==> !e.stack[0].StartParse?)
  }

  lemma OtherPends(e: Endpoint, event: Event)
    requires Enabled(e, event) && NoParse(e, event)
    ensures Pends(e, Connection.Step(e, event))
  {
    hide HaveTypes, Results, Request, Respond, OnError, Resume, Apply, WaitForRequest, OnSent, Report,
         W.Complete, W.CallNext, W.Continue;
    match event {
      case DoResume => ResumePends(e);
      case DoRespondError(k) => ReportPends(e.(open := e.open - {k}), k);
      case DoRequest(name, args) => RequestPends(e, name, args);
      case DoRespond(k, v) => RespondPends(e, k, v);
      case DoServe => ApplyPends(Serving(e), WaitForRequest(e.splitter));
      case DoWriterCall => SentPends(e.(writer := W.CallNext(e.writer)), e.writer.calling[0]);
      case _ =>
    }
  }

  // ----- an operation -----

  lemma RegistryErrorRaises(e: Endpoint)
    ensures Raised(e, RegistryError(e), true)
  {
  }

  lemma SplitterErrorRaises(e: Endpoint)
    ensures Raised(e, SplitterError(e), e.splitter.waitingForResponse)
  {
    hide RegistryError;
    RegistryErrorRaises(WaiterFails(Faulted(e)));
  }

  lemma ErrorRaises(e: Endpoint, p: Purpose)
    ensures Raised(e, OnError(e, p), Tells(e, p))
  {
    hide RegistryError, SplitterError, Apply;
    match p {
      case Result(id, _) =>
        RegistryErrorRaises(Assert(e, e.registry.state == ParsingResult).(dropped := e.dropped + [id]));
      case Argument(_, _, _) => ApplyPends(Push(e, ServeError), UnlockInput(e.splitter));
      case ResponseHeader => SplitterErrorRaises(Assert(e, e.splitter.waitingForResponse));
      case RequestHeader => SplitterErrorRaises(Assert(e, e.splitter.waitingForRequest));
      case MessageType => SplitterErrorRaises(e);
    }
  }

  /** What is found: a type that nobody waits for and an unknown id are errors. */
  predicate FoundRaised(e: Endpoint, e': Endpoint, p: Purpose, v: Value) {
    match p
    case MessageType =>
      v.IntegerValue? && Raised(e, e', !Wanted(e.splitter, v.n) && e.splitter.waitingForResponse)
    case ResponseHeader =>
      && v.IntegerValue?
      && (v.n in e.registry.expected ==> e'.errors == e.errors)
      && (v.n !in e.registry.expected ==> Raised(e, e', true))
    case _ => Pends(e, e')
  }

  lemma ValueRaises(e: Endpoint, p: Purpose, v: Value)
    requires HasType(PurposeType(p), v)
    ensures FoundRaised(e, OnValue(e, p, v), p, v)
  {
    hide Apply, OnMessageType, OnResponseHeader, OnRequestHeader, UnlockInput, Push;
    match p {
      case MessageType => TypeRaises(e, v.n);
      case ResponseHeader => ResponseRaises(e, v.n);
      case RequestHeader =>
        HaveTypesAt(HEADER.elements, v.values, 0);
        HaveTypesAt(HEADER.elements, v.values, 1);
        RequestHeaderPends(e, v.values[0].n, v.values[1].text);
      case Result(id, _) => BodyPends(Assert(e, e.registry.state == ParsingResult), NextResponse(id, v));
      case Argument(id, name, _) => BodyPends(e, Implement(id, name, v.values));
    }
  }

  lemma BodyPends(e: Endpoint, f: Frame)
    ensures Pends(e, Apply(Push(e, f), UnlockInput(e.splitter)))
  {
    hide Apply;
    ApplyPends(Push(e, f), UnlockInput(e.splitter));
  }

  lemma TypeRaises(e: Endpoint, n: nat)
    ensures Raised(e, OnMessageType(e, n), !Wanted(e.splitter, n) && e.splitter.waitingForResponse)
  {
    hide SplitterError, Accept;
    SplitterErrorRaises(e);
    AcceptPends(e, n, ResponseHeader);
    AcceptPends(e, n, RequestHeader);
  }

  lemma AcceptPends(e: Endpoint, n: nat, header: Purpose)
    ensures Pends(e, Accept(e, n, header))
  {
  }

  lemma DispatchPends(e: Endpoint, waiter: Waiter)
    ensures Dispatch(e, waiter).registry == e.registry && Dispatch(e, waiter).errors == e.errors
  {
  }

  lemma ResponseRaises(e: Endpoint, id: nat)
    ensures var e' := OnResponseHeader(e, id);
            if id in e.registry.expected then e'.errors == e.errors else Raised(e, e', true)
  {
    hide Dispatch, OnResponseId;
    var e1 := Assert(e, e.splitter.waitingForResponse && e.splitter.parsingHeader);
    DispatchPends(e1, ForResponse);
    IdRaises(Dispatch(e1, ForResponse), id);
  }

  lemma IdRaises(e: Endpoint, id: nat)
    ensures var e' := OnResponseId(e, id);
            if id in e.registry.expected then e'.errors == e.errors else Raised(e, e', true)
  {
    hide RegistryError, Apply, LockInput;
    var e1 := Assert(e, e.registry.state == ParsingHeader);
    RegistryErrorRaises(Unknown(e1));
    ApplyPends(e1.(registry := Registry(ParsingResult, e.registry.expected - {id})), LockInput(e.splitter));
  }

  lemma RequestHeaderPends(e: Endpoint, id: nat, name: seq<byte>)
    ensures Pends(e, OnRequestHeader(e, id, name))
  {
    hide Dispatch, Apply, LockInput;
    var e1 := Assert(e, e.splitter.waitingForRequest && e.splitter.parsingHeader);
    DispatchPends(e1, ForRequest);
    ApplyPends(Dispatch(e1, ForRequest), LockInput(Dispatch(e1, ForRequest).splitter));
  }

  /** The outcome of a step that may meet an error. */
  predicate Outcome(e: Endpoint, e': Endpoint, meets: bool, told: bool) {
    && (meets ==> Raised(e, e', told))
    && (!meets ==> e'.errors == e.errors)
  }

  lemma StartRaises(e: Endpoint, op: Op)
    requires op.purpose.ResponseHeader? ==> e.splitter.waitingForResponse
    ensures Outcome(e, OnStartParse(e, op), ParseMeetsError(e, op), Tells(e, op.purpose))
  {
    hide OnStartParse, OnValue, OnError, Parse, Raised, Tells;
    var r := Parse(PurposeType(op.purpose), op.fed + e.buffer);
    if r.Done? {
      ParseDone(e, op);
      FoundOutcome(e, e.(buffer := (op.fed + e.buffer)[r.used..]), op, r.value);
    } else if r.Waiting? {
      ParseWaits(e, op);
    } else {
      ParseFails(e, op);
      ErrorRaises(e, op.purpose);
    }
  }

  lemma ParseRaises(e: Endpoint, op: Op)
    requires AboutToRun(e, op)
    ensures Outcome(e, Resume(e), ParseMeetsError(e, op), Tells(e, op.purpose))
  {
    hide OnStartParse, Parse, Base;
    if op.purpose.ResponseHeader? {
      HeaderWaits(e, op);
    }
    StartRaises(e.(stack := e.stack[1..]), op);
  }

  lemma ErrorOutcome(e: Endpoint, e1: Endpoint, p: Purpose)
    requires e1.registry == e.registry && e1.errors == e.errors && e1.splitter == e.splitter
    ensures Outcome(e, OnError(e1, p), true, Tells(e, p))
  {
    hide OnError;
    ErrorRaises(e1, p);
  }

  lemma HeaderWaits(e: Endpoint, op: Op)
    requires AboutToRun(e, op) && op.purpose.ResponseHeader?
    ensures e.splitter.waitingForResponse
  {
    hide LogFits;
    PopSound(e);
  }

  lemma FoundOutcome(e: Endpoint, e1: Endpoint, op: Op, v: Value)
    requires Parse(PurposeType(op.purpose), op.fed + e.buffer).Done?
    requires v == Parse(PurposeType(op.purpose), op.fed + e.buffer).value && HasType(PurposeType(op.purpose), v)
    requires e1.registry == e.registry && e1.errors == e.errors && e1.splitter == e.splitter
    requires op.purpose.ResponseHeader? ==> e.splitter.waitingForResponse
    ensures Outcome(e, OnValue(e1, op.purpose, v), ParseMeetsError(e, op), Tells(e, op.purpose))
  {
    hide Parse, OnValue;
    ValueRaises(e1, op.purpose, v);
  }

  /** The registry hears of an error in a step if and only if the step meets one and
      the operation that meets it is a result, or a header with a response waiter;
      then all pending callbacks are to fail, otherwise an error changes nothing for
      them. */
  lemma RaisesExactly(e: Endpoint, event: Event)
    requires Base(e) && Enabled(e, event)
    ensures Outcome(e, Connection.Step(e, event), MeetsError(e, event), Told(e, event))
  {
    hide Base, Resume, OnError, ParseMeetsError, Raised, Tells;
    match event {
      case DoResume =>
        if e.stack[0].StartParse? {
          ParseRaises(e, e.stack[0].op);
        } else {
          OtherPends(e, event);
        }
      case DoReadError =>
        var e1 := e.(readers := e.readers[1..]);
        ErrorOutcome(e, e1, e.readers[0].purpose);
      case _ => OtherPends(e, event);
    }
  }

  // ----- after the endpoint has stopped -----

  lemma StoppedPends(e: Endpoint, event: Event)
    requires Invariant(e) && Stopped(e) && Enabled(e, event)
    ensures Pends(e, Connection.Step(e, event))
  {
    hide Base, Stopped, Connection.Step;
    StoppedIsBlocked(e);
    OtherPends(e, event);
  }

  lemma {:induction false} RunPends(e: Endpoint, events: seq<Event>)
    requires Invariant(e) && Stopped(e) && Legal(e, events)
    ensures Pends(e, RunAll(e, events))
    decreases |events|
  {
    hide Invariant, Connection.Step, Enabled, Stopped;
    if events != [] {
      StepKeeps(e, events[0]);
      StoppedPends(e, events[0]);
      StoppedStep(e, events[0]);
      StaysSo(e, Connection.Step(e, events[0]));
      RunPends(Connection.Step(e, events[0]), events[1..]);
    }
  }

  lemma StaysSo(e: Endpoint, e': Endpoint)
    requires Stopped(e) && StaysStopped(e, e')
    ensures Stopped(e')
  {
  }

  /** The callback has been neither called nor dropped. */
  predicate Hangs(e: Endpoint, id: nat) {
    id in e.registry.expected && Settled(e, id) == 0
  }

  lemma PendingHangs(e: Endpoint, id: nat)
    requires Accounted(e) && id in e.registry.expected
    ensures Hangs(e, id)
  {
    hide Accounted, Settled;
    AccountedOnce(e, id);
  }

  /** The callback of a request that is pending once the endpoint has stopped, made
      before or after, is never called. */
  lemma NeverCalled(interface_: Interface, before: seq<Event>, after: seq<Event>, id: nat)
    requires Legal(New(interface_), before)
    requires var e := RunAll(New(interface_), before);
             Stopped(e) && id in e.registry.expected && Legal(e, after)
    ensures Hangs(RunAll(RunAll(New(interface_), before), after), id)
  {
    hide Accounted, Hangs, Invariant, Stopped, New, Connection.Step, Enabled;
    var e := RunAll(New(interface_), before);
    Reachable(interface_, before);
    RunPends(e, after);
    LegalInTurn(New(interface_), before, after);
    ReachableAccounts(interface_, before + after);
    PendingHangs(RunAll(e, after), id);
  }

  /** In particular that of any request that is sent after the endpoint has stopped. */
  lemma LaterRequestHangs(interface_: Interface, before: seq<Event>, name: Name, args: seq<Value>, after: seq<Event>)
    requires Legal(New(interface_), before)
    requires var e := RunAll(New(interface_), before);
             && Stopped(e) && Enabled(e, DoRequest(name, args)) && Build(RequestMessage(e, name, args)).ok
             && Legal(Connection.Step(e, DoRequest(name, args)), after)
    ensures var e := RunAll(New(interface_), before);
            Hangs(RunAll(Connection.Step(e, DoRequest(name, args)), after), |e.issued|)
  {
    hide HaveTypes, RequestMessage, Build, Connection.Step, Hangs, Invariant, Stopped, New, Enabled;
    var e := RunAll(New(interface_), before);
    var requested := [DoRequest(name, args)];
    Single(e, DoRequest(name, args));
    LegalInTurn(New(interface_), before, requested);
    Reachable(interface_, before);
    StoppedStep(e, DoRequest(name, args));
    StaysSo(e, Connection.Step(e, DoRequest(name, args)));
    RequestIsPending(e, name, args);
    NeverCalled(interface_, before + requested, after, |e.issued|);
  }

  lemma RequestIsPending(e: Endpoint, name: Name, args: seq<Value>)
    requires Enabled(e, DoRequest(name, args)) && Build(RequestMessage(e, name, args)).ok
    ensures |e.issued| in Connection.Step(e, DoRequest(name, args)).registry.expected
  {
    hide HaveTypes, RequestMessage, Build, Request;
    RequestPends(e, name, args);
  }

  // ----- all are told, or none ever -----

  /** Called with the error of that number, once, and with nothing else. */
  predicate FailedOnce(e: Endpoint, error: nat, id: nat) {
    && FailedCount(e.failed, id) == 1 && AnsweredCount(e.answered, id) == 0
    && id in FailedBy(e.failed, error) && id !in e.registry.expected
  }

  lemma ToldFailsOnce(interface_: Interface, before: seq<Event>, event: Event, after: seq<Event>, id: nat)
    requires Legal(New(interface_), before) && Enabled(RunAll(New(interface_), before), event)
    requires var e := RunAll(New(interface_), before);
             && Base(e) && MeetsError(e, event) && Told(e, event) && id in e.registry.expected
             && Legal(Connection.Step(e, event), after) && RunAll(Connection.Step(e, event), after).stack == []
    ensures var e := RunAll(New(interface_), before);
            FailedOnce(RunAll(Connection.Step(e, event), after), |e.errors|, id)
  {
    hide Base, New, Connection.Step, Enabled, MeetsError, Told, FailedBy, FailedCount, AnsweredCount;
    var e := RunAll(New(interface_), before);
    RaisesExactly(e, event);
    assert |Connection.Step(e, event).errors| == |e.errors| + 1;
    FailsExactlyOnce(interface_, before, event, after, id);
  }

  lemma UntoldHangs(interface_: Interface, before: seq<Event>, event: Event, after: seq<Event>, id: nat)
    requires Legal(New(interface_), before) && Enabled(RunAll(New(interface_), before), event)
    requires var e := RunAll(New(interface_), before);
             && Base(e) && MeetsError(e, event) && !Told(e, event) && !ReadsOn(e, event) && id in e.registry.expected
             && Legal(Connection.Step(e, event), after)
    ensures var e := RunAll(New(interface_), before);
            Hangs(RunAll(Connection.Step(e, event), after), id)
  {
    hide Base, New, Connection.Step, Enabled, MeetsError, Told, ReadsOn, Stopped, Hangs;
    var e := RunAll(New(interface_), before);
    RaisesExactly(e, event);
    StopsExactly(e, event);
    Single(e, event);
    LegalInTurn(New(interface_), before, [event]);
    NeverCalled(interface_, before + [event], after, id);
  }

  /** Whatever step an error is met in, and for every callback pending before it:
      if the error is that of a result, or of a header with a response waiter, the
      callback has been called with it exactly once, and with nothing else, at every
      later point of rest; otherwise, unless the endpoint reads on, which it only
      does after bad arguments, the callback is never called. */
  lemma OnceOrNever(interface_: Interface, before: seq<Event>, event: Event, after: seq<Event>, id: nat)
    requires Legal(New(interface_), before) && Enabled(RunAll(New(interface_), before), event)
    requires var e := RunAll(New(interface_), before);
             && MeetsError(e, event) && id in e.registry.expected && Legal(Connection.Step(e, event), after)
    ensures var e := RunAll(New(interface_), before);
            var e1 := Connection.Step(e, event);
            var e2 := RunAll(e1, after);
            if Told(e, event) then e2.stack == [] ==> FailedOnce(e2, |e.errors|, id)
            else if ReadsOn(e, event) then id in e1.registry.expected
            else Hangs(e2, id)
  {
    hide Base, New, Connection.Step, Enabled, MeetsError, Told, ReadsOn, Stopped, Hangs, FailedOnce, Invariant;
    var e := RunAll(New(interface_), before);
    Reachable(interface_, before);
    StillRunning(e, event);
    RunningBase(e);
    RaisesExactly(e, event);
    if Told(e, event) {
      if RunAll(Connection.Step(e, event), after).stack == [] {
        ToldFailsOnce(interface_, before, event, after, id);
      }
    } else if !ReadsOn(e, event) {
      UntoldHangs(interface_, before, event, after, id);
    }
  }

  // ----- a run in which nobody is told -----

  const HANGING: seq<Event> := OPENING + Reads(Beginning(RESPONSES))

  lemma TypeStep(e: Endpoint)
    requires Base(e) && HeaderNext(e, true, false) && !Stopped(e) && Resume(e).faulty
    ensures Pends(e, Resume(e))
  {
    hide Base, Resume, ParseMeetsError;
    assert Enabled(e, DoResume);
    RaisesExactly(e, DoResume);
    StopsExactly(e, DoResume);
    assert Connection.Step(e, DoResume) == Resume(e);
  }

  lemma BodyStep(e: Endpoint, op: Op)
    requires Base(e) && BodyIsRead(e, op)
    ensures Pends(e, Resume(e))
  {
    hide Base, Resume, OnStartParse, OnValue, Parse;
    ResumeParse(e, op);
    var e1 := e.(stack := e.stack[1..]);
    ParseDone(e1, op);
    var r := Parse(PurposeType(op.purpose), op.fed + e.buffer);
    ValueRaises(e1.(buffer := (op.fed + e.buffer)[r.used..]), op.purpose, r.value);
  }

  lemma LastStepsPend(e: Endpoint)
    requires Invariant(e) && AtBody(e, Result(0, UNIT), [MESSAGE_RESPONSE]) && e.splitter.waitingForRequest
    ensures Legal(e, [DoResume] + [DoResume])
    ensures var e' := RunAll(e, [DoResume] + [DoResume]);
            e'.faulty && Pends(e, e')
  {
    hide Invariant, Resume, Base, Parse, BodyIsRead, Leftover, Stopped, Pends;
    var op := Op(Result(0, UNIT), []);
    AtBodyRuns(e, Result(0, UNIT), [MESSAGE_RESPONSE]);
    LastSteps(e, Result(0, UNIT), MESSAGE_RESPONSE);
    NothingIsRead(e, Result(0, UNIT), [MESSAGE_RESPONSE]);
    BodyStep(e, op);
    CleanIsKnown(e);
    ReadsAhead(e, op);
    Single(e, DoResume);
    Extend(e, [DoResume], DoResume);
    var e1 := Resume(e);
    StepKeeps(e, DoResume);
    RunningBase(e1);
    BodyRuns(e, op);
    TypeStep(e1);
    PendsInTurn(e, e1, Resume(e1));
  }

  lemma BodyRuns(e: Endpoint, op: Op)
    requires Base(e) && AboutToRun(e, op) && BodyIsRead(e, op)
    ensures !Stopped(Resume(e))
  {
    hide Base, Resume, Parse, Stopped;
    NotStopped(e, op);
    ParseStops(e, op);
  }

  lemma PendsInTurn(a: Endpoint, b: Endpoint, c: Endpoint)
    requires Pends(a, b) && Pends(b, c)
    ensures Pends(a, c)
  {
  }

  /** Requests 0 and 1 are pending, a request is waited for, and the response to
      request 0 arrives together with the first byte of that to request 1: the end
      stops, and the callback of request 1 is never called, whatever happens then. */
  lemma HangsForEver()
    ensures Legal(New(ECHO), HANGING)
    ensures var e := RunAll(New(ECHO), HANGING);
            && e.faulty && Hangs(e, 1)
            && (forall after :: Legal(e, after) ==> Hangs(RunAll(e, after), 1))
  {
    hide Opening, Invariant, Encode, Enabled, Connection.Step, RunAll, Legal, ValidBeginning, Beginning, Reads, Hangs;
    Opened();
    var e := RunAll(New(ECHO), OPENING);
    TwoResponses(e);
    ReadsHang(e);
    LegalInTurn(New(ECHO), OPENING, Reads(Beginning(RESPONSES)));
    var e' := RunAll(New(ECHO), HANGING);
    FaultyIsStopped(e');
    NothingHappens(e');
    forall after | Legal(e', after)
      ensures Hangs(RunAll(e', after), 1)
    {
      NeverCalled(ECHO, HANGING, after, 1);
    }
  }

  lemma NothingHappens(e: Endpoint)
    ensures Legal(e, []) && RunAll(e, []) == e
  {
    hide Connection.Step, Enabled;
  }

  lemma ReadsHang(e: Endpoint)
    requires Opening(e, WAITING, 2, [], [HEADER_OP]) && Invariant(e)
    ensures var events := Reads([MESSAGE_RESPONSE] + (Encode(0, 8) + [MESSAGE_RESPONSE]));
            && Legal(e, events)
            && var e' := RunAll(e, events);
               e'.faulty && 1 in e'.registry.expected
  {
    hide Opening, Invariant, AtBody, Base, Encode, Enabled, Connection.Step, RunAll, Legal;
    HeaderArrives(e, MESSAGE_RESPONSE, Encode(0, 8), Result(0, UNIT));
    var events := [DoRead([MESSAGE_RESPONSE] + (Encode(0, 8) + [MESSAGE_RESPONSE]))] + [DoResume] + [DoResume];
    RunKeeps(e, events);
    LastStepsPend(RunAll(e, events));
    LegalInTurn(e, events, [DoResume] + [DoResume]);
  }
}
