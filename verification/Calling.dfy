/** Wherever a callback or the implementation is called, the application's code runs
    and may make requests, serve and give results, and nowhere else. */
module Calling {
  import opened WireTypes
  import opened BigEndian
  import opened WireFormat
  import opened RoundTrip
  import opened SplitterModel
  import opened Messages
  import opened Connection
  import opened Effects
  import W = WriterModel

  /** The calls of the application that are under way. */
  function Users(stack: seq<Frame>): nat {
    if stack == [] then 0 else (if stack[0].User? then 1 else 0) + Users(stack[1..])
  }

  /** All that have been made: of the callbacks of requests, of the implementation,
      and of the callbacks of `serve_one_request`. */
  function Made(e: Endpoint): nat {
    |e.answered| + |e.failed| + |e.refused| + |e.invoked| + e.log.told + |e.log.reported|
  }

  /** Each call that is made is a call under way. */
  predicate Balanced(e: Endpoint, e': Endpoint) {
    Users(e'.stack) + Made(e) == Users(e.stack) + Made(e')
  }

  lemma PushUsers(f: Frame, stack: seq<Frame>)
    ensures Users([f] + stack) == (if f.User? then 1 else 0) + Users(stack)
  {
    assert ([f] + stack)[1..] == stack;
  }

  lemma PopUsers(stack: seq<Frame>)
    requires stack != []
    ensures Users(stack) == (if stack[0].User? then 1 else 0) + Users(stack[1..])
  {
  }

  lemma PushBalanced(e: Endpoint, f: Frame)
    requires !f.User?
    ensures Balanced(e, Push(e, f))
  {
    PushUsers(f, e.stack);
  }

  lemma ApplyBalanced(e: Endpoint, effect: Effect)
    ensures Balanced(e, Apply(e, effect))
  {
    hide Users;
    PushUsers(StartParse(Op(MessageType, [])), e.stack);
  }

  // ----- the parts of a step -----

  lemma ParseHeaderBalanced(e: Endpoint)
    ensures Balanced(e, ParseHeader(e))
  {
    hide Apply;
    ApplyBalanced(Awaits(e), WaitForResponse(e.splitter));
  }

  lemma RegistryErrorBalanced(e: Endpoint)
    ensures Balanced(e, RegistryError(e))
  {
    PushUsers(FailAll(|e.errors|, e.registry.expected.Keys), e.stack);
  }

  lemma FaultedBalanced(e: Endpoint)
    ensures Balanced(e, Faulted(e)) && Balanced(e, WaiterFails(Faulted(e)))
  {
    PushUsers(AfterError(e.splitter.waitingForRequest), e.stack);
  }

  lemma SplitterErrorBalanced(e: Endpoint)
    ensures Balanced(e, SplitterError(e))
  {
    hide RegistryError, Faulted, WaiterFails;
    FaultedBalanced(e);
    RegistryErrorBalanced(WaiterFails(Faulted(e)));
  }

  lemma ResponseIdBalanced(e: Endpoint, id: nat)
    ensures Balanced(e, OnResponseId(e, id))
  {
    hide RegistryError, Apply, Push, LockInput;
    var e1 := Assert(e, e.registry.state == ParsingHeader);
    RegistryErrorBalanced(Unknown(e1));
    if id in e.registry.expected {
      var e2 := e1.(registry := Registry(ParsingResult, e.registry.expected - {id}));
      ApplyBalanced(e2, LockInput(e.splitter));
      PushBalanced(Apply(e2, LockInput(e.splitter)), StartParse(Op(Result(id, e.registry.expected[id]), [])));
    }
  }

  lemma DispatchBalanced(e: Endpoint, waiter: Waiter)
    ensures Balanced(e, Dispatch(e, waiter))
  {
    PushUsers(Continuation(e.splitter, waiter), e.stack);
  }

  lemma ResponseHeaderBalanced(e: Endpoint, id: nat)
    ensures Balanced(e, OnResponseHeader(e, id))
  {
    hide Dispatch, OnResponseId;
    var e1 := Assert(e, e.splitter.waitingForResponse && e.splitter.parsingHeader);
    DispatchBalanced(e1, ForResponse);
    ResponseIdBalanced(Dispatch(e1, ForResponse), id);
  }

  lemma RequestHeaderBalanced(e: Endpoint, id: nat, name: seq<byte>)
    ensures Balanced(e, OnRequestHeader(e, id, name))
  {
    hide Dispatch, Apply, Push, LockInput;
    var e1 := Assert(e, e.splitter.waitingForRequest && e.splitter.parsingHeader);
    DispatchBalanced(e1, ForRequest);
    var e2 := Dispatch(e1, ForRequest);
    ApplyBalanced(e2, LockInput(e2.splitter));
    if |name| <= 255 && name in e.interface_ {
      PushBalanced(Apply(e2, LockInput(e2.splitter)),
                   StartParse(Op(Argument(id, name, e.interface_[name].parameters), [])));
    }
  }

  lemma TypeBalanced(e: Endpoint, n: nat)
    ensures Balanced(e, OnMessageType(e, n))
  {
    hide SplitterError, Accept;
    SplitterErrorBalanced(e);
    AcceptBalanced(e, n, ResponseHeader);
    AcceptBalanced(e, n, RequestHeader);
  }

  lemma AcceptBalanced(e: Endpoint, n: nat, header: Purpose)
    ensures Balanced(e, Accept(e, n, header))
  {
    PushUsers(StartParse(Op(header, [])), e.stack);
  }

  lemma UnlockBalanced(e: Endpoint, f: Frame)
    requires !f.User?
    ensures Balanced(e, Apply(Push(e, f), UnlockInput(e.splitter)))
  {
    hide Apply, UnlockInput;
    PushUsers(f, e.stack);
    ApplyBalanced(Push(e, f), UnlockInput(e.splitter));
  }

  lemma ValueBalanced(e: Endpoint, p: Purpose, v: Value)
    requires HasType(PurposeType(p), v)
    ensures Balanced(e, OnValue(e, p, v))
  {
    hide Apply, OnMessageType, OnResponseHeader, OnRequestHeader, UnlockInput, Push;
    match p {
      case MessageType => TypeBalanced(e, v.n);
      case ResponseHeader => ResponseHeaderBalanced(e, v.n);
      case RequestHeader =>
        HaveTypesAt(HEADER.elements, v.values, 0);
        HaveTypesAt(HEADER.elements, v.values, 1);
        RequestHeaderBalanced(e, v.values[0].n, v.values[1].text);
      case Result(id, _) => UnlockBalanced(Assert(e, e.registry.state == ParsingResult), NextResponse(id, v));
      case Argument(id, name, _) => UnlockBalanced(e, Implement(id, name, v.values));
    }
  }

  lemma ErrorBalanced(e: Endpoint, p: Purpose)
    ensures Balanced(e, OnError(e, p))
  {
    hide RegistryError, SplitterError, Apply, UnlockInput, Push;
    match p {
      case Result(id, _) =>
        RegistryErrorBalanced(Assert(e, e.registry.state == ParsingResult).(dropped := e.dropped + [id]));
      case Argument(_, _, _) => UnlockBalanced(e, ServeError);
      case ResponseHeader => SplitterErrorBalanced(Assert(e, e.splitter.waitingForResponse));
      case RequestHeader => SplitterErrorBalanced(Assert(e, e.splitter.waitingForRequest));
      case MessageType => SplitterErrorBalanced(e);
    }
  }

  lemma StartParseBalanced(e: Endpoint, op: Op)
    ensures Balanced(e, OnStartParse(e, op))
  {
    hide OnStartParse, OnValue, OnError, Parse;
    var all := op.fed + e.buffer;
    var r := Parse(PurposeType(op.purpose), all);
    if r.Done? {
      ParseDone(e, op);
      ValueBalanced(e.(buffer := all[r.used..]), op.purpose, r.value);
    } else if r.Waiting? {
      ParseWaits(e, op);
    } else {
      ParseFails(e, op);
      ErrorBalanced(e, op.purpose);
    }
  }

  lemma NextResponseBalanced(e: Endpoint, id: nat, v: Value)
    ensures Balanced(e, OnNextResponse(e, id, v))
  {
    hide ParseHeader;
    PushUsers(Answer(id, v), e.stack);
    ParseHeaderBalanced(Push(e, Answer(id, v)));
  }

  lemma FailAllBalanced(e: Endpoint, error: nat, ids: set<nat>)
    ensures Balanced(e, OnFailAll(e, error, ids))
  {
    hide Least, FailOne;
    if ids != {} {
      FailOneBalanced(e, error, ids, Least(ids));
    }
  }

  lemma FailOneBalanced(e: Endpoint, error: nat, ids: set<nat>, id: nat)
    ensures Balanced(e, FailOne(e, error, ids, id))
  {
    var f := FailAll(error, ids - {id});
    PushUsers(f, e.stack);
    PushUsers(User, [f] + e.stack);
  }

  lemma AfterErrorBalanced(e: Endpoint, had: bool)
    ensures Balanced(e, OnAfterError(e, had))
  {
    hide Users, Made, ServeFails;
    SameMade(e, e.(halted := true));
    ServeFailsMade(e);
    PushUsers(ServeError, e.stack);
    SameMade(ServeFails(e), Push(ServeFails(e), ServeError));
  }

  lemma ServeFailsMade(e: Endpoint)
    ensures Made(ServeFails(e)) == Made(e) && ServeFails(e).stack == e.stack
  {
  }

  lemma CallBalanced(e: Endpoint, id: nat, v: Value, name: Name, args: seq<Value>)
    ensures Balanced(e, OnAnswer(e, id, v))
    ensures Balanced(e, OnImplement(e, id, name, args))
    ensures Balanced(e, OnServeError(e))
  {
    PushUsers(User, e.stack);
  }

  lemma ResumeBalanced(e: Endpoint)
    requires e.stack != [] && !e.stack[0].User?
    ensures Balanced(e, Resume(e))
  {
    hide Apply, ContinueFor, OnStartParse, OnNextResponse, OnFailAll, OnServeError, OnAfterError, OnAnswer, OnImplement;
    var e1 := e.(stack := e.stack[1..]);
    PopUsers(e.stack);
    match e.stack[0] {
      case StartParse(op) => StartParseBalanced(e1, op);
      case AfterRequest(c) => ApplyBalanced(e1, ContinueFor(e1.splitter, c, e1.splitter.waitingForResponse));
      case AfterResponse(c) => ApplyBalanced(e1, ContinueFor(e1.splitter, c, e1.splitter.waitingForRequest));
      case NextResponse(id, v) => NextResponseBalanced(e1, id, v);
      case AfterError(had) => AfterErrorBalanced(e1, had);
      case FailAll(error, ids) => FailAllBalanced(e1, error, ids);
      case Answer(id, v) => CallBalanced(e1, id, v, [], []);
      case Implement(id, name, args) => CallBalanced(e1, id, IntegerValue(0), name, args);
      case ServeError => CallBalanced(e1, 0, IntegerValue(0), [], []);
    }
  }

  lemma ExpectBalanced(e: Endpoint, id: nat, t: Type)
    ensures Balanced(e, ExpectResponse(e, id, t))
  {
    hide ParseHeader;
    ParseHeaderBalanced(e.(registry := e.registry.(expected := Inserted(e.registry.expected, id, t))));
  }

  lemma RequestBalanced(e: Endpoint, name: Name, args: seq<Value>)
    requires name in e.interface_ && HaveTypes(e.interface_[name].parameters, args)
    ensures Balanced(e, Request(e, name, args))
  {
    hide HaveTypes, RequestMessage, Build, Requested, RequestRefused, ExpectResponse, Made, Users;
    RequestedMade(e, name, args);
    PushUsers(User, e.stack);
    ExpectBalanced(Requested(e, name, args), |e.issued|, e.interface_[name].result);
  }

  lemma RequestedMade(e: Endpoint, name: Name, args: seq<Value>)
    requires name in e.interface_ && HaveTypes(e.interface_[name].parameters, args)
    ensures Requested(e, name, args).stack == e.stack && Made(Requested(e, name, args)) == Made(e)
    ensures RequestRefused(e, name, args).stack == [User] + e.stack
    ensures Made(RequestRefused(e, name, args)) == Made(e) + 1
  {
    hide HaveTypes, RequestMessage, Bytes, W.SendBuffer, W.Append;
  }

  lemma ReportBalanced(e: Endpoint, k: nat)
    ensures Balanced(e, Report(e, k))
  {
    PushUsers(User, e.stack);
  }

  lemma RespondBalanced(e: Endpoint, k: nat, v: Value)
    requires Results(e, k, v)
    ensures Balanced(e, Respond(e, k, v))
  {
    hide Results, ResponseMessage, Build, Responded, ResponseRefused;
    PushUsers(User, e.stack);
    RespondedMade(e, k, v);
    RespondedMessages(e, k, v);
  }

  lemma RespondedMade(e: Endpoint, k: nat, v: Value)
    requires Results(e, k, v)
    ensures Made(Responded(e, k, v)) == Made(e)
    ensures Made(ResponseRefused(e, k, v)) == Made(e) + 1
  {
    hide Results, ResponseMessage, Bytes, Build, W.SendBuffer, W.Append;
  }

  /** In every step as many of the application's calls come under way as callbacks
      and calls of the implementation are made, but for the two steps in which the
      application begins or returns. */
  lemma EveryCallRuns(e: Endpoint, event: Event)
    requires Enabled(e, event)
    ensures var e' := Connection.Step(e, event);
            match event
            case DoEnter => Users(e'.stack) == Users(e.stack) + 1 && Made(e') == Made(e)
            case DoLeave => Users(e'.stack) == Users(e.stack) - 1 && Made(e') == Made(e)
            case _ => Users(e'.stack) - Users(e.stack) == Made(e') - Made(e)
  {
    hide HaveTypes, Results, Request, Respond, OnError, Resume, Apply, WaitForRequest, Report, Made, Users,
         W.Complete, W.CallNext, W.Continue;
    match event {
      case DoResume => ResumeBalanced(e);
      case DoRequest(name, args) => RequestBalanced(e, name, args);
      case DoRespond(k, v) => RespondBalanced(e, k, v);
      case DoServe =>
        SameMade(e, Serving(e));
        ApplyBalanced(Serving(e), WaitForRequest(e.splitter));
      case DoRespondError(k) =>
        SameMade(e, e.(open := e.open - {k}));
        ReportBalanced(e.(open := e.open - {k}), k);
      case DoLeave =>
        PopUsers(e.stack);
        SameMade(e, e.(stack := e.stack[1..]));
      case DoEnter =>
        PushUsers(User, e.stack);
        SameMade(e, Push(e, User));
      case DoRead(bytes) =>
        PushUsers(StartParse(e.readers[0]), e.stack);
        SameMade(e, OnRead(e, bytes));
      case DoReadError =>
        var e1 := e.(readers := e.readers[1..]);
        SameMade(e, e1);
        ErrorBalanced(e1, e.readers[0].purpose);
      case DoWritten => SameMade(e, e.(writer := W.Complete(e.writer, 0)));
      case DoWriterContinue => SameMade(e, e.(writer := W.Continue(e.writer)));
      case DoWriterCall =>
        var e1 := e.(writer := W.CallNext(e.writer));
        SameMade(e, e1);
        if e.writer.calling[0].ResponseSent? {
          ReportBalanced(e1, e.writer.calling[0].invocation);
        }
    }
  }

  lemma SameMade(e: Endpoint, e': Endpoint)
    requires e'.answered == e.answered && e'.failed == e.failed && e'.refused == e.refused
    requires e'.invoked == e.invoked && e'.log.told == e.log.told && e'.log.reported == e.log.reported
    ensures Made(e') == Made(e)
  {
  }
}
