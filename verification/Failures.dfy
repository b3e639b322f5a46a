/** Which callbacks fail: those that an error of the registry finds pending, each
    once and in the order of their ids, whatever they do in turn. */
module Failures {
  import opened BigEndian
  import opened WireFormat
  import opened RoundTrip
  import opened SplitterModel
  import opened Messages
  import opened Connection
  import opened ConnectionAccounting

  /** The ids in ascending order. */
  ghost function Sorted(ids: set<nat>): (s: seq<nat>)
    decreases |ids|
  {
    if ids == {} then [] else [Least(ids)] + Sorted(ids - {Least(ids)})
  }

  lemma {:induction false} SortedIs(ids: set<nat>)
    ensures forall id :: id in Sorted(ids) <==> id in ids
    ensures forall i, j :: 0 <= i < j < |Sorted(ids)| ==> Sorted(ids)[i] < Sorted(ids)[j]
    decreases |ids|
  {
    if ids != {} {
      var id := Least(ids);
      SortedIs(ids - {id});
      var rest := Sorted(ids - {id});
      forall i, j | 0 <= i < j < |Sorted(ids)|
        ensures Sorted(ids)[i] < Sorted(ids)[j]
      {
        assert Sorted(ids)[j] == rest[j - 1];
        if i == 0 {
          assert rest[j - 1] in rest;
        } else {
          assert Sorted(ids)[i] == rest[i - 1];
        }
      }
    }
  }

  /** The ids whose callbacks were called with the error of that number, in order. */
  function FailedBy(failed: seq<Failure>, error: nat): seq<nat> {
    if failed == [] then []
    else
      var last := failed[|failed| - 1];
      FailedBy(failed[..|failed| - 1], error) + (if last.error == error then [last.id] else [])
  }

  /** Those that are still to be called with it. */
  ghost function Left(stack: seq<Frame>, error: nat): seq<nat> {
    if stack == [] then []
    else
      (if stack[0].FailAll? && stack[0].error == error then Sorted(stack[0].ids) else []) + Left(stack[1..], error)
  }

  /** All that were pending when it happened. */
  ghost function Raised(errors: seq<set<nat>>, error: nat): seq<nat> {
    if error < |errors| then Sorted(errors[error]) else []
  }

  /** Called and still to be called are all that were pending, in order. */
  ghost predicate Accounts(failed: seq<Failure>, stack: seq<Frame>, errors: seq<set<nat>>, error: nat) {
    FailedBy(failed, error) + Left(stack, error) == Raised(errors, error)
  }

  ghost predicate Kept(e: Endpoint, error: nat) {
    Accounts(e.failed, e.stack, e.errors, error)
  }

  lemma NewErrorAccounts(failed: seq<Failure>, stack: seq<Frame>, errors: seq<set<nat>>, ids: set<nat>, error: nat)
    requires Accounts(failed, stack, errors, error)
    ensures Accounts(failed, [FailAll(|errors|, ids)] + stack, errors + [ids], error)
  {
    hide Sorted, FailedBy, Left;
    PushLeft(FailAll(|errors|, ids), stack, error);
    if error == |errors| {
      assert FailedBy(failed, error) == [] && Left(stack, error) == [];
    } else {
      assert [] + Left(stack, error) == Left(stack, error);
    }
  }

  lemma CallAccounts(failed: seq<Failure>, stack: seq<Frame>, errors: seq<set<nat>>, n: nat, ids: set<nat>, error: nat)
    requires Accounts(failed, [FailAll(n, ids)] + stack, errors, error) && ids != {}
    ensures var id := Least(ids);
            Accounts(failed + [Failure(n, id)], [User] + ([FailAll(n, ids - {id})] + stack), errors, error)
  {
    hide Least, FailedBy, Left;
    var id := Least(ids);
    var again := FailAll(n, ids - {id});
    PushLeft(FailAll(n, ids), stack, error);
    PushLeft(again, stack, error);
    PushLeft(User, [again] + stack, error);
    FailedBySnoc(failed, Failure(n, id), error);
    Shift(FailedBy(failed, error), id, Sorted(ids - {id}), Left(stack, error));
  }

  lemma Shift(called: seq<nat>, id: nat, rest: seq<nat>, more: seq<nat>)
    ensures called + (([id] + rest) + more) == (called + [id]) + (rest + more)
    ensures [] + (rest + more) == rest + more && [] + more == more && called + [] == called
  {
  }

  lemma LastCallAccounts(failed: seq<Failure>, stack: seq<Frame>, errors: seq<set<nat>>, n: nat, error: nat)
    requires Accounts(failed, [FailAll(n, {})] + stack, errors, error)
    ensures Accounts(failed, stack, errors, error)
  {
    PushLeft(FailAll(n, {}), stack, error);
    assert [] + Left(stack, error) == Left(stack, error);
  }

  lemma FailedBySnoc(failed: seq<Failure>, f: Failure, error: nat)
    ensures FailedBy(failed + [f], error) == FailedBy(failed, error) + (if f.error == error then [f.id] else [])
  {
    assert (failed + [f])[..|failed|] == failed;
  }

  lemma PushLeft(f: Frame, stack: seq<Frame>, error: nat)
    ensures Left([f] + stack, error)
         == (if f.FailAll? && f.error == error then Sorted(f.ids) else []) + Left(stack, error)
  {
    assert ([f] + stack)[1..] == stack;
  }

  // ----- the steps that leave failures alone -----

  /** An error of the registry takes what is pending, all of it, or none happens. */
  predicate Raises(e: Endpoint, e': Endpoint) {
    || e'.errors == e.errors
    || (e'.errors == e.errors + [e.registry.expected.Keys] && e'.registry.expected == map[])
  }

  /** Frames that fail nobody have been pushed. */
  ghost predicate Spares(e: Endpoint, e': Endpoint, error: nat) {
    e'.failed == e.failed && e'.errors == e.errors && Left(e'.stack, error) == Left(e.stack, error)
  }

  lemma SparesKept(e: Endpoint, e': Endpoint, error: nat)
    requires Kept(e, error) && Spares(e, e', error)
    ensures Kept(e', error) && Raises(e, e')
  {
  }

  lemma PushSpares(e: Endpoint, f: Frame, error: nat)
    requires !f.FailAll?
    ensures Spares(e, Push(e, f), error)
  {
    PushLeft(f, e.stack, error);
    assert [] + Left(e.stack, error) == Left(e.stack, error);
  }

  lemma ApplySpares(e: Endpoint, effect: Effect, error: nat)
    ensures Spares(e, Apply(e, effect), error)
  {
    hide Left;
    PushSpares(e, StartParse(Op(MessageType, [])), error);
  }

  lemma ParseHeaderSpares(e: Endpoint, error: nat)
    ensures Spares(e, ParseHeader(e), error)
  {
    hide Apply, Left;
    ApplySpares(Awaits(e), WaitForResponse(e.splitter), error);
  }

  lemma NextResponseSpares(e: Endpoint, id: nat, v: Value, error: nat)
    ensures Spares(e, OnNextResponse(e, id, v), error)
  {
    hide ParseHeader, Left;
    PushSpares(e, Answer(id, v), error);
    ParseHeaderSpares(Push(e, Answer(id, v)), error);
  }

  lemma AfterErrorSpares(e: Endpoint, had: bool, error: nat)
    ensures Spares(e, OnAfterError(e, had), error)
  {
    hide Left;
    if had && e.splitter.waitingForRequest {
      PushSpares(ServeFails(e), ServeError, error);
    }
  }

  lemma AnswerSpares(e: Endpoint, id: nat, v: Value, error: nat)
    ensures Spares(e, OnAnswer(e, id, v), error)
  {
    hide Left;
    PushSpares(e.(answered := e.answered + [Answered(id, v)]), User, error);
  }

  lemma ImplementSpares(e: Endpoint, id: nat, name: Name, args: seq<Value>, error: nat)
    ensures Spares(e, OnImplement(e, id, name, args), error)
  {
    hide Left;
    PushSpares(e, User, error);
  }

  lemma ServeErrorSpares(e: Endpoint, error: nat)
    ensures Spares(e, OnServeError(e), error)
  {
    hide Left;
    PushSpares(e, User, error);
  }

  lemma UnlockSpares(e: Endpoint, f: Frame, error: nat)
    requires !f.FailAll?
    ensures Spares(e, Apply(Push(e, f), UnlockInput(e.splitter)), error)
  {
    hide Left, Apply;
    PushSpares(e, f, error);
    ApplySpares(Push(e, f), UnlockInput(e.splitter), error);
  }

  lemma ResultSpares(e: Endpoint, id: nat, v: Value, error: nat)
    ensures Spares(e, Apply(Push(Assert(e, e.registry.state == ParsingResult), NextResponse(id, v)),
                            UnlockInput(e.splitter)), error)
  {
    hide Left, Apply, Push, UnlockInput;
    UnlockSpares(Assert(e, e.registry.state == ParsingResult), NextResponse(id, v), error);
  }

  lemma ArgumentErrorSpares(e: Endpoint, error: nat)
    ensures Spares(e, Apply(Push(e, ServeError), UnlockInput(e.splitter)).(clean := false), error)
  {
    hide Left, Apply, Push, UnlockInput;
    UnlockSpares(e, ServeError, error);
  }

  lemma DispatchSpares(e: Endpoint, waiter: Waiter, error: nat)
    ensures Spares(e, Dispatch(e, waiter), error)
    ensures Dispatch(e, waiter).registry == e.registry && Dispatch(e, waiter).errors == e.errors
    ensures Dispatch(e, waiter).interface_ == e.interface_
  {
    hide Left, TakeOut;
    PushSpares(e, Continuation(e.splitter, waiter), error);
  }

  lemma RequestHeaderSpares(e: Endpoint, id: nat, name: seq<byte>, error: nat)
    ensures Spares(e, OnRequestHeader(e, id, name), error)
  {
    hide Left, Apply, Dispatch;
    var e1 := Assert(e, e.splitter.waitingForRequest && e.splitter.parsingHeader);
    DispatchSpares(e1, ForRequest, error);
    var e2 := Dispatch(e1, ForRequest);
    if |name| <= 255 && name in e.interface_ {
      var e3 := Apply(e2, LockInput(e2.splitter));
      ApplySpares(e2, LockInput(e2.splitter), error);
      PushSpares(e3, StartParse(Op(Argument(id, name, e.interface_[name].parameters), [])), error);
    }
  }

  // ----- the errors -----

  lemma RegistryErrorKept(e: Endpoint, error: nat)
    requires Kept(e, error)
    ensures Kept(RegistryError(e), error) && Raises(e, RegistryError(e))
  {
    hide Accounts;
    NewErrorAccounts(e.failed, e.stack, e.errors, e.registry.expected.Keys, error);
  }

  lemma FaultedSpares(e: Endpoint, error: nat)
    ensures Spares(e, Faulted(e), error) && Spares(e, WaiterFails(Faulted(e)), error)
    ensures Faulted(e).registry == e.registry && WaiterFails(Faulted(e)).registry == e.registry
    ensures Faulted(e).errors == e.errors && WaiterFails(Faulted(e)).errors == e.errors
  {
    hide Left;
    PushSpares(e, AfterError(e.splitter.waitingForRequest), error);
  }

  lemma SplitterErrorKept(e: Endpoint, error: nat)
    requires Kept(e, error)
    ensures Kept(SplitterError(e), error) && Raises(e, SplitterError(e))
  {
    hide Kept, Spares, RegistryError, Faulted, WaiterFails;
    FaultedSpares(e, error);
    SparesKept(e, Faulted(e), error);
    SparesKept(e, WaiterFails(Faulted(e)), error);
    RegistryErrorKept(WaiterFails(Faulted(e)), error);
  }

  lemma ReadingSpares(e: Endpoint, id: nat, error: nat)
    requires id in e.registry.expected
    ensures Spares(e, OnResponseId(e, id), error)
  {
    hide Left, Apply;
    var e2 := Assert(e, e.registry.state == ParsingHeader)
      .(registry := Registry(ParsingResult, e.registry.expected - {id}));
    var e3 := Apply(e2, LockInput(e.splitter));
    ApplySpares(e2, LockInput(e.splitter), error);
    PushSpares(e3, StartParse(Op(Result(id, e.registry.expected[id]), [])), error);
  }

  lemma ResponseIdKept(e: Endpoint, id: nat, error: nat)
    requires Kept(e, error)
    ensures Kept(OnResponseId(e, id), error) && Raises(e, OnResponseId(e, id))
  {
    if id in e.registry.expected {
      hide Kept, Spares, OnResponseId;
      ReadingSpares(e, id, error);
      SparesKept(e, OnResponseId(e, id), error);
    } else {
      hide Kept, RegistryError, Assert;
      var e1 := Assert(e, e.registry.state == ParsingHeader);
      AssertKept(e, e.registry.state == ParsingHeader, error);
      UnknownKept(e1, error);
      RegistryErrorKept(Unknown(e1), error);
    }
  }

  lemma UnknownKept(e: Endpoint, error: nat)
    requires Kept(e, error)
    ensures Kept(Unknown(e), error)
    ensures Unknown(e).registry == e.registry && Unknown(e).errors == e.errors
  {
  }

  lemma AssertKept(e: Endpoint, condition: bool, error: nat)
    requires Kept(e, error)
    ensures Kept(Assert(e, condition), error)
    ensures Assert(e, condition).registry == e.registry && Assert(e, condition).errors == e.errors
  {
  }

  lemma ResponseHeaderKept(e: Endpoint, id: nat, error: nat)
    requires Kept(e, error)
    ensures Kept(OnResponseHeader(e, id), error) && Raises(e, OnResponseHeader(e, id))
  {
    hide Kept, Spares, Dispatch, OnResponseId, Assert;
    var e1 := Assert(e, e.splitter.waitingForResponse && e.splitter.parsingHeader);
    AssertKept(e, e.splitter.waitingForResponse && e.splitter.parsingHeader, error);
    DispatchSpares(e1, ForResponse, error);
    SparesKept(e1, Dispatch(e1, ForResponse), error);
    ResponseIdKept(Dispatch(e1, ForResponse), id, error);
  }

  lemma AcceptSpares(e: Endpoint, n: nat, header: Purpose, error: nat)
    ensures Spares(e, Accept(e, n, header), error)
  {
    hide Left;
    PushSpares(e, StartParse(Op(header, [])), error);
  }

  lemma MessageTypeKept(e: Endpoint, n: nat, error: nat)
    requires Kept(e, error)
    ensures Kept(OnMessageType(e, n), error) && Raises(e, OnMessageType(e, n))
  {
    hide Kept, Spares, Accept, SplitterError;
    AcceptSpares(e, n, ResponseHeader, error);
    SparesKept(e, Accept(e, n, ResponseHeader), error);
    AcceptSpares(e, n, RequestHeader, error);
    SparesKept(e, Accept(e, n, RequestHeader), error);
    SplitterErrorKept(e, error);
  }

  lemma ValueKept(e: Endpoint, p: Purpose, v: Value, error: nat)
    requires Kept(e, error) && HasType(PurposeType(p), v)
    ensures Kept(OnValue(e, p, v), error) && Raises(e, OnValue(e, p, v))
  {
    hide Kept, Spares, Apply, Push, UnlockInput, OnMessageType, OnResponseHeader, OnRequestHeader;
    match p {
      case MessageType => MessageTypeKept(e, v.n, error);
      case ResponseHeader => ResponseHeaderKept(e, v.n, error);
      case RequestHeader =>
        HaveTypesAt(HEADER.elements, v.values, 0);
        HaveTypesAt(HEADER.elements, v.values, 1);
        RequestHeaderSpares(e, v.values[0].n, v.values[1].text, error);
        SparesKept(e, OnValue(e, p, v), error);
      case Result(id, _) =>
        ResultSpares(e, id, v, error);
        SparesKept(e, OnValue(e, p, v), error);
      case Argument(id, name, _) =>
        UnlockSpares(e, Implement(id, name, v.values), error);
        SparesKept(e, OnValue(e, p, v), error);
    }
  }

  lemma SameKept(e: Endpoint, e': Endpoint, error: nat)
    requires Kept(e, error) && e'.failed == e.failed && e'.errors == e.errors && e'.stack == e.stack
    ensures Kept(e', error) && Raises(e, e')
  {
  }

  lemma ErrorKept(e: Endpoint, p: Purpose, error: nat)
    requires Kept(e, error)
    ensures Kept(OnError(e, p), error) && Raises(e, OnError(e, p))
  {
    hide Kept, Spares, Apply, Push, UnlockInput, SplitterError, RegistryError;
    match p {
      case Result(id, _) =>
        var e1 := Assert(e, e.registry.state == ParsingResult).(dropped := e.dropped + [id]);
        SameKept(e, e1, error);
        RegistryErrorKept(e1, error);
      case Argument(_, _, _) =>
        ArgumentErrorSpares(e, error);
        SparesKept(e, OnError(e, p), error);
      case ResponseHeader =>
        AssertKept(e, e.splitter.waitingForResponse, error);
        SplitterErrorKept(Assert(e, e.splitter.waitingForResponse), error);
      case RequestHeader =>
        AssertKept(e, e.splitter.waitingForRequest, error);
        SplitterErrorKept(Assert(e, e.splitter.waitingForRequest), error);
      case MessageType => SplitterErrorKept(e, error);
    }
  }

  lemma StartParseKept(e: Endpoint, op: Op, error: nat)
    requires Kept(e, error)
    ensures Kept(OnStartParse(e, op), error) && Raises(e, OnStartParse(e, op))
  {
    hide Kept, OnValue, OnError, Parse;
    var all := op.fed + e.buffer;
    if Parse(PurposeType(op.purpose), all).Done? {
      ParseDone(e, op);
      var Done(v, used, _) := Parse(PurposeType(op.purpose), all);
      SameKept(e, e.(buffer := all[used..]), error);
      ValueKept(e.(buffer := all[used..]), op.purpose, v, error);
    } else if Parse(PurposeType(op.purpose), all).Waiting? {
      ParseWaits(e, op);
      SameKept(e, OnStartParse(e, op), error);
    } else {
      ErrorKept(e, op.purpose, error);
    }
  }

  // ----- the calls with an error -----

  /** The next callback in order is called. */
  lemma FailAllKept(e: Endpoint, n: nat, ids: set<nat>, error: nat)
    requires Kept(Push(e, FailAll(n, ids)), error)
    ensures Kept(OnFailAll(e, n, ids), error) && Raises(e, OnFailAll(e, n, ids))
  {
    hide Least, Accounts;
    if ids == {} {
      LastCallAccounts(e.failed, e.stack, e.errors, n, error);
    } else {
      CallAccounts(e.failed, e.stack, e.errors, n, ids, error);
    }
  }

  // ----- steps and runs -----

  lemma PopKept(e: Endpoint, error: nat)
    requires Kept(e, error) && e.stack != [] && !e.stack[0].FailAll?
    ensures Kept(e.(stack := e.stack[1..]), error)
  {
    assert [] + Left(e.stack[1..], error) == Left(e.stack[1..], error);
  }

  lemma ResumeKept(e: Endpoint, error: nat)
    requires Kept(e, error) && e.stack != [] && !e.stack[0].User?
    ensures Kept(Resume(e), error) && Raises(e, Resume(e))
  {
    hide Kept, Spares, Least, Apply, OnStartParse, OnNextResponse, OnFailAll, OnAnswer, OnAfterError, OnImplement,
         OnServeError;
    var e1 := e.(stack := e.stack[1..]);
    if e.stack[0].FailAll? {
      assert e == Push(e1, e.stack[0]);
      FailAllKept(e1, e.stack[0].error, e.stack[0].ids, error);
    } else {
      PopKept(e, error);
      if e.stack[0].StartParse? {
        StartParseKept(e1, e.stack[0].op, error);
      } else {
        ResumeSpares(e, error);
        SparesKept(e1, Resume(e), error);
      }
    }
  }

  lemma ResumeSpares(e: Endpoint, error: nat)
    requires e.stack != [] && !e.stack[0].User? && !e.stack[0].FailAll? && !e.stack[0].StartParse?
    ensures Spares(e.(stack := e.stack[1..]), Resume(e), error)
  {
    hide Spares, Least, Apply, OnStartParse, OnNextResponse, OnFailAll, OnAnswer, OnAfterError, OnImplement,
         OnServeError;
    var e1 := e.(stack := e.stack[1..]);
    match e.stack[0] {
      case AfterRequest(c) => ApplySpares(e1, ContinueFor(e1.splitter, c, e1.splitter.waitingForResponse), error);
      case AfterResponse(c) => ApplySpares(e1, ContinueFor(e1.splitter, c, e1.splitter.waitingForRequest), error);
      case NextResponse(id, v) => NextResponseSpares(e1, id, v, error);
      case Answer(id, v) => AnswerSpares(e1, id, v, error);
      case AfterError(had) => AfterErrorSpares(e1, had, error);
      case Implement(id, name, args) => ImplementSpares(e1, id, name, args, error);
      case ServeError => ServeErrorSpares(e1, error);
    }
  }

  lemma RequestSpares(e: Endpoint, name: Name, args: seq<Value>, error: nat)
    requires Enabled(e, DoRequest(name, args))
    ensures Spares(e, Request(e, name, args), error)
  {
    hide HaveTypes, RequestMessage, Bytes, Build, W.SendBuffer, W.Append, ParseHeader, Left;
    PushSpares(e, User, error);
    var e1 := Requested(e, name, args);
    var t := e.interface_[name].result;
    ParseHeaderSpares(e1.(registry := e1.registry.(expected := Inserted(e1.registry.expected, |e.issued|, t))), error);
  }

  lemma RespondSpares(e: Endpoint, k: nat, v: Value, error: nat)
    requires Enabled(e, DoRespond(k, v))
    ensures Spares(e, Respond(e, k, v), error)
  {
    hide HasType, ResponseMessage, Bytes, Build, W.SendBuffer, W.Append, Left;
    PushSpares(e, User, error);
  }

  lemma ReadKept(e: Endpoint, bytes: seq<byte>, error: nat)
    requires Kept(e, error) && e.readers != []
    ensures Kept(OnRead(e, bytes), error) && Raises(e, OnRead(e, bytes))
  {
    hide Left, FailedBy;
    PushSpares(e, StartParse(e.readers[0]), error);
  }

  lemma StepKept(e: Endpoint, event: Event, error: nat)
    requires Kept(e, error) && Enabled(e, event)
    ensures Kept(Connection.Step(e, event), error) && Raises(e, Connection.Step(e, event))
  {
    hide Kept, Spares, HasType, HaveTypes, Resume, Request, Respond, OnError, OnRead, Apply;
    match event {
      case DoResume => ResumeKept(e, error);
      case DoRequest(name, args) =>
        RequestSpares(e, name, args, error);
        SparesKept(e, Request(e, name, args), error);
      case DoRespond(k, v) =>
        RespondSpares(e, k, v, error);
        SparesKept(e, Respond(e, k, v), error);
      case DoServe =>
        ApplySpares(Serving(e), WaitForRequest(e.splitter), error);
        SameKept(e, Serving(e), error);
        SparesKept(Serving(e), Serve(e), error);
      case DoRead(bytes) => ReadKept(e, bytes, error);
      case DoReadError =>
        SameKept(e, e.(readers := e.readers[1..]), error);
        ErrorKept(e.(readers := e.readers[1..]), e.readers[0].purpose, error);
      case DoLeave => PopKept(e, error);
      case _ => QuietKept(e, event, error);
    }
  }

  lemma ReportSpares(e: Endpoint, k: nat)
    ensures Report(e, k).failed == e.failed && Report(e, k).errors == e.errors && Report(e, k).stack == [User] + e.stack
  {
  }

  lemma QuietStep(e: Endpoint, event: Event)
    requires Enabled(e, event)
    requires || event.DoRespondError? || event.DoEnter?
             || event.DoWritten? || event.DoWriterCall? || event.DoWriterContinue?
    ensures var e' := Connection.Step(e, event);
            && e'.failed == e.failed && e'.errors == e.errors
            && (e'.stack == e.stack || e'.stack == [User] + e.stack)
  {
    hide HaveTypes, Results, Resume, OnRead, OnError, Request, Respond, Serve, Report, W.Complete, W.CallNext,
         W.Continue;
    match event {
      case DoRespondError(k) => ReportSpares(e.(open := e.open - {k}), k);
      case DoWriterCall =>
        if e.writer.calling[0].ResponseSent? {
          ReportSpares(e.(writer := W.CallNext(e.writer)), e.writer.calling[0].invocation);
        }
      case _ =>
    }
  }

  lemma QuietKept(e: Endpoint, event: Event, error: nat)
    requires Kept(e, error) && Enabled(e, event)
    requires || event.DoRespondError? || event.DoEnter?
             || event.DoWritten? || event.DoWriterCall? || event.DoWriterContinue?
    ensures Kept(Connection.Step(e, event), error) && Raises(e, Connection.Step(e, event))
  {
    hide Kept, Left, FailedBy, Connection.Step, Enabled;
    PushSpares(e, User, error);
    SparesKept(e, Push(e, User), error);
    QuietStep(e, event);
    var e' := Connection.Step(e, event);
    if e'.stack == e.stack {
      SameKept(e, e', error);
    } else {
      SameKept(Push(e, User), e', error);
    }
  }

  lemma {:induction false} RunKept(e: Endpoint, events: seq<Event>, error: nat)
    requires Kept(e, error) && Legal(e, events)
    ensures Kept(RunAll(e, events), error)
    decreases |events|
  {
    hide Kept, Connection.Step, Enabled;
    if events != [] {
      StepKept(e, events[0], error);
      RunKept(Connection.Step(e, events[0]), events[1..], error);
    }
  }

  lemma NewKept(interface_: Interface, error: nat)
    ensures Kept(New(interface_), error)
  {
  }

  // ----- what this means for every run -----

  /** The callbacks called with an error are, at every point of rest, those that
      were pending when it happened, all of them, each once, in the order of their
      ids; before that they are the first of them. */
  lemma EveryPendingCallbackFails(interface_: Interface, events: seq<Event>, error: nat)
    requires Legal(New(interface_), events) && error < |RunAll(New(interface_), events).errors|
    ensures var e := RunAll(New(interface_), events);
            && FailedBy(e.failed, error) <= Sorted(e.errors[error])
            && (e.stack == [] ==> FailedBy(e.failed, error) == Sorted(e.errors[error]))
  {
    hide FailedBy, Sorted, New, Connection.Step, Enabled;
    NewKept(interface_, error);
    RunKept(New(interface_), events, error);
    var e := RunAll(New(interface_), events);
    if e.stack == [] {
      assert Left(e.stack, error) == [];
      assert FailedBy(e.failed, error) + [] == FailedBy(e.failed, error);
    }
  }

  /** The ids of one error ascend, also when the callbacks make requests that fail
      in turn before the next of them is called. */
  lemma FailuresAscend(interface_: Interface, events: seq<Event>, error: nat, i: nat, j: nat)
    requires Legal(New(interface_), events) && error < |RunAll(New(interface_), events).errors|
    requires i < j < |FailedBy(RunAll(New(interface_), events).failed, error)|
    ensures var called := FailedBy(RunAll(New(interface_), events).failed, error);
            called[i] < called[j]
  {
    hide FailedBy, Sorted, New, Connection.Step, Enabled, Legal, RunAll;
    EveryPendingCallbackFails(interface_, events, error);
    SortedIs(RunAll(New(interface_), events).errors[error]);
  }

  lemma {:induction false} FailedByCounts(failed: seq<Failure>, error: nat, id: nat)
    requires id in FailedBy(failed, error)
    ensures FailedCount(failed, id) >= 1
    decreases |failed|
  {
    var last := failed[|failed| - 1];
    if last.id != id {
      FailedByCounts(failed[..|failed| - 1], error, id);
    }
  }

  lemma {:induction false} ErrorsStay(e: Endpoint, events: seq<Event>)
    requires Kept(e, 0) && Legal(e, events)
    ensures e.errors <= RunAll(e, events).errors
    decreases |events|
  {
    hide Kept, Connection.Step, Enabled;
    if events != [] {
      StepKept(e, events[0], 0);
      ErrorsStay(Connection.Step(e, events[0]), events[1..]);
    }
  }

  /** At a point of rest the callbacks that an error found pending have been
      called with an error, exactly once, and with nothing else. */
  lemma PendingAtError(interface_: Interface, events: seq<Event>, error: nat, id: nat)
    requires Legal(New(interface_), events) && error < |RunAll(New(interface_), events).errors|
    requires RunAll(New(interface_), events).stack == [] && id in RunAll(New(interface_), events).errors[error]
    ensures var e := RunAll(New(interface_), events);
            && FailedCount(e.failed, id) == 1 && AnsweredCount(e.answered, id) == 0
            && id in FailedBy(e.failed, error) && id !in e.registry.expected
  {
    hide FailedBy, Sorted, FailedCount, AnsweredCount, IdCount, New, Connection.Step, Enabled, Legal, RunAll, Accounted;
    var e := RunAll(New(interface_), events);
    EveryPendingCallbackFails(interface_, events, error);
    SortedIs(e.errors[error]);
    FailedByCounts(e.failed, error, id);
    ReachableAccounts(interface_, events);
    AccountedOnce(e, id);
  }

  /** Whatever step an error of the registry happens in: the callback of every
      request that was pending has been called with the error at each later point
      of rest, exactly once, and with nothing else. */
  lemma FailsExactlyOnce(interface_: Interface, before: seq<Event>, event: Event, after: seq<Event>, id: nat)
    requires Legal(New(interface_), before) && Enabled(RunAll(New(interface_), before), event)
    requires var e := RunAll(New(interface_), before);
             var e1 := Connection.Step(e, event);
             && e1.errors != e.errors && id in e.registry.expected
             && Legal(e1, after) && RunAll(e1, after).stack == []
    ensures var e := RunAll(New(interface_), before);
            var e2 := RunAll(Connection.Step(e, event), after);
            && FailedCount(e2.failed, id) == 1 && AnsweredCount(e2.answered, id) == 0
            && id in FailedBy(e2.failed, |e.errors|) && id !in e2.registry.expected
  {
    hide FailedBy, FailedCount, AnsweredCount, New, Connection.Step, Enabled, Kept;
    var e := RunAll(New(interface_), before);
    var e1 := Connection.Step(e, event);
    NewKept(interface_, 0);
    RunKept(New(interface_), before, 0);
    StepKept(e, event, 0);
    ErrorsStay(e1, after);
    var events := [event] + after;
    assert events[0] == event && events[1..] == after;
    LegalInTurn(New(interface_), before, events);
    assert RunAll(e, events) == RunAll(e1, after);
    assert RunAll(e1, after).errors[|e.errors|] == e1.errors[|e.errors|];
    PendingAtError(interface_, before + events, |e.errors|, id);
  }
}
