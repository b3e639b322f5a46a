/** What runs on an endpoint's stack comes to an end: the library returns to its
    callers after a number of steps that the bytes and callbacks at hand limit. */
module Progress {
  import opened WireTypes
  import opened WireFormat
  import opened ParserMachine
  import opened RoundTrip
  import opened SplitterModel
  import opened Messages
  import opened Connection
  import opened BigEndian

  // ----- a measure of what is left to do -----

  function Weight(f: Frame): nat {
    match f
    case StartParse(op) => 16 * |op.fed| + (if IsHeader(op.purpose) then 5 else 14)
    case AfterRequest(_) => 6
    case AfterResponse(_) => 6
    case AfterError(_) => 3
    case NextResponse(_, _) => 8
    case Answer(_, _) => 2
    case FailAll(_, ids) => 1 + 2 * |ids|
    case Implement(_, _, _) => 2
    case ServeError => 2
    case User => 1
  }

  function Weights(stack: seq<Frame>): nat {
    if stack == [] then 0 else Weight(stack[0]) + Weights(stack[1..])
  }

  /** Bytes to parse, frames to run, callbacks that an error would fail. */
  function Effort(e: Endpoint): nat {
    16 * |e.buffer| + Weights(e.stack) + 2 * |e.registry.expected|
  }

  /** Nothing but the stack and what is not measured is different. */
  predicate SameMeasure(e: Endpoint, e': Endpoint) {
    e'.buffer == e.buffer && e'.registry.expected == e.registry.expected
  }

  lemma PushWeights(f: Frame, stack: seq<Frame>)
    ensures Weights([f] + stack) == Weight(f) + Weights(stack)
  {
    assert ([f] + stack)[1..] == stack;
  }

  lemma PushEffort(e: Endpoint, e': Endpoint, f: Frame)
    requires SameMeasure(e, e') && e'.stack == [f] + e.stack
    ensures Effort(e') == Effort(e) + Weight(f)
  {
    PushWeights(f, e.stack);
  }

  lemma SameEffort(e: Endpoint, e': Endpoint)
    requires SameMeasure(e, e') && e'.stack == e.stack
    ensures Effort(e') == Effort(e)
  {
  }

  lemma PopEffort(e: Endpoint)
    requires e.stack != []
    ensures Effort(e) == Effort(e.(stack := e.stack[1..])) + Weight(e.stack[0])
  {
  }

  // ----- what the parts of a step add -----

  lemma ApplyEffort(e: Endpoint, effect: Effect)
    ensures Effort(Apply(e, effect)) <= Effort(e) + (if effect.starts then 5 else 0)
  {
    hide Effort, Weights;
    if effect.starts {
      PushEffort(e, Apply(e, effect), StartParse(Op(MessageType, [])));
    } else {
      SameEffort(e, Apply(e, effect));
    }
  }

  lemma RegistryErrorEffort(e: Endpoint)
    ensures Effort(RegistryError(e)) == Effort(e) + 1
  {
    PushWeights(FailAll(|e.errors|, e.registry.expected.Keys), e.stack);
    assert |e.registry.expected.Keys| == |e.registry.expected|;
  }

  lemma SplitterErrorEffort(e: Endpoint)
    ensures Effort(SplitterError(e)) <= Effort(e) + 4
  {
    hide Effort, Weights, RegistryError;
    PushEffort(e, Faulted(e), Frame.AfterError(e.splitter.waitingForRequest));
    if e.splitter.waitingForResponse {
      SameEffort(Faulted(e), WaiterFails(Faulted(e)));
      RegistryErrorEffort(WaiterFails(Faulted(e)));
    }
  }

  lemma DispatchEffort(e: Endpoint, waiter: Waiter)
    ensures Effort(Dispatch(e, waiter)) == Effort(e) + 6
  {
    hide Effort, Weights;
    PushEffort(e, Dispatch(e, waiter), Continuation(e.splitter, waiter));
  }

  lemma BodyEffort(e: Endpoint, op: Op)
    requires op.fed == [] && !IsHeader(op.purpose)
    ensures Effort(Push(Apply(e, LockInput(e.splitter)), StartParse(op))) <= Effort(e) + 14
  {
    hide Effort, Weights, Apply;
    var e1 := Apply(e, LockInput(e.splitter));
    ApplyEffort(e, LockInput(e.splitter));
    PushEffort(e1, Push(e1, StartParse(op)), StartParse(op));
  }

  lemma ResponseIdEffort(e: Endpoint, id: nat)
    ensures Effort(OnResponseId(e, id)) <= Effort(e) + 14
  {
    hide Effort, Weights, Apply, RegistryError;
    var e1 := Assert(e, e.registry.state == ParsingHeader);
    SameEffort(e, e1);
    if id in e.registry.expected {
      var t := e.registry.expected[id];
      var e2 := e1.(registry := Registry(ParsingResult, e.registry.expected - {id}));
      FewerEffort(e, e2, id);
      BodyEffort(e2, Op(Result(id, t), []));
    } else {
      UnknownEffort(e1);
    }
  }

  lemma UnknownEffort(e: Endpoint)
    ensures Effort(RegistryError(Unknown(e))) == Effort(e) + 1
  {
    hide Effort, RegistryError;
    SameEffort(e, Unknown(e));
    RegistryErrorEffort(Unknown(e));
  }

  lemma FewerEffort(e: Endpoint, e': Endpoint, id: nat)
    requires id in e.registry.expected && e'.registry.expected == e.registry.expected - {id}
    requires e'.buffer == e.buffer && e'.stack == e.stack
    ensures Effort(e') <= Effort(e)
  {
    var a, b := e.registry.expected, e'.registry.expected;
    assert b.Keys == a.Keys - {id};
    assert |b| == |b.Keys| && |a| == |a.Keys|;
  }

  lemma RequestHeaderEffort(e: Endpoint, id: nat, name: seq<byte>)
    ensures Effort(OnRequestHeader(e, id, name)) <= Effort(e) + 20
  {
    hide Effort, Weights, Apply, Dispatch, Push;
    var e1 := Assert(e, e.splitter.waitingForRequest && e.splitter.parsingHeader);
    SameEffort(e, e1);
    DispatchEffort(e1, ForRequest);
    var e2 := Dispatch(e1, ForRequest);
    if |name| <= 255 && name in e.interface_ {
      BodyEffort(e2, Op(Argument(id, name, e.interface_[name].parameters), []));
    } else {
      SameEffort(e2, e2.(halted := true));
    }
  }

  lemma ResponseHeaderEffort(e: Endpoint, id: nat)
    ensures Effort(OnResponseHeader(e, id)) <= Effort(e) + 20
  {
    hide Effort, Weights, OnResponseId, Dispatch;
    var e1 := Assert(e, e.splitter.waitingForResponse && e.splitter.parsingHeader);
    SameEffort(e, e1);
    DispatchEffort(e1, ForResponse);
    ResponseIdEffort(Dispatch(e1, ForResponse), id);
  }

  lemma MessageTypeEffort(e: Endpoint, n: nat)
    ensures Effort(OnMessageType(e, n)) <= Effort(e) + 5
  {
    hide Effort, Weights, SplitterError;
    SplitterErrorEffort(e);
    PushEffort(e, Accept(e, n, ResponseHeader), StartParse(Op(ResponseHeader, [])));
    PushEffort(e, Accept(e, n, RequestHeader), StartParse(Op(RequestHeader, [])));
  }

  lemma UnlockEffort(e: Endpoint, e1: Endpoint, f: Frame)
    requires SameMeasure(e, e1) && e1.stack == [f] + e.stack
    ensures Effort(Apply(e1, UnlockInput(e.splitter))) <= Effort(e) + Weight(f) + 5
  {
    hide Effort, Weights, Apply, UnlockInput;
    PushEffort(e, e1, f);
    ApplyEffort(e1, UnlockInput(e.splitter));
  }

  function Adds(p: Purpose): nat {
    match p
    case MessageType => 5
    case RequestHeader => 20
    case ResponseHeader => 20
    case Result(_, _) => 13
    case Argument(_, _, _) => 7
  }

  lemma ValueEffort(e: Endpoint, p: Purpose, v: Value)
    requires HasType(PurposeType(p), v)
    ensures Effort(OnValue(e, p, v)) <= Effort(e) + Adds(p)
  {
    hide Effort, Weights, Apply, UnlockInput, OnMessageType, OnResponseHeader, OnRequestHeader;
    match p
    case MessageType => MessageTypeEffort(e, v.n);
    case ResponseHeader => ResponseHeaderEffort(e, v.n);
    case RequestHeader =>
      HaveTypesAt(HEADER.elements, v.values, 0);
      HaveTypesAt(HEADER.elements, v.values, 1);
      RequestHeaderEffort(e, v.values[0].n, v.values[1].text);
    case Result(id, _) =>
      UnlockEffort(e, Push(Assert(e, e.registry.state == ParsingResult), NextResponse(id, v)), NextResponse(id, v));
    case Argument(id, name, _) =>
      UnlockEffort(e, Push(e, Implement(id, name, v.values)), Implement(id, name, v.values));
  }

  lemma ErrorEffort(e: Endpoint, p: Purpose)
    ensures Effort(OnError(e, p)) <= Effort(e) + (if IsHeader(p) then 4 else 7)
  {
    hide Effort, Weights, Apply, UnlockInput, SplitterError, RegistryError;
    match p
    case Result(id, _) =>
      var e1 := Assert(e, e.registry.state == ParsingResult).(dropped := e.dropped + [id]);
      SameEffort(e, e1);
      RegistryErrorEffort(e1);
    case Argument(_, _, _) =>
      UnlockEffort(e, Push(e, ServeError), ServeError);
      SameEffort(Apply(Push(e, ServeError), UnlockInput(e.splitter)), OnError(e, p));
    case ResponseHeader =>
      SameEffort(e, Assert(e, e.splitter.waitingForResponse));
      SplitterErrorEffort(Assert(e, e.splitter.waitingForResponse));
    case RequestHeader =>
      SameEffort(e, Assert(e, e.splitter.waitingForRequest));
      SplitterErrorEffort(Assert(e, e.splitter.waitingForRequest));
    case MessageType => SplitterErrorEffort(e);
  }

  /** A header is not read from nothing. */
  lemma HeaderUses(p: Purpose, x: seq<byte>)
    requires IsHeader(p) && Parse(PurposeType(p), x).Done?
    ensures Parse(PurposeType(p), x).used >= 1
  {
    var t := PurposeType(p);
    RunIsRead(t, x);
    if p.RequestHeader? {
      assert Members(HEADER) == HEADER.elements && HEADER.elements[0] == Integer(REQUEST_ID);
      FirstUses(HEADER.elements, x);
    }
  }

  lemma FirstUses(ts: seq<Type>, x: seq<byte>)
    requires |ts| > 1 && ts[0].Integer?
    ensures ReadTuple(ts, x).Found? ==> ReadTuple(ts, x).used >= 1
  {
    hide MaxDepth, Depth;
    assert Read(ts[0], x).Found? ==> Read(ts[0], x).used >= 1;
  }

  lemma StartParseEffort(e: Endpoint, op: Op)
    ensures Effort(OnStartParse(e, op)) < Effort(e) + Weight(StartParse(op))
  {
    hide Weights, OnValue, OnError, Parse;
    var all := op.fed + e.buffer;
    var r := Parse(PurposeType(op.purpose), all);
    if r.Done? {
      ParseDone(e, op);
      var e1 := e.(buffer := all[r.used..]);
      ValueEffort(e1, op.purpose, r.value);
      if IsHeader(op.purpose) {
        HeaderUses(op.purpose, all);
      }
    } else if r.Waiting? {
      ParseWaits(e, op);
    } else {
      ErrorEffort(e, op.purpose);
    }
  }

  lemma NextResponseEffort(e: Endpoint, id: nat, v: Value)
    ensures Effort(OnNextResponse(e, id, v)) <= Effort(e) + 7
  {
    hide Effort, Weights, ParseHeader;
    var e1 := Push(e, Answer(id, v));
    PushEffort(e, e1, Answer(id, v));
    ParseHeaderEffort(e1);
    SameEffort(e1, e1.(registry := e1.registry.(state := NotExpectingResponse)));
  }

  lemma ParseHeaderEffort(e: Endpoint)
    ensures Effort(ParseHeader(e)) <= Effort(e) + 5
  {
    hide Effort, Weights, Apply, WaitForResponse;
    SameEffort(e, Awaits(e));
    ApplyEffort(Awaits(e), WaitForResponse(e.splitter));
  }

  lemma FailAllEffort(e: Endpoint, error: nat, ids: set<nat>)
    ensures Effort(OnFailAll(e, error, ids)) < Effort(e) + Weight(FailAll(error, ids))
  {
    hide Effort, Weights, Least;
    if ids != {} {
      var id := Least(ids);
      var f := FailAll(error, ids - {id});
      var e1 := Push(e, f).(failed := e.failed + [Failure(error, id)]);
      PushEffort(e, e1, f);
      PushEffort(e1, FailOne(e, error, ids, id), User);
      assert |ids - {id}| == |ids| - 1;
    }
  }

  lemma AfterErrorEffort(e: Endpoint, had: bool)
    ensures Effort(OnAfterError(e, had)) <= Effort(e) + 2
  {
    hide Effort, Weights;
    if !had || !e.splitter.waitingForRequest {
      SameEffort(e, OnAfterError(e, had));
    } else {
      SameEffort(e, ServeFails(e));
      PushEffort(ServeFails(e), Push(ServeFails(e), ServeError), ServeError);
    }
  }

  /** The steps that call the application. */
  lemma CallEffort(e: Endpoint, id: nat, v: Value, name: Name, args: seq<Value>)
    ensures Effort(OnAnswer(e, id, v)) == Effort(e) + 1
    ensures Effort(OnImplement(e, id, name, args)) == Effort(e) + 1
    ensures Effort(OnServeError(e)) == Effort(e) + 1
  {
    hide Effort, Weights;
    PushEffort(e, OnAnswer(e, id, v), User);
    PushEffort(e, OnImplement(e, id, name, args), User);
    PushEffort(e, OnServeError(e), User);
  }

  /** Every step on the stack leaves less to do. */
  lemma ResumeEffort(e: Endpoint)
    requires e.stack != [] && !e.stack[0].User?
    ensures Effort(Resume(e)) < Effort(e)
  {
    hide Effort, Weights, Weight, Apply, OnStartParse, OnNextResponse, OnFailAll, OnAfterError, OnAnswer, OnImplement,
         OnServeError, ContinueFor;
    PopEffort(e);
    var e1 := e.(stack := e.stack[1..]);
    FrameWeights(e.stack[0]);
    match e.stack[0] {
      case StartParse(op) => StartParseEffort(e1, op);
      case AfterRequest(c) => ApplyEffort(e1, ContinueFor(e1.splitter, c, e1.splitter.waitingForResponse));
      case AfterResponse(c) => ApplyEffort(e1, ContinueFor(e1.splitter, c, e1.splitter.waitingForRequest));
      case AfterError(had) => AfterErrorEffort(e1, had);
      case NextResponse(id, v) => NextResponseEffort(e1, id, v);
      case Answer(id, v) => CallEffort(e1, id, v, [], []);
      case FailAll(error, ids) => FailAllEffort(e1, error, ids);
      case Implement(id, name, args) => CallEffort(e1, id, IntegerValue(0), name, args);
      case ServeError => CallEffort(e1, 0, IntegerValue(0), [], []);
    }
  }

  lemma FrameWeights(f: Frame)
    ensures f.AfterRequest? || f.AfterResponse? ==> Weight(f) == 6
    ensures f.AfterError? ==> Weight(f) == 3
    ensures f.NextResponse? ==> Weight(f) == 8
    ensures f.Answer? || f.Implement? || f.ServeError? ==> Weight(f) == 2
    ensures f.User? ==> Weight(f) == 1
  {
  }

  // ----- what this means -----

  /** The library runs, or the application returns without doing anything. */
  predicate Unwinding(events: seq<Event>) {
    forall i :: 0 <= i < |events| ==> events[i].DoResume? || events[i].DoLeave?
  }

  lemma StepEffort(e: Endpoint, event: Event)
    requires Enabled(e, event) && (event.DoResume? || event.DoLeave?)
    ensures Effort(Connection.Step(e, event)) < Effort(e)
  {
    hide Effort, Resume;
    if event.DoResume? {
      ResumeEffort(e);
    } else {
      PopEffort(e);
    }
  }

  /** No chain of callbacks is endless: there are at most `Effort` such steps. */
  lemma {:induction false} UnwindingEnds(e: Endpoint, events: seq<Event>)
    requires Legal(e, events) && Unwinding(events)
    ensures |events| <= Effort(e)
    decreases |events|
  {
    hide Effort, Connection.Step, Enabled;
    if events != [] {
      StepEffort(e, events[0]);
      UnwindingEnds(Connection.Step(e, events[0]), events[1..]);
    }
  }

  /** And they can go on until nothing is left on the stack, unless an exception
      ends the run. */
  lemma {:induction false} ComesToRest(e: Endpoint) returns (events: seq<Event>)
    ensures Legal(e, events) && Unwinding(events) && |events| <= Effort(e)
    ensures RunAll(e, events).stack == [] || RunAll(e, events).halted
    decreases Effort(e)
  {
    hide Effort, Resume;
    events := [];
    if e.stack != [] && !e.halted {
      var event := if e.stack[0].User? then DoLeave else DoResume;
      StepEffort(e, event);
      var rest := ComesToRest(Connection.Step(e, event));
      events := [event] + rest;
      assert events[1..] == rest;
      UnwindingEnds(e, events);
    }
  }
}
