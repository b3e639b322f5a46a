/** What every step of a connection keeps, in every use of it: one reader at a
    time, the splitter's and registry's assertions, fail-stop after an error of
    the splitter, and no lost wake-up as long as each response is that to a
    pending request. */
module ConnectionInvariant {
  import opened WireTypes
  import opened BigEndian
  import opened WireFormat
  import opened RoundTrip
  import opened SplitterModel
  import opened Messages
  import opened Connection
  import W = WriterModel

  // ----- the stack -----

  predicate Quiet(stack: seq<Frame>) {
    forall i :: 0 <= i < |stack| ==> !stack[i].StartParse?
  }

  /** Result operations that have unlocked the input and are not done yet. */
  function Nexts(stack: seq<Frame>): nat {
    if stack == [] then 0 else (if stack[0].NextResponse? then 1 else 0) + Nexts(stack[1..])
  }

  /** Served requests on their way to the implementation or to an error. */
  function Serves(stack: seq<Frame>): nat {
    if stack == [] then 0
    else (if stack[0].Implement? || stack[0].ServeError? then 1 else 0) + Serves(stack[1..])
  }

  /** Errors of the splitter that the request waiter has not been told yet. */
  function Errors(stack: seq<Frame>): nat {
    if stack == [] then 0
    else (if stack[0].AfterError? && stack[0].hadRequest then 1 else 0) + Errors(stack[1..])
  }

  lemma PushFacts(f: Frame, s: seq<Frame>)
    ensures ([f] + s)[1..] == s
    ensures Nexts([f] + s) == (if f.NextResponse? then 1 else 0) + Nexts(s)
    ensures Serves([f] + s) == (if f.Implement? || f.ServeError? then 1 else 0) + Serves(s)
    ensures Errors([f] + s) == (if f.AfterError? && f.hadRequest then 1 else 0) + Errors(s)
    ensures Quiet([f] + s) <==> !f.StartParse? && Quiet(s)
  {
    assert ([f] + s)[1..] == s;
    forall i | 0 <= i < |s|
      ensures ([f] + s)[i + 1] == s[i]
    {
    }
    if Quiet([f] + s) {
      assert ([f] + s)[0] == f;
      forall i | 0 <= i < |s|
        ensures !s[i].StartParse?
      {
        assert ([f] + s)[i + 1] == s[i];
      }
    }
  }

  // ----- the invariant -----

  /** The parse operation under way, about to run or waiting for a read. */
  datatype Reader = Nobody | Somebody(purpose: Purpose)

  function One(b: bool): nat {
    if b then 1 else 0
  }

  /** How often the waiter was called with a header. */
  function Calls(dispatched: seq<Waiter>, w: Waiter): nat {
    if dispatched == [] then 0
    else Calls(dispatched[..|dispatched| - 1], w) + One(dispatched[|dispatched| - 1] == w)
  }

  lemma CallsSnoc(dispatched: seq<Waiter>, called: Waiter, w: Waiter)
    ensures Calls(dispatched + [called], w) == Calls(dispatched, w) + One(called == w)
  {
    assert (dispatched + [called])[..|dispatched|] == dispatched;
  }

  function TypeOf(w: Waiter): nat {
    match w
    case ForRequest => MESSAGE_REQUEST
    case ForResponse => MESSAGE_RESPONSE
  }

  /** The message types of the headers that are to be decoded. */
  function HeaderOf(r: Reader): seq<nat> {
    if r == Somebody(ResponseHeader) then [MESSAGE_RESPONSE]
    else if r == Somebody(RequestHeader) then [MESSAGE_REQUEST]
    else []
  }

  /** Every accepted type has led to a call of the waiter of its kind, in order,
      but for that of the header under way, or of the last one if it could not be
      decoded. */
  predicate Dispatched(log: Log, header: seq<nat>, faulty: bool) {
    && |log.dispatched| + |header| <= |log.types| <= |log.dispatched| + (if faulty then 1 else |header|)
    && (forall i :: 0 <= i < |log.dispatched| ==> log.types[i] == TypeOf(log.dispatched[i]))
    && (header != [] ==> log.types[|log.dispatched|..] == header)
  }

  /** Nobody who has asked for a message is forgotten: `request` and `response`
      say who waits, `errors` how many errors the request waiter is to be told. */
  predicate LogFits(log: Log, header: seq<nat>, calls: nat, busy: bool, faulty: bool, request: bool, response: bool,
          errors: nat) {
    && log.serves == calls + log.told + One(busy)
    && log.serves == Calls(log.dispatched, ForRequest) + log.failedServes + One(request)
    && log.waits == Calls(log.dispatched, ForResponse) + log.failedWaits + One(response)
    && log.servedBefore <= log.serves
    && (faulty && request && errors == 0 ==> log.serves > log.servedBefore)
    && Dispatched(log, header, faulty)
  }

  lemma LogServes(log: Log, header: seq<nat>, calls: nat, faulty: bool, response: bool, errors: nat)
    requires LogFits(log, header, calls, false, faulty, false, response, errors)
    ensures LogFits(log.(serves := log.serves + 1), header, calls, true, faulty, true, response, errors)
  {
  }

  lemma LogWaits(log: Log, header: seq<nat>, calls: nat, busy: bool, faulty: bool, request: bool, errors: nat)
    requires LogFits(log, header, calls, busy, faulty, request, false, errors)
    ensures LogFits(log.(waits := log.waits + 1), header, calls, busy, faulty, request, true, errors)
  {
  }

  lemma LogAccepts(log: Log, n: nat, calls: nat, busy: bool, request: bool, response: bool, errors: nat)
    requires LogFits(log, [], calls, busy, false, request, response, errors)
    ensures LogFits(log.(types := log.types + [n]), [n], calls, busy, false, request, response, errors)
  {
    assert (log.types + [n])[|log.dispatched|..] == [n];
  }

  lemma LogDispatches(log: Log, w: Waiter, calls: nat, busy: bool, faulty: bool, request: bool, response: bool,
          errors: nat)
    requires LogFits(log, [TypeOf(w)], calls, busy, faulty, request, response, errors)
    requires if w.ForRequest? then request else response
    ensures LogFits(log.(dispatched := log.dispatched + [w]), [], calls, busy, faulty,
                    request && !w.ForRequest?, response && !w.ForResponse?, errors)
  {
    CallsSnoc(log.dispatched, w, ForRequest);
    CallsSnoc(log.dispatched, w, ForResponse);
    assert log.types[|log.dispatched|..][0] == TypeOf(w);
  }

  lemma LogFaults(log: Log, header: seq<nat>, calls: nat, busy: bool, request: bool, response: bool, errors: nat)
    requires LogFits(log, header, calls, busy, false, request, response, errors) && |header| <= 1
    ensures LogFits(log.(servedBefore := log.serves), [], calls, busy, true, request, response, errors + One(request))
  {
  }

  lemma LogFailsWait(log: Log, header: seq<nat>, calls: nat, busy: bool, faulty: bool, request: bool, errors: nat)
    requires LogFits(log, header, calls, busy, faulty, request, true, errors)
    ensures LogFits(log.(failedWaits := log.failedWaits + 1), header, calls, busy, faulty, request, false, errors)
  {
  }

  /** The invariant of all runs, given the parse operation under way. */
  predicate Core(e: Endpoint, r: Reader) {
    var s := e.splitter;
    && !(s.locked && s.parsingHeader)
    && (r.Somebody? && IsHeader(r.purpose) ==> s.parsingHeader)
    && (r.Somebody? && !IsHeader(r.purpose) ==> s.locked)
    && (r.Somebody? && r.purpose.MessageType? ==> HasWaiter(s))
    && (r.Somebody? && r.purpose.ResponseHeader? ==> s.waitingForResponse)
    && (r.Somebody? && r.purpose.RequestHeader? ==> s.waitingForRequest)
    && (s.waitingForResponse <==> e.registry.state == ParsingHeader)
    && (e.registry.state == ParsingHeader ==> e.registry.expected != map[])
    && One(e.registry.state == ParsingResult) == Nexts(e.stack) + One(r.Somebody? && r.purpose.Result?)
    && One(e.busy) == Serves(e.stack) + One(s.waitingForRequest) + One(r.Somebody? && r.purpose.Argument?)
    && Errors(e.stack) <= One(e.faulty && s.waitingForRequest)
    && (e.faulty ==> s.parsingHeader && r.Nobody?)
    && (e.dropped != [] ==> |e.dropped| == 1 && s.locked && r.Nobody?)
    && LogFits(e.log, HeaderOf(r), |e.invoked|, e.busy, e.faulty, s.waitingForRequest, s.waitingForResponse,
               Errors(e.stack))
    && e.asserted
    && !e.halted
  }

  /** The splitter has met an error, or a result could not be parsed. */
  predicate Stopped(e: Endpoint) {
    e.faulty || e.dropped != []
  }

  /** The invariant of runs in which every response is that to a pending request:
      `begin_parse_message` is set where it is called, and as long as the endpoint
      has not stopped a waiter is always about to be served, or will be when the
      input is unlocked. */
  predicate Awake(e: Endpoint, r: Reader) {
    var s := e.splitter;
    && e.begun
    && (HasWaiter(s) && !s.parsingHeader ==> s.locked && s.beginParseMessage)
    && (s.waitingForRequest && s.waitingForResponse ==> s.beginParseMessage && (s.parsingHeader || e.dropped != []))
    && (!Stopped(e) ==> Attended(e, r))
  }

  predicate Attended(e: Endpoint, r: Reader) {
    var s := e.splitter;
    && (s.parsingHeader ==> r.Somebody? && IsHeader(r.purpose))
    && (s.locked ==> r.Somebody? && !IsHeader(r.purpose))
    && (e.registry.expected != map[] ==> e.registry.state != NotExpectingResponse)
  }

  predicate Sound(e: Endpoint, r: Reader) {
    && Core(e, r)
    && (e.clean ==> e.log.known && !Stopped(e))
    && (e.log.known ==> Awake(e, r))
  }

  /** At most one parse operation exists; if it is to run, it runs next. */
  predicate Base(e: Endpoint) {
    if e.readers != [] then |e.readers| == 1 && Quiet(e.stack) && Sound(e, Somebody(e.readers[0].purpose))
    else if e.stack != [] && e.stack[0].StartParse? then
      Quiet(e.stack[1..]) && Sound(e, Somebody(e.stack[0].op.purpose))
    else Quiet(e.stack) && Sound(e, Nobody)
  }

  lemma CleanIsKnown(e: Endpoint)
    requires Base(e) && e.clean
    ensures e.log.known && !Stopped(e)
  {
    hide Core, Awake;
  }

  predicate Invariant(e: Endpoint) {
    && e.asserted
    && (e.clean ==> e.log.known) && (e.log.known ==> e.begun)
    && (e.halted || Base(e))
  }

  lemma BaseInvariant(e: Endpoint)
    requires Base(e)
    ensures Invariant(e)
  {
  }

  lemma RunningBase(e: Endpoint)
    requires Invariant(e) && !e.halted
    ensures Base(e)
  {
    hide Base;
  }

  lemma NewInvariant(interface_: Interface)
    ensures Invariant(New(interface_))
  {
    hide Core, Awake;
    NewCore(interface_);
    NewAwake(interface_);
  }

  lemma NewCore(interface_: Interface)
    ensures Core(New(interface_), Nobody)
  {
    var e := New(interface_);
    assert Nexts(e.stack) == Serves(e.stack) == Errors(e.stack) == 0;
  }

  lemma NewAwake(interface_: Interface)
    ensures Awake(New(interface_), Nobody)
  {
    hide LogFits;
  }

  /** No parse operation is about to run; `r` is the one waiting for a read. */
  predicate Pending(e: Endpoint, r: Reader) {
    && Quiet(e.stack)
    && (match r
        case Nobody => e.readers == []
        case Somebody(p) => |e.readers| == 1 && e.readers[0].purpose == p)
  }

  lemma PendingBase(e: Endpoint, r: Reader)
    requires Pending(e, r)
    ensures Base(e) <==> Sound(e, r)
  {
    hide LogFits;
  }

  // ----- beginning a header parse -----

  /** What must hold in such runs for `begin_parse_message` to do. */
  predicate Ready(e: Endpoint, r: Reader) {
    var s := e.splitter;
    && e.begun && s.beginParseMessage
    && (s.waitingForRequest && s.waitingForResponse ==> e.dropped != [])
    && (!Stopped(e) ==>
          && (s.locked ==> r.Somebody? && !IsHeader(r.purpose))
          && (e.registry.expected != map[] ==> e.registry.state != NotExpectingResponse))
  }

  lemma BeginKeeps(e: Endpoint, r: Reader)
    requires Pending(e, r) && Core(e, r) && !e.splitter.parsingHeader && HasWaiter(e.splitter)
    requires (e.clean ==> e.log.known && !Stopped(e)) && (e.log.known ==> Ready(e, r))
    ensures Invariant(Apply(e, BeginParse(e.splitter)))
  {
    hide LogFits, Nexts, Serves, Errors;
    if e.splitter.beginParseMessage && !e.splitter.locked {
      BeginStarts(e, r);
    } else if e.splitter.beginParseMessage {
      assert Sound(Apply(e, BeginParse(e.splitter)), r);
    }
  }

  lemma BeginStarts(e: Endpoint, r: Reader)
    requires Pending(e, r) && Core(e, r) && !e.splitter.parsingHeader && HasWaiter(e.splitter)
    requires (e.clean ==> e.log.known && !Stopped(e)) && (e.log.known ==> Ready(e, r))
    requires e.splitter.beginParseMessage && !e.splitter.locked
    ensures Invariant(Apply(e, BeginParse(e.splitter)))
  {
    hide LogFits, Nexts, Serves, Errors;
    PushFacts(StartParse(Op(MessageType, [])), e.stack);
    assert r.Nobody?;
    assert Sound(Apply(e, BeginParse(e.splitter)), Somebody(MessageType));
  }

  /** With the response waiter registered. */
  function WithResponseWaiter(e: Endpoint): Endpoint {
    Awaits(e).(splitter := e.splitter.(waitingForResponse := true, beginParseMessage := true))
  }

  function Idle(e: Endpoint): Endpoint {
    e.(registry := Registry(NotExpectingResponse, map[]))
  }

  lemma ResponseWaiterCore(e: Endpoint, r: Reader)
    requires Core(Idle(e), r) && e.registry.expected != map[]
    ensures Core(WithResponseWaiter(e), r) && !e.splitter.waitingForResponse
  {
    hide LogFits, HeaderOf, Nexts, Serves, Errors;
    var s := e.splitter;
    LogWaits(e.log, HeaderOf(r), |e.invoked|, e.busy, e.faulty, s.waitingForRequest, Errors(e.stack));
  }

  lemma ResponseWaiterAwake(e: Endpoint, r: Reader)
    requires Core(Idle(e), r) && Awake(Idle(e), r)
    ensures if e.splitter.parsingHeader then Awake(WithResponseWaiter(e), r) else Ready(WithResponseWaiter(e), r)
  {
    hide LogFits, HeaderOf, Nexts, Serves, Errors;
  }

  lemma ParseHeaderIs(e: Endpoint)
    requires !e.splitter.waitingForResponse
    ensures var e1 := WithResponseWaiter(e);
            ParseHeader(e) == if e.splitter.parsingHeader then e1 else Apply(e1, BeginParse(e1.splitter))
  {
    hide Awaits, Apply;
    var s := e.splitter.(waitingForResponse := true, beginParseMessage := true);
    if e.splitter.parsingHeader {
      ApplyNothing(Awaits(e), s);
    } else {
      ApplyOver(Awaits(e), s, BeginParse(s));
    }
  }

  lemma ApplyNothing(e: Endpoint, s: Splitter)
    ensures Apply(e, Effect(s, false, true, true)) == e.(splitter := s)
  {
  }

  /** The fields of the splitter are those of the effect. */
  lemma ApplyOver(e: Endpoint, s: Splitter, effect: Effect)
    ensures Apply(e, Unless(true, effect)) == Apply(e.(splitter := s), effect)
  {
    hide Apply;
    assert Unless(true, effect) == effect;
    if effect.starts {
      StartsOver(e, s, effect);
    } else {
      ChangesOver(e, s, effect);
    }
  }

  lemma ChangesOver(e: Endpoint, s: Splitter, effect: Effect)
    requires !effect.starts
    ensures Apply(e, effect) == Apply(e.(splitter := s), effect)
  {
    hide Push;
  }

  lemma StartsOver(e: Endpoint, s: Splitter, effect: Effect)
    requires effect.starts
    ensures Apply(e, effect) == Apply(e.(splitter := s), effect)
  {
    hide Push;
  }

  /** `wait_for_response` through `parse_header`, from a registry that is idle or
      just done with a result. */
  lemma ParseHeaderKeeps(e: Endpoint, r: Reader)
    requires Pending(e, r) && Sound(Idle(e), r) && e.registry.expected != map[]
    ensures Invariant(ParseHeader(e))
  {
    hide Core, Awake, Ready, ParseHeader, Apply;
    ResponseWaiterCore(e, r);
    if e.log.known {
      ResponseWaiterAwake(e, r);
    }
    ParseHeaderIs(e);
    WaiterKeeps(WithResponseWaiter(e), r);
  }

  /** A waiter has been registered: a header parse is started unless one is under
      way. */
  lemma WaiterKeeps(e: Endpoint, r: Reader)
    requires Pending(e, r) && Core(e, r) && HasWaiter(e.splitter)
    requires e.clean ==> e.log.known && !Stopped(e)
    requires e.log.known ==> if e.splitter.parsingHeader then Awake(e, r) else Ready(e, r)
    ensures Invariant(if e.splitter.parsingHeader then e else Apply(e, BeginParse(e.splitter)))
  {
    hide Core, Awake, Ready, Apply;
    if e.splitter.parsingHeader {
      PendingBase(e, r);
      SoundRuns(e, r);
    } else {
      BeginKeeps(e, r);
    }
  }

  lemma SoundRuns(e: Endpoint, r: Reader)
    requires Core(e, r) && (e.clean ==> e.log.known && !Stopped(e)) && (e.log.known ==> Awake(e, r))
    ensures Sound(e, r) && e.asserted && (e.log.known ==> e.begun)
  {
  }

  /** With the request waiter registered. */
  function WithRequestWaiter(e: Endpoint): Endpoint {
    Serving(e).(splitter := e.splitter.(waitingForRequest := true, beginParseMessage := true))
  }

  lemma RequestWaiterCore(e: Endpoint, r: Reader)
    requires Core(e, r) && !e.busy
    ensures Core(WithRequestWaiter(e), r) && !e.splitter.waitingForRequest
  {
    hide LogFits, HeaderOf, Nexts, Serves, Errors;
    assert !e.splitter.waitingForRequest;
    LogServes(e.log, HeaderOf(r), |e.invoked|, e.faulty, e.splitter.waitingForResponse, Errors(e.stack));
  }

  lemma RequestWaiterAwake(e: Endpoint, r: Reader)
    requires Core(e, r) && !e.busy && Awake(e, r)
    ensures if e.splitter.parsingHeader then Awake(WithRequestWaiter(e), r) else Ready(WithRequestWaiter(e), r)
  {
    hide LogFits, HeaderOf, Nexts, Serves, Errors;
  }

  lemma ServeIs(e: Endpoint)
    requires !e.splitter.waitingForRequest
    ensures var e1 := WithRequestWaiter(e);
            Serve(e) == if e.splitter.parsingHeader then e1 else Apply(e1, BeginParse(e1.splitter))
  {
  }

  lemma ServeKeeps(e: Endpoint, r: Reader)
    requires Pending(e, r) && Sound(e, r) && !e.busy
    ensures Invariant(Serve(e))
  {
    hide Core, Awake, Ready, Serve, Apply;
    RequestWaiterCore(e, r);
    if e.log.known {
      RequestWaiterAwake(e, r);
    }
    ServeIs(e);
    WaiterKeeps(WithRequestWaiter(e), r);
  }

  /** Unlocking, when the operation that had locked the input is done and its
      continuation has been pushed. */
  lemma UnlockKeeps(e: Endpoint)
    requires Pending(e, Nobody) && e.splitter.locked
    requires Core(e.(splitter := e.splitter.(locked := false), dropped := []), Nobody) && e.dropped == []
    requires e.clean ==> e.log.known && !Stopped(e)
    requires e.log.known ==>
      && e.begun && (HasWaiter(e.splitter) ==> e.splitter.beginParseMessage)
      && !(e.splitter.waitingForRequest && e.splitter.waitingForResponse)
      && (e.registry.expected != map[] ==> e.registry.state != NotExpectingResponse)
    requires !e.splitter.parsingHeader
    ensures Invariant(Apply(e, UnlockInput(e.splitter)))
  {
    hide LogFits, Nexts, Serves, Errors, Apply, Invariant;
    var s := e.splitter.(locked := false);
    var e1 := e.(splitter := s);
    if HasWaiter(s) {
      BeginKeeps(e1, Nobody);
      ApplyOver(e, s, BeginParse(s));
    } else {
      assert Sound(e1, Nobody);
      PendingBase(e1, Nobody);
      BaseInvariant(e1);
      ApplyNothing(e, s);
    }
  }

  lemma ContinueKeeps(e: Endpoint, r: Reader, continue_: bool, other: bool)
    requires Pending(e, r) && Sound(e, r)
    requires other ==> HasWaiter(e.splitter)
    ensures Invariant(Apply(e, ContinueFor(e.splitter, continue_, other)))
  {
    hide LogFits;
    if continue_ && other && !e.splitter.parsingHeader {
      BeginKeeps(e, r);
    } else {
      PendingBase(e, r);
    }
  }

  // ----- completed parse operations -----

  lemma RegistryErrorKeeps(e: Endpoint)
    requires Pending(e, Nobody)
    requires Core(Idle(e), Nobody)
    requires e.log.known ==> Stopped(e) && Awake(e, Nobody)
    ensures Invariant(RegistryError(e))
  {
    hide LogFits;
    PushFacts(FailAll(|e.errors|, e.registry.expected.Keys), e.stack);
    PendingBase(RegistryError(e), Nobody);
  }

  lemma FaultedCore(e: Endpoint, p: Purpose)
    requires Pending(e, Nobody) && Core(e, Somebody(p)) && IsHeader(p)
    ensures Pending(Faulted(e), Nobody) && Core(Faulted(e), Nobody)
  {
    hide LogFits, Nexts, Serves, Errors;
    PushFacts(AfterError(e.splitter.waitingForRequest), e.stack);
    LogFaults(e.log, HeaderOf(Somebody(p)), |e.invoked|, e.busy,
              e.splitter.waitingForRequest, e.splitter.waitingForResponse, Errors(e.stack));
  }

  lemma WaiterFailsCore(e: Endpoint)
    requires Core(e, Nobody) && e.splitter.waitingForResponse
    ensures Core(Idle(WaiterFails(e)), Nobody)
  {
    hide LogFits, Nexts, Serves, Errors;
    LogFailsWait(e.log, [], |e.invoked|, e.busy, e.faulty, e.splitter.waitingForRequest, Errors(e.stack));
  }

  /** Whoever waits is not attended to any more. */
  lemma FaultedAwake(e: Endpoint, p: Purpose)
    requires Core(e, Somebody(p)) && IsHeader(p) && Awake(e, Somebody(p))
    ensures Awake(Faulted(e), Nobody)
    ensures e.splitter.waitingForResponse ==> Awake(WaiterFails(Faulted(e)), Nobody)
  {
    hide LogFits, Nexts, Serves, Errors;
  }

  lemma FaultedStops(e: Endpoint)
    ensures Faulted(e).splitter == e.splitter
    ensures Faulted(e).faulty && !Faulted(e).clean && Faulted(e).log.known == e.log.known
    ensures var e' := WaiterFails(Faulted(e));
            e'.faulty && e'.log.known == e.log.known && Pending(e', Nobody) == Pending(Faulted(e), Nobody)
  {
  }

  lemma SplitterErrorKeeps(e: Endpoint, p: Purpose)
    requires Pending(e, Nobody) && Sound(e, Somebody(p)) && IsHeader(p)
    ensures Invariant(SplitterError(e))
  {
    hide Core, Awake, RegistryError, Faulted, WaiterFails;
    FaultedCore(e, p);
    FaultedStops(e);
    if e.log.known {
      FaultedAwake(e, p);
    }
    if e.splitter.waitingForResponse {
      WaiterFailsCore(Faulted(e));
      RegistryErrorKeeps(WaiterFails(Faulted(e)));
    } else {
      PendingBase(Faulted(e), Nobody);
      SoundRuns(Faulted(e), Nobody);
    }
  }

  lemma MessageTypeKeeps(e: Endpoint, n: nat)
    requires Pending(e, Nobody) && Sound(e, Somebody(MessageType))
    ensures Invariant(OnMessageType(e, n))
  {
    hide Core, Awake, Sound, Accept, SplitterError, Invariant;
    if n == MESSAGE_RESPONSE && e.splitter.waitingForResponse {
      AcceptKeeps(e, n, ResponseHeader);
    } else if n == MESSAGE_REQUEST && e.splitter.waitingForRequest {
      AcceptKeeps(e, n, RequestHeader);
    } else {
      SplitterErrorKeeps(e, MessageType);
    }
  }

  lemma AcceptKeeps(e: Endpoint, n: nat, header: Purpose)
    requires Pending(e, Nobody) && Sound(e, Somebody(MessageType))
    requires || (n == MESSAGE_RESPONSE && header.ResponseHeader? && e.splitter.waitingForResponse)
             || (n == MESSAGE_REQUEST && header.RequestHeader? && e.splitter.waitingForRequest)
    ensures Invariant(Accept(e, n, header))
  {
    hide LogFits, Nexts, Serves, Errors;
    LogAccepts(e.log, n, |e.invoked|, e.busy,
               e.splitter.waitingForRequest, e.splitter.waitingForResponse, Errors(e.stack));
    PushFacts(StartParse(Op(header, [])), e.stack);
  }

  /** The response waiter has been taken out. */
  lemma ResponseTaken(e: Endpoint)
    requires Pending(e, Nobody) && Core(e, Somebody(ResponseHeader))
    ensures var e2 := Dispatch(e, ForResponse);
            && Pending(e2, Nobody) && Core(Idle(e2), Nobody) && !e2.splitter.locked && !e2.splitter.parsingHeader
            && Nexts(e2.stack) == 0 && e2.registry == e.registry
            && e2.clean == e.clean && e2.log.known == e.log.known && !Stopped(e2)
    ensures e.splitter.waitingForResponse && e.splitter.parsingHeader && e.registry.state == ParsingHeader
  {
    hide LogFits;
    PushFacts(AfterResponse(e.splitter.waitingForRequest), e.stack);
    LogDispatches(e.log, ForResponse, |e.invoked|, e.busy, e.faulty,
                  e.splitter.waitingForRequest, e.splitter.waitingForResponse, Errors(e.stack));
  }

  function Reading(e: Endpoint, id: nat): Endpoint
    requires id in e.registry.expected
  {
    var op := Op(Result(id, e.registry.expected[id]), []);
    Push(e.(registry := Registry(ParsingResult, e.registry.expected - {id}), splitter := e.splitter.(locked := true)),
         StartParse(op))
  }

  /** Locking the input for the result. */
  lemma LockKeeps(e: Endpoint, id: nat)
    requires Pending(e, Nobody) && Core(Idle(e), Nobody) && !e.splitter.locked && !e.splitter.parsingHeader
    requires Nexts(e.stack) == 0 && !Stopped(e) && id in e.registry.expected
    requires e.clean ==> e.log.known && !Stopped(e)
    requires e.log.known ==>
      && e.begun && (e.splitter.waitingForRequest ==> e.splitter.beginParseMessage)
    ensures Base(Reading(e, id))
  {
    hide LogFits;
    var op := Op(Result(id, e.registry.expected[id]), []);
    PushFacts(StartParse(op), e.stack);
    assert Sound(Reading(e, id), Somebody(op.purpose));
  }

  lemma ResponseIdIs(e: Endpoint, id: nat)
    requires e.registry.state == ParsingHeader && id in e.registry.expected && !e.splitter.locked
          && !e.splitter.parsingHeader
    ensures OnResponseId(e, id) == Reading(e, id)
  {
  }

  lemma ResponseHeaderKeeps(e: Endpoint, id: nat)
    requires Pending(e, Nobody) && Sound(e, Somebody(ResponseHeader))
    ensures Invariant(OnResponseHeader(e, id))
  {
    hide Core, Awake, Dispatch, OnResponseId, Reading, Sound, Idle, Invariant, Unknown;
    var e2 := Dispatch(e, ForResponse);
    SoundCore(e, Somebody(ResponseHeader));
    ResponseTaken(e);
    SoundFacts(e, Somebody(ResponseHeader));
    ResponseHeaderIs(e, id);
    if id in e.registry.expected {
      ResponseTakenBegun(e);
      LockKeeps(e2, id);
      ResponseIdIs(e2, id);
      BaseInvariant(Reading(e2, id));
    } else {
      UnknownKeeps(e2);
      ResponseIdUnknown(e2, id);
    }
  }

  lemma SoundCore(e: Endpoint, r: Reader)
    requires Sound(e, r)
    ensures Core(e, r)
  {
  }

  lemma ResponseHeaderIs(e: Endpoint, id: nat)
    requires e.splitter.waitingForResponse && e.splitter.parsingHeader && e.asserted
    ensures OnResponseHeader(e, id) == OnResponseId(Dispatch(e, ForResponse), id)
  {
    hide Dispatch, OnResponseId;
  }

  lemma UnknownKeeps(e: Endpoint)
    requires Pending(e, Nobody) && Core(Idle(e), Nobody)
    ensures Invariant(RegistryError(Unknown(e)))
  {
    hide Core, Awake, Idle, RegistryError, Invariant;
    UnknownCore(e);
    RegistryErrorKeeps(Unknown(e));
  }

  lemma UnknownCore(e: Endpoint)
    requires Core(Idle(e), Nobody)
    ensures Core(Idle(Unknown(e)), Nobody)
  {
    hide Nexts, Serves, Errors;
  }

  lemma SoundFacts(e: Endpoint, r: Reader)
    requires Sound(e, r)
    ensures e.asserted && !e.halted && (e.log.known ==> e.begun) && (e.clean ==> e.log.known && !Stopped(e))
  {
  }

  lemma ResponseTakenBegun(e: Endpoint)
    requires Sound(e, Somebody(ResponseHeader))
    ensures var e2 := Dispatch(e, ForResponse);
            e2.log.known ==> e2.begun && (e2.splitter.waitingForRequest ==> e2.splitter.beginParseMessage)
  {
    hide LogFits;
  }

  lemma ResponseIdUnknown(e: Endpoint, id: nat)
    requires e.registry.state == ParsingHeader && id !in e.registry.expected
    ensures OnResponseId(e, id) == RegistryError(Unknown(e))
  {
  }

  /** The request waiter has been taken out. */
  lemma RequestTaken(e: Endpoint)
    requires Pending(e, Nobody) && Sound(e, Somebody(RequestHeader))
    ensures var e2 := Dispatch(e, ForRequest);
            && Quiet(e2.stack) && e2.readers == [] && e2.asserted == e.asserted
            && e2.clean == e.clean && e2.log.known == e.log.known
            && !e2.splitter.parsingHeader && !e2.splitter.locked
            && (forall id: nat, name: Name, ts: seq<Type> ::
                  Sound(e2.(splitter := e2.splitter.(locked := true)), Somebody(Argument(id, name, ts))))
    ensures e.splitter.waitingForRequest && e.splitter.parsingHeader && e.asserted
    ensures (e.clean ==> e.log.known) && (e.log.known ==> e.begun)
  {
    hide LogFits, Nexts, Serves, Errors;
    PushFacts(AfterRequest(e.splitter.waitingForResponse), e.stack);
    LogDispatches(e.log, ForRequest, |e.invoked|, e.busy, e.faulty,
                  e.splitter.waitingForRequest, e.splitter.waitingForResponse, Errors(e.stack));
  }

  lemma PushedSound(e: Endpoint, r: Reader, op: Op)
    requires Sound(e, r)
    ensures Sound(Push(e, StartParse(op)), r)
  {
    hide LogFits, Nexts, Serves, Errors;
    PushFacts(StartParse(op), e.stack);
  }

  lemma RequestHeaderKeeps(e: Endpoint, id: nat, name: seq<byte>)
    requires Pending(e, Nobody) && Sound(e, Somebody(RequestHeader))
    ensures Invariant(OnRequestHeader(e, id, name))
  {
    hide Sound, Dispatch;
    RequestTaken(e);
    var e2 := Dispatch(e, ForRequest);
    RequestInterface(e);
    if |name| <= 255 && name in e.interface_ {
      var op := Op(Argument(id, name, e.interface_[name].parameters), []);
      var e3 := e2.(splitter := e2.splitter.(locked := true));
      PushedSound(e3, Somebody(op.purpose), op);
      PushFacts(StartParse(op), e2.stack);
      assert OnRequestHeader(e, id, name) == Push(e3, StartParse(op));
    }
  }

  lemma RequestInterface(e: Endpoint)
    ensures var e2 := Dispatch(e, ForRequest);
            e2.interface_ == e.interface_ && e2.begun == e.begun && e2.halted == e.halted
  {
  }

  lemma ResultKeeps(e: Endpoint, id: nat, t: Type, v: Value)
    requires Pending(e, Nobody) && Sound(e, Somebody(Result(id, t))) && HasType(t, v)
    ensures Invariant(OnValue(e, Result(id, t), v))
  {
    hide LogFits, Nexts, Serves, Errors;
    PushFacts(NextResponse(id, v), e.stack);
    UnlockKeeps(Push(e, NextResponse(id, v)));
  }

  lemma ArgumentKeeps(e: Endpoint, id: nat, name: Name, ts: seq<Type>, v: Value)
    requires Pending(e, Nobody) && Sound(e, Somebody(Argument(id, name, ts))) && HasType(Tuple(ts), v)
    ensures Invariant(OnValue(e, Argument(id, name, ts), v))
  {
    hide LogFits;
    PushFacts(Implement(id, name, v.values), e.stack);
    UnlockKeeps(Push(e, Implement(id, name, v.values)));
  }

  lemma ValueKeeps(e: Endpoint, p: Purpose, v: Value)
    requires Pending(e, Nobody) && Sound(e, Somebody(p)) && HasType(PurposeType(p), v)
    ensures Invariant(OnValue(e, p, v))
  {
    match p
    case MessageType => MessageTypeKeeps(e, v.n);
    case ResponseHeader => ResponseHeaderKeeps(e, v.n);
    case RequestHeader =>
      HaveTypesAt(HEADER.elements, v.values, 0);
      HaveTypesAt(HEADER.elements, v.values, 1);
      RequestHeaderKeeps(e, v.values[0].n, v.values[1].text);
    case Result(id, t) => ResultKeeps(e, id, t, v);
    case Argument(id, name, ts) => ArgumentKeeps(e, id, name, ts, v);
  }

  lemma ArgumentErrorKeeps(e: Endpoint, id: nat, name: Name, ts: seq<Type>)
    requires Pending(e, Nobody) && Sound(e, Somebody(Argument(id, name, ts)))
    ensures Invariant(OnError(e, Argument(id, name, ts)))
  {
    hide LogFits, Nexts, Serves, Errors;
    PushFacts(ServeError, e.stack);
    var e1 := Push(e, ServeError).(clean := false);
    UnlockKeeps(e1);
    assert OnError(e, Argument(id, name, ts)) == Apply(e1, UnlockInput(e1.splitter));
  }

  lemma ErrorKeeps(e: Endpoint, p: Purpose)
    requires Pending(e, Nobody) && Sound(e, Somebody(p))
    ensures Invariant(OnError(e, p))
  {
    hide LogFits;
    match p
    case Result(id, _) => RegistryErrorKeeps(e.(dropped := e.dropped + [id]));
    case Argument(id, name, ts) => ArgumentErrorKeeps(e, id, name, ts);
    case ResponseHeader => SplitterErrorKeeps(e, p);
    case RequestHeader => SplitterErrorKeeps(e, p);
    case MessageType => SplitterErrorKeeps(e, p);
  }

  lemma StartParseKeeps(e: Endpoint, op: Op)
    requires Pending(e, Nobody) && Sound(e, Somebody(op.purpose))
    ensures Invariant(OnStartParse(e, op))
  {
    hide LogFits, Core, Awake, OnValue, OnError, Parse, Invariant;
    var all := op.fed + e.buffer;
    if Parse(PurposeType(op.purpose), all).Done? {
      ParseDone(e, op);
      var Done(v, used, _) := Parse(PurposeType(op.purpose), all);
      OtherBuffer(e, op.purpose, all[used..]);
      ValueKeeps(e.(buffer := all[used..]), op.purpose, v);
    } else if Parse(PurposeType(op.purpose), all).Waiting? {
      ParseWaits(e, op);
      WaitingKeeps(e, Op(op.purpose, all));
    } else {
      ErrorKeeps(e, op.purpose);
    }
  }

  lemma OtherBuffer(e: Endpoint, p: Purpose, buffer: seq<byte>)
    requires Pending(e, Nobody) && Sound(e, Somebody(p))
    ensures Pending(e.(buffer := buffer), Nobody) && Sound(e.(buffer := buffer), Somebody(p))
  {
    hide LogFits, Nexts, Serves, Errors;
  }

  lemma WaitingKeeps(e: Endpoint, op: Op)
    requires Pending(e, Nobody) && Sound(e, Somebody(op.purpose))
    ensures Invariant(e.(buffer := [], readers := e.readers + [op]))
  {
    hide LogFits, Nexts, Serves, Errors;
  }

  // ----- steps -----

  lemma PopFacts(e: Endpoint)
    requires e.stack != []
    ensures var f := e.stack[0];
            var s := e.stack[1..];
            && Nexts(e.stack) == (if f.NextResponse? then 1 else 0) + Nexts(s)
            && Serves(e.stack) == (if f.Implement? || f.ServeError? then 1 else 0) + Serves(s)
            && Errors(e.stack) == (if f.AfterError? && f.hadRequest then 1 else 0) + Errors(s)
            && (Quiet(e.stack) <==> !f.StartParse? && Quiet(s))
  {
    PushFacts(e.stack[0], e.stack[1..]);
    assert e.stack == [e.stack[0]] + e.stack[1..];
  }

  /** The operation waiting for a read. */
  function ReaderOf(e: Endpoint): Reader {
    if e.readers == [] then Nobody else Somebody(e.readers[0].purpose)
  }

  lemma NextResponseKeeps(e: Endpoint, r: Reader, id: nat, v: Value)
    requires Pending(e, r)
    requires Sound(Idle(e), r)
    ensures Invariant(OnNextResponse(e, id, v))
  {
    hide LogFits;
    PushFacts(Answer(id, v), e.stack);
    var e' := Push(e, Answer(id, v));
    if e.registry.expected == map[] {
      PendingBase(OnNextResponse(e, id, v), r);
    } else {
      ParseHeaderKeeps(e', r);
    }
  }

  /** Steps that leave the splitter, the registry and the server alone. */
  predicate Untouched(e: Endpoint, e': Endpoint) {
    && e'.splitter == e.splitter && e'.registry == e.registry
    && e'.readers == e.readers && e'.dropped == e.dropped && e'.faulty == e.faulty
    && (e'.clean ==> e.clean)
    && e'.asserted == e.asserted && e'.begun == e.begun && e'.halted == e.halted
    && e'.log == e.log.(told := e'.log.told, reported := e'.log.reported)
    && Nexts(e'.stack) == Nexts(e.stack) && Errors(e'.stack) == Errors(e.stack)
    && Quiet(e'.stack)
  }

  lemma UntouchedKeeps(e: Endpoint, e': Endpoint)
    requires Base(e) && Quiet(e.stack) && Untouched(e, e')
    requires Serves(e'.stack) + One(e.busy) == Serves(e.stack) + One(e'.busy)
    requires |e.invoked| + e.log.told + One(e.busy) == |e'.invoked| + e'.log.told + One(e'.busy)
    ensures Invariant(e')
  {
    var r := ReaderOf(e);
    assert Sound(e, r);
    assert Sound(e', r);
    PendingBase(e', r);
  }

  lemma AfterErrorKeeps(e: Endpoint, had: bool)
    requires Base(e) && e.stack != [] && e.stack[0] == AfterError(had)
    ensures Invariant(OnAfterError(e.(stack := e.stack[1..]), had))
  {
    hide Nexts, Serves, Errors, Calls;
    var r := ReaderOf(e);
    PopFacts(e);
    PushFacts(ServeError, e.stack[1..]);
    var e' := OnAfterError(e.(stack := e.stack[1..]), had);
    assert Sound(e', r);
    PendingBase(e', r);
  }

  lemma ServingIsBusy(e: Endpoint)
    requires Base(e)
    ensures Serves(e.stack) <= One(e.busy)
  {
    hide LogFits;
    if e.readers == [] && e.stack != [] && e.stack[0].StartParse? {
      PopFacts(e);
    }
  }

  lemma AnswerKeeps(e: Endpoint, id: nat, v: Value)
    requires Base(e) && e.stack != [] && e.stack[0] == Answer(id, v)
    ensures Invariant(OnAnswer(e.(stack := e.stack[1..]), id, v))
  {
    hide Core, Awake;
    PopFacts(e);
    PushFacts(User, e.stack[1..]);
    UntouchedKeeps(e, OnAnswer(e.(stack := e.stack[1..]), id, v));
  }

  lemma FailAllKeeps(e: Endpoint, error: nat, ids: set<nat>)
    requires Base(e) && e.stack != [] && e.stack[0] == FailAll(error, ids)
    ensures Invariant(OnFailAll(e.(stack := e.stack[1..]), error, ids))
  {
    hide Core, Awake, Least, FailOne;
    PopFacts(e);
    var rest := e.stack[1..];
    if ids == {} {
      UntouchedKeeps(e, e.(stack := rest));
    } else {
      FailOneKeeps(e, error, ids, Least(ids));
    }
  }

  lemma FailOneKeeps(e: Endpoint, error: nat, ids: set<nat>, id: nat)
    requires Base(e) && e.stack != [] && e.stack[0] == FailAll(error, ids)
    ensures Invariant(FailOne(e.(stack := e.stack[1..]), error, ids, id))
  {
    hide Core, Awake;
    PopFacts(e);
    var rest := e.stack[1..];
    PushFacts(FailAll(error, ids - {id}), rest);
    PushFacts(User, [FailAll(error, ids - {id})] + rest);
    UntouchedKeeps(e, FailOne(e.(stack := rest), error, ids, id));
  }

  lemma ImplementKeeps(e: Endpoint, id: nat, name: Name, args: seq<Value>)
    requires Base(e) && e.stack != [] && e.stack[0] == Implement(id, name, args)
    ensures Invariant(OnImplement(e.(stack := e.stack[1..]), id, name, args))
  {
    hide Core, Awake;
    PopFacts(e);
    PushFacts(User, e.stack[1..]);
    ServingIsBusy(e);
    UntouchedKeeps(e, OnImplement(e.(stack := e.stack[1..]), id, name, args));
  }

  lemma ServeErrorKeeps(e: Endpoint)
    requires Base(e) && e.stack != [] && e.stack[0].ServeError?
    ensures Invariant(OnServeError(e.(stack := e.stack[1..])))
  {
    hide Core, Awake;
    PopFacts(e);
    PushFacts(User, e.stack[1..]);
    ServingIsBusy(e);
    UntouchedKeeps(e, OnServeError(e.(stack := e.stack[1..])));
  }

  /** Taking a frame that counts for nothing off the stack. */
  lemma PopSound(e: Endpoint)
    requires Base(e) && e.stack != []
    requires e.stack[0].StartParse? || e.stack[0].AfterRequest? || e.stack[0].AfterResponse?
    ensures var e1 := e.(stack := e.stack[1..]);
            if e.stack[0].StartParse? then Pending(e1, Nobody) && Sound(e1, Somebody(e.stack[0].op.purpose))
            else Pending(e1, ReaderOf(e)) && Sound(e1, ReaderOf(e))
  {
    hide LogFits;
    PopFacts(e);
  }

  lemma PopNextResponse(e: Endpoint)
    requires Base(e) && e.stack != [] && e.stack[0].NextResponse?
    ensures var e1 := e.(stack := e.stack[1..]);
            && Pending(e1, ReaderOf(e))
            && Sound(Idle(e1), ReaderOf(e))
  {
    hide LogFits;
    PopFacts(e);
  }

  lemma ResumeKeeps(e: Endpoint)
    requires Base(e) && e.stack != [] && !e.stack[0].User?
    ensures Invariant(Resume(e))
  {
    hide Core, Awake, OnStartParse, Apply, OnNextResponse, OnAfterError, OnAnswer, OnFailAll, OnImplement, OnServeError;
    var e1 := e.(stack := e.stack[1..]);
    var r := ReaderOf(e);
    match e.stack[0]
    case StartParse(op) =>
      PopSound(e);
      StartParseKeeps(e1, op);
    case AfterRequest(c) =>
      PopSound(e);
      ContinueKeeps(e1, r, c, e1.splitter.waitingForResponse);
    case AfterResponse(c) =>
      PopSound(e);
      ContinueKeeps(e1, r, c, e1.splitter.waitingForRequest);
    case NextResponse(id, v) =>
      PopNextResponse(e);
      NextResponseKeeps(e1, r, id, v);
    case AfterError(had) => AfterErrorKeeps(e, had);
    case Answer(id, v) => AnswerKeeps(e, id, v);
    case FailAll(error, ids) => FailAllKeeps(e, error, ids);
    case Implement(id, name, args) => ImplementKeeps(e, id, name, args);
    case ServeError => ServeErrorKeeps(e);
  }

  lemma ExpectKeeps(e: Endpoint, id: nat, t: Type)
    requires Base(e) && Quiet(e.stack)
    ensures Invariant(ExpectResponse(e, id, t))
  {
    hide Base, Sound, Core, Awake, ParseHeader, Invariant, Inserted;
    var r := ReaderOf(e);
    var e1 := e.(registry := e.registry.(expected := Inserted(e.registry.expected, id, t)));
    ExpectedSound(e, id, t);
    NotEmpty(e.registry.expected, id, t);
    if e.registry.state == NotExpectingResponse {
      ParseHeaderKeeps(e1, r);
    } else {
      PendingBase(e1, r);
      BaseInvariant(e1);
    }
  }

  lemma NotEmpty(expected: map<nat, Type>, id: nat, t: Type)
    ensures Inserted(expected, id, t) != map[]
  {
    assert id in Inserted(expected, id, t);
  }

  /** With the entry made; an idle registry is as it was but for the entry. */
  lemma ExpectedSound(e: Endpoint, id: nat, t: Type)
    requires Base(e) && Quiet(e.stack)
    ensures var e1 := e.(registry := e.registry.(expected := Inserted(e.registry.expected, id, t)));
            && Pending(e1, ReaderOf(e))
            && Sound(if e.registry.state == NotExpectingResponse then Idle(e1) else e1, ReaderOf(e))
  {
    hide LogFits, Nexts, Serves, Errors, Inserted;
    NotEmpty(e.registry.expected, id, t);
  }

  lemma RequestedFacts(e: Endpoint, name: Name, args: seq<Value>)
    requires name in e.interface_ && HaveTypes(e.interface_[name].parameters, args) && Quiet(e.stack)
    ensures Untouched(e, Requested(e, name, args)) && Untouched(e, RequestRefused(e, name, args))
    ensures var e1 := Requested(e, name, args);
            e1.busy == e.busy && e1.stack == e.stack && e1.invoked == e.invoked && e1.log == e.log
    ensures var e1 := RequestRefused(e, name, args);
            e1.busy == e.busy && e1.stack == [User] + e.stack && e1.invoked == e.invoked && e1.log == e.log
  {
    hide HaveTypes, RequestMessage, Bytes, W.SendBuffer, W.Append;
    PushFacts(User, e.stack);
  }

  lemma RequestKeeps(e: Endpoint, name: Name, args: seq<Value>)
    requires Base(e) && Enabled(e, DoRequest(name, args))
    ensures Invariant(Request(e, name, args))
  {
    hide HaveTypes, RequestMessage, Base, ExpectResponse, Invariant, Requested, RequestRefused, Build, Untouched;
    UserIsQuiet(e);
    RequestedFacts(e, name, args);
    PushFacts(User, e.stack);
    if Build(RequestMessage(e, name, args)).ok {
      SameSound(e, Requested(e, name, args));
      ExpectKeeps(Requested(e, name, args), |e.issued|, e.interface_[name].result);
    } else {
      UntouchedKeeps(e, RequestRefused(e, name, args));
    }
  }

  lemma SameSound(e: Endpoint, e': Endpoint)
    requires Base(e) && Quiet(e.stack) && Untouched(e, e') && e'.busy == e.busy && e'.stack == e.stack
    requires e'.invoked == e.invoked && e'.log == e.log
    ensures Base(e')
  {
    UntouchedKeeps(e, e');
  }

  /** The application's calls that only touch the writer, the open calls and
      the record of the run, and the writer's own steps. */
  lemma OutputKeeps(e: Endpoint, w: W.Writer<Sent>, open: set<nat>, responses: seq<Response>, messages: seq<Message>)
    requires Base(e) && Quiet(e.stack)
    ensures var e' := e.(writer := w, open := open, responses := responses, messages := messages);
            Invariant(e') && Invariant(Push(e', User))
  {
    hide Core, Awake;
    var e' := e.(writer := w, open := open, responses := responses, messages := messages);
    PushFacts(User, e.stack);
    UntouchedKeeps(e, e');
    UntouchedKeeps(e, Push(e', User));
  }

  lemma ReportKeeps(e: Endpoint, w: W.Writer<Sent>, open: set<nat>, k: nat)
    requires Base(e) && Quiet(e.stack)
    ensures Invariant(Report(e.(writer := w, open := open), k))
  {
    hide Core, Awake;
    PushFacts(User, e.stack);
    UntouchedKeeps(e, Report(e.(writer := w, open := open), k));
  }

  lemma RespondKeeps(e: Endpoint, k: nat, v: Value)
    requires Base(e) && Enabled(e, DoRespond(k, v))
    ensures Invariant(Respond(e, k, v))
  {
    hide Core, Awake, HasType, Base, ResponseMessage, Build;
    UserIsQuiet(e);
    var m := ResponseMessage(e, k, v);
    var w := W.Append(e.writer, Bytes(m));
    if Build(m).ok {
      OutputKeeps(e, W.SendBuffer(w, ResponseSent(k)), e.open - {k}, e.responses + [Response(k, v)], e.messages + [m]);
    } else {
      ReportKeeps(e, w, e.open - {k}, k);
    }
  }

  lemma UserIsQuiet(e: Endpoint)
    requires Base(e) && (e.stack != [] ==> e.stack[0].User?)
    ensures Quiet(e.stack)
  {
  }

  lemma LeaveKeeps(e: Endpoint)
    requires Base(e) && UserRuns(e)
    ensures Invariant(e.(stack := e.stack[1..]))
  {
    PopFacts(e);
    UntouchedKeeps(e, e.(stack := e.stack[1..]));
  }

  lemma ReadKeeps(e: Endpoint, bytes: seq<byte>)
    requires Base(e) && Rest(e) && e.readers != []
    ensures Invariant(OnRead(e, bytes))
  {
    hide LogFits;
    PushFacts(StartParse(e.readers[0]), e.stack);
    assert Sound(OnRead(e, bytes), ReaderOf(e));
  }

  lemma ReadErrorKeeps(e: Endpoint)
    requires Base(e) && Rest(e) && e.readers != []
    ensures Invariant(OnError(e.(readers := e.readers[1..]), e.readers[0].purpose))
  {
    hide LogFits, Nexts, Serves, Errors;
    ErrorKeeps(e.(readers := []), e.readers[0].purpose);
  }

  lemma StepKeeps(e: Endpoint, event: Event)
    requires Invariant(e) && Enabled(e, event)
    ensures Invariant(Connection.Step(e, event))
  {
    hide Core, Awake, Sound, HasType, HaveTypes, Resume, Request, Respond, Serve, OnRead, OnError;
    match event
    case DoResume => ResumeKeeps(e);
    case DoRequest(name, args) => RequestKeeps(e, name, args);
    case DoServe =>
      UserIsQuiet(e);
      ServeKeeps(e, ReaderOf(e));
    case DoRead(bytes) => ReadKeeps(e, bytes);
    case DoReadError => ReadErrorKeeps(e);
    case DoRespond(k, v) => RespondKeeps(e, k, v);
    case DoRespondError(k) => ReportKeeps(e, e.writer, e.open - {k}, k);
    case DoLeave => LeaveKeeps(e);
    case DoEnter => OutputKeeps(e, e.writer, e.open, e.responses, e.messages);
    case DoWritten => OutputKeeps(e, W.Complete(e.writer, 0), e.open, e.responses, e.messages);
    case DoWriterCall =>
      OutputKeeps(e, W.CallNext(e.writer), e.open, e.responses, e.messages);
      if e.writer.calling[0].ResponseSent? {
        ReportKeeps(e, W.CallNext(e.writer), e.open, e.writer.calling[0].invocation);
      }
    case DoWriterContinue => OutputKeeps(e, W.Continue(e.writer), e.open, e.responses, e.messages);
  }

  lemma {:induction false} RunKeeps(e: Endpoint, events: seq<Event>)
    requires Invariant(e) && Legal(e, events)
    ensures Invariant(RunAll(e, events))
    decreases |events|
  {
    if events != [] {
      StepKeeps(e, events[0]);
      RunKeeps(Step(e, events[0]), events[1..]);
    }
  }

  // ----- what this means for every run -----

  lemma Reachable(interface_: Interface, events: seq<Event>)
    requires Legal(New(interface_), events)
    ensures Invariant(RunAll(New(interface_), events))
  {
    hide Invariant, New, Connection.Step, Enabled;
    NewInvariant(interface_);
    RunKeeps(New(interface_), events);
  }

  /** One reader at a time. */
  predicate ReadsOnce(e: Endpoint) {
    && e.asserted
    && (!e.halted ==>
          && !(e.splitter.locked && e.splitter.parsingHeader)
          && |e.readers| <= 1
          && (forall i :: 0 <= i < |e.stack| && e.stack[i].StartParse? ==> i == 0 && e.readers == []))
  }

  lemma InvariantReader(e: Endpoint)
    requires Invariant(e)
    ensures ReadsOnce(e)
  {
    hide LogFits, Awake;
    assert forall i :: 1 <= i < |e.stack| ==> e.stack[i] == e.stack[1..][i - 1];
  }

  /** Every assertion of the splitter and the registry about their own state
      holds; never are a header and a locked input under way at the same time, and
      at most one parse operation reads the stream. */
  lemma SingleReader(interface_: Interface, events: seq<Event>)
    requires Legal(New(interface_), events)
    ensures ReadsOnce(RunAll(New(interface_), events))
  {
    hide Invariant, New, Connection.Step, Enabled, ReadsOnce;
    Reachable(interface_, events);
    InvariantReader(RunAll(New(interface_), events));
  }

  /** Whoever waits while nothing runs is about to be served: a header is being
      read, or the input is locked by a body that is being read and the next
      header parse is set up for when it is unlocked. */
  predicate NobodyForgotten(e: Endpoint) {
    e.stack == [] && HasWaiter(e.splitter) ==>
      || (e.splitter.parsingHeader && |e.readers| == 1 && IsHeader(e.readers[0].purpose))
      || (e.splitter.locked && e.splitter.beginParseMessage
          && |e.readers| == 1 && !IsHeader(e.readers[0].purpose))
  }

  lemma InvariantAwake(e: Endpoint)
    requires Invariant(e) && e.log.known && !e.halted && !Stopped(e)
    ensures e.begun && NobodyForgotten(e)
  {
    hide LogFits;
  }

  /** Over every run in which each response is that to a pending request, whatever
      else fails: `begin_parse_message` is set whenever it is called, and no wake-up
      is lost before an error stops the endpoint. */
  lemma NoLostWakeUp(interface_: Interface, events: seq<Event>)
    requires Legal(New(interface_), events)
    ensures var e := RunAll(New(interface_), events);
            e.log.known ==> e.begun && (!e.halted && !Stopped(e) ==> NobodyForgotten(e))
  {
    hide Base, New, Connection.Step, Enabled, NobodyForgotten, Stopped;
    Reachable(interface_, events);
    var e := RunAll(New(interface_), events);
    if e.log.known && !e.halted && !Stopped(e) {
      InvariantAwake(e);
    }
  }

  /** The stream is read only for a request of the application that has not been
      answered, or for a `serve_one_request` that has not come to its implementation. */
  predicate ReadsForSomebody(e: Endpoint) {
    e.readers != [] ==>
      match e.readers[0].purpose
      case MessageType => e.busy || e.registry.expected != map[]
      case ResponseHeader => e.registry.expected != map[]
      case RequestHeader => e.busy
      case Result(_, _) => e.registry.state == ParsingResult
      case Argument(_, _, _) => e.busy
  }

  lemma InvariantReads(e: Endpoint)
    requires Invariant(e) && !e.halted
    ensures ReadsForSomebody(e)
  {
    hide LogFits, Awake;
  }

  lemma NothingIsReadUnasked(interface_: Interface, events: seq<Event>)
    requires Legal(New(interface_), events) && !RunAll(New(interface_), events).halted
    ensures ReadsForSomebody(RunAll(New(interface_), events))
  {
    hide Invariant, New, Connection.Step, Enabled, ReadsForSomebody;
    Reachable(interface_, events);
    InvariantReads(RunAll(New(interface_), events));
  }

  /** Over every run: every message type that was accepted leads to a call of the
      waiter of its kind, in order; a waiter for a request or a response is called
      once, with a header or with an error of the splitter, and until then it is
      registered; every `serve_one_request` has either come to its implementation
      or been told of an error, but for the one still going on; and nobody who was
      waiting when the splitter ran into an error is still waiting. */
  lemma EveryWaiterIsCalled(interface_: Interface, events: seq<Event>)
    requires Legal(New(interface_), events) && !RunAll(New(interface_), events).halted
    ensures var e := RunAll(New(interface_), events);
            var log := e.log;
            && |log.dispatched| <= |log.types| <= |log.dispatched| + 1
            && (forall i :: 0 <= i < |log.dispatched| ==> log.types[i] == TypeOf(log.dispatched[i]))
            && log.waits == Calls(log.dispatched, ForResponse) + log.failedWaits + One(e.splitter.waitingForResponse)
            && log.serves == Calls(log.dispatched, ForRequest) + log.failedServes + One(e.splitter.waitingForRequest)
            && log.serves == |e.invoked| + log.told + One(e.busy)
            && (e.stack == [] && e.faulty && e.busy ==> log.serves > log.servedBefore)
  {
    hide Invariant, New, Connection.Step, Enabled, Calls;
    Reachable(interface_, events);
    InvariantLog(RunAll(New(interface_), events));
  }

  lemma InvariantLog(e: Endpoint)
    requires Invariant(e) && !e.halted
    ensures |e.log.dispatched| <= |e.log.types| <= |e.log.dispatched| + 1
    ensures forall i :: 0 <= i < |e.log.dispatched| ==> e.log.types[i] == TypeOf(e.log.dispatched[i])
    ensures e.log.waits == Calls(e.log.dispatched, ForResponse) + e.log.failedWaits + One(e.splitter.waitingForResponse)
    ensures e.log.serves == Calls(e.log.dispatched, ForRequest) + e.log.failedServes + One(e.splitter.waitingForRequest)
    ensures e.log.serves == |e.invoked| + e.log.told + One(e.busy)
    ensures e.stack == [] && e.faulty && e.busy ==> e.log.serves > e.log.servedBefore
  {
    hide Core, Awake, Calls, LogFits;
    if e.readers != [] {
      CoreLog(e, Somebody(e.readers[0].purpose));
    } else if e.stack != [] && e.stack[0].StartParse? {
      CoreLog(e, Somebody(e.stack[0].op.purpose));
    } else {
      CoreLog(e, Nobody);
    }
  }

  lemma CoreLog(e: Endpoint, r: Reader)
    requires Core(e, r)
    ensures |e.log.dispatched| <= |e.log.types| <= |e.log.dispatched| + 1
    ensures forall i :: 0 <= i < |e.log.dispatched| ==> e.log.types[i] == TypeOf(e.log.dispatched[i])
    ensures e.log.waits == Calls(e.log.dispatched, ForResponse) + e.log.failedWaits + One(e.splitter.waitingForResponse)
    ensures e.log.serves == Calls(e.log.dispatched, ForRequest) + e.log.failedServes + One(e.splitter.waitingForRequest)
    ensures e.log.serves == |e.invoked| + e.log.told + One(e.busy)
    ensures e.stack == [] && e.faulty && e.busy ==> e.log.serves > e.log.servedBefore
  {
    hide Calls;
  }

  // ----- after an error the input is never read again -----

  predicate Blocked(s: Splitter) {
    s.parsingHeader || s.locked
  }

  lemma StoppedIsBlocked(e: Endpoint)
    requires Base(e) && Stopped(e)
    ensures e.readers == [] && Blocked(e.splitter)
    ensures e.stack != [] ==> !e.stack[0].StartParse?
  {
    hide LogFits, Awake;
  }

  /** Nothing is started and nothing forgotten. */
  predicate StaysStopped(e: Endpoint, e': Endpoint) {
    && e'.headers == e.headers && e'.readers == e.readers
    && (e.faulty ==> e'.faulty) && e.dropped <= e'.dropped
  }

  lemma BlockedApply(e: Endpoint, effect: Effect)
    requires !effect.starts
    ensures StaysStopped(e, Apply(e, effect))
  {
  }

  lemma BlockedParseHeader(e: Endpoint)
    requires Blocked(e.splitter)
    ensures StaysStopped(e, ParseHeader(e))
  {
    hide Apply;
    BlockedApply(Awaits(e), WaitForResponse(e.splitter));
  }

  lemma BlockedNextResponse(e: Endpoint, id: nat, v: Value)
    requires Blocked(e.splitter)
    ensures StaysStopped(e, OnNextResponse(e, id, v))
  {
    hide ParseHeader;
    BlockedParseHeader(Push(e, Answer(id, v)));
  }

  lemma StoppedResume(e: Endpoint)
    requires Blocked(e.splitter) && e.stack != [] && !e.stack[0].User? && !e.stack[0].StartParse?
    ensures StaysStopped(e, Resume(e))
  {
    hide OnStartParse, Least, Apply, OnNextResponse, OnAfterError, OnAnswer, OnFailAll, OnImplement, OnServeError;
    var e1 := e.(stack := e.stack[1..]);
    match e.stack[0] {
      case AfterRequest(c) => BlockedApply(e1, ContinueFor(e1.splitter, c, e1.splitter.waitingForResponse));
      case AfterResponse(c) => BlockedApply(e1, ContinueFor(e1.splitter, c, e1.splitter.waitingForRequest));
      case NextResponse(id, v) => BlockedNextResponse(e1, id, v);
      case AfterError(had) => AfterErrorStarts(e1, had);
      case Answer(id, v) => AnswerStarts(e1, id, v);
      case FailAll(error, ids) => FailAllStarts(e1, error, ids);
      case Implement(id, name, args) => ImplementStarts(e1, id, name, args);
      case ServeError => ServeErrorStarts(e1);
    }
  }

  lemma AfterErrorStarts(e: Endpoint, had: bool)
    ensures StaysStopped(e, OnAfterError(e, had))
  {
  }

  lemma AnswerStarts(e: Endpoint, id: nat, v: Value)
    ensures StaysStopped(e, OnAnswer(e, id, v))
  {
  }

  lemma FailAllStarts(e: Endpoint, error: nat, ids: set<nat>)
    ensures StaysStopped(e, OnFailAll(e, error, ids))
  {
    hide Least;
  }

  lemma ImplementStarts(e: Endpoint, id: nat, name: Name, args: seq<Value>)
    ensures StaysStopped(e, OnImplement(e, id, name, args))
  {
  }

  lemma ServeErrorStarts(e: Endpoint)
    ensures StaysStopped(e, OnServeError(e))
  {
  }

  lemma BlockedExpect(e: Endpoint, id: nat, t: Type)
    requires Blocked(e.splitter)
    ensures StaysStopped(e, ExpectResponse(e, id, t))
  {
    hide ParseHeader;
    BlockedParseHeader(e.(registry := e.registry.(expected := Inserted(e.registry.expected, id, t))));
  }

  lemma StoppedRequest(e: Endpoint, name: Name, args: seq<Value>)
    requires Enabled(e, DoRequest(name, args)) && Blocked(e.splitter)
    ensures StaysStopped(e, Request(e, name, args))
  {
    hide HaveTypes, RequestMessage, Bytes, W.SendBuffer, W.Append, ExpectResponse, Build;
    BlockedExpect(Requested(e, name, args), |e.issued|, e.interface_[name].result);
  }

  lemma ReportStays(e: Endpoint, k: nat)
    ensures StaysStopped(e, Report(e, k))
  {
  }

  lemma RespondStays(e: Endpoint, k: nat, v: Value)
    requires Results(e, k, v)
    ensures StaysStopped(e, Respond(e, k, v))
  {
    hide Results, ResponseMessage, Build, Responded, ResponseRefused;
    RespondedStays(e, k, v);
    RefusedStays(e, k, v);
  }

  lemma RespondedStays(e: Endpoint, k: nat, v: Value)
    requires Results(e, k, v)
    ensures StaysStopped(e, Responded(e, k, v))
  {
    hide Results, ResponseMessage, Bytes, W.SendBuffer, W.Append;
  }

  lemma RefusedStays(e: Endpoint, k: nat, v: Value)
    requires Results(e, k, v)
    ensures StaysStopped(e, ResponseRefused(e, k, v))
  {
    hide Results, ResponseMessage, Bytes, Report, W.Append;
    ReportStays(e.(open := e.open - {k}, writer := W.Append(e.writer, Bytes(ResponseMessage(e, k, v)))), k);
  }

  lemma StoppedStep(e: Endpoint, event: Event)
    requires Invariant(e) && Stopped(e) && Enabled(e, event)
    ensures StaysStopped(e, Connection.Step(e, event))
  {
    hide HasType, HaveTypes, Results, Respond, Report, Resume, Request, Apply, Base, OnError,
         W.Complete, W.CallNext, W.Continue;
    StoppedIsBlocked(e);
    match event {
      case DoRespond(k, v) => RespondStays(e, k, v);
      case DoRespondError(k) => ReportStays(e.(open := e.open - {k}), k);
      case DoWriterCall =>
        if e.writer.calling[0].ResponseSent? {
          ReportStays(e.(writer := W.CallNext(e.writer)), e.writer.calling[0].invocation);
        }
      case DoResume => StoppedResume(e);
      case DoRequest(name, args) => StoppedRequest(e, name, args);
      case DoServe => BlockedApply(Serving(e), WaitForRequest(e.splitter));
      case _ =>
    }
  }

  /** After an error of the splitter, or of a result, no header parse is ever
      started again and nothing is read. */
  lemma {:induction false} FailStop(e: Endpoint, events: seq<Event>)
    requires Invariant(e) && Stopped(e) && Legal(e, events)
    ensures var e' := RunAll(e, events);
            StaysStopped(e, e') && Stopped(e') && (!e.halted ==> e'.readers == [])
    decreases |events|
  {
    hide Invariant, Connection.Step, Enabled;
    if !e.halted {
      NobodyReads(e);
    }
    if events != [] {
      StepKeeps(e, events[0]);
      StoppedStep(e, events[0]);
      StillRunning(e, events[0]);
      FailStop(Connection.Step(e, events[0]), events[1..]);
    }
  }

  lemma StillRunning(e: Endpoint, event: Event)
    requires Enabled(e, event)
    ensures !e.halted
  {
  }

  lemma NobodyReads(e: Endpoint)
    requires Invariant(e) && Stopped(e) && !e.halted
    ensures e.readers == []
  {
    hide Base;
    StoppedIsBlocked(e);
  }
}
