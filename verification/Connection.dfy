/** One end of a connection: splitter, registry, client pipeline, generated server
    and buffered writer on one pair of byte streams.

    Every call of a completion handler is a frame on an explicit stack, the
    innermost first, so that a step is what runs between two such calls. Where the
    application's code runs, a `User` frame is on top and any request, serve or
    result may follow. A parser in the middle of its input is represented by the
    bytes it has been given, which determine its state. */
module Connection {
  import opened WireTypes
  import opened BigEndian
  import opened WireFormat
  import opened ParserMachine
  import opened RoundTrip
  import opened SplitterModel
  import opened Messages
  import W = WriterModel

  // ----- the state -----

  /** What a parse operation is for; its completion handler. */
  datatype Purpose =
    | MessageType
    | RequestHeader
    | ResponseHeader
    | Result(id: nat, result: Type)
    | Argument(request: nat, name: Name, parameters: seq<Type>)

  function PurposeType(p: Purpose): Type {
    match p
    case MessageType => Integer(MESSAGE_TYPE)
    case RequestHeader => HEADER
    case ResponseHeader => Integer(REQUEST_ID)
    case Result(_, t) => t
    case Argument(_, _, ts) => Tuple(ts)
  }

  predicate IsHeader(p: Purpose) {
    p.MessageType? || p.RequestHeader? || p.ResponseHeader?
  }

  /** A parse operation that has been given the bytes `fed`. */
  datatype Op = Op(purpose: Purpose, fed: seq<byte>)

  datatype Frame =
    | StartParse(op: Op)
    | AfterRequest(continue_: bool)
    | AfterResponse(continue_: bool)
    | AfterError(hadRequest: bool)
    | NextResponse(id: nat, value: Value)
    | Answer(id: nat, value: Value)
    | FailAll(error: nat, ids: set<nat>)
    | Implement(request: nat, name: Name, args: seq<Value>)
    | ServeError
    | User

  /** Handlers given to the writer. */
  datatype Sent = RequestSent(id: nat) | ResponseSent(invocation: nat)

  datatype Issue = Issue(name: Name, args: seq<Value>)

  /** A call of the implementation, with the id to answer to. */
  datatype Invocation = Invocation(request: nat, name: Name, args: seq<Value>)

  datatype Answered = Answered(id: nat, value: Value)

  datatype Response = Response(invocation: nat, value: Value)

  /** The callback of a request was called with the error of that number. */
  datatype Failure = Failure(error: nat, id: nat)

  datatype Waiter = ForRequest | ForResponse

  /** What the splitter was asked for and what it did. */
  datatype Log = Log(
    /** Calls of `serve_one_request`, and those of their callbacks with an error
        before the implementation was called. */
    serves: nat,
    told: nat,
    /** Calls of `wait_for_response`. */
    waits: nat,
    /** Waiters that were called with an error of the splitter. */
    failedServes: nat,
    failedWaits: nat,
    /** The calls of `serve_one_request` when the splitter ran into an error. */
    servedBefore: nat,
    /** The message types accepted, and the waiters called with a header. */
    types: seq<nat>,
    dispatched: seq<Waiter>,
    /** The calls of the implementation for which the callback of
        `serve_one_request` was called, after the response was written or instead. */
    reported: seq<nat>,
    /** Every response has had the id of a pending request. */
    known: bool)

  datatype Endpoint = Endpoint(
    interface_: Interface,
    splitter: Splitter,
    registry: Registry,
    /** A `serve_one_request` that has not come to its implementation yet. */
    busy: bool,
    /** Calls of the implementation without a result. */
    open: set<nat>,
    buffer: seq<byte>,
    readers: seq<Op>,
    stack: seq<Frame>,
    writer: W.Writer<Sent>,
    // the record of the run
    received: seq<byte>,
    issued: seq<Issue>,
    refused: seq<nat>,
    answered: seq<Answered>,
    failed: seq<Failure>,
    /** The ids that were pending at each error of the registry. */
    errors: seq<set<nat>>,
    dropped: seq<nat>,
    invoked: seq<Invocation>,
    responses: seq<Response>,
    /** The messages built without an error, in order. */
    messages: seq<Message>,
    headers: nat,
    log: Log,
    /** The splitter has run into an error. */
    faulty: bool,
    /** Neither the splitter nor a parse operation has met an error. */
    clean: bool,
    /** All assertions about the splitter's and the registry's state have held. */
    asserted: bool,
    /** `begin_parse_message` was set whenever it was called. */
    begun: bool,
    /** An exception has ended the run. */
    halted: bool)

  function New(interface_: Interface): Endpoint {
    Endpoint(interface_, Fresh(), Registry(NotExpectingResponse, map[]), false, {}, [], [], [], W.Idle(),
             [], [], [], [], [], [], [], [], [], [], 0, Log(0, 0, 0, 0, 0, 0, [], [], [], true),
             false, true, true, true, false)
  }

  function Push(e: Endpoint, f: Frame): Endpoint {
    e.(stack := [f] + e.stack)
  }

  function Assert(e: Endpoint, condition: bool): Endpoint {
    e.(asserted := e.asserted && condition)
  }

  /** The splitter's fields after one of its methods; a header parse that starts
      is the next thing to run. */
  function Apply(e: Endpoint, effect: Effect): Endpoint {
    var e' := e.(splitter := effect.after, asserted := e.asserted && effect.asserted,
                 begun := e.begun && effect.begun, halted := e.halted || !effect.begun);
    if effect.starts then Push(e', StartParse(Op(MessageType, []))).(headers := e.headers + 1) else e'
  }

  // ----- the registry -----

  /** `parse_header`. */
  function ParseHeader(e: Endpoint): Endpoint {
    Apply(Awaits(e), WaitForResponse(e.splitter))
  }

  function Awaits(e: Endpoint): Endpoint {
    e.(registry := e.registry.(state := ParsingHeader), log := e.log.(waits := e.log.waits + 1))
  }

  /** `expected_response_registry::on_error`: every pending callback is to fail. */
  function RegistryError(e: Endpoint): Endpoint {
    Push(e, FailAll(|e.errors|, e.registry.expected.Keys))
      .(registry := Registry(NotExpectingResponse, map[]), errors := e.errors + [e.registry.expected.Keys],
        clean := false)
  }

  /** The response waiter, called with a request id. */
  function OnResponseId(e: Endpoint, id: nat): Endpoint {
    var e1 := Assert(e, e.registry.state == ParsingHeader);
    if id in e.registry.expected then
      var t := e.registry.expected[id];
      var e2 := e1.(registry := Registry(ParsingResult, e.registry.expected - {id}));
      Push(Apply(e2, LockInput(e.splitter)), StartParse(Op(Result(id, t), [])))
    else RegistryError(Unknown(e1))
  }

  function Unknown(e: Endpoint): Endpoint {
    e.(log := e.log.(known := false))
  }

  function ExpectResponse(e: Endpoint, id: nat, t: Type): Endpoint {
    var e' := e.(registry := e.registry.(expected := Inserted(e.registry.expected, id, t)));
    if e.registry.state == NotExpectingResponse then ParseHeader(e') else e'
  }

  /** The end of `parse_result_operation`, after the input was unlocked. */
  function OnNextResponse(e: Endpoint, id: nat, v: Value): Endpoint {
    var e' := Push(e, Answer(id, v));
    if e.registry.expected == map[] then e'.(registry := e.registry.(state := NotExpectingResponse))
    else ParseHeader(e')
  }

  // ----- the splitter's operations -----

  /** `message_splitter::on_error`: the response waiter first. */
  function SplitterError(e: Endpoint): Endpoint {
    if e.splitter.waitingForResponse then RegistryError(WaiterFails(Faulted(e))) else Faulted(e)
  }

  function Faulted(e: Endpoint): Endpoint {
    Push(e, AfterError(e.splitter.waitingForRequest))
      .(faulty := true, clean := false, log := e.log.(servedBefore := e.log.serves))
  }

  function WaiterFails(e: Endpoint): Endpoint {
    Assert(e, e.registry.state == ParsingHeader)
      .(splitter := e.splitter.(waitingForResponse := false), log := e.log.(failedWaits := e.log.failedWaits + 1))
  }

  function Accept(e: Endpoint, n: nat, header: Purpose): Endpoint {
    Push(e, StartParse(Op(header, []))).(log := e.log.(types := e.log.types + [n]))
  }

  function OnMessageType(e: Endpoint, n: nat): Endpoint {
    if n == MESSAGE_RESPONSE && e.splitter.waitingForResponse then Accept(e, n, ResponseHeader)
    else if n == MESSAGE_REQUEST && e.splitter.waitingForRequest then Accept(e, n, RequestHeader)
    else SplitterError(e)
  }

  /** The header of a message has been decoded: the waiter is taken out, and what
      is left to do after its call is pushed. */
  function Dispatch(e: Endpoint, waiter: Waiter): Endpoint {
    Push(e.(splitter := TakeOut(e.splitter, waiter), log := e.log.(dispatched := e.log.dispatched + [waiter])),
         Continuation(e.splitter, waiter))
  }

  function TakeOut(s: Splitter, waiter: Waiter): Splitter {
    match waiter
    case ForResponse => s.(parsingHeader := false, waitingForResponse := false)
    case ForRequest => s.(parsingHeader := false, waitingForRequest := false)
  }

  /** `continue_` is whether the other waiter is there. */
  function Continuation(s: Splitter, waiter: Waiter): Frame {
    match waiter
    case ForResponse => AfterResponse(s.waitingForRequest)
    case ForRequest => AfterRequest(s.waitingForResponse)
  }

  function OnResponseHeader(e: Endpoint, id: nat): Endpoint {
    OnResponseId(Dispatch(Assert(e, e.splitter.waitingForResponse && e.splitter.parsingHeader), ForResponse), id)
  }

  /** Also the request waiter of the generated server: it locks the input and
      parses the arguments of the method. An unknown method ends the run. */
  function OnRequestHeader(e: Endpoint, id: nat, name: seq<byte>): Endpoint {
    var e2 := Dispatch(Assert(e, e.splitter.waitingForRequest && e.splitter.parsingHeader), ForRequest);
    if |name| <= 255 && name in e.interface_ then
      Push(Apply(e2, LockInput(e2.splitter)), StartParse(Op(Argument(id, name, e.interface_[name].parameters), [])))
    else e2.(halted := true)
  }

  /** The completion handler of a parse operation that has found a value. */
  function OnValue(e: Endpoint, p: Purpose, v: Value): Endpoint
    requires HasType(PurposeType(p), v)
  {
    match p
    case MessageType => OnMessageType(e, v.n)
    case ResponseHeader => OnResponseHeader(e, v.n)
    case RequestHeader =>
      HaveTypesAt(HEADER.elements, v.values, 0);
      HaveTypesAt(HEADER.elements, v.values, 1);
      OnRequestHeader(e, v.values[0].n, v.values[1].text)
    case Result(id, _) =>
      var e1 := Push(Assert(e, e.registry.state == ParsingResult), NextResponse(id, v));
      Apply(e1, UnlockInput(e.splitter))
    case Argument(id, name, _) =>
      Apply(Push(e, Implement(id, name, v.values)), UnlockInput(e.splitter))
  }

  /** The completion handler of a parse operation that has met an error. */
  function OnError(e: Endpoint, p: Purpose): Endpoint {
    match p
    case Result(id, _) =>
      RegistryError(Assert(e, e.registry.state == ParsingResult).(dropped := e.dropped + [id]))
    case Argument(_, _, _) =>
      Apply(Push(e, ServeError), UnlockInput(e.splitter)).(clean := false)
    case ResponseHeader => SplitterError(Assert(e, e.splitter.waitingForResponse))
    case RequestHeader => SplitterError(Assert(e, e.splitter.waitingForRequest))
    case MessageType => SplitterError(e)
  }

  /** `parse_operation::start`. */
  ghost function OnStartParse(e: Endpoint, op: Op): Endpoint {
    var all := op.fed + e.buffer;
    match Parse(PurposeType(op.purpose), all)
    case Done(v, used, _) =>
      ParsedHasType(PurposeType(op.purpose), all);
      OnValue(e.(buffer := all[used..]), op.purpose, v)
    case Failed => OnError(e, op.purpose)
    case Waiting(_) => e.(buffer := [], readers := e.readers + [Op(op.purpose, all)])
  }

  ghost function Least(ids: set<nat>): (least: nat)
    requires ids != {}
    ensures least in ids && forall id :: id in ids ==> least <= id
    decreases ids
  {
    var id :| id in ids;
    if forall other :: other in ids ==> id <= other then id
    else
      var smaller := set other | other in ids && other < id;
      var witness_ :| witness_ in ids && witness_ < id;
      assert witness_ in smaller;
      assert smaller < ids by {
        assert id !in smaller && id in ids;
      }
      var least := Least(smaller);
      assert forall other :: other in ids && other < id ==> other in smaller;
      least
  }

  /** The end of the splitter's `on_error`: the request waiter is told. */
  function OnAfterError(e: Endpoint, hadRequest: bool): Endpoint {
    if !hadRequest then e
    else if !e.splitter.waitingForRequest then e.(halted := true)
    else Push(ServeFails(e), ServeError)
  }

  function ServeFails(e: Endpoint): Endpoint {
    e.(splitter := e.splitter.(waitingForRequest := false), log := e.log.(failedServes := e.log.failedServes + 1))
  }

  /** The callback of a request is called with its result. */
  function OnAnswer(e: Endpoint, id: nat, v: Value): Endpoint {
    Push(e.(answered := e.answered + [Answered(id, v)]), User)
  }

  /** The next of the callbacks that fail, in the order of their ids. */
  ghost function OnFailAll(e: Endpoint, error: nat, ids: set<nat>): Endpoint {
    if ids == {} then e else FailOne(e, error, ids, Least(ids))
  }

  function FailOne(e: Endpoint, error: nat, ids: set<nat>, id: nat): Endpoint {
    Push(Push(e, FailAll(error, ids - {id})).(failed := e.failed + [Failure(error, id)]), User)
  }

  /** The implementation is called. */
  function OnImplement(e: Endpoint, id: nat, name: Name, args: seq<Value>): Endpoint {
    Push(e.(busy := false, open := e.open + {|e.invoked|}, invoked := e.invoked + [Invocation(id, name, args)]), User)
  }

  /** The callback of `serve_one_request` is called with an error. */
  function OnServeError(e: Endpoint): Endpoint {
    Push(e.(busy := false, log := e.log.(told := e.log.told + 1)), User)
  }

  /** The innermost continuation runs up to the next call. */
  ghost function Resume(e0: Endpoint): Endpoint
    requires e0.stack != [] && !e0.stack[0].User?
  {
    var e := e0.(stack := e0.stack[1..]);
    match e0.stack[0]
    case StartParse(op) => OnStartParse(e, op)
    case AfterRequest(continue_) => Apply(e, ContinueFor(e.splitter, continue_, e.splitter.waitingForResponse))
    case AfterResponse(continue_) => Apply(e, ContinueFor(e.splitter, continue_, e.splitter.waitingForRequest))
    case AfterError(hadRequest) => OnAfterError(e, hadRequest)
    case NextResponse(id, v) => OnNextResponse(e, id, v)
    case Answer(id, v) => OnAnswer(e, id, v)
    case FailAll(error, ids) => OnFailAll(e, error, ids)
    case Implement(id, name, args) => OnImplement(e, id, name, args)
    case ServeError => OnServeError(e)
  }

  // ----- one parse operation at a time -----

  lemma ResumeParse(e: Endpoint, op: Op)
    requires e.stack != [] && e.stack[0] == StartParse(op)
    ensures Resume(e) == OnStartParse(e.(stack := e.stack[1..]), op)
  {
  }

  lemma ParseWaits(e: Endpoint, op: Op)
    requires Parse(PurposeType(op.purpose), op.fed + e.buffer).Waiting?
    ensures OnStartParse(e, op) == e.(buffer := [], readers := e.readers + [Op(op.purpose, op.fed + e.buffer)])
  {
  }

  lemma ParseFails(e: Endpoint, op: Op)
    requires Parse(PurposeType(op.purpose), op.fed + e.buffer).Failed?
    ensures OnStartParse(e, op) == OnError(e, op.purpose)
  {
  }

  lemma ParseDone(e: Endpoint, op: Op)
    requires Parse(PurposeType(op.purpose), op.fed + e.buffer).Done?
    ensures var Done(v, used, _) := Parse(PurposeType(op.purpose), op.fed + e.buffer);
            && HasType(PurposeType(op.purpose), v)
            && OnStartParse(e, op) == OnValue(e.(buffer := (op.fed + e.buffer)[used..]), op.purpose, v)
  {
    ParsedHasType(PurposeType(op.purpose), op.fed + e.buffer);
  }

  // ----- what the application can do -----

  function RequestMessage(e: Endpoint, name: Name, args: seq<Value>): (m: Message)
    requires name in e.interface_ && HaveTypes(e.interface_[name].parameters, args)
    ensures HasTypes(m)
  {
    RequestOf(|e.issued|, name, e.interface_[name].parameters, args)
  }

  /** The request has been built and sent. */
  function Requested(e: Endpoint, name: Name, args: seq<Value>): Endpoint
    requires name in e.interface_ && HaveTypes(e.interface_[name].parameters, args)
  {
    var m := RequestMessage(e, name, args);
    e.(issued := e.issued + [Issue(name, args)], messages := e.messages + [m],
       writer := W.SendBuffer(W.Append(e.writer, Bytes(m)), RequestSent(|e.issued|)))
  }

  /** An argument was rejected: what was built stays in the buffer, and the
      callback is called. */
  function RequestRefused(e: Endpoint, name: Name, args: seq<Value>): Endpoint
    requires name in e.interface_ && HaveTypes(e.interface_[name].parameters, args)
  {
    Push(e.(issued := e.issued + [Issue(name, args)], refused := e.refused + [|e.issued|],
            writer := W.Append(e.writer, Bytes(RequestMessage(e, name, args)))), User)
  }

  /** `client_pipeline::request` with the generated request builder. */
  function Request(e: Endpoint, name: Name, args: seq<Value>): Endpoint
    requires name in e.interface_ && HaveTypes(e.interface_[name].parameters, args)
  {
    if !Build(RequestMessage(e, name, args)).ok then RequestRefused(e, name, args)
    else ExpectResponse(Requested(e, name, args), |e.issued|, e.interface_[name].result)
  }

  /** `serve_one_request`. */
  function Serve(e: Endpoint): Endpoint {
    Apply(Serving(e), WaitForRequest(e.splitter))
  }

  function Serving(e: Endpoint): Endpoint {
    e.(busy := true, log := e.log.(serves := e.log.serves + 1))
  }

  /** `v` is a result for call `k` of the implementation. */
  predicate Results(e: Endpoint, k: nat, v: Value) {
    && k < |e.invoked| && e.invoked[k].name in e.interface_
    && HasType(e.interface_[e.invoked[k].name].result, v)
  }

  function ResponseMessage(e: Endpoint, k: nat, v: Value): (m: Message)
    requires Results(e, k, v)
    ensures HasTypes(m)
  {
    ResponseOf(e.invoked[k].request, e.interface_[e.invoked[k].name].result, v)
  }

  /** The response has been built and sent. */
  function Responded(e: Endpoint, k: nat, v: Value): Endpoint
    requires Results(e, k, v)
  {
    var m := ResponseMessage(e, k, v);
    e.(open := e.open - {k}, responses := e.responses + [Response(k, v)], messages := e.messages + [m],
       writer := W.SendBuffer(W.Append(e.writer, Bytes(m)), ResponseSent(k)))
  }

  function ResponseRefused(e: Endpoint, k: nat, v: Value): Endpoint
    requires Results(e, k, v)
  {
    Report(e.(open := e.open - {k}, writer := W.Append(e.writer, Bytes(ResponseMessage(e, k, v)))), k)
  }

  /** The callback of the `serve_one_request` that call `k` was made for is called. */
  function Report(e: Endpoint, k: nat): Endpoint {
    Push(Reported(e, k), User)
  }

  function Reported(e: Endpoint, k: nat): Endpoint {
    e.(log := e.log.(reported := e.log.reported + [k]))
  }

  /** The implementation's result for one of its calls. */
  function Respond(e: Endpoint, k: nat, v: Value): Endpoint
    requires Results(e, k, v)
  {
    if Build(ResponseMessage(e, k, v)).ok then Responded(e, k, v) else ResponseRefused(e, k, v)
  }

  /** The implementation reports an error: nothing is sent. */
  function RespondError(e: Endpoint, k: nat): Endpoint {
    Report(e.(open := e.open - {k}), k)
  }

  // ----- steps -----

  datatype Event =
    | DoResume
    | DoRequest(name: Name, args: seq<Value>)
    | DoServe
    | DoRespond(invocation: nat, value: Value)
    | DoRespondError(failing: nat)
    | DoLeave
    | DoEnter
    | DoRead(bytes: seq<byte>)
    | DoReadError
    | DoWritten
    | DoWriterCall
    | DoWriterContinue

  predicate UserRuns(e: Endpoint) {
    e.stack != [] && e.stack[0].User?
  }

  /** Nothing runs: the event loop may deliver the next completion. */
  predicate Rest(e: Endpoint) {
    e.stack == [] && e.writer.calling == [] && !e.writer.resume
  }

  predicate Enabled(e: Endpoint, event: Event) {
    !e.halted &&
    match event
    case DoResume => e.stack != [] && !e.stack[0].User?
    case DoRequest(name, args) =>
      && UserRuns(e) && name in e.interface_ && HaveTypes(e.interface_[name].parameters, args)
      && |e.issued| < 0x1_0000_0000_0000_0000
    case DoServe => UserRuns(e) && !e.busy
    case DoRespond(k, v) =>
      UserRuns(e) && k in e.open && Results(e, k, v)
    case DoRespondError(k) => UserRuns(e) && k in e.open
    case DoLeave => UserRuns(e)
    case DoEnter => Rest(e)
    case DoRead(_) => Rest(e) && e.readers != []
    case DoReadError => Rest(e) && e.readers != []
    case DoWritten => Rest(e) && e.writer.inFlight
    case DoWriterCall => e.stack == [] && e.writer.calling != [] && e.writer.results != []
    case DoWriterContinue => e.stack == [] && e.writer.calling == [] && e.writer.resume
  }

  /** A handler of the writer after a successful write: that of a request does
      nothing, that of a response reports to the application. */
  function OnSent(e: Endpoint, sent: Sent): Endpoint {
    if sent.ResponseSent? then Report(e, sent.invocation) else e
  }

  /** `async_read_some` has put bytes into the buffer. */
  function OnRead(e: Endpoint, bytes: seq<byte>): Endpoint
    requires e.readers != []
  {
    Push(e, StartParse(e.readers[0]))
      .(readers := e.readers[1..], buffer := e.buffer + bytes, received := e.received + bytes)
  }

  ghost function Step(e: Endpoint, event: Event): Endpoint
    requires Enabled(e, event)
  {
    match event
    case DoResume => Resume(e)
    case DoRequest(name, args) => Request(e, name, args)
    case DoServe => Serve(e)
    case DoRespond(k, v) => Respond(e, k, v)
    case DoRespondError(k) => RespondError(e, k)
    case DoLeave => e.(stack := e.stack[1..])
    case DoEnter => Push(e, User)
    case DoRead(bytes) => OnRead(e, bytes)
    case DoReadError => OnError(e.(readers := e.readers[1..]), e.readers[0].purpose)
    case DoWritten => e.(writer := W.Complete(e.writer, 0))
    case DoWriterCall => OnSent(e.(writer := W.CallNext(e.writer)), e.writer.calling[0])
    case DoWriterContinue => e.(writer := W.Continue(e.writer))
  }

  ghost predicate Legal(e: Endpoint, events: seq<Event>)
    decreases |events|
  {
    events == [] || (Enabled(e, events[0]) && Legal(Step(e, events[0]), events[1..]))
  }

  ghost function RunAll(e: Endpoint, events: seq<Event>): Endpoint
    requires Legal(e, events)
    decreases |events|
  {
    if events == [] then e else RunAll(Step(e, events[0]), events[1..])
  }

  /** One run after another. */
  lemma {:induction false} LegalInTurn(e: Endpoint, a: seq<Event>, b: seq<Event>)
    requires Legal(e, a) && Legal(RunAll(e, a), b)
    ensures Legal(e, a + b) && RunAll(e, a + b) == RunAll(RunAll(e, a), b)
    decreases |a|
  {
    hide Step, Enabled;
    if a == [] {
      assert a + b == b;
    } else {
      LegalInTurn(Step(e, a[0]), a[1..], b);
      assert (a + b)[1..] == a[1..] + b;
    }
  }
}
