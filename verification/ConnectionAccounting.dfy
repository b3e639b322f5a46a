/** Where the id of a request can be: every id issued is in exactly one place. */
module ConnectionAccounting {
  import opened WireTypes
  import opened BigEndian
  import opened WireFormat
  import opened RoundTrip
  import opened SplitterModel
  import opened Messages
  import opened Connection
  import opened ConnectionInvariant
  import W = WriterModel

  // ----- how often an id is in a place -----

  function OpCount(p: Purpose, id: nat): nat {
    One(p.Result? && p.id == id)
  }

  function FrameCount(f: Frame, id: nat): nat {
    match f
    case StartParse(op) => OpCount(op.purpose, id)
    case NextResponse(i, _) => One(i == id)
    case Answer(i, _) => One(i == id)
    case FailAll(_, ids) => One(id in ids)
    case _ => 0
  }

  function StackCount(stack: seq<Frame>, id: nat): nat {
    if stack == [] then 0 else FrameCount(stack[0], id) + StackCount(stack[1..], id)
  }

  function ReaderCount(readers: seq<Op>, id: nat): nat {
    if readers == [] then 0
    else ReaderCount(readers[..|readers| - 1], id) + OpCount(readers[|readers| - 1].purpose, id)
  }

  function AnsweredCount(answered: seq<Answered>, id: nat): nat {
    if answered == [] then 0
    else AnsweredCount(answered[..|answered| - 1], id) + One(answered[|answered| - 1].id == id)
  }

  function FailedCount(failed: seq<Failure>, id: nat): nat {
    if failed == [] then 0 else FailedCount(failed[..|failed| - 1], id) + One(failed[|failed| - 1].id == id)
  }

  function IdCount(ids: seq<nat>, id: nat): nat {
    if ids == [] then 0 else IdCount(ids[..|ids| - 1], id) + One(ids[|ids| - 1] == id)
  }

  /** How often the callback of an id has been called or dropped. */
  function Settled(e: Endpoint, id: nat): nat {
    AnsweredCount(e.answered, id) + FailedCount(e.failed, id) + IdCount(e.dropped, id) + IdCount(e.refused, id)
  }

  function Total(e: Endpoint, id: nat): nat {
    Settled(e, id) + One(id in e.registry.expected) + StackCount(e.stack, id) + ReaderCount(e.readers, id)
  }

  predicate AccountedFor(e: Endpoint, id: nat) {
    Total(e, id) == One(id < |e.issued|)
  }

  // ----- steps move ids -----

  lemma PushCount(f: Frame, stack: seq<Frame>, id: nat)
    ensures StackCount([f] + stack, id) == FrameCount(f, id) + StackCount(stack, id)
  {
    assert ([f] + stack)[1..] == stack;
  }

  lemma PopCount(stack: seq<Frame>, id: nat)
    requires stack != []
    ensures StackCount(stack, id) == FrameCount(stack[0], id) + StackCount(stack[1..], id)
  {
  }

  lemma FailedCountSnoc(failed: seq<Failure>, f: Failure, id: nat)
    ensures FailedCount(failed + [f], id) == FailedCount(failed, id) + One(f.id == id)
  {
    assert (failed + [f])[..|failed|] == failed;
  }

  lemma IdCountSnoc(ids: seq<nat>, i: nat, id: nat)
    ensures IdCount(ids + [i], id) == IdCount(ids, id) + One(i == id)
  {
    assert (ids + [i])[..|ids|] == ids;
  }

  lemma {:induction false} ReaderCountCons(readers: seq<Op>, id: nat)
    requires readers != []
    ensures ReaderCount(readers, id) == OpCount(readers[0].purpose, id) + ReaderCount(readers[1..], id)
  {
    if |readers| == 1 {
      assert readers[..0] == [] && readers[1..] == [];
    } else {
      ReaderCountCons(readers[..|readers| - 1], id);
      assert readers[..|readers| - 1][1..] == readers[1..][..|readers| - 2];
    }
  }

  /** `e'` has the ids of `e` and `more` times `id`; what is not pending stays so. */
  predicate Moves(e: Endpoint, e': Endpoint, id: nat, more: nat) {
    Total(e', id) == Total(e, id) + more && e'.issued == e.issued && NotAgain(e, e', id)
  }

  predicate NotAgain(e: Endpoint, e': Endpoint, id: nat) {
    id in e'.registry.expected ==> id in e.registry.expected
  }

  lemma SameTotal(e: Endpoint, e': Endpoint, id: nat)
    requires e'.answered == e.answered && e'.failed == e.failed && e'.dropped == e.dropped && e'.refused == e.refused
    requires e'.registry.expected == e.registry.expected && e'.readers == e.readers
    requires StackCount(e'.stack, id) == StackCount(e.stack, id)
    ensures Total(e', id) == Total(e, id)
  {
  }

  lemma StackMoves(e: Endpoint, e': Endpoint, id: nat, more: nat)
    requires e'.answered == e.answered && e'.failed == e.failed && e'.dropped == e.dropped && e'.refused == e.refused
    requires e'.registry.expected == e.registry.expected && e'.readers == e.readers && e'.issued == e.issued
    requires StackCount(e'.stack, id) == StackCount(e.stack, id) + more
    ensures Moves(e, e', id, more)
  {
  }

  lemma ApplyMoves(e: Endpoint, effect: Effect, id: nat)
    ensures Moves(e, Apply(e, effect), id, 0)
  {
    hide Total, StackCount;
    if effect.starts {
      PushCount(StartParse(Op(MessageType, [])), e.stack, id);
      StackMoves(e, Apply(e, effect), id, 0);
    } else {
      StackMoves(e, Apply(e, effect), id, 0);
    }
  }

  lemma ParseHeaderMoves(e: Endpoint, id: nat)
    ensures Moves(e, ParseHeader(e), id, 0)
  {
    SameTotal(e, Awaits(e), id);
    ApplyMoves(Awaits(e), WaitForResponse(e.splitter), id);
  }

  lemma RegistryErrorMoves(e: Endpoint, id: nat)
    ensures Moves(e, RegistryError(e), id, 0)
  {
    PushCount(FailAll(|e.errors|, e.registry.expected.Keys), e.stack, id);
  }

  lemma SplitterErrorMoves(e: Endpoint, id: nat)
    ensures Moves(e, SplitterError(e), id, 0)
  {
    hide Total;
    PushCount(AfterError(e.splitter.waitingForRequest), e.stack, id);
    SameTotal(e, Faulted(e), id);
    SameTotal(Faulted(e), WaiterFails(Faulted(e)), id);
    RegistryErrorMoves(WaiterFails(Faulted(e)), id);
  }

  lemma TakeMoves(e: Endpoint, state: ResponseState, i: nat, id: nat)
    requires i in e.registry.expected
    ensures var e' := e.(registry := Registry(state, e.registry.expected - {i}));
            Total(e', id) + One(i == id) == Total(e, id) && NotAgain(e, e', id)
  {
    hide AnsweredCount, ReaderCount, FailedCount, IdCount, StackCount;
  }

  /** The entry of a decoded id becomes the operation that parses its result. */
  lemma ResponseIdMoves(e: Endpoint, i: nat, id: nat)
    ensures Moves(e, OnResponseId(e, i), id, 0)
  {
    hide Total, Apply, RegistryError;
    var e1 := Assert(e, e.registry.state == ParsingHeader);
    SameTotal(e, e1, id);
    if i in e.registry.expected {
      var e2 := e1.(registry := Registry(ParsingResult, e.registry.expected - {i}));
      TakeMoves(e1, ParsingResult, i, id);
      var e3 := Apply(e2, LockInput(e.splitter));
      ApplyMoves(e2, LockInput(e.splitter), id);
      var f := StartParse(Op(Result(i, e.registry.expected[i]), []));
      PushCount(f, e3.stack, id);
      StackMoves(e3, Push(e3, f), id, One(i == id));
    } else {
      UnknownMoves(e1, id);
    }
  }

  lemma UnknownMoves(e: Endpoint, id: nat)
    ensures Moves(e, RegistryError(Unknown(e)), id, 0)
  {
    hide Total, RegistryError;
    SameTotal(e, Unknown(e), id);
    RegistryErrorMoves(Unknown(e), id);
  }

  lemma DispatchMoves(e: Endpoint, waiter: Waiter, id: nat)
    ensures Moves(e, Dispatch(e, waiter), id, 0)
  {
    hide Total, StackCount, TakeOut;
    PushCount(Continuation(e.splitter, waiter), e.stack, id);
    StackMoves(e, Dispatch(e, waiter), id, 0);
  }

  lemma AssertMoves(e: Endpoint, condition: bool, id: nat)
    ensures Moves(e, Assert(e, condition), id, 0)
  {
    hide Total;
    StackMoves(e, Assert(e, condition), id, 0);
  }

  lemma ResponseHeaderMoves(e: Endpoint, i: nat, id: nat)
    ensures Moves(e, OnResponseHeader(e, i), id, 0)
  {
    hide Total, Dispatch, OnResponseId, Assert;
    var e1 := Assert(e, e.splitter.waitingForResponse && e.splitter.parsingHeader);
    AssertMoves(e, e.splitter.waitingForResponse && e.splitter.parsingHeader, id);
    DispatchMoves(e1, ForResponse, id);
    ResponseIdMoves(Dispatch(e1, ForResponse), i, id);
  }

  lemma ArgumentMoves(e: Endpoint, op: Op, id: nat)
    requires op.purpose.Argument?
    ensures Moves(e, Push(Apply(e, LockInput(e.splitter)), StartParse(op)), id, 0)
  {
    hide Total, Apply;
    var e3 := Apply(e, LockInput(e.splitter));
    ApplyMoves(e, LockInput(e.splitter), id);
    PushCount(StartParse(op), e3.stack, id);
    StackMoves(e3, Push(e3, StartParse(op)), id, 0);
  }

  lemma RequestHeaderMoves(e: Endpoint, i: nat, name: seq<byte>, id: nat)
    ensures Moves(e, OnRequestHeader(e, i, name), id, 0)
  {
    hide Total, Dispatch, Apply, Assert;
    var e1 := Assert(e, e.splitter.waitingForRequest && e.splitter.parsingHeader);
    AssertMoves(e, e.splitter.waitingForRequest && e.splitter.parsingHeader, id);
    DispatchMoves(e1, ForRequest, id);
    var e2 := Dispatch(e1, ForRequest);
    if |name| <= 255 && name in e.interface_ {
      ArgumentMoves(e2, Op(Argument(i, name, e.interface_[name].parameters), []), id);
    } else {
      StackMoves(e2, e2.(halted := true), id, 0);
    }
  }

  lemma AcceptMoves(e: Endpoint, n: nat, header: Purpose, id: nat)
    requires IsHeader(header)
    ensures Moves(e, Accept(e, n, header), id, 0)
  {
    hide Total;
    PushCount(StartParse(Op(header, [])), e.stack, id);
    StackMoves(e, Accept(e, n, header), id, 0);
  }

  lemma MessageTypeMoves(e: Endpoint, n: nat, id: nat)
    ensures Moves(e, OnMessageType(e, n), id, 0)
  {
    hide Moves, SplitterError, Accept;
    AcceptMoves(e, n, ResponseHeader, id);
    AcceptMoves(e, n, RequestHeader, id);
    SplitterErrorMoves(e, id);
  }

  /** Pushing a continuation and unlocking. */
  lemma UnlockMoves(e: Endpoint, f: Frame, id: nat)
    ensures Moves(e, Apply(Push(e, f), UnlockInput(e.splitter)), id, FrameCount(f, id))
  {
    hide Total, Apply;
    PushCount(f, e.stack, id);
    StackMoves(e, Push(e, f), id, FrameCount(f, id));
    ApplyMoves(Push(e, f), UnlockInput(e.splitter), id);
  }

  lemma ArgumentErrorMoves(e: Endpoint, id: nat)
    ensures Moves(e, Apply(Push(e, ServeError), UnlockInput(e.splitter)).(clean := false), id, 0)
  {
    hide Total, Apply, Push;
    UnlockMoves(e, ServeError, id);
    var e1 := Apply(Push(e, ServeError), UnlockInput(e.splitter));
    SameTotal(e1, e1.(clean := false), id);
  }

  lemma ResultMoves(e: Endpoint, i: nat, v: Value, id: nat)
    ensures Moves(e, Apply(Push(Assert(e, e.registry.state == ParsingResult), NextResponse(i, v)),
                           UnlockInput(e.splitter)), id, One(i == id))
  {
    hide Total, Apply, Push, UnlockInput;
    AssertMoves(e, e.registry.state == ParsingResult, id);
    UnlockMoves(Assert(e, e.registry.state == ParsingResult), NextResponse(i, v), id);
  }

  lemma ValueMoves(e: Endpoint, p: Purpose, v: Value, id: nat)
    requires HasType(PurposeType(p), v)
    ensures Moves(e, OnValue(e, p, v), id, OpCount(p, id))
  {
    hide Total, Apply, Push, UnlockInput, OnMessageType, OnResponseHeader, OnRequestHeader, Assert;
    match p
    case MessageType => MessageTypeMoves(e, v.n, id);
    case ResponseHeader => ResponseHeaderMoves(e, v.n, id);
    case RequestHeader =>
      HaveTypesAt(HEADER.elements, v.values, 0);
      HaveTypesAt(HEADER.elements, v.values, 1);
      RequestHeaderMoves(e, v.values[0].n, v.values[1].text, id);
    case Result(i, _) => ResultMoves(e, i, v, id);
    case Argument(i, name, _) =>
      UnlockMoves(e, Implement(i, name, v.values), id);
  }

  lemma DropMoves(e: Endpoint, i: nat, id: nat)
    ensures Moves(e, RegistryError(e.(dropped := e.dropped + [i])), id, One(i == id))
  {
    hide RegistryError;
    IdCountSnoc(e.dropped, i, id);
    RegistryErrorMoves(e.(dropped := e.dropped + [i]), id);
  }

  lemma ErrorMoves(e: Endpoint, p: Purpose, id: nat)
    ensures Moves(e, OnError(e, p), id, OpCount(p, id))
  {
    hide Total, Apply, Push, UnlockInput, RegistryError, SplitterError;
    match p
    case Result(i, _) =>
      AssertMoves(e, e.registry.state == ParsingResult, id);
      DropMoves(Assert(e, e.registry.state == ParsingResult), i, id);
    case Argument(_, _, _) =>
      ArgumentErrorMoves(e, id);
    case ResponseHeader =>
      SameTotal(e, Assert(e, e.splitter.waitingForResponse), id);
      SplitterErrorMoves(Assert(e, e.splitter.waitingForResponse), id);
    case RequestHeader =>
      SameTotal(e, Assert(e, e.splitter.waitingForRequest), id);
      SplitterErrorMoves(Assert(e, e.splitter.waitingForRequest), id);
    case MessageType => SplitterErrorMoves(e, id);
  }

  lemma MoreReaders(e: Endpoint, op: Op, id: nat)
    ensures Moves(e, e.(buffer := [], readers := e.readers + [op]), id, OpCount(op.purpose, id))
  {
    assert (e.readers + [op])[..|e.readers|] == e.readers;
  }

  lemma StartParseMoves(e: Endpoint, op: Op, id: nat)
    ensures Moves(e, OnStartParse(e, op), id, OpCount(op.purpose, id))
  {
    hide Total, OnValue, OnError;
    var all := op.fed + e.buffer;
    match Parse(PurposeType(op.purpose), all)
    case Done(v, used, _) =>
      ParsedHasType(PurposeType(op.purpose), all);
      SameTotal(e, e.(buffer := all[used..]), id);
      ValueMoves(e.(buffer := all[used..]), op.purpose, v, id);
    case Failed => ErrorMoves(e, op.purpose, id);
    case Waiting(_) => MoreReaders(e, Op(op.purpose, all), id);
  }

  lemma FailAllMoves(e: Endpoint, error: nat, ids: set<nat>, id: nat)
    ensures Moves(e, OnFailAll(e, error, ids), id, One(id in ids))
  {
    hide Least, FailOne, Total;
    if ids != {} {
      FailOneMoves(e, error, ids, Least(ids), id);
    }
  }

  lemma FailOneMoves(e: Endpoint, error: nat, ids: set<nat>, i: nat, id: nat)
    requires i in ids
    ensures Moves(e, FailOne(e, error, ids, i), id, One(id in ids))
  {
    hide AnsweredCount, ReaderCount, FailedCount, IdCount, StackCount;
    var again := FailAll(error, ids - {i});
    PushCount(again, e.stack, id);
    PushCount(User, [again] + e.stack, id);
    FailedCountSnoc(e.failed, Failure(error, i), id);
    assert One(id in ids - {i}) + One(i == id) == One(id in ids);
  }

  lemma AnswerMoves(e: Endpoint, i: nat, v: Value, id: nat)
    ensures Moves(e, OnAnswer(e, i, v), id, One(i == id))
  {
    PushCount(User, e.stack, id);
    assert (e.answered + [Answered(i, v)])[..|e.answered|] == e.answered;
  }

  lemma NextResponseMoves(e: Endpoint, i: nat, v: Value, id: nat)
    ensures Moves(e, OnNextResponse(e, i, v), id, One(i == id))
  {
    hide Total, ParseHeader;
    PushCount(Answer(i, v), e.stack, id);
    var e1 := Push(e, Answer(i, v));
    StackMoves(e, e1, id, One(i == id));
    if e.registry.expected == map[] {
      var e2 := e1.(registry := e.registry.(state := NotExpectingResponse));
      SameTotal(e1, e2, id);
    } else {
      ParseHeaderMoves(e1, id);
    }
  }

  lemma AfterErrorMoves(e: Endpoint, had: bool, id: nat)
    ensures Moves(e, OnAfterError(e, had), id, 0)
  {
    hide Total, StackCount;
    PushCount(ServeError, e.stack, id);
    var e' := OnAfterError(e, had);
    if had && e.splitter.waitingForRequest {
      assert e'.stack == [ServeError] + e.stack;
    } else {
      assert e'.stack == e.stack;
    }
    StackMoves(e, e', id, 0);
  }

  lemma ImplementMoves(e: Endpoint, i: nat, name: Name, args: seq<Value>, id: nat)
    ensures Moves(e, OnImplement(e, i, name, args), id, 0)
  {
    hide Total, StackCount;
    PushCount(User, e.stack, id);
    StackMoves(e, OnImplement(e, i, name, args), id, 0);
  }

  lemma ServeErrorMoves(e: Endpoint, id: nat)
    ensures Moves(e, OnServeError(e), id, 0)
  {
    hide Total, StackCount;
    PushCount(User, e.stack, id);
    StackMoves(e, OnServeError(e), id, 0);
  }

  lemma ResumeMoves(e: Endpoint, id: nat)
    requires e.stack != [] && !e.stack[0].User?
    ensures Moves(e, Resume(e), id, 0)
  {
    hide Total, StackCount, Apply, OnStartParse, OnNextResponse, OnAfterError, OnAnswer, OnFailAll, OnImplement,
         OnServeError;
    var e1 := e.(stack := e.stack[1..]);
    PopCount(e.stack, id);
    StackMoves(e1, e, id, FrameCount(e.stack[0], id));
    match e.stack[0]
    case StartParse(op) => StartParseMoves(e1, op, id);
    case AfterRequest(c) => ApplyMoves(e1, ContinueFor(e1.splitter, c, e1.splitter.waitingForResponse), id);
    case AfterResponse(c) => ApplyMoves(e1, ContinueFor(e1.splitter, c, e1.splitter.waitingForRequest), id);
    case AfterError(had) => AfterErrorMoves(e1, had, id);
    case NextResponse(i, v) => NextResponseMoves(e1, i, v, id);
    case Answer(i, v) => AnswerMoves(e1, i, v, id);
    case FailAll(error, ids) => FailAllMoves(e1, error, ids, id);
    case Implement(i, name, args) => ImplementMoves(e1, i, name, args, id);
    case ServeError => ServeErrorMoves(e1, id);
  }

  lemma ExpectMoves(e: Endpoint, i: nat, t: Type, id: nat)
    requires i !in e.registry.expected
    ensures Total(ExpectResponse(e, i, t), id) == Total(e, id) + One(i == id)
    ensures ExpectResponse(e, i, t).issued == e.issued
    ensures i != id ==> NotAgain(e, ExpectResponse(e, i, t), id)
  {
    var e1 := e.(registry := e.registry.(expected := Inserted(e.registry.expected, i, t)));
    ParseHeaderMoves(e1, id);
  }

  lemma NewIdIsNotPending(e: Endpoint)
    requires AccountedFor(e, |e.issued|)
    ensures |e.issued| !in e.registry.expected
  {
  }

  lemma RequestedTotal(e: Endpoint, name: Name, args: seq<Value>, id: nat)
    requires name in e.interface_ && HaveTypes(e.interface_[name].parameters, args)
    ensures var e1 := Requested(e, name, args);
            && Total(e1, id) == Total(e, id) && e1.registry == e.registry
            && |e1.issued| == |e.issued| + 1
    ensures var e1 := RequestRefused(e, name, args);
            && Total(e1, id) == Total(e, id) + One(id == |e.issued|) && e1.registry == e.registry
            && |e1.issued| == |e.issued| + 1
  {
    hide HaveTypes, RequestMessage, Bytes, W.SendBuffer, W.Append, AnsweredCount, FailedCount, IdCount, StackCount,
         ReaderCount;
    PushCount(User, e.stack, id);
    IdCountSnoc(e.refused, |e.issued|, id);
  }

  lemma RequestAccounted(e: Endpoint, name: Name, args: seq<Value>, id: nat)
    requires Enabled(e, DoRequest(name, args))
    requires AccountedFor(e, id) && AccountedFor(e, |e.issued|)
    ensures AccountedFor(Request(e, name, args), id)
    ensures id != |e.issued| ==> NotAgain(e, Request(e, name, args), id)
    ensures |Request(e, name, args).issued| == |e.issued| + 1
  {
    hide HaveTypes, RequestMessage, Requested, RequestRefused, Build, ExpectResponse, Total;
    NewIdIsNotPending(e);
    RequestedTotal(e, name, args, id);
    ExpectMoves(Requested(e, name, args), |e.issued|, e.interface_[name].result, id);
  }

  lemma ReadMoves(e: Endpoint, bytes: seq<byte>, id: nat)
    requires e.readers != []
    ensures Moves(e, OnRead(e, bytes), id, 0)
    ensures Moves(e, OnError(e.(readers := e.readers[1..]), e.readers[0].purpose), id, 0)
  {
    hide OnError;
    var op := e.readers[0];
    ReaderCountCons(e.readers, id);
    PushCount(StartParse(op), e.stack, id);
    ErrorMoves(e.(readers := e.readers[1..]), op.purpose, id);
  }

  lemma QuietMoves(e: Endpoint, w: W.Writer<Sent>, open: set<nat>, responses: seq<Response>, messages: seq<Message>,
          id: nat)
    ensures var e' := e.(writer := w, open := open, responses := responses, messages := messages);
            Moves(e, e', id, 0) && Moves(e, Push(e', User), id, 0)
  {
    PushCount(User, e.stack, id);
  }

  lemma ReportMoves(e: Endpoint, w: W.Writer<Sent>, open: set<nat>, k: nat, id: nat)
    ensures Moves(e, Report(e.(writer := w, open := open), k), id, 0)
  {
    hide Total;
    PushCount(User, e.stack, id);
    StackMoves(e, Report(e.(writer := w, open := open), k), id, 0);
  }

  lemma RespondMoves(e: Endpoint, k: nat, v: Value, id: nat)
    requires Enabled(e, DoRespond(k, v))
    ensures Moves(e, Respond(e, k, v), id, 0)
  {
    hide Total, HasType, ResponseMessage, Bytes, Build, Moves;
    var m := ResponseMessage(e, k, v);
    var w := W.Append(e.writer, Bytes(m));
    ReportMoves(e, w, e.open - {k}, k, id);
    QuietMoves(e, W.SendBuffer(w, ResponseSent(k)), e.open - {k}, e.responses + [Response(k, v)], e.messages + [m], id);
  }

  lemma SentMoves(e: Endpoint, id: nat)
    requires e.writer.calling != [] && e.writer.results != []
    ensures Moves(e, OnSent(e.(writer := W.CallNext(e.writer)), e.writer.calling[0]), id, 0)
  {
    hide Moves, W.CallNext, Report;
    if e.writer.calling[0].ResponseSent? {
      ReportMoves(e, W.CallNext(e.writer), e.open, e.writer.calling[0].invocation, id);
    } else {
      QuietMoves(e, W.CallNext(e.writer), e.open, e.responses, e.messages, id);
    }
  }

  lemma StepAccounted(e: Endpoint, event: Event, id: nat)
    requires Enabled(e, event)
    requires AccountedFor(e, id) && AccountedFor(e, |e.issued|)
    ensures AccountedFor(Connection.Step(e, event), id)
    ensures id < |e.issued| ==> id < |Connection.Step(e, event).issued| && NotAgain(e, Connection.Step(e, event), id)
  {
    hide HasType, HaveTypes, Total, Apply, OnError, Request, Respond, Resume, OnRead, OnSent, Report;
    match event
    case DoResume => ResumeMoves(e, id);
    case DoRequest(name, args) => RequestAccounted(e, name, args, id);
    case DoServe =>
      SameTotal(e, Serving(e), id);
      ApplyMoves(Serving(e), WaitForRequest(e.splitter), id);
    case DoRead(bytes) => ReadMoves(e, bytes, id);
    case DoReadError => ReadMoves(e, [], id);
    case DoRespond(k, v) => RespondMoves(e, k, v, id);
    case DoRespondError(k) => ReportMoves(e, e.writer, e.open - {k}, k, id);
    case DoLeave =>
      PopCount(e.stack, id);
      SameTotal(e, e.(stack := e.stack[1..]), id);
    case DoEnter => QuietMoves(e, e.writer, e.open, e.responses, e.messages, id);
    case DoWritten => QuietMoves(e, W.Complete(e.writer, 0), e.open, e.responses, e.messages, id);
    case DoWriterCall => SentMoves(e, id);
    case DoWriterContinue => QuietMoves(e, W.Continue(e.writer), e.open, e.responses, e.messages, id);
  }

  ghost predicate Accounted(e: Endpoint) {
    forall id: nat :: AccountedFor(e, id)
  }

  lemma {:induction false} RunAccounted(e: Endpoint, events: seq<Event>)
    requires Accounted(e) && Legal(e, events)
    ensures Accounted(RunAll(e, events))
    decreases |events|
  {
    if events != [] {
      forall id: nat
        ensures AccountedFor(Connection.Step(e, events[0]), id)
      {
        assert AccountedFor(e, |e.issued|);
        StepAccounted(e, events[0], id);
      }
      RunAccounted(Connection.Step(e, events[0]), events[1..]);
    }
  }

  // ----- what this means for every run -----

  lemma ReachableAccounts(interface_: Interface, events: seq<Event>)
    requires Legal(New(interface_), events)
    ensures Accounted(RunAll(New(interface_), events))
  {
    hide AccountedFor, New, Connection.Step, Enabled;
    forall id: nat
      ensures AccountedFor(New(interface_), id)
    {
      NewAccounted(interface_, id);
    }
    RunAccounted(New(interface_), events);
  }

  lemma NewAccounted(interface_: Interface, id: nat)
    ensures AccountedFor(New(interface_), id)
  {
  }

  /** No callback is called twice, and only that of an id that was issued and is
      not pending. */
  predicate CalledOnce(e: Endpoint, id: nat) {
    Settled(e, id) <= One(id < |e.issued| && id !in e.registry.expected)
  }

  lemma AccountedOnce(e: Endpoint, id: nat)
    requires Accounted(e)
    ensures CalledOnce(e, id)
  {
    hide Settled;
    assert AccountedFor(e, id);
  }

  lemma DroppedOnce(e: Endpoint)
    requires Invariant(e) && !e.halted
    ensures |e.dropped| <= 1
  {
    hide LogFits, Awake;
  }

  /** Over every run, whatever arrives and whatever fails, a callback is called at
      most once, and at most one is dropped, by a result that cannot be parsed. */
  lemma CalledAtMostOnce(interface_: Interface, events: seq<Event>, id: nat)
    requires Legal(New(interface_), events)
    ensures CalledOnce(RunAll(New(interface_), events), id)
    ensures !RunAll(New(interface_), events).halted ==> |RunAll(New(interface_), events).dropped| <= 1
  {
    hide Accounted, CalledOnce, Invariant, New, Connection.Step, Enabled;
    var e := RunAll(New(interface_), events);
    ReachableAccounts(interface_, events);
    AccountedOnce(e, id);
    Reachable(interface_, events);
    if !e.halted {
      DroppedOnce(e);
    }
  }

  lemma OneReaderCount(readers: seq<Op>, id: nat)
    requires |readers| <= 1
    ensures ReaderCount(readers, id) == if readers == [] then 0 else OpCount(readers[0].purpose, id)
  {
    if readers != [] {
      assert readers[..0] == [];
      assert ReaderCount(readers[..0], id) == 0;
    }
  }

  /** Every issued id has been settled once, or is pending, or is the one whose
      result is being read; no other id is anywhere. */
  predicate SomewhereOnce(e: Endpoint, id: nat) {
    var read := e.readers != [] && e.readers[0].purpose.Result? && e.readers[0].purpose.id == id;
    Settled(e, id) + One(id in e.registry.expected) + One(read) == One(id < |e.issued|)
  }

  lemma AccountedSomewhere(e: Endpoint, id: nat)
    requires Accounted(e) && e.stack == [] && |e.readers| <= 1
    ensures SomewhereOnce(e, id)
  {
    hide Settled;
    assert AccountedFor(e, id);
    OneReaderCount(e.readers, id);
  }

  lemma EveryIdIsSomewhere(interface_: Interface, events: seq<Event>, id: nat)
    requires Legal(New(interface_), events)
    requires var e := RunAll(New(interface_), events);
             e.stack == [] && !e.halted
    ensures SomewhereOnce(RunAll(New(interface_), events), id)
  {
    hide Accounted, SomewhereOnce, Invariant, ReadsOnce, New, Connection.Step, Enabled;
    var e := RunAll(New(interface_), events);
    ReachableAccounts(interface_, events);
    Reachable(interface_, events);
    OneReaderHere(e);
    AccountedSomewhere(e, id);
  }

  lemma OneReaderHere(e: Endpoint)
    requires Invariant(e) && !e.halted
    ensures |e.readers| <= 1
  {
    hide LogFits, Awake;
  }

  // ----- the pending requests -----

  /** Requests whose callback has not been called, nor dropped, nor is about to
      be, and whose result is not being read. */
  function Outstanding(e: Endpoint): set<nat> {
    set id | 0 <= id < |e.issued| && Settled(e, id) + StackCount(e.stack, id) + ReaderCount(e.readers, id) == 0
  }

  lemma PendingIsOutstanding(e: Endpoint)
    requires Accounted(e)
    ensures |e.registry.expected| == |Outstanding(e)|
  {
    hide Settled, StackCount, ReaderCount;
    forall id: nat
      ensures id in e.registry.expected <==> id in Outstanding(e)
    {
      assert AccountedFor(e, id);
    }
    assert e.registry.expected.Keys == Outstanding(e);
  }
}
