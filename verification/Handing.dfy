/** What has been handed over at an end, or is about to be: only values and calls
    that the messages of the peer carry. It stays so after the end has met an
    error, with the calls that were under way then. */
module Handing {
  import opened WireTypes
  import opened WireFormat
  import opened RoundTrip
  import opened SplitterModel
  import opened Messages
  import opened Connection
  import opened Effects
  import opened IncomingStream
  import opened Peer
  import Seqs
  import W = WriterModel

  predicate HandsOver(ms: seq<Message>, f: Frame) {
    match f
    case NextResponse(id, v) => Delivered(ms, |ms|, id, v)
    case Answer(id, v) => Delivered(ms, |ms|, id, v)
    case _ => true
  }

  /** The values of the callbacks, and the calls of the implementation in order. */
  predicate Handed(e: Endpoint, ms: seq<Message>) {
    && (forall i :: 0 <= i < |e.stack| ==> HandsOver(ms, e.stack[i]))
    && (forall i :: 0 <= i < |e.answered| ==> Delivered(ms, |ms|, e.answered[i].id, e.answered[i].value))
    && e.invoked + Implementing(e.stack) <= Asked(ms)
  }

  lemma SameHanded(e: Endpoint, e': Endpoint, ms: seq<Message>)
    requires Handed(e, ms) && e'.stack == e.stack && e'.answered == e.answered && e'.invoked == e.invoked
    ensures Handed(e', ms)
  {
    hide HandsOver, Delivered, Asked, Implementing;
  }

  lemma PushHanded(e: Endpoint, f: Frame, ms: seq<Message>)
    requires Handed(e, ms) && HandsOver(ms, f) && !f.Implement?
    ensures Handed(Push(e, f), ms)
  {
    hide HandsOver, Delivered, Asked;
    PushImplementing(f, e.stack);
  }

  lemma PopHanded(e: Endpoint, ms: seq<Message>)
    requires Handed(e, ms) && e.stack != [] && !e.stack[0].Implement?
    ensures Handed(e.(stack := e.stack[1..]), ms) && HandsOver(ms, e.stack[0])
  {
    hide HandsOver, Delivered, Asked;
    assert [e.stack[0]] + e.stack[1..] == e.stack;
    PushImplementing(e.stack[0], e.stack[1..]);
  }

  /** More messages may follow later. */
  lemma HandedGrows(e: Endpoint, ms: seq<Message>, next: Message)
    requires Handed(e, ms)
    ensures Handed(e, ms + [next])
  {
    hide Implementing;
    var all := ms + [next];
    assert all[..|ms|] == ms;
    assert Asked(ms) <= Asked(all);
    forall i | 0 <= i < |e.stack|
      ensures HandsOver(all, e.stack[i])
    {
      assert HandsOver(ms, e.stack[i]);
      if e.stack[i].NextResponse? || e.stack[i].Answer? {
        DeliveredGrows(ms, next, e.stack[i].id, e.stack[i].value);
      }
    }
    forall i | 0 <= i < |e.answered|
      ensures Delivered(all, |all|, e.answered[i].id, e.answered[i].value)
    {
      DeliveredGrows(ms, next, e.answered[i].id, e.answered[i].value);
    }
  }

  lemma DeliveredGrows(ms: seq<Message>, next: Message, id: nat, v: Value)
    requires Delivered(ms, |ms|, id, v)
    ensures Delivered(ms + [next], |ms| + 1, id, v)
  {
    var i :| 0 <= i < |ms| && ms[i].ResponseOf? && ms[i].id == id && ms[i].value == v;
    assert (ms + [next])[i] == ms[i];
  }

  /** So it is before any error. */
  lemma RecordHanded(e: Endpoint, ms: seq<Message>, m: nat)
    requires Record(e, ms, m)
    ensures Handed(e, ms)
  {
    hide Implementing, Asked;
    forall i | 0 <= i < |e.stack|
      ensures HandsOver(ms, e.stack[i])
    {
      assert FrameFits(ms, m, e.stack[i]);
    }
    forall i | 0 <= i < |e.answered|
      ensures Delivered(ms, |ms|, e.answered[i].id, e.answered[i].value)
    {
      assert Delivered(ms, m, e.answered[i].id, e.answered[i].value);
    }
    AskedGrows(ms, m);
  }

  // ----- the error -----

  lemma RegistryErrorHanded(e: Endpoint, ms: seq<Message>)
    requires Handed(e, ms)
    ensures Handed(RegistryError(e), ms) && RegistryError(e).dropped == e.dropped
  {
    hide Handed;
    var f := FailAll(|e.errors|, e.registry.expected.Keys);
    PushHanded(e, f, ms);
    SameHanded(Push(e, f), RegistryError(e), ms);
  }

  lemma FaultedHanded(e: Endpoint, ms: seq<Message>)
    requires Handed(e, ms)
    ensures Handed(Faulted(e), ms) && Handed(WaiterFails(Faulted(e)), ms)
    ensures Faulted(e).dropped == e.dropped && WaiterFails(Faulted(e)).dropped == e.dropped
  {
    hide Handed;
    var f := AfterError(e.splitter.waitingForRequest);
    PushHanded(e, f, ms);
    SameHanded(Push(e, f), Faulted(e), ms);
    SameHanded(Faulted(e), WaiterFails(Faulted(e)), ms);
  }

  lemma SplitterErrorHanded(e: Endpoint, ms: seq<Message>)
    requires Handed(e, ms)
    ensures Handed(SplitterError(e), ms) && SplitterError(e).dropped == e.dropped
  {
    hide Handed, RegistryError, Faulted, WaiterFails;
    FaultedHanded(e, ms);
    if e.splitter.waitingForResponse {
      RegistryErrorHanded(WaiterFails(Faulted(e)), ms);
    }
  }

  lemma AcceptHanded(e: Endpoint, n: nat, header: Purpose, ms: seq<Message>)
    requires Handed(e, ms)
    ensures Handed(Accept(e, n, header), ms) && Accept(e, n, header).dropped == e.dropped
  {
    hide Handed;
    var f := StartParse(Op(header, []));
    PushHanded(e, f, ms);
    SameHanded(Push(e, f), Accept(e, n, header), ms);
  }

  lemma TypeHanded(e: Endpoint, n: nat, ms: seq<Message>)
    requires Handed(e, ms)
    ensures Handed(OnMessageType(e, n), ms) && OnMessageType(e, n).dropped == e.dropped
  {
    hide Handed, SplitterError, Accept;
    SplitterErrorHanded(e, ms);
    AcceptHanded(e, n, ResponseHeader, ms);
    AcceptHanded(e, n, RequestHeader, ms);
  }

  /** Decoding the type of a message hands nothing over. */
  lemma TypeStepHanded(e: Endpoint, op: Op, ms: seq<Message>)
    requires Handed(e, ms) && e.stack != [] && e.stack[0] == StartParse(op) && op.purpose.MessageType?
    ensures Handed(Resume(e), ms) && Resume(e).dropped == e.dropped
  {
    hide Handed, OnStartParse, OnMessageType, SplitterError, Parse;
    PopHanded(e, ms);
    ResumeParse(e, op);
    var e1 := e.(stack := e.stack[1..]);
    var all := op.fed + e.buffer;
    var r := Parse(PurposeType(op.purpose), all);
    if r.Done? {
      ParseDone(e1, op);
      SameHanded(e1, e1.(buffer := all[r.used..]), ms);
      TypeHanded(e1.(buffer := all[r.used..]), r.value.n, ms);
    } else if r.Waiting? {
      ParseWaits(e1, op);
      SameHanded(e1, OnStartParse(e1, op), ms);
    } else {
      ParseFails(e1, op);
      SplitterErrorHanded(e1, ms);
    }
  }

  // ----- the steps after it -----

  lemma ApplyHanded(e: Endpoint, effect: Effect, ms: seq<Message>)
    requires Handed(e, ms)
    ensures Handed(Apply(e, effect), ms)
  {
    hide Handed;
    var f := StartParse(Op(MessageType, []));
    PushHanded(e, f, ms);
    SameHanded(if effect.starts then Push(e, f) else e, Apply(e, effect), ms);
  }

  lemma ParseHeaderHanded(e: Endpoint, ms: seq<Message>)
    requires Handed(e, ms)
    ensures Handed(ParseHeader(e), ms)
  {
    hide Handed, Apply, WaitForResponse;
    SameHanded(e, Awaits(e), ms);
    ApplyHanded(Awaits(e), WaitForResponse(e.splitter), ms);
  }

  lemma NextResponseHanded(e: Endpoint, id: nat, v: Value, ms: seq<Message>)
    requires Handed(e, ms) && Delivered(ms, |ms|, id, v)
    ensures Handed(OnNextResponse(e, id, v), ms)
  {
    hide Handed, ParseHeader, Delivered;
    PushHanded(e, Answer(id, v), ms);
    ParseHeaderHanded(Push(e, Answer(id, v)), ms);
    if e.registry.expected == map[] {
      SameHanded(Push(e, Answer(id, v)), OnNextResponse(e, id, v), ms);
    }
  }

  lemma AfterErrorHanded(e: Endpoint, had: bool, ms: seq<Message>)
    requires Handed(e, ms)
    ensures Handed(OnAfterError(e, had), ms)
  {
    hide Handed;
    if had && e.splitter.waitingForRequest {
      SameHanded(e, ServeFails(e), ms);
      PushHanded(ServeFails(e), ServeError, ms);
    } else {
      SameHanded(e, OnAfterError(e, had), ms);
    }
  }

  lemma FailAllHanded(e: Endpoint, error: nat, ids: set<nat>, ms: seq<Message>)
    requires Handed(e, ms)
    ensures Handed(OnFailAll(e, error, ids), ms)
  {
    hide Handed, Least, FailOne;
    if ids != {} {
      FailOneHanded(e, error, ids, Least(ids), ms);
    }
  }

  lemma FailOneHanded(e: Endpoint, error: nat, ids: set<nat>, id: nat, ms: seq<Message>)
    requires Handed(e, ms)
    ensures Handed(FailOne(e, error, ids, id), ms)
  {
    hide Handed;
    var e1 := Push(e, FailAll(error, ids - {id}));
    PushHanded(e, FailAll(error, ids - {id}), ms);
    SameHanded(e1, e1.(failed := e.failed + [Failure(error, id)]), ms);
    PushHanded(e1.(failed := e.failed + [Failure(error, id)]), User, ms);
  }

  lemma AnswerHanded(e: Endpoint, id: nat, v: Value, ms: seq<Message>)
    requires Handed(e, ms) && Delivered(ms, |ms|, id, v)
    ensures Handed(OnAnswer(e, id, v), ms)
  {
    hide HandsOver, Delivered, Asked, Implementing, Push;
    var e1 := e.(answered := e.answered + [Answered(id, v)]);
    assert Handed(e1, ms);
    UserHandsOver(ms);
    PushHanded(e1, User, ms);
  }

  lemma UserHandsOver(ms: seq<Message>)
    ensures HandsOver(ms, User) && HandsOver(ms, ServeError)
  {
  }

  /** The call is made. */
  lemma ImplementHanded(e: Endpoint, ms: seq<Message>)
    requires Handed(e, ms) && e.stack != [] && e.stack[0].Implement?
    ensures var f := e.stack[0];
            Handed(OnImplement(e.(stack := e.stack[1..]), f.request, f.name, f.args), ms)
  {
    hide HandsOver, Delivered, Asked, Push;
    var f := e.stack[0];
    assert [f] + e.stack[1..] == e.stack;
    PushImplementing(f, e.stack[1..]);
    Seqs.Assoc(e.invoked, [Invocation(f.request, f.name, f.args)], Implementing(e.stack[1..]));
    var e1 := e.(stack := e.stack[1..], busy := false, open := e.open + {|e.invoked|},
                 invoked := e.invoked + [Invocation(f.request, f.name, f.args)]);
    assert Handed(e1, ms);
    UserHandsOver(ms);
    PushHanded(e1, User, ms);
  }

  lemma ServeErrorHanded(e: Endpoint, ms: seq<Message>)
    requires Handed(e, ms)
    ensures Handed(OnServeError(e), ms)
  {
    hide Handed;
    var e1 := e.(busy := false, log := e.log.(told := e.log.told + 1));
    SameHanded(e, e1, ms);
    PushHanded(e1, User, ms);
  }

  lemma ResumeHanded(e: Endpoint, ms: seq<Message>)
    requires Handed(e, ms) && e.stack != [] && !e.stack[0].User? && !e.stack[0].StartParse?
    ensures Handed(Resume(e), ms)
  {
    hide Handed, Delivered, Apply, ContinueFor, OnNextResponse, OnFailAll, OnServeError, OnAfterError, OnAnswer,
         OnImplement;
    var e1 := e.(stack := e.stack[1..]);
    if e.stack[0].Implement? {
      ImplementHanded(e, ms);
    } else {
      PopHanded(e, ms);
      match e.stack[0] {
        case AfterRequest(c) => ApplyHanded(e1, ContinueFor(e1.splitter, c, e1.splitter.waitingForResponse), ms);
        case AfterResponse(c) => ApplyHanded(e1, ContinueFor(e1.splitter, c, e1.splitter.waitingForRequest), ms);
        case NextResponse(id, v) => NextResponseHanded(e1, id, v, ms);
        case AfterError(had) => AfterErrorHanded(e1, had, ms);
        case FailAll(error, ids) => FailAllHanded(e1, error, ids, ms);
        case Answer(id, v) => AnswerHanded(e1, id, v, ms);
        case ServeError => ServeErrorHanded(e1, ms);
      }
    }
  }

  lemma ExpectHanded(e: Endpoint, id: nat, t: Type, ms: seq<Message>)
    requires Handed(e, ms)
    ensures Handed(ExpectResponse(e, id, t), ms)
  {
    hide Handed, ParseHeader;
    var e1 := e.(registry := e.registry.(expected := Inserted(e.registry.expected, id, t)));
    SameHanded(e, e1, ms);
    ParseHeaderHanded(e1, ms);
  }

  lemma RequestHanded(e: Endpoint, name: Name, args: seq<Value>, ms: seq<Message>)
    requires Handed(e, ms) && name in e.interface_ && HaveTypes(e.interface_[name].parameters, args)
    ensures Handed(Request(e, name, args), ms)
  {
    hide Handed, HaveTypes, RequestMessage, Build, Bytes, W.SendBuffer, W.Append, ExpectResponse;
    SameHanded(e, Requested(e, name, args), ms);
    ExpectHanded(Requested(e, name, args), |e.issued|, e.interface_[name].result, ms);
    PushHanded(e, User, ms);
    SameHanded(Push(e, User), RequestRefused(e, name, args), ms);
  }

  lemma RespondHanded(e: Endpoint, k: nat, v: Value, ms: seq<Message>)
    requires Handed(e, ms) && Results(e, k, v)
    ensures Handed(Respond(e, k, v), ms)
  {
    hide Handed, Results, ResponseMessage, Build, Responded, ResponseRefused;
    RespondedMessages(e, k, v);
    SameHanded(e, Responded(e, k, v), ms);
    PushHanded(e, User, ms);
    SameHanded(Push(e, User), ResponseRefused(e, k, v), ms);
  }

  lemma SentHanded(e: Endpoint, sent: Sent, ms: seq<Message>)
    requires Handed(e, ms)
    ensures Handed(OnSent(e, sent), ms)
  {
    hide Handed, Report;
    if sent.ResponseSent? {
      ReportHanded(e, sent.invocation, ms);
    }
  }

  lemma ReportHanded(e: Endpoint, k: nat, ms: seq<Message>)
    requires Handed(e, ms)
    ensures Handed(Report(e, k), ms)
  {
    hide Handed;
    SameHanded(e, Reported(e, k), ms);
    PushHanded(Reported(e, k), User, ms);
  }

  lemma QuietHanded(e: Endpoint, w: W.Writer<Sent>, open: set<nat>, ms: seq<Message>)
    requires Handed(e, ms)
    ensures var e' := e.(writer := w, open := open);
            Handed(e', ms) && Handed(Push(e', User), ms)
  {
    hide Handed;
    SameHanded(e, e.(writer := w, open := open), ms);
    PushHanded(e.(writer := w, open := open), User, ms);
  }

  /** A step in which no operation runs. */
  lemma StepHanded(e: Endpoint, event: Event, ms: seq<Message>)
    requires Handed(e, ms) && Enabled(e, event) && !event.DoReadError? && !event.DoRead?
    requires event.DoResume? ==> !e.stack[0].StartParse?
    ensures Handed(Connection.Step(e, event), ms)
  {
    hide Handed, HaveTypes, Results, Request, Respond, OnError, Resume, Apply, WaitForRequest, OnSent,
         W.Complete, W.CallNext, W.Continue, Report;
    match event {
      case DoResume => ResumeHanded(e, ms);
      case DoRequest(name, args) => RequestHanded(e, name, args, ms);
      case DoRespond(k, v) => RespondHanded(e, k, v, ms);
      case DoServe =>
        SameHanded(e, Serving(e), ms);
        ApplyHanded(Serving(e), WaitForRequest(e.splitter), ms);
      case DoRespondError(k) =>
        QuietHanded(e, e.writer, e.open - {k}, ms);
        ReportHanded(e.(open := e.open - {k}), k, ms);
      case DoLeave => PopHanded(e, ms);
      case DoEnter => QuietHanded(e, e.writer, e.open, ms);
      case DoWritten => QuietHanded(e, W.Complete(e.writer, 0), e.open, ms);
      case DoWriterContinue => QuietHanded(e, W.Continue(e.writer), e.open, ms);
      case DoWriterCall =>
        QuietHanded(e, W.CallNext(e.writer), e.open, ms);
        SentHanded(e.(writer := W.CallNext(e.writer)), e.writer.calling[0], ms);
      case _ =>
    }
  }
}
