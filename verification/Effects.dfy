/** What the parts of a step leave alone: the control flow of the splitter, the
    registry and the server touches neither the bytes that were read nor anything
    that was sent. */
module Effects {
  import opened WireTypes
  import opened BigEndian
  import opened WireFormat
  import opened RoundTrip
  import opened SplitterModel
  import opened Messages
  import opened Connection
  import opened ConnectionInvariant
  import W = WriterModel

  /** Nothing that concerns the output is different. */
  predicate SameOutput(e: Endpoint, e': Endpoint) {
    SameSending(e, e') && e'.log.reported == e.log.reported
  }

  /** Nor, but for the record of the callbacks of `serve_one_request`. */
  predicate SameSending(e: Endpoint, e': Endpoint) {
    && e'.writer == e.writer && e'.messages == e.messages && e'.issued == e.issued && e'.invoked == e.invoked
    && e'.open == e.open && e'.responses == e.responses && e'.interface_ == e.interface_
    && e'.refused == e.refused && e'.log.serves == e.log.serves && e'.log.told == e.log.told
  }

  /** Nor is what was read and what a parse operation was given. */
  predicate SameStreams(e: Endpoint, e': Endpoint) {
    && SameOutput(e, e')
    && e'.buffer == e.buffer && e'.readers == e.readers && e'.received == e.received
  }

  lemma ApplyStreams(e: Endpoint, effect: Effect)
    ensures SameStreams(e, Apply(e, effect))
  {
  }

  /** The frame that a started header parse is. */
  function Started(starts: bool): seq<Frame> {
    if starts then [StartParse(Op(MessageType, []))] else []
  }

  lemma Applied(e: Endpoint, effect: Effect)
    ensures var e' := Apply(e, effect);
            && e'.splitter == effect.after && e'.registry == e.registry && e'.interface_ == e.interface_
            && e'.stack == Started(effect.starts) + e.stack
            && e'.asserted == (e.asserted && effect.asserted) && e'.halted == (e.halted || !effect.begun)
            && e'.faulty == e.faulty && e'.dropped == e.dropped && e'.clean == e.clean && e'.log == e.log
            && e'.headers == e.headers + One(effect.starts)
  {
    if effect.starts {
      AppliedStarts(e, effect);
    } else {
      assert [] + e.stack == e.stack;
    }
  }

  lemma AppliedStarts(e: Endpoint, effect: Effect)
    requires effect.starts
    ensures var e' := Apply(e, effect);
            && e'.splitter == effect.after && e'.registry == e.registry && e'.interface_ == e.interface_
            && e'.stack == Started(effect.starts) + e.stack
            && e'.asserted == (e.asserted && effect.asserted) && e'.halted == (e.halted || !effect.begun)
            && e'.faulty == e.faulty && e'.dropped == e.dropped && e'.clean == e.clean && e'.log == e.log
            && e'.headers == e.headers + 1
  {
  }

  /** The input is unlocked before what is left to do. */
  lemma Unlocked(e: Endpoint, f: Frame)
    ensures var effect := UnlockInput(e.splitter);
            var e' := Apply(Push(e, f), effect);
            && e'.splitter == effect.after && e'.registry == e.registry && e'.interface_ == e.interface_
            && e'.stack == Started(effect.starts) + [f] + e.stack
            && e'.asserted == (e.asserted && effect.asserted) && e'.halted == (e.halted || !effect.begun)
  {
    hide UnlockInput, Apply;
    var effect := UnlockInput(e.splitter);
    Applied(Push(e, f), effect);
    assert Started(effect.starts) + ([f] + e.stack) == Started(effect.starts) + [f] + e.stack;
  }

  lemma RegistryErrorStreams(e: Endpoint)
    ensures SameStreams(e, RegistryError(e))
  {
  }

  lemma SplitterErrorStreams(e: Endpoint)
    ensures SameStreams(e, SplitterError(e))
  {
    hide RegistryError;
    RegistryErrorStreams(WaiterFails(Faulted(e)));
  }

  lemma ParseHeaderStreams(e: Endpoint)
    ensures SameStreams(e, ParseHeader(e))
  {
    hide Apply;
    ApplyStreams(Awaits(e), WaitForResponse(e.splitter));
  }

  lemma ResponseIdStreams(e: Endpoint, id: nat)
    ensures SameStreams(e, OnResponseId(e, id))
  {
    hide Apply, RegistryError;
    var e1 := Assert(e, e.registry.state == ParsingHeader);
    RegistryErrorStreams(Unknown(e1));
    ApplyStreams(e1.(registry := Registry(ParsingResult, e.registry.expected - {id})), LockInput(e.splitter));
  }

  lemma ResponseHeaderStreams(e: Endpoint, id: nat)
    ensures SameStreams(e, OnResponseHeader(e, id))
  {
    hide OnResponseId, Dispatch;
    var e1 := Assert(e, e.splitter.waitingForResponse && e.splitter.parsingHeader);
    DispatchStreams(e1, ForResponse);
    ResponseIdStreams(Dispatch(e1, ForResponse), id);
  }

  lemma DispatchStreams(e: Endpoint, waiter: Waiter)
    ensures SameStreams(e, Dispatch(e, waiter))
  {
  }

  lemma ArgumentStreams(e: Endpoint, op: Op)
    ensures SameStreams(e, Push(Apply(e, LockInput(e.splitter)), StartParse(op)))
  {
    hide Apply;
    ApplyStreams(e, LockInput(e.splitter));
  }

  lemma RequestHeaderStreams(e: Endpoint, id: nat, name: seq<byte>)
    ensures SameStreams(e, OnRequestHeader(e, id, name))
  {
    hide Apply, Dispatch, Push;
    var e1 := Assert(e, e.splitter.waitingForRequest && e.splitter.parsingHeader);
    DispatchStreams(e1, ForRequest);
    if |name| <= 255 && name in e.interface_ {
      ArgumentStreams(Dispatch(e1, ForRequest), Op(Argument(id, name, e.interface_[name].parameters), []));
    }
  }

  lemma MessageTypeStreams(e: Endpoint, n: nat)
    ensures SameStreams(e, OnMessageType(e, n))
  {
    hide SplitterError;
    SplitterErrorStreams(e);
  }

  lemma UnlockStreams(e: Endpoint, f: Frame)
    ensures SameStreams(e, Apply(Push(e, f), UnlockInput(e.splitter)))
  {
    hide Apply;
    ApplyStreams(Push(e, f), UnlockInput(e.splitter));
  }

  lemma ResultStreams(e: Endpoint, id: nat, v: Value)
    ensures SameStreams(e, Apply(Push(Assert(e, e.registry.state == ParsingResult), NextResponse(id, v)),
                                 UnlockInput(e.splitter)))
  {
    hide Apply, Push, UnlockInput;
    UnlockStreams(Assert(e, e.registry.state == ParsingResult), NextResponse(id, v));
  }

  lemma ArgumentErrorStreams(e: Endpoint)
    ensures SameStreams(e, Apply(Push(e, ServeError), UnlockInput(e.splitter)).(clean := false))
  {
    hide Apply, Push;
    UnlockStreams(e, ServeError);
  }

  lemma ValueStreams(e: Endpoint, p: Purpose, v: Value)
    requires HasType(PurposeType(p), v)
    ensures SameStreams(e, OnValue(e, p, v))
  {
    hide Apply, Push, UnlockInput, Assert, OnMessageType, OnResponseHeader, OnRequestHeader, SameStreams;
    match p
    case MessageType => MessageTypeStreams(e, v.n);
    case ResponseHeader => ResponseHeaderStreams(e, v.n);
    case RequestHeader =>
      HaveTypesAt(HEADER.elements, v.values, 0);
      HaveTypesAt(HEADER.elements, v.values, 1);
      RequestHeaderStreams(e, v.values[0].n, v.values[1].text);
    case Result(id, _) => ResultStreams(e, id, v);
    case Argument(id, name, _) => UnlockStreams(e, Implement(id, name, v.values));
  }

  lemma ErrorStreams(e: Endpoint, p: Purpose)
    ensures SameStreams(e, OnError(e, p))
  {
    hide Apply, Push, UnlockInput, SplitterError, RegistryError;
    match p
    case Result(id, _) =>
      RegistryErrorStreams(Assert(e, e.registry.state == ParsingResult).(dropped := e.dropped + [id]));
    case Argument(_, _, _) => ArgumentErrorStreams(e);
    case ResponseHeader => SplitterErrorStreams(Assert(e, e.splitter.waitingForResponse));
    case RequestHeader => SplitterErrorStreams(Assert(e, e.splitter.waitingForRequest));
    case MessageType => SplitterErrorStreams(e);
  }

  lemma StartParseOutput(e: Endpoint, op: Op)
    ensures SameOutput(e, OnStartParse(e, op)) && OnStartParse(e, op).received == e.received
  {
    hide OnValue, OnError, Parse;
    var all := op.fed + e.buffer;
    if Parse(PurposeType(op.purpose), all).Done? {
      ParseDone(e, op);
      var Done(v, used, _) := Parse(PurposeType(op.purpose), all);
      ValueStreams(e.(buffer := all[used..]), op.purpose, v);
    } else if Parse(PurposeType(op.purpose), all).Waiting? {
      ParseWaits(e, op);
    } else {
      ErrorStreams(e, op.purpose);
    }
  }

  lemma NextResponseStreams(e: Endpoint, id: nat, v: Value)
    ensures SameStreams(e, OnNextResponse(e, id, v))
  {
    hide ParseHeader;
    ParseHeaderStreams(Push(e, Answer(id, v)));
  }

  lemma FailAllStreams(e: Endpoint, error: nat, ids: set<nat>)
    ensures SameStreams(e, OnFailAll(e, error, ids))
  {
    hide Least, FailOne;
    if ids != {} {
      FailOneStreams(e, error, ids, Least(ids));
    }
  }

  lemma FailOneStreams(e: Endpoint, error: nat, ids: set<nat>, id: nat)
    ensures SameStreams(e, FailOne(e, error, ids, id))
  {
  }

  lemma AfterErrorStreams(e: Endpoint, had: bool)
    ensures SameStreams(e, OnAfterError(e, had))
  {
    if had && e.splitter.waitingForRequest {
      PushStreams(ServeFails(e), ServeError);
    }
  }

  lemma PushStreams(e: Endpoint, f: Frame)
    ensures SameStreams(e, Push(e, f))
  {
  }

  lemma AnswerStreams(e: Endpoint, id: nat, v: Value)
    ensures SameStreams(e, OnAnswer(e, id, v))
  {
  }

  lemma ExpectStreams(e: Endpoint, id: nat, t: Type)
    ensures SameStreams(e, ExpectResponse(e, id, t))
  {
    hide ParseHeader;
    ParseHeaderStreams(e.(registry := e.registry.(expected := Inserted(e.registry.expected, id, t))));
  }

  lemma ReportAdds(e: Endpoint, k: nat)
    ensures var e' := Report(e, k);
            && e'.stack == [User] + e.stack && e'.log == e.log.(reported := e.log.reported + [k])
            && e'.failed == e.failed && e'.errors == e.errors && e'.answered == e.answered && e'.refused == e.refused
            && e'.invoked == e.invoked && e'.open == e.open && e'.writer == e.writer
  {
  }

  lemma SentStreams(e: Endpoint, sent: Sent)
    ensures var e' := OnSent(e, sent);
            SameSending(e, e') && e'.buffer == e.buffer && e'.readers == e.readers && e'.received == e.received
  {
    hide Report;
    if sent.ResponseSent? {
      ReportStreams(e, sent.invocation);
    }
  }

  lemma ReportStreams(e: Endpoint, k: nat)
    ensures var e' := Report(e, k);
            SameSending(e, e') && e'.buffer == e.buffer && e'.readers == e.readers && e'.received == e.received
  {
  }

  lemma LockedInput(e: Endpoint)
    requires !e.splitter.locked && !e.splitter.parsingHeader
    ensures Apply(e, LockInput(e.splitter)) == e.(splitter := e.splitter.(locked := true))
  {
  }

  /** The header of a known request: the arguments are parsed with the input locked. */
  lemma DispatchedRequest(e: Endpoint, id: nat, name: Name)
    requires e.splitter.waitingForRequest && e.splitter.parsingHeader && !e.splitter.locked && name in e.interface_
    ensures var e' := OnRequestHeader(e, id, name);
            var next := Op(Argument(id, name, e.interface_[name].parameters), []);
            && e'.stack == [StartParse(next)] + ([AfterRequest(e.splitter.waitingForResponse)] + e.stack)
            && e'.splitter == e.splitter.(parsingHeader := false, waitingForRequest := false, locked := true)
            && e'.registry == e.registry && e'.asserted == e.asserted
            && e'.readers == e.readers && e'.buffer == e.buffer && e'.received == e.received
            && e'.interface_ == e.interface_ && e'.issued == e.issued && e'.refused == e.refused
            && e'.answered == e.answered && e'.invoked == e.invoked
            && e'.failed == e.failed && e'.dropped == e.dropped && e'.clean == e.clean && e'.halted == e.halted
  {
    hide Apply;
    LockedInput(Dispatch(e, ForRequest));
  }

  /** Of all that runs on the stack only the calls of the implementation and of
      the callback of `serve_one_request` are noted in the output. */
  lemma ResumeOutput(e: Endpoint)
    requires e.stack != [] && !e.stack[0].User? && !e.stack[0].Implement? && !e.stack[0].ServeError?
    ensures SameOutput(e, Resume(e)) && Resume(e).received == e.received
  {
    hide Least, Apply, OnStartParse, OnNextResponse, OnFailAll, OnAnswer, OnAfterError;
    var e1 := e.(stack := e.stack[1..]);
    match e.stack[0] {
      case StartParse(op) => StartParseOutput(e1, op);
      case AfterRequest(c) => ApplyStreams(e1, ContinueFor(e1.splitter, c, e1.splitter.waitingForResponse));
      case AfterResponse(c) => ApplyStreams(e1, ContinueFor(e1.splitter, c, e1.splitter.waitingForRequest));
      case NextResponse(id, v) => NextResponseStreams(e1, id, v);
      case FailAll(error, ids) => FailAllStreams(e1, error, ids);
      case Answer(id, v) => AnswerStreams(e1, id, v);
      case AfterError(had) => AfterErrorStreams(e1, had);
    }
  }

  // ----- steps that build no message -----

  /** No message was built; calls of the implementation may have been added. */
  predicate SameMessages(e: Endpoint, e': Endpoint) {
    && e'.messages == e.messages && e'.issued == e.issued && e'.responses == e.responses
    && e'.interface_ == e.interface_ && e'.refused == e.refused && e.invoked <= e'.invoked
    && (forall k :: k in e'.open ==> k in e.open || |e.invoked| <= k < |e'.invoked|)
  }

  lemma ImplementMessages(e: Endpoint, id: nat, name: Name, args: seq<Value>)
    ensures SameMessages(e, OnImplement(e, id, name, args))
    ensures OnImplement(e, id, name, args).log == e.log && OnImplement(e, id, name, args).writer == e.writer
    ensures OnImplement(e, id, name, args).received == e.received
    ensures OnImplement(e, id, name, args).buffer == e.buffer && OnImplement(e, id, name, args).readers == e.readers
  {
  }

  lemma ServeErrorMessages(e: Endpoint)
    ensures SameMessages(e, OnServeError(e)) && OnServeError(e).log.serves == e.log.serves
    ensures OnServeError(e).buffer == e.buffer && OnServeError(e).readers == e.readers
    ensures OnServeError(e).writer == e.writer && OnServeError(e).open == e.open && OnServeError(e).invoked == e.invoked
  {
  }

  lemma SameOutputMessages(e: Endpoint, e': Endpoint)
    requires SameOutput(e, e')
    ensures SameMessages(e, e') && e'.log.serves == e.log.serves
  {
  }

  lemma PoppedMessages(e: Endpoint, e': Endpoint)
    requires e.stack != [] && SameMessages(e.(stack := e.stack[1..]), e')
    ensures SameMessages(e, e')
  {
  }

  lemma ResumeMessages(e: Endpoint)
    requires e.stack != [] && !e.stack[0].User?
    ensures SameMessages(e, Resume(e)) && Resume(e).log.serves == e.log.serves
  {
    hide SameMessages, SameOutput, Least, Apply, OnStartParse, OnImplement, OnNextResponse, OnFailAll, OnAnswer,
         OnAfterError, OnServeError;
    if e.stack[0].Implement? {
      ImplementMessages(e.(stack := e.stack[1..]), e.stack[0].request, e.stack[0].name, e.stack[0].args);
      PoppedMessages(e, Resume(e));
    } else if e.stack[0].ServeError? {
      ServeErrorMessages(e.(stack := e.stack[1..]));
      PoppedMessages(e, Resume(e));
    } else {
      ResumeOutput(e);
      SameOutputMessages(e, Resume(e));
    }
  }

  lemma StepMessages(e: Endpoint, event: Event)
    requires Enabled(e, event) && !event.DoRequest? && !event.DoRespond?
    ensures SameMessages(e, Connection.Step(e, event))
    ensures !event.DoServe? ==> Connection.Step(e, event).log.serves == e.log.serves
  {
    hide HasType, HaveTypes, Results, Resume, OnError, Apply, OnSent, Report, W.Complete, W.CallNext, W.Continue;
    match event {
      case DoResume => ResumeMessages(e);
      case DoRespondError(k) => ReportStreams(e.(open := e.open - {k}), k);
      case DoServe => ApplyStreams(Serving(e), WaitForRequest(e.splitter));
      case DoReadError => ErrorStreams(e.(readers := e.readers[1..]), e.readers[0].purpose);
      case DoWriterCall => SentStreams(e.(writer := W.CallNext(e.writer)), e.writer.calling[0]);
      case _ =>
    }
  }

  lemma RequestMessages(e: Endpoint, name: Name, args: seq<Value>)
    requires Enabled(e, DoRequest(name, args))
    ensures var e' := Request(e, name, args);
            && e'.log.serves == e.log.serves && e'.interface_ == e.interface_ && e'.invoked == e.invoked
            && e'.open == e.open && e'.responses == e.responses
            && (Build(RequestMessage(e, name, args)).ok ==> e'.refused == e.refused)
  {
    hide HaveTypes, RequestMessage, Build, ExpectResponse, Requested, RequestRefused;
    RequestedMessages(e, name, args);
    ExpectStreams(Requested(e, name, args), |e.issued|, e.interface_[name].result);
  }

  lemma RequestedMessages(e: Endpoint, name: Name, args: seq<Value>)
    requires name in e.interface_ && HaveTypes(e.interface_[name].parameters, args)
    ensures var e' := Requested(e, name, args);
            && e'.log.serves == e.log.serves && e'.interface_ == e.interface_ && e'.invoked == e.invoked
            && e'.open == e.open && e'.responses == e.responses && e'.refused == e.refused
    ensures var e' := RequestRefused(e, name, args);
            && e'.log.serves == e.log.serves && e'.interface_ == e.interface_ && e'.invoked == e.invoked
            && e'.open == e.open && e'.responses == e.responses
  {
    hide HaveTypes, RequestMessage, Bytes, W.SendBuffer, W.Append;
  }

  lemma RespondedMessages(e: Endpoint, k: nat, v: Value)
    requires Results(e, k, v)
    ensures var e' := Responded(e, k, v);
            && e'.log == e.log && e'.interface_ == e.interface_ && e'.invoked == e.invoked
            && e'.issued == e.issued && e'.refused == e.refused && e'.open == e.open - {k}
            && e'.buffer == e.buffer && e'.readers == e.readers && e'.clean == e.clean
            && e'.faulty == e.faulty && e'.dropped == e.dropped && e'.errors == e.errors && e'.registry == e.registry
            && e'.answered == e.answered && e'.stack == e.stack && e'.failed == e.failed
    ensures var e' := ResponseRefused(e, k, v);
            && e'.log == e.log.(reported := e'.log.reported) && e'.interface_ == e.interface_ && e'.invoked == e.invoked
            && e'.issued == e.issued && e'.refused == e.refused && e'.open == e.open - {k}
            && e'.buffer == e.buffer && e'.readers == e.readers && e'.clean == e.clean
            && e'.faulty == e.faulty && e'.dropped == e.dropped && e'.errors == e.errors && e'.registry == e.registry
            && e'.answered == e.answered && e'.stack == [User] + e.stack && e'.failed == e.failed
            && e'.log.reported == e.log.reported + [k]
  {
    hide Results, ResponseMessage, Bytes, Build, W.SendBuffer, W.Append;
  }

  lemma RespondMessages(e: Endpoint, k: nat, v: Value)
    requires Results(e, k, v)
    ensures var e' := Respond(e, k, v);
            && e'.log.serves == e.log.serves && e'.interface_ == e.interface_ && e'.invoked == e.invoked
            && e'.issued == e.issued && e'.refused == e.refused && e'.open == e.open - {k}
  {
    hide Results, ResponseMessage, Build, Responded, ResponseRefused;
    RespondedMessages(e, k, v);
  }
}
