/** What an endpoint sends: whole messages, in the order they were built. */
module Output {
  import opened WireTypes
  import opened BigEndian
  import opened WireFormat
  import opened SplitterModel
  import opened Messages
  import opened ParseOperations
  import opened Connection
  import opened Effects
  import opened IncomingStream
  import Utf8
  import W = WriterModel

  /** The handler given to the writer belongs to the message just built. */
  predicate Origin(e: Endpoint, sent: Sent, m: Message) {
    match sent
    case RequestSent(id) =>
      && id < |e.issued| && e.issued[id].name in e.interface_
      && m == RequestOf(id, e.issued[id].name, e.interface_[e.issued[id].name].parameters, e.issued[id].args)
    case ResponseSent(k) =>
      && k < |e.invoked| && k !in e.open && e.invoked[k].name in e.interface_
      && m.ResponseOf? && m.id == e.invoked[k].request && m.result == e.interface_[e.invoked[k].name].result
      && Response(k, m.value) in e.responses
  }

  /** The results that the messages carry, in order. */
  function Replied(ms: seq<Message>): seq<Answered> {
    if ms == [] then []
    else
      var last := ms[|ms| - 1];
      Replied(ms[..|ms| - 1]) + (if last.ResponseOf? then [Answered(last.id, last.value)] else [])
  }

  /** The requests made, with the ids 0, 1, 2 and so on. */
  function Issues(issued: seq<Issue>): (s: seq<Invocation>)
    ensures |s| == |issued|
    ensures forall i :: 0 <= i < |issued| ==> s[i] == Invocation(i, issued[i].name, issued[i].args)
  {
    seq(|issued|, i requires 0 <= i < |issued| => Invocation(i, issued[i].name, issued[i].args))
  }

  /** A result was given for a call that is not open any more. */
  predicate Replies(e: Endpoint, i: nat)
    requires i < |e.responses| == |Replied(e.messages)|
  {
    var Response(k, v) := e.responses[i];
    && k < |e.invoked| && k !in e.open
    && Replied(e.messages)[i] == Answered(e.invoked[k].request, v)
  }

  /** One message per handler; no request and no call has two messages. */
  predicate Registered(e: Endpoint) {
    var rs := e.writer.registered;
    && |e.messages| == |rs|
    && (forall i :: 0 <= i < |rs| ==> Origin(e, rs[i].handler, e.messages[i]))
    && (forall i, j :: 0 <= i < j < |rs| ==> rs[i].handler != rs[j].handler)
  }

  /** The messages are the requests made and the results given, each in order. */
  predicate InOrder(e: Endpoint) {
    && Asked(e.messages) == Issues(e.issued)
    && |Replied(e.messages)| == |e.responses|
    && (forall i :: 0 <= i < |e.responses| ==> Replies(e, i))
    && (forall i, j :: 0 <= i < j < |e.responses| ==> e.responses[i].invocation != e.responses[j].invocation)
    && (forall k :: k in e.open ==> k < |e.invoked|)
  }

  /** The last handler was registered with everything that has been appended. */
  predicate Sealed(w: W.Writer<Sent>) {
    w.appended == [] || (w.registered != [] && w.registered[|w.registered| - 1].appended == |w.appended|)
  }

  /** The bytes appended to the writer are those of the messages built. */
  ghost predicate Framed(e: Endpoint) {
    && W.Invariant(e.writer)
    && AllBuilt(e.messages) && e.writer.appended == AllBytes(e.messages)
    && Registered(e) && InOrder(e) && Sealed(e.writer)
  }

  /** All that is built is built without an error. */
  ghost predicate BuildsOk(e: Endpoint, event: Event)
    requires Enabled(e, event)
  {
    match event
    case DoRequest(name, args) => Built(RequestMessage(e, name, args))
    case DoRespond(k, v) => Built(ResponseMessage(e, k, v))
    case _ => true
  }

  lemma SameRegistered(e: Endpoint, e': Endpoint)
    requires Registered(e)
    requires e'.writer.registered == e.writer.registered && e'.messages == e.messages && e'.responses == e.responses
    requires e'.interface_ == e.interface_ && e'.issued == e.issued && e.invoked <= e'.invoked
    requires forall k :: 0 <= k < |e.invoked| && k !in e.open ==> k !in e'.open
    ensures Registered(e')
  {
    forall i | 0 <= i < |e.messages|
      ensures Origin(e', e.writer.registered[i].handler, e.messages[i])
    {
      assert Origin(e, e.writer.registered[i].handler, e.messages[i]);
    }
  }

  lemma SameInOrder(e: Endpoint, e': Endpoint)
    requires InOrder(e)
    requires e'.messages == e.messages && e'.responses == e.responses && e'.issued == e.issued
          && e.invoked <= e'.invoked
    requires forall k :: 0 <= k < |e.invoked| && k !in e.open ==> k !in e'.open
    requires forall k :: k in e'.open ==> k < |e'.invoked|
    ensures InOrder(e')
  {
    hide Asked, Replied, Issues;
    forall i | 0 <= i < |e.responses|
      ensures Replies(e', i)
    {
      assert Replies(e, i);
      assert e'.invoked[e.responses[i].invocation] == e.invoked[e.responses[i].invocation];
    }
  }

  lemma OpenCalls(e: Endpoint)
    requires Framed(e)
    ensures Registered(e) && InOrder(e) && Sealed(e.writer) && forall k :: k in e.open ==> k < |e.invoked|
  {
  }

  lemma SameFramed(e: Endpoint, e': Endpoint)
    requires Framed(e) && SameMessages(e, e') && e'.writer == e.writer
    requires forall k :: k in e'.open ==> k < |e'.invoked|
    ensures Framed(e')
  {
    hide Registered, InOrder, W.Invariant, AllBuilt, AllBytes;
    SameRegistered(e, e');
    SameInOrder(e, e');
  }

  lemma SameOutputFramed(e: Endpoint, e': Endpoint)
    requires Framed(e) && SameOutput(e, e')
    ensures Framed(e')
  {
    hide Framed;
    OpenCalls(e);
    SameFramed(e, e');
  }

  /** The step in which the implementation is called. */
  lemma ImplementFramed(e: Endpoint, id: nat, name: Name, args: seq<Value>)
    requires Framed(e)
    ensures Framed(OnImplement(e, id, name, args))
  {
    hide Framed, Registered, InOrder;
    OpenCalls(e);
    SameFramed(e, OnImplement(e, id, name, args));
  }

  lemma ResumeFramed(e: Endpoint)
    requires Framed(e) && e.stack != [] && !e.stack[0].User?
    ensures Framed(Resume(e))
  {
    hide Framed, Least, Apply, OnStartParse, OnImplement, OnNextResponse, OnFailAll, OnAnswer, OnAfterError,
         OnServeError;
    if e.stack[0].Implement? {
      var e1 := e.(stack := e.stack[1..]);
      SameOutputFramed(e, e1);
      ImplementFramed(e1, e.stack[0].request, e.stack[0].name, e.stack[0].args);
    } else if e.stack[0].ServeError? {
      var e1 := e.(stack := e.stack[1..]);
      SameOutputFramed(e, e1);
      ServeErrorMessages(e1);
      OpenCalls(e1);
      SameFramed(e1, OnServeError(e1));
    } else {
      ResumeOutput(e);
      SameOutputFramed(e, Resume(e));
    }
  }

  // ----- one message more -----

  /** Appended, registered and noted. */
  predicate OneMore(e: Endpoint, e': Endpoint, m: Message, sent: Sent)
    requires HasTypes(m)
  {
    && e'.writer == W.SendBuffer(W.Append(e.writer, Bytes(m)), sent)
    && e'.messages == e.messages + [m] && e'.interface_ == e.interface_ && e'.invoked == e.invoked
  }

  lemma WriterAfter(e: Endpoint, m: Message, sent: Sent)
    requires W.Invariant(e.writer) && Built(m)
    ensures var w := W.SendBuffer(W.Append(e.writer, Bytes(m)), sent);
            && W.Invariant(w) && Sealed(w)
            && w.appended == e.writer.appended + Bytes(m)
            && |w.registered| == |e.writer.registered| + 1
            && w.registered[..|e.writer.registered|] == e.writer.registered
            && w.registered[|e.writer.registered|].handler == sent
  {
    hide W.Invariant, Bytes;
    var w1 := W.Append(e.writer, Bytes(m));
    W.AppendKeeps(e.writer, Bytes(m));
    W.StepKeeps(w1, W.DoSend(sent));
  }

  /** The messages so far have the same origins, and none that of the new one. */
  predicate OriginsStay(e: Endpoint, e': Endpoint, sent: Sent)
    requires |e.messages| == |e.writer.registered|
  {
    forall i :: 0 <= i < |e.messages| ==>
      Origin(e', e.writer.registered[i].handler, e.messages[i]) && e.writer.registered[i].handler != sent
  }

  lemma MessageRegistered(e: Endpoint, e': Endpoint, m: Message, sent: Sent)
    requires W.Invariant(e.writer) && Built(m) && Registered(e) && OneMore(e, e', m, sent)
    requires Origin(e', sent, m) && OriginsStay(e, e', sent)
    ensures Registered(e')
  {
    hide W.Invariant, Origin, Bytes, W.SendBuffer;
    WriterAfter(e, m, sent);
    var n := |e.messages|;
    var rs := e'.writer.registered;
    forall i | 0 <= i < |rs|
      ensures Origin(e', rs[i].handler, e'.messages[i])
    {
      if i < n {
        assert rs[i] == rs[..n][i];
      }
    }
    forall i, j | 0 <= i < j < |rs|
      ensures rs[i].handler != rs[j].handler
    {
      assert rs[i] == rs[..n][i];
      if j < n {
        assert rs[j] == rs[..n][j];
      }
    }
  }

  lemma MessageFramed(e: Endpoint, e': Endpoint, m: Message, sent: Sent)
    requires Framed(e) && Built(m) && OneMore(e, e', m, sent) && Origin(e', sent, m)
    requires |e.messages| == |e.writer.registered| && OriginsStay(e, e', sent) && InOrder(e')
    ensures Framed(e')
  {
    hide W.Invariant, Origin, Bytes, AllBytes, InOrder, Registered, OriginsStay, W.SendBuffer;
    WriterAfter(e, m, sent);
    AllBytesSnoc(e.messages, m);
    MessageRegistered(e, e', m, sent);
  }

  lemma RequestOrigins(e: Endpoint, e': Endpoint, issue: Issue)
    requires Registered(e)
    requires e'.issued == e.issued + [issue] && e'.invoked == e.invoked && e'.open == e.open
    requires e'.responses == e.responses && e'.interface_ == e.interface_
    ensures OriginsStay(e, e', RequestSent(|e.issued|))
  {
    forall i | 0 <= i < |e.messages|
      ensures Origin(e', e.writer.registered[i].handler, e.messages[i])
      ensures e.writer.registered[i].handler != RequestSent(|e.issued|)
    {
      var sent := e.writer.registered[i].handler;
      assert Origin(e, sent, e.messages[i]);
      if sent.RequestSent? {
        assert e'.issued[sent.id] == e.issued[sent.id];
      }
    }
  }

  lemma IssuesSnoc(issued: seq<Issue>, issue: Issue)
    ensures Issues(issued + [issue]) == Issues(issued) + [Invocation(|issued|, issue.name, issue.args)]
  {
  }

  lemma SnocParts(ms: seq<Message>, m: Message)
    ensures Asked(ms + [m]) == Asked(ms) + (if m.RequestOf? then [Invocation(m.id, m.name, m.args)] else [])
    ensures Replied(ms + [m]) == Replied(ms) + (if m.ResponseOf? then [Answered(m.id, m.value)] else [])
  {
    assert (ms + [m])[..|ms|] == ms;
  }

  lemma RequestInOrder(e: Endpoint, e': Endpoint, m: Message, issue: Issue)
    requires InOrder(e) && m.RequestOf? && m.id == |e.issued| && m.name == issue.name && m.args == issue.args
    requires e'.messages == e.messages + [m] && e'.issued == e.issued + [issue]
    requires e'.invoked == e.invoked && e'.open == e.open && e'.responses == e.responses
    ensures InOrder(e')
  {
    hide Asked, Replied, Issues;
    SnocParts(e.messages, m);
    IssuesSnoc(e.issued, issue);
    assert Replied(e.messages) + [] == Replied(e.messages);
    forall i | 0 <= i < |e.responses|
      ensures Replies(e', i)
    {
      assert Replies(e, i);
    }
  }

  lemma RequestedFramed(e: Endpoint, name: Name, args: seq<Value>)
    requires Framed(e) && Enabled(e, DoRequest(name, args)) && Built(RequestMessage(e, name, args))
    ensures Framed(Requested(e, name, args))
  {
    hide Framed, HasType, HaveTypes, WriteAll, Write, W.SendBuffer, Bytes, Registered, InOrder, OriginsStay;
    OpenCalls(e);
    CountsMatch(e);
    RequestOrigins(e, Requested(e, name, args), Issue(name, args));
    RequestInOrder(e, Requested(e, name, args), RequestMessage(e, name, args), Issue(name, args));
    MessageFramed(e, Requested(e, name, args), RequestMessage(e, name, args), RequestSent(|e.issued|));
  }

  lemma CountsMatch(e: Endpoint)
    requires Registered(e)
    ensures |e.messages| == |e.writer.registered|
  {
  }

  lemma RequestFramed(e: Endpoint, name: Name, args: seq<Value>)
    requires Framed(e) && Enabled(e, DoRequest(name, args)) && Built(RequestMessage(e, name, args))
    ensures Framed(Request(e, name, args))
  {
    hide Framed, HasType, HaveTypes, Requested, RequestMessage, ExpectResponse, Body, Head;
    RequestedFramed(e, name, args);
    ExpectStreams(Requested(e, name, args), |e.issued|, e.interface_[name].result);
    SameOutputFramed(Requested(e, name, args), Request(e, name, args));
  }

  lemma ResponseOrigins(e: Endpoint, e': Endpoint, k: nat, v: Value)
    requires Registered(e) && k in e.open
    requires e'.responses == e.responses + [Response(k, v)] && e'.open == e.open - {k}
    requires e'.issued == e.issued && e'.invoked == e.invoked && e'.interface_ == e.interface_
    ensures OriginsStay(e, e', ResponseSent(k))
  {
    forall i | 0 <= i < |e.messages|
      ensures Origin(e', e.writer.registered[i].handler, e.messages[i])
      ensures e.writer.registered[i].handler != ResponseSent(k)
    {
      assert Origin(e, e.writer.registered[i].handler, e.messages[i]);
    }
  }

  lemma ResponseInOrder(e: Endpoint, e': Endpoint, m: Message, k: nat)
    requires InOrder(e) && m.ResponseOf? && k in e.open && k < |e.invoked| && m.id == e.invoked[k].request
    requires e'.messages == e.messages + [m] && e'.responses == e.responses + [Response(k, m.value)]
    requires e'.open == e.open - {k} && e'.invoked == e.invoked && e'.issued == e.issued
    ensures InOrder(e')
  {
    hide Asked, Replied, Issues;
    SnocParts(e.messages, m);
    assert Asked(e.messages) + [] == Asked(e.messages);
    forall i | 0 <= i < |e'.responses|
      ensures Replies(e', i) && (i < |e.responses| ==> e'.responses[i].invocation != k)
    {
      if i < |e.responses| {
        assert Replies(e, i);
      }
    }
  }

  lemma RespondedIs(e: Endpoint, k: nat, v: Value)
    requires Results(e, k, v)
    ensures var e' := Responded(e, k, v);
            && OneMore(e, e', ResponseMessage(e, k, v), ResponseSent(k))
            && e'.responses == e.responses + [Response(k, v)] && e'.open == e.open - {k} && e'.issued == e.issued
            && Origin(e', ResponseSent(k), ResponseMessage(e, k, v))
    ensures ResponseMessage(e, k, v) == ResponseOf(e.invoked[k].request, e.interface_[e.invoked[k].name].result, v)
  {
    hide HasType, W.SendBuffer, W.Append, Bytes;
    assert Responded(e, k, v).responses[|e.responses|] == Response(k, v);
  }

  lemma RespondedFramed(e: Endpoint, k: nat, v: Value)
    requires Results(e, k, v) && k in e.open && Built(ResponseMessage(e, k, v))
    requires Framed(e)
    ensures Framed(Responded(e, k, v))
  {
    hide Framed, Responded, Results, ResponseMessage, Built, Origin, OneMore, Registered, InOrder, Sealed, OriginsStay;
    OpenCalls(e);
    CountsMatch(e);
    RespondedIs(e, k, v);
    var e' := Responded(e, k, v);
    RespondedInvoked(e, k, v);
    ResponseOrigins(e, e', k, v);
    ResponseInOrder(e, e', ResponseMessage(e, k, v), k);
    MessageFramed(e, e', ResponseMessage(e, k, v), ResponseSent(k));
  }

  lemma RespondedInvoked(e: Endpoint, k: nat, v: Value)
    requires Results(e, k, v)
    ensures k < |e.invoked|
    ensures var e' := Responded(e, k, v);
            && e'.invoked == e.invoked && e'.interface_ == e.interface_
            && e'.messages == e.messages + [ResponseMessage(e, k, v)]
  {
    hide HasType, W.SendBuffer, W.Append, Bytes;
  }

  lemma RespondFramed(e: Endpoint, k: nat, v: Value)
    requires Results(e, k, v) && k in e.open && Built(ResponseMessage(e, k, v))
    requires Framed(e)
    ensures Framed(Respond(e, k, v))
  {
    hide Framed, Results, Responded, ResponseMessage, Head;
    RespondedFramed(e, k, v);
  }

  // ----- a message that was refused -----

  /** What the peer expects of its calls. */
  predicate Expects(e: Endpoint, results: map<nat, Type>) {
    forall k :: 0 <= k < |e.invoked| && e.invoked[k].name in e.interface_ ==>
      && e.invoked[k].request in results
      && results[e.invoked[k].request] == e.interface_[e.invoked[k].name].result
  }

  lemma AllKnown(e: Endpoint, results: map<nat, Type>)
    requires Registered(e) && Expects(e, results)
    ensures forall i :: 0 <= i < |e.messages| ==> Known(e.interface_, results, e.messages[i])
  {
    forall i | 0 <= i < |e.messages|
      ensures Known(e.interface_, results, e.messages[i])
    {
      assert Origin(e, e.writer.registered[i].handler, e.messages[i]);
    }
  }

  lemma FramedIsWhole(e: Endpoint, results: map<nat, Type>)
    requires Framed(e) && Expects(e, results)
    ensures AllBuilt(e.messages) && Whole(e.interface_, results, e.messages, e.writer.appended)
  {
    hide Registered, InOrder, Expects, Known, W.Invariant, AllBytes;
    AllKnown(e, results);
  }

  /** A request whose arguments are refused leaves the part of it that was built
      in the buffer: what the peer is sent is some list of whole messages
      afterwards if and only if the request could be built. */
  lemma WholeIffRequestBuilt(e: Endpoint, name: Name, args: seq<Value>, results: map<nat, Type>)
    requires Enabled(e, DoRequest(name, args)) && Utf8.IsValid(name)
    requires Framed(e) && Expects(e, results)
    ensures (exists ms :: Whole(e.interface_, results, ms, Request(e, name, args).writer.appended))
       <==> Build(RequestMessage(e, name, args)).ok
  {
    hide Framed, HasType, HaveTypes, WriteAll, Whole, Bytes, Requested, ExpectResponse, Utf8.IsValid, Expects;
    var m := RequestMessage(e, name, args);
    var e' := Request(e, name, args);
    if Build(m).ok {
      RequestFramed(e, name, args);
      RequestMessages(e, name, args);
      SameExpects(e, e', results);
      FramedIsWhole(e', results);
    } else {
      FramedIsWhole(e, results);
      NeverWhole(e, e', m, results);
    }
  }

  /** So does a result that is refused. */
  lemma WholeIffResponseBuilt(e: Endpoint, k: nat, v: Value, results: map<nat, Type>)
    requires Results(e, k, v) && k in e.open && e.invoked[k].request <= REQUEST_ID.maximum
    requires Framed(e) && Expects(e, results)
    ensures (exists ms :: Whole(e.interface_, results, ms, Respond(e, k, v).writer.appended))
       <==> Build(ResponseMessage(e, k, v)).ok
  {
    hide Framed, HasType, Write, Whole, Bytes, Responded, Expects;
    var m := ResponseMessage(e, k, v);
    var e' := Respond(e, k, v);
    if Build(m).ok {
      RespondFramed(e, k, v);
      RespondMessages(e, k, v);
      SameExpects(e, e', results);
      FramedIsWhole(e', results);
    } else {
      FramedIsWhole(e, results);
      ResponseKnown(e, k, v, results);
      NeverWhole(e, e', m, results);
    }
  }

  lemma ResponseKnown(e: Endpoint, k: nat, v: Value, results: map<nat, Type>)
    requires Results(e, k, v) && Expects(e, results)
    ensures Known(e.interface_, results, ResponseMessage(e, k, v))
  {
  }

  lemma SameExpects(e: Endpoint, e': Endpoint, results: map<nat, Type>)
    requires Expects(e, results) && e'.invoked == e.invoked && e'.interface_ == e.interface_
    ensures Expects(e', results)
  {
  }

  lemma NeverWhole(e: Endpoint, e': Endpoint, m: Message, results: map<nat, Type>)
    requires AllBuilt(e.messages) && Whole(e.interface_, results, e.messages, e.writer.appended)
    requires HasTypes(m) && Refused(m) && Known(e.interface_, results, m)
    requires e'.writer == W.Append(e.writer, Bytes(m))
    ensures !exists ms :: Whole(e.interface_, results, ms, e'.writer.appended)
  {
    hide Refused, Known, Bytes;
    forall ms
      ensures !Whole(e.interface_, results, ms, e'.writer.appended)
    {
      RefusedBreaks(e.interface_, results, e.messages, m, ms);
    }
  }

  // ----- every step -----

  lemma ErrorFramed(e: Endpoint, k: nat)
    requires Framed(e)
    ensures Framed(RespondError(e, k))
  {
    hide Framed, Registered, InOrder;
    OpenCalls(e);
    SameFramed(e, RespondError(e, k));
  }

  /** A step of the writer itself. */
  lemma WriterFramed(e: Endpoint, event: W.Event<Sent>)
    requires Framed(e) && W.Enabled(e.writer, event)
    requires event.DoComplete? || event.DoCall? || event.DoContinue?
    ensures Framed(e.(writer := W.Step(e.writer, event)))
  {
    hide W.Invariant, Registered, InOrder, AllBytes, AllBuilt;
    OpenCalls(e);
    W.StepKeeps(e.writer, event);
    SameRegistered(e, e.(writer := W.Step(e.writer, event)));
    OpenCalls(e);
    SameInOrder(e, e.(writer := W.Step(e.writer, event)));
  }

  lemma InputFramed(e: Endpoint, bytes: seq<byte>)
    requires Framed(e) && e.readers != []
    ensures Framed(OnRead(e, bytes))
    ensures Framed(OnError(e.(readers := e.readers[1..]), e.readers[0].purpose))
  {
    hide Framed, OnError;
    SameOutputFramed(e, OnRead(e, bytes));
    var e1 := e.(readers := e.readers[1..]);
    SameOutputFramed(e, e1);
    ErrorStreams(e1, e.readers[0].purpose);
    SameOutputFramed(e1, OnError(e1, e.readers[0].purpose));
  }

  lemma ServeFramed(e: Endpoint)
    requires Framed(e)
    ensures Framed(Serve(e))
  {
    hide Framed, Apply;
    ApplyStreams(Serving(e), WaitForRequest(e.splitter));
    OpenCalls(e);
    SameFramed(e, Serve(e));
  }

  lemma CallFramed(e: Endpoint)
    requires Framed(e) && e.writer.calling != [] && e.writer.results != []
    ensures Framed(OnSent(e.(writer := W.CallNext(e.writer)), e.writer.calling[0]))
  {
    hide Framed, OnSent;
    WriterFramed(e, W.DoCall);
    var e1 := e.(writer := W.CallNext(e.writer));
    SentStreams(e1, e.writer.calling[0]);
    OpenCalls(e1);
    SameFramed(e1, OnSent(e1, e.writer.calling[0]));
  }

  lemma StepFramed(e: Endpoint, event: Event)
    requires Framed(e) && Enabled(e, event) && BuildsOk(e, event)
    ensures Framed(Connection.Step(e, event))
  {
    hide Framed, HasType, HaveTypes, Resume, Request, Respond, RespondError, OnError, OnRead, Serve, OnSent;
    match event
    case DoResume => ResumeFramed(e);
    case DoRequest(name, args) => RequestFramed(e, name, args);
    case DoServe => ServeFramed(e);
    case DoRespond(k, v) => RespondFramed(e, k, v);
    case DoRespondError(k) => ErrorFramed(e, k);
    case DoLeave => SameOutputFramed(e, e.(stack := e.stack[1..]));
    case DoEnter => SameOutputFramed(e, Push(e, User));
    case DoRead(bytes) => InputFramed(e, bytes);
    case DoReadError => InputFramed(e, []);
    case DoWritten => WriterFramed(e, W.DoComplete(0));
    case DoWriterCall => CallFramed(e);
    case DoWriterContinue => WriterFramed(e, W.DoContinue);
  }

  lemma NewFramed(interface_: Interface)
    ensures Framed(New(interface_))
  {
    W.IdleInvariant<Sent>();
  }

  // ----- what this means for every run -----

  ghost predicate AllBuildsOk(e: Endpoint, events: seq<Event>)
    requires Legal(e, events)
    decreases |events|
  {
    events == [] || (BuildsOk(e, events[0]) && AllBuildsOk(Connection.Step(e, events[0]), events[1..]))
  }

  lemma {:induction false} RunFramed(e: Endpoint, events: seq<Event>)
    requires Framed(e) && Legal(e, events) && AllBuildsOk(e, events)
    ensures Framed(RunAll(e, events))
    decreases |events|
  {
    if events != [] {
      StepFramed(e, events[0]);
      RunFramed(Connection.Step(e, events[0]), events[1..]);
    }
  }

  /** Requests and responses that share a writer stay whole: what was appended
      splits into messages in one way only, into those that were built; these are
      the requests, in order and with the ids 0, 1, 2 and so on, and the results,
      in order and with the id of the call that each was given for. */
  lemma FrameIntegrity(interface_: Interface, events: seq<Event>, results: map<nat, Type>)
    requires Legal(New(interface_), events) && AllBuildsOk(New(interface_), events)
    ensures var e := RunAll(New(interface_), events);
            && AllBuilt(e.messages)
            && Flatten(e.writer.writes) + e.writer.buffer == e.writer.appended
            && (Expects(e, results) ==>
                  forall ms :: Whole(e.interface_, results, ms, e.writer.appended) <==> ms == e.messages)
            && InOrder(e)
  {
    hide Connection.Step, Enabled, Framed, Registered, InOrder;
    NewFramed(interface_);
    RunFramed(New(interface_), events);
    var e := RunAll(New(interface_), events);
    OpenCalls(e);
    Conserved(e);
    if Expects(e, results) {
      OnlyOnce(e, results);
    }
  }

  lemma Conserved(e: Endpoint)
    requires Framed(e)
    ensures AllBuilt(e.messages) && Flatten(e.writer.writes) + e.writer.buffer == e.writer.appended
  {
    hide Registered, InOrder, AllBytes;
  }

  lemma OnlyOnce(e: Endpoint, results: map<nat, Type>)
    requires Framed(e) && Expects(e, results)
    ensures forall ms :: Whole(e.interface_, results, ms, e.writer.appended) <==> ms == e.messages
  {
    hide Framed, Expects, Known, AllBytes;
    FramedIsWhole(e, results);
    forall ms | Whole(e.interface_, results, ms, e.writer.appended)
      ensures ms == e.messages
    {
      UniqueSplit(e.interface_, results, ms, e.messages);
    }
  }
}
