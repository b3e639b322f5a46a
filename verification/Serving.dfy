/** The callbacks of `serve_one_request`: each is called once, with an error instead
    of the call of the implementation, or when the response to that call has been
    written, was refused, or is replaced by an error; and wherever a callback or the
    implementation is called, the application's code runs. */
module Serving {
  import opened BigEndian
  import opened WireFormat
  import opened SplitterModel
  import opened Messages
  import opened Connection
  import opened ConnectionInvariant
  import opened ConnectionAccounting
  import opened Effects
  import W = WriterModel

  // ----- responses that were written but not acknowledged -----

  function SentCount(handlers: seq<Sent>, k: nat): nat {
    if handlers == [] then 0
    else
      var last := handlers[|handlers| - 1];
      SentCount(handlers[..|handlers| - 1], k) + (if last == ResponseSent(k) then 1 else 0)
  }

  lemma SentCountSnoc(handlers: seq<Sent>, h: Sent, k: nat)
    ensures SentCount(handlers + [h], k) == SentCount(handlers, k) + (if h == ResponseSent(k) then 1 else 0)
  {
    assert (handlers + [h])[..|handlers|] == handlers;
  }

  lemma {:induction false} SentCountSplit(a: seq<Sent>, b: seq<Sent>, k: nat)
    ensures SentCount(a + b, k) == SentCount(a, k) + SentCount(b, k)
    decreases |b|
  {
    if b == [] {
      assert a + b == a;
    } else {
      var rest := b[..|b| - 1];
      assert a + b == (a + rest) + [b[|b| - 1]];
      SentCountSnoc(a + rest, b[|b| - 1], k);
      SentCountSplit(a, rest, k);
    }
  }

  lemma {:induction false} SentCountAny(handlers: seq<Sent>, k: nat)
    ensures SentCount(handlers, k) > 0 <==> ResponseSent(k) in handlers
    decreases |handlers|
  {
    if handlers != [] {
      SentCountAny(handlers[..|handlers| - 1], k);
    }
  }

  /** A response to the call has been given to the writer, and its handler has not
      been called. */
  predicate Unacknowledged(w: W.Writer<Sent>, k: nat) {
    exists i :: |w.called| <= i < |w.registered| && w.registered[i].handler == ResponseSent(k)
  }

  // ----- every call of the implementation is in one place -----

  function Registrations(e: Endpoint, k: nat): nat {
    SentCount(W.Handlers(e.writer.registered), k)
  }

  function Acknowledgements(e: Endpoint, k: nat): nat {
    SentCount(W.CalledHandlers(e.writer.called), k)
  }

  /** Open, given to the writer and not acknowledged, or reported. */
  predicate OnceEach(e: Endpoint, k: nat) {
    One(k in e.open) + Registrations(e, k) + IdCount(e.log.reported, k)
    == One(k < |e.invoked|) + Acknowledgements(e, k)
  }

  ghost predicate Served(e: Endpoint) {
    && W.Invariant(e.writer)
    && (forall k :: k in e.open ==> k < |e.invoked|)
    && (forall k: nat :: OnceEach(e, k))
  }

  lemma SameServed(e: Endpoint, e': Endpoint)
    requires Served(e) && e'.writer == e.writer && e'.open == e.open && e'.invoked == e.invoked
    requires e'.log.reported == e.log.reported
    ensures Served(e')
  {
    hide W.Invariant, Registrations, Acknowledgements, IdCount;
    forall k: nat
      ensures OnceEach(e', k)
    {
      assert OnceEach(e, k);
      SameCounts(e, e', k);
    }
  }

  lemma SameCounts(e: Endpoint, e': Endpoint, k: nat)
    requires e'.writer.registered == e.writer.registered && e'.writer.called == e.writer.called
    ensures Registrations(e', k) == Registrations(e, k) && Acknowledgements(e', k) == Acknowledgements(e, k)
  {
  }

  lemma WriterServed(e: Endpoint, event: W.Event<Sent>)
    requires Served(e) && W.Enabled(e.writer, event) && (event.DoAppend? || event.DoComplete? || event.DoContinue?)
    ensures Served(e.(writer := W.Step(e.writer, event)))
  {
    hide W.Invariant, Registrations, Acknowledgements, IdCount;
    W.StepKeeps(e.writer, event);
    var e' := e.(writer := W.Step(e.writer, event));
    forall k: nat
      ensures OnceEach(e', k)
    {
      assert OnceEach(e, k);
      SameCounts(e, e', k);
    }
  }

  /** The implementation is called. */
  lemma ImplementServed(e: Endpoint, e': Endpoint, call: Invocation)
    requires Served(e) && e'.writer == e.writer && e'.log.reported == e.log.reported
    requires e'.open == e.open + {|e.invoked|} && e'.invoked == e.invoked + [call]
    ensures Served(e')
  {
    hide W.Invariant, Registrations, Acknowledgements, IdCount;
    forall k: nat
      ensures OnceEach(e', k)
    {
      assert OnceEach(e, k);
      SameCounts(e, e', k);
    }
  }

  /** The callback is called without a response. */
  lemma ReportServed(e: Endpoint, e': Endpoint, k: nat)
    requires Served(e) && k in e.open && e'.writer == e.writer && e'.invoked == e.invoked
    requires e'.open == e.open - {k} && e'.log.reported == e.log.reported + [k]
    ensures Served(e')
  {
    hide W.Invariant, Registrations, Acknowledgements;
    forall i: nat
      ensures OnceEach(e', i)
    {
      assert OnceEach(e, i);
      SameCounts(e, e', i);
      IdCountSnoc(e.log.reported, k, i);
    }
  }

  /** A message is handed to the writer; a response settles its call. */
  lemma SendServed(e: Endpoint, e': Endpoint, bytes: seq<byte>, sent: Sent)
    requires Served(e) && bytes != [] && (sent.ResponseSent? ==> sent.invocation in e.open)
    requires e'.writer == W.SendBuffer(W.Append(e.writer, bytes), sent) && e'.invoked == e.invoked
    requires e'.open == (if sent.ResponseSent? then e.open - {sent.invocation} else e.open)
    requires e'.log.reported == e.log.reported
    ensures Served(e')
  {
    hide W.Invariant, SentCount, IdCount;
    W.StepKeeps(e.writer, W.DoAppend(bytes));
    var w := W.Append(e.writer, bytes);
    W.StepKeeps(w, W.DoSend(sent));
    var r := W.Registration(sent, |w.appended|, |w.writes|);
    W.HandlersSnoc(e.writer.registered, r);
    Registers(w, sent);
    forall k: nat
      ensures OnceEach(e', k)
    {
      assert OnceEach(e, k);
      SentCountSnoc(W.Handlers(e.writer.registered), sent, k);
    }
  }

  lemma Registers(w: W.Writer<Sent>, sent: Sent)
    ensures var w' := W.SendBuffer(w, sent);
            && w'.registered == w.registered + [W.Registration(sent, |w.appended|, |w.writes|)]
            && w'.called == w.called
  {
  }

  /** A handler of the writer is called; that of a response calls the callback. */
  lemma SentServed(e: Endpoint)
    requires Served(e) && W.Enabled(e.writer, W.DoCall)
    ensures Served(OnSent(e.(writer := W.CallNext(e.writer)), e.writer.calling[0]))
  {
    hide W.Invariant, SentCount, Report, IdCount;
    W.StepKeeps(e.writer, W.DoCall);
    var sent := e.writer.calling[0];
    var e1 := e.(writer := W.CallNext(e.writer));
    var e' := OnSent(e1, sent);
    if sent.ResponseSent? {
      ReportAdds(e1, sent.invocation);
    }
    assert W.CalledHandlers(e1.writer.called) == W.CalledHandlers(e.writer.called) + [sent];
    forall k: nat
      ensures OnceEach(e', k)
    {
      assert OnceEach(e, k);
      SentCountSnoc(W.CalledHandlers(e.writer.called), sent, k);
      if sent.ResponseSent? {
        IdCountSnoc(e.log.reported, sent.invocation, k);
      }
    }
  }

  // ----- steps -----

  lemma ResumeServed(e: Endpoint)
    requires Served(e) && e.stack != [] && !e.stack[0].User?
    ensures Served(Resume(e))
  {
    hide Served, Resume;
    if e.stack[0].Implement? {
      ResumeImplement(e);
      ImplementServed(e, Resume(e), Invocation(e.stack[0].request, e.stack[0].name, e.stack[0].args));
    } else if e.stack[0].ServeError? {
      ResumeServeError(e);
      SameServed(e, Resume(e));
    } else {
      ResumeOutput(e);
      SameServed(e, Resume(e));
    }
  }

  lemma ResumeImplement(e: Endpoint)
    requires e.stack != [] && e.stack[0].Implement?
    ensures var e' := Resume(e);
            && e'.writer == e.writer && e'.log.reported == e.log.reported && e'.open == e.open + {|e.invoked|}
            && e'.invoked == e.invoked + [Invocation(e.stack[0].request, e.stack[0].name, e.stack[0].args)]
  {
  }

  lemma ResumeServeError(e: Endpoint)
    requires e.stack != [] && e.stack[0].ServeError?
    ensures var e' := Resume(e);
            && e'.writer == e.writer && e'.log.reported == e.log.reported && e'.open == e.open
            && e'.invoked == e.invoked
  {
  }

  lemma RequestServed(e: Endpoint, name: Name, args: seq<Value>)
    requires Served(e) && Enabled(e, DoRequest(name, args))
    ensures Served(Request(e, name, args))
  {
    hide Served, HaveTypes, RequestMessage, Build, Bytes, ExpectResponse, W.SendBuffer, W.Append;
    var m := RequestMessage(e, name, args);
    var e1 := Requested(e, name, args);
    SendServed(e, e1, Bytes(m), RequestSent(|e.issued|));
    ExpectStreams(e1, |e.issued|, e.interface_[name].result);
    SameServed(e1, ExpectResponse(e1, |e.issued|, e.interface_[name].result));
    WriterServed(e, W.DoAppend(Bytes(m)));
    SameServed(e.(writer := W.Append(e.writer, Bytes(m))), RequestRefused(e, name, args));
  }

  lemma RespondServed(e: Endpoint, k: nat, v: Value)
    requires Served(e) && Enabled(e, DoRespond(k, v))
    ensures Served(Respond(e, k, v))
  {
    hide Served, Results, ResponseMessage, Build, Bytes, Responded, ResponseRefused, W.SendBuffer, W.Append;
    RespondedMessages(e, k, v);
    RespondWrites(e, k, v);
    var bytes := Bytes(ResponseMessage(e, k, v));
    SendServed(e, Responded(e, k, v), bytes, ResponseSent(k));
    WriterServed(e, W.DoAppend(bytes));
    ReportServed(e.(writer := W.Append(e.writer, bytes)), ResponseRefused(e, k, v), k);
  }

  lemma RespondWrites(e: Endpoint, k: nat, v: Value)
    requires Results(e, k, v)
    ensures var w := W.Append(e.writer, Bytes(ResponseMessage(e, k, v)));
            Responded(e, k, v).writer == W.SendBuffer(w, ResponseSent(k)) && ResponseRefused(e, k, v).writer == w
  {
    hide Results, ResponseMessage, Build, Bytes, W.SendBuffer, W.Append;
  }

  lemma StepServed(e: Endpoint, event: Event)
    requires Served(e) && Enabled(e, event)
    ensures Served(Connection.Step(e, event))
  {
    hide Served, HaveTypes, Results, Request, Respond, OnError, Resume, Apply, WaitForRequest, OnSent, Report,
         W.Complete, W.CallNext, W.Continue;
    match event {
      case DoResume => ResumeServed(e);
      case DoRequest(name, args) => RequestServed(e, name, args);
      case DoRespond(k, v) => RespondServed(e, k, v);
      case DoServe =>
        ApplyStreams(Serving(e), WaitForRequest(e.splitter));
        SameServed(e, Serve(e));
      case DoRespondError(k) =>
        ReportAdds(e.(open := e.open - {k}), k);
        ReportServed(e, RespondError(e, k), k);
      case DoLeave => SameServed(e, e.(stack := e.stack[1..]));
      case DoEnter => SameServed(e, Push(e, User));
      case DoRead(bytes) => SameServed(e, OnRead(e, bytes));
      case DoReadError =>
        var e1 := e.(readers := e.readers[1..]);
        ErrorStreams(e1, e.readers[0].purpose);
        SameServed(e, OnError(e1, e.readers[0].purpose));
      case DoWritten => WriterServed(e, W.DoComplete(0));
      case DoWriterContinue => WriterServed(e, W.DoContinue);
      case DoWriterCall => SentServed(e);
    }
  }

  lemma {:induction false} RunServed(e: Endpoint, events: seq<Event>)
    requires Served(e) && Legal(e, events)
    ensures Served(RunAll(e, events))
    decreases |events|
  {
    hide Served, Connection.Step, Enabled;
    if events != [] {
      StepServed(e, events[0]);
      RunServed(Connection.Step(e, events[0]), events[1..]);
    }
  }

  lemma NewServed(interface_: Interface)
    ensures Served(New(interface_))
  {
    W.IdleInvariant<Sent>();
  }

  // ----- what this means for every run -----

  lemma PendingCount(w: W.Writer<Sent>, k: nat)
    requires W.Invariant(w)
    ensures SentCount(W.Handlers(w.registered), k) >= SentCount(W.CalledHandlers(w.called), k)
    ensures SentCount(W.Handlers(w.registered), k) > SentCount(W.CalledHandlers(w.called), k) <==> Unacknowledged(w, k)
    ensures !w.inFlight && w.calling == [] && !w.resume ==> !Unacknowledged(w, k)
  {
    hide W.Conserves, W.Answered, SentCount;
    var all, called := W.Handlers(w.registered), W.CalledHandlers(w.called);
    var rest := w.calling + w.batch + W.Reverse(w.queue);
    assert all == called + rest;
    SentCountSplit(called, rest, k);
    SentCountAny(rest, k);
    assert forall i :: |called| <= i < |all| ==> rest[i - |called|] == w.registered[i].handler;
    if ResponseSent(k) in rest {
      var j :| 0 <= j < |rest| && rest[j] == ResponseSent(k);
      assert w.registered[j + |called|].handler == ResponseSent(k);
    }
  }

  /** Over every run, whatever fails: the callback of the `serve_one_request` that
      led to call `k` of the implementation is called once, when the call has been
      answered, with a result or an error, and unless the response is still with the
      writer; and never more than that. */
  lemma ReportedExactly(interface_: Interface, events: seq<Event>, k: nat)
    requires Legal(New(interface_), events)
    ensures var e := RunAll(New(interface_), events);
            && IdCount(e.log.reported, k) == One(k < |e.invoked| && k !in e.open && !Unacknowledged(e.writer, k))
            && (k in e.open ==> k < |e.invoked| && !Unacknowledged(e.writer, k))
            && (Rest(e) && !e.writer.inFlight ==> !Unacknowledged(e.writer, k))
  {
    hide Served, New, Connection.Step, Enabled, Unacknowledged, IdCount;
    NewServed(interface_);
    RunServed(New(interface_), events);
    ServedExactly(RunAll(New(interface_), events), k);
  }

  lemma ServedExactly(e: Endpoint, k: nat)
    requires Served(e)
    ensures IdCount(e.log.reported, k) == One(k < |e.invoked| && k !in e.open && !Unacknowledged(e.writer, k))
    ensures k in e.open ==> k < |e.invoked| && !Unacknowledged(e.writer, k)
    ensures Rest(e) && !e.writer.inFlight ==> !Unacknowledged(e.writer, k)
  {
    hide W.Invariant, SentCount, Unacknowledged, IdCount;
    PendingCount(e.writer, k);
    assert OnceEach(e, k);
  }
}
