/** The buffered writer as a state machine, with a record of everything that was
    appended, written, registered and called.

    The machine moves in the steps between which other code can run: a write
    completes, a handler is called (and may append and send more), the next write
    is started. A write never completes before the calls for the previous one are
    over, because both happen on the same event loop. */
module WriterModel {
  import opened BigEndian
  import opened ParseOperations
  import Seqs

  type ErrorCode = int

  /** A call of `send_buffer`: what had been appended by then, and the position
      of the write that takes the buffer's content. */
  datatype Registration<H> = Registration(handler: H, appended: nat, write: nat)

  datatype Call<H> = Call(handler: H, code: ErrorCode)

  datatype Writer<H> = Writer(
    buffer: seq<byte>,
    sending: bool,
    /** A write was started and has not completed. */
    inFlight: bool,
    /** The handlers of the write in flight, oldest first. */
    batch: seq<H>,
    /** The handlers registered while sending, newest first. */
    queue: seq<H>,
    /** The handlers of the completed write still to be called, oldest first. */
    calling: seq<H>,
    /** After these calls the next write is to be started. */
    resume: bool,
    appended: seq<byte>,
    writes: seq<seq<byte>>,
    results: seq<ErrorCode>,
    registered: seq<Registration<H>>,
    called: seq<Call<H>>)

  function Idle<H>(): Writer<H> {
    Writer([], false, false, [], [], [], false, [], [], [], [], [])
  }

  function Reverse<H>(s: seq<H>): (r: seq<H>)
    ensures |r| == |s|
  {
    if s == [] then [] else Reverse(s[1..]) + [s[0]]
  }

  function Append<H>(w: Writer<H>, bytes: seq<byte>): Writer<H> {
    w.(buffer := w.buffer + bytes, appended := w.appended + bytes)
  }

  /** `prepare_send_state` and `async_write`. */
  function StartWrite<H>(w: Writer<H>, batch: seq<H>): Writer<H> {
    w.(buffer := [], sending := true, inFlight := true, batch := batch, queue := [], writes := w.writes + [w.buffer])
  }

  function SendBuffer<H>(w: Writer<H>, h: H): Writer<H> {
    var w' := w.(registered := w.registered + [Registration(h, |w.appended|, |w.writes|)]);
    if w.sending then w'.(queue := [h] + w.queue) else StartWrite(w', [h])
  }

  /** `finish_send` up to the point where it calls the handlers. */
  function Complete<H>(w: Writer<H>, code: ErrorCode): Writer<H> {
    var w' := w.(inFlight := false, batch := [], calling := w.batch, results := w.results + [code]);
    if w.buffer == [] then w'.(sending := false, queue := [], resume := false)
    else if w.queue != [] then w'.(resume := true)
    else w'.(sending := false, resume := false)
  }

  function CallNext<H>(w: Writer<H>): Writer<H>
    requires w.calling != [] && w.results != []
  {
    w.(calling := w.calling[1..], called := w.called + [Call(w.calling[0], w.results[|w.results| - 1])])
  }

  /** `continue_send`. */
  function Continue<H>(w: Writer<H>): Writer<H> {
    StartWrite(w, Reverse(w.queue)).(resume := false)
  }

  // ----- runs -----

  datatype Event<H> =
    | DoAppend(bytes: seq<byte>)
    | DoSend(handler: H)
    | DoComplete(code: ErrorCode)
    | DoCall
    | DoContinue

  /** Appending is always allowed, sending when there is something to send, both
      also from inside a handler. */
  predicate Enabled<H>(w: Writer<H>, e: Event<H>) {
    match e
    case DoAppend(_) => true
    case DoSend(_) => w.buffer != []
    case DoComplete(_) => w.inFlight && w.calling == [] && !w.resume
    case DoCall => w.calling != [] && w.results != []
    case DoContinue => w.calling == [] && w.resume
  }

  function Step<H>(w: Writer<H>, e: Event<H>): Writer<H>
    requires Enabled(w, e)
  {
    match e
    case DoAppend(bytes) => Append(w, bytes)
    case DoSend(h) => SendBuffer(w, h)
    case DoComplete(code) => Complete(w, code)
    case DoCall => CallNext(w)
    case DoContinue => Continue(w)
  }

  predicate Legal<H>(w: Writer<H>, events: seq<Event<H>>)
    decreases |events|
  {
    events == [] || (Enabled(w, events[0]) && Legal(Step(w, events[0]), events[1..]))
  }

  function RunAll<H>(w: Writer<H>, events: seq<Event<H>>): Writer<H>
    requires Legal(w, events)
    decreases |events|
  {
    if events == [] then w else RunAll(Step(w, events[0]), events[1..])
  }

  // ----- what every step keeps -----

  /** All bytes appended are written, in order, or still in the buffer; no write
      is empty; at most one write is in flight. */
  predicate Conserves<H>(w: Writer<H>) {
    && w.appended == Flatten(w.writes) + w.buffer
    && (forall i :: 0 <= i < |w.writes| ==> w.writes[i] != [])
    && |w.writes| == |w.results| + (if w.inFlight then 1 else 0)
  }

  predicate Consistent<H>(w: Writer<H>) {
    && (w.sending <==> w.inFlight || w.resume)
    && !(w.inFlight && w.resume)
    && (w.batch != [] <==> w.inFlight)
    && (w.queue != [] ==> w.sending && w.buffer != [])
    && (w.resume ==> w.queue != [])
    && (w.calling != [] ==> w.results != [])
  }

  function Handlers<H>(rs: seq<Registration<H>>): (hs: seq<H>)
    ensures |hs| == |rs|
    ensures forall i :: 0 <= i < |rs| ==> hs[i] == rs[i].handler
  {
    seq(|rs|, i requires 0 <= i < |rs| => rs[i].handler)
  }

  function CalledHandlers<H>(cs: seq<Call<H>>): (hs: seq<H>)
    ensures |hs| == |cs|
    ensures forall i :: 0 <= i < |cs| ==> hs[i] == cs[i].handler
  {
    seq(|cs|, i requires 0 <= i < |cs| => cs[i].handler)
  }

  /** The handlers in the order of their registration: those called, those being
      called, those of the write in flight, those queued. */
  ghost predicate Ordered<H>(w: Writer<H>) {
    Handlers(w.registered) == CalledHandlers(w.called) + w.calling + w.batch + Reverse(w.queue)
  }

  /** The write that answers the registration at position `i`. */
  function ExpectedWrite<H>(w: Writer<H>, i: nat): int {
    if i < |w.called| + |w.calling| then |w.results| - 1
    else if i < |w.called| + |w.calling| + |w.batch| then |w.writes| - 1
    else |w.writes|
  }

  /** Every call so far had the code of the write that took the content of the
      buffer at its registration; that write has everything appended before. */
  predicate Answered<H>(w: Writer<H>) {
    && |w.called| <= |w.registered|
    && (forall i :: 0 <= i < |w.called| ==>
          && w.registered[i].write < |w.results|
          && w.called[i].code == w.results[w.registered[i].write])
    && (forall i :: |w.called| <= i < |w.registered| ==> w.registered[i].write == ExpectedWrite(w, i))
    && (forall i :: 0 <= i < |w.registered| ==> Covers(w, w.registered[i]))
  }

  /** The bytes appended before a registration, as far as writes have been
      started for them, end with the write that answers it. */
  predicate Covers<H>(w: Writer<H>, r: Registration<H>) {
    && r.appended <= |w.appended|
    && (r.write < |w.writes| ==> |Flatten(w.writes[..r.write])| < r.appended <= |Flatten(w.writes[..r.write + 1])|)
    && (r.write == |w.writes| ==> |Flatten(w.writes)| < r.appended)
    && r.write <= |w.writes|
  }

  ghost predicate Invariant<H>(w: Writer<H>) {
    Conserves(w) && Consistent(w) && Ordered(w) && Answered(w)
  }

  lemma IdleInvariant<H>()
    ensures Invariant(Idle<H>())
  {
  }

  lemma AppendKeeps<H>(w: Writer<H>, bytes: seq<byte>)
    requires Invariant(w)
    ensures Invariant(Append(w, bytes))
  {
    var w' := Append(w, bytes);
    Seqs.Assoc(Flatten(w.writes), w.buffer, bytes);
    forall i | 0 <= i < |w'.registered|
      ensures Covers(w', w'.registered[i])
    {
      assert Covers(w, w.registered[i]);
    }
  }

  lemma HandlersSnoc<H>(rs: seq<Registration<H>>, r: Registration<H>)
    ensures Handlers(rs + [r]) == Handlers(rs) + [r.handler]
  {
  }

  lemma StartWriteCovers<H>(w: Writer<H>, batch: seq<H>, r: Registration<H>)
    requires Conserves(w) && Covers(w, r) && w.buffer != []
    ensures Covers(StartWrite(w, batch), r)
  {
    FlattenSnoc(w.writes, w.buffer);
    var writes := w.writes + [w.buffer];
    assert writes[..|w.writes|] == w.writes && writes[..|w.writes| + 1] == writes;
    if r.write < |w.writes| {
      assert writes[..r.write] == w.writes[..r.write] && writes[..r.write + 1] == w.writes[..r.write + 1];
    }
  }

  lemma StartWriteConserves<H>(w: Writer<H>, batch: seq<H>)
    requires Conserves(w) && !w.inFlight && w.buffer != []
    ensures Conserves(StartWrite(w, batch))
  {
    FlattenSnoc(w.writes, w.buffer);
  }

  lemma SendKeepsWhileSending<H>(w: Writer<H>, h: H)
    requires Invariant(w) && w.buffer != [] && w.sending
    ensures Invariant(SendBuffer(w, h))
  {
    var w' := SendBuffer(w, h);
    HandlersSnoc(w.registered, Registration(h, |w.appended|, |w.writes|));
    assert w'.queue[1..] == w.queue;
    var front := CalledHandlers(w.called) + w.calling + w.batch;
    Seqs.Assoc(front, Reverse(w.queue), [h]);
    forall i | 0 <= i < |w'.registered|
      ensures Covers(w', w'.registered[i])
    {
      if i < |w.registered| {
        assert Covers(w, w.registered[i]);
      }
    }
  }

  lemma SendKeepsWhenIdle<H>(w: Writer<H>, h: H)
    requires Invariant(w) && w.buffer != [] && !w.sending
    ensures Invariant(SendBuffer(w, h))
  {
    hide Covers, Flatten, CalledHandlers;
    var r := Registration(h, |w.appended|, |w.writes|);
    HandlersSnoc(w.registered, r);
    StartWriteConserves(w.(registered := w.registered + [r]), [h]);
    SendCovers(w, h);
    assert w.queue == [] && w.batch == [];
  }

  lemma SendCovers<H>(w: Writer<H>, h: H)
    requires Conserves(w) && Answered(w) && w.buffer != [] && !w.sending
    ensures var w' := SendBuffer(w, h);
            forall i :: 0 <= i < |w'.registered| ==> Covers(w', w'.registered[i])
  {
    var r := Registration(h, |w.appended|, |w.writes|);
    var w1 := w.(registered := w.registered + [r]);
    var w' := SendBuffer(w, h);
    forall i | 0 <= i < |w'.registered|
      ensures Covers(w', w'.registered[i])
    {
      if i < |w.registered| {
        assert Covers(w, w.registered[i]);
      }
      assert Covers(w1, w1.registered[i]);
      StartWriteCovers(w1, [h], w1.registered[i]);
    }
  }

  lemma CompleteKeeps<H>(w: Writer<H>, code: ErrorCode)
    requires Invariant(w) && Enabled(w, DoComplete(code))
    ensures Invariant(Complete(w, code))
  {
    var w' := Complete(w, code);
    assert w.calling == [];
    forall i | 0 <= i < |w'.registered|
      ensures Covers(w', w'.registered[i])
    {
      assert Covers(w, w.registered[i]);
    }
    assert CalledHandlers(w.called) + [] + w.batch == CalledHandlers(w.called) + w.batch + [];
  }

  lemma CallKeeps<H>(w: Writer<H>)
    requires Invariant(w) && Enabled(w, DoCall)
    ensures Invariant(CallNext(w))
  {
    var w' := CallNext(w);
    assert CalledHandlers(w'.called) == CalledHandlers(w.called) + [w.calling[0]];
    assert CalledHandlers(w'.called) + w'.calling == CalledHandlers(w.called) + w.calling;
    assert w.registered[|w.called|].write == ExpectedWrite(w, |w.called|);
    forall i | 0 <= i < |w'.registered|
      ensures Covers(w', w'.registered[i])
    {
      assert Covers(w, w.registered[i]);
    }
  }

  lemma ContinueKeeps<H>(w: Writer<H>)
    requires Invariant(w) && Enabled(w, DoContinue)
    ensures Invariant(Continue(w))
  {
    var w' := Continue(w);
    StartWriteConserves(w, Reverse(w.queue));
    assert Reverse<H>([]) == [];
    forall i | 0 <= i < |w'.registered|
      ensures Covers(w', w'.registered[i])
    {
      assert Covers(w, w.registered[i]);
      StartWriteCovers(w, Reverse(w.queue), w.registered[i]);
    }
  }

  lemma StepKeeps<H>(w: Writer<H>, e: Event<H>)
    requires Invariant(w) && Enabled(w, e)
    ensures Invariant(Step(w, e))
  {
    match e
    case DoAppend(bytes) => AppendKeeps(w, bytes);
    case DoSend(h) =>
      if w.sending {
        SendKeepsWhileSending(w, h);
      } else {
        SendKeepsWhenIdle(w, h);
      }
    case DoComplete(code) => CompleteKeeps(w, code);
    case DoCall => CallKeeps(w);
    case DoContinue => ContinueKeeps(w);
  }

  lemma {:induction false} RunKeeps<H>(w: Writer<H>, events: seq<Event<H>>)
    requires Invariant(w) && Legal(w, events)
    ensures Invariant(RunAll(w, events))
    decreases |events|
  {
    if events != [] {
      StepKeeps(w, events[0]);
      RunKeeps(Step(w, events[0]), events[1..]);
    }
  }

  // ----- what a write takes -----

  /** A write is started in a step if and only if something is sent while none is in
      flight or due, or one that was due goes on; and it takes everything that has
      been appended and not written. */
  lemma WriteTakesAll<H>(w: Writer<H>, e: Event<H>)
    requires Invariant(w) && Enabled(w, e)
    ensures var w' := Step(w, e);
            && (w'.writes != w.writes <==> e.DoContinue? || (e.DoSend? && !w.inFlight && !w.resume))
            && (w'.writes != w.writes ==>
                  w'.writes == w.writes + [w.buffer] && w'.buffer == [] && Flatten(w'.writes) == w'.appended)
  {
    hide Ordered, Answered;
    FlattenSnoc(w.writes, w.buffer);
  }

  /** When a write has completed the next one is due if and only if somebody has sent
      something in the meantime. */
  lemma NextIsDue<H>(w: Writer<H>, code: ErrorCode)
    requires Invariant(w) && Enabled(w, DoComplete(code))
    ensures Complete(w, code).resume <==> exists i :: 0 <= i < |w.registered| && w.registered[i].write == |w.writes|
  {
    var n := |w.called| + |w.calling| + |w.batch|;
    assert |w.registered| == |Handlers(w.registered)| == n + |w.queue|;
    if w.queue != [] {
      assert ExpectedWrite(w, n) == |w.writes|;
      assert w.registered[n].write == |w.writes|;
    } else {
      forall i | 0 <= i < |w.registered|
        ensures w.registered[i].write != |w.writes|
      {
        if i >= |w.called| {
          assert w.registered[i].write == ExpectedWrite(w, i);
        }
      }
    }
  }

  // ----- what the invariant says about every run from the start -----

  /** The assertions of the source: a write is only started with something to
      write and, when continuing, with handlers to call. */
  lemma AssertionsHold<H>(events: seq<Event<H>>)
    requires Legal(Idle(), events)
    ensures var w := RunAll(Idle<H>(), events);
            && (w.sending ==> w.inFlight || w.resume)
            && (w.resume ==> w.queue != [] && w.buffer != [])
  {
    IdleInvariant<H>();
    RunKeeps(Idle(), events);
  }

  /** Conservation, over every run. */
  lemma BytesAreConserved<H>(events: seq<Event<H>>)
    requires Legal(Idle(), events)
    ensures var w := RunAll(Idle<H>(), events);
            && Flatten(w.writes) + w.buffer == w.appended
            && (forall i :: 0 <= i < |w.writes| ==> w.writes[i] != [])
            && |w.results| <= |w.writes| <= |w.results| + 1
  {
    IdleInvariant<H>();
    RunKeeps(Idle(), events);
  }

  /** Handlers are called at most once and in the order they were registered:
      the calls made are a prefix of the registrations. When no write is in
      flight and no call is due, all of them have been called. */
  lemma CalledInOrder<H>(events: seq<Event<H>>)
    requires Legal(Idle(), events)
    ensures var w := RunAll(Idle<H>(), events);
            && |w.called| <= |w.registered|
            && (forall i :: 0 <= i < |w.called| ==> w.called[i].handler == w.registered[i].handler)
            && (!w.inFlight && w.calling == [] && !w.resume ==> |w.called| == |w.registered|)
  {
    IdleInvariant<H>();
    RunKeeps(Idle(), events);
    var w := RunAll(Idle<H>(), events);
    forall i | 0 <= i < |w.called|
      ensures w.called[i].handler == w.registered[i].handler
    {
      assert Handlers(w.registered)[i] == CalledHandlers(w.called)[i];
    }
  }

  /** What a handler learns: the code of the write that took the buffer as it was
      when the handler was registered. By then the writes that have finished
      hold every byte appended before the registration. */
  lemma Acknowledged<H>(events: seq<Event<H>>, i: nat)
    requires Legal(Idle(), events) && i < |RunAll(Idle<H>(), events).called|
    ensures var w := RunAll(Idle<H>(), events);
            && |w.called| <= |w.registered|
            && w.called[i].handler == w.registered[i].handler
            && w.registered[i].write < |w.results| <= |w.writes|
            && w.called[i].code == w.results[w.registered[i].write]
            && |Flatten(w.writes[..w.registered[i].write])| < w.registered[i].appended
            && w.registered[i].appended <= |Flatten(w.writes[..w.registered[i].write + 1])|
            && w.registered[i].appended <= |w.appended|
            && w.appended[..w.registered[i].appended] <= Flatten(w.writes[..|w.results|])
  {
    IdleInvariant<H>();
    RunKeeps(Idle(), events);
    CalledInOrder(events);
    var w := RunAll(Idle<H>(), events);
    assert Covers(w, w.registered[i]);
    FinishedWritesHold(w, w.registered[i]);
  }

  lemma FinishedWritesHold<H>(w: Writer<H>, r: Registration<H>)
    requires Conserves(w) && Covers(w, r) && r.write < |w.results|
    ensures w.appended[..r.appended] <= Flatten(w.writes[..|w.results|])
  {
    var finished := w.writes[..|w.results|];
    FlattenSplit(w.writes, |w.results|);
    FlattenSplit(finished, r.write + 1);
    assert finished[..r.write + 1] == w.writes[..r.write + 1];
    assert w.appended == Flatten(finished) + (Flatten(w.writes[|w.results|..]) + w.buffer);
  }
}
