/** `buffered_writer` with its chain of result handlers. */
module BufferedWriters {
  import opened BigEndian
  import opened ParseOperations
  import opened WriterModel

  /** A link of the chain, newest handler first. Links never change. */
  class ResultHandler<H> {
    const handler: H
    const next: ResultHandler?<H>
    ghost const Handlers: seq<H>

    /** `Handlers` lists the chain, oldest handler first. */
    ghost predicate Valid()
      decreases |Handlers|
    {
      if next == null then Handlers == [handler]
      else |next.Handlers| < |Handlers| && next.Valid() && Handlers == next.Handlers + [handler]
    }

    constructor (handler: H, next: ResultHandler?<H>)
      requires next != null ==> next.Valid()
      ensures Valid()
      ensures Handlers == (if next == null then [] else next.Handlers) + [handler]
    {
      this.handler := handler;
      this.next := next;
      Handlers := (if next == null then [] else next.Handlers) + [handler];
    }

    /** `handle_result`: the handlers before this one come first. */
    method HandleResult(before: seq<H>) returns (calls: seq<H>)
      requires Valid()
      ensures calls == before + Handlers
      decreases |Handlers|
    {
      calls := before;
      if next != null {
        calls := next.HandleResult(calls);
      }
      calls := calls + [handler];
    }
  }

  /** The shared cell that the state and the completion of the write in flight
      both refer to. */
  class HandlerQueue<H> {
    var head: ResultHandler?<H>

    constructor ()
      ensures head == null
    {
      head := null;
    }
  }

  datatype SendState<H> =
    | NotSending
    | Sending(beingWritten: seq<byte>, bufferHandlerQueue: HandlerQueue<H>)

  /** The completion handler of the write in flight: the one `send_buffer` was
      called with, or a chain collected during the write before. */
  datatype Completion<H> =
    | NoCompletion
    | First(queue: HandlerQueue<H>, handler: H)
    | Chained(queue: HandlerQueue<H>, handlers: ResultHandler<H>)

  lemma {:induction false} ReverseInvolution<H>(s: seq<H>)
    ensures Reverse(Reverse(s)) == s
  {
    if s != [] {
      ReverseInvolution(s[1..]);
      ReverseSnoc(Reverse(s[1..]), s[0]);
    }
  }

  lemma {:induction false} ReverseSnoc<H>(s: seq<H>, h: H)
    ensures Reverse(s + [h]) == [h] + Reverse(s)
  {
    if s == [] {
      assert s + [h] == [h];
    } else {
      assert (s + [h])[1..] == s[1..] + [h];
      ReverseSnoc(s[1..], h);
    }
  }

  lemma ChainGrows<H>(next: ResultHandler?<H>, h: H)
    ensures Reverse((if next == null then [] else next.Handlers) + [h])
         == [h] + (if next == null then [] else Reverse(next.Handlers))
  {
    if next != null {
      ReverseSnoc(next.Handlers, h);
    } else {
      assert [] + [h] == [h];
    }
  }

  class BufferedWriter<H> {
    var buffer: seq<byte>
    var state: SendState<H>
    /** What `async_write` was last given and has not been called back. */
    var completion: Completion<H>
    /** The rest of the calls for the write that has completed. */
    var calling: seq<H>
    /** The cell from which `continue_send` takes its handlers after the calls. */
    var resuming: HandlerQueue?<H>
    ghost var appended: seq<byte>
    ghost var writes: seq<seq<byte>>
    ghost var results: seq<ErrorCode>
    ghost var registered: seq<Registration<H>>
    ghost var called: seq<Call<H>>
    ghost var Repr: set<object>

    ghost function Queued(): seq<H>
      reads this, if state.Sending? then {state.bufferHandlerQueue} else {}
    {
      if state.Sending? && state.bufferHandlerQueue.head != null
      then Reverse(state.bufferHandlerQueue.head.Handlers) else []
    }

    ghost predicate Valid()
      reads this, Repr
    {
      && this in Repr
      && (state.Sending? ==>
            && state.bufferHandlerQueue in Repr
            && (state.bufferHandlerQueue.head != null ==> state.bufferHandlerQueue.head.Valid())
            && (completion.NoCompletion? <==> resuming != null)
            && (!completion.NoCompletion? ==> completion.queue == state.bufferHandlerQueue)
            && (resuming != null ==> resuming == state.bufferHandlerQueue))
      && (state.NotSending? ==> completion.NoCompletion? && resuming == null)
      && (completion.Chained? ==> completion.handlers.Valid())
      && (!completion.NoCompletion? ==> writes != [] && state.beingWritten == writes[|writes| - 1])
      && Invariant(State())
    }

    /** The state of the machine. */
    ghost function State(): Writer<H>
      reads this, if state.Sending? then {state.bufferHandlerQueue} else {}
    {
      Writer(
        buffer, state.Sending?, !completion.NoCompletion?,
        match completion
        case NoCompletion => []
        case First(_, h) => [h]
        case Chained(_, hs) => hs.Handlers,
        Queued(), calling, resuming != null,
        appended, writes, results, registered, called)
    }

    constructor ()
      ensures Valid() && fresh(Repr) && State() == Idle()
    {
      buffer, state, completion, calling, resuming := [], NotSending, NoCompletion, [], null;
      appended, writes, results, registered, called := [], [], [], [], [];
      Repr := {this};
      new;
      IdleInvariant<H>();
    }

    /** Writing to `buffer_sink()`. */
    method Append(bytes: seq<byte>)
      requires Valid()
      modifies this
      ensures Valid() && Repr == old(Repr)
      ensures State() == WriterModel.Append(old(State()), bytes)
    {
      AppendKeeps(State(), bytes);
      buffer := buffer + bytes;
      appended := appended + bytes;
    }

    /** `prepare_send_state`. */
    method PrepareSendState() returns (queue: HandlerQueue<H>)
      modifies this
      ensures fresh(queue) && queue.head == null
      ensures state == Sending(old(buffer), queue) && buffer == []
      ensures writes == old(writes) + [old(buffer)] && Repr == old(Repr) + {queue}
      ensures unchanged(this`completion, this`calling, this`resuming)
      ensures unchanged(this`appended, this`results, this`registered, this`called)
    {
      queue := new HandlerQueue();
      state := Sending(buffer, queue);
      writes := writes + [buffer];
      buffer := [];
      Repr := Repr + {queue};
    }

    method SendBuffer(onResult: H)
      requires Valid() && buffer != []
      modifies Repr
      ensures Valid() && fresh(Repr - old(Repr))
      ensures State() == WriterModel.SendBuffer(old(State()), onResult)
    {
      if state.NotSending? {
        SendNow(onResult);
      } else {
        SendLater(onResult);
      }
    }

    method SendNow(onResult: H)
      requires Valid() && buffer != [] && state.NotSending?
      modifies Repr
      ensures Valid() && fresh(Repr - old(Repr))
      ensures State() == WriterModel.SendBuffer(old(State()), onResult)
    {
      hide Invariant;
      StepKeeps(State(), DoSend(onResult));
      registered := registered + [Registration(onResult, |appended|, |writes|)];
      var queue := PrepareSendState();
      completion := First(queue, onResult);
    }

    method SendLater(onResult: H)
      requires Valid() && buffer != [] && state.Sending?
      modifies Repr
      ensures Valid() && fresh(Repr - old(Repr))
      ensures State() == WriterModel.SendBuffer(old(State()), onResult)
    {
      hide Invariant, Flatten, ResultHandler.Valid;
      StepKeeps(State(), DoSend(onResult));
      registered := registered + [Registration(onResult, |appended|, |writes|)];
      var queue := state.bufferHandlerQueue;
      var nextHandler := queue.head;
      ChainGrows(nextHandler, onResult);
      var link := new ResultHandler(onResult, nextHandler);
      queue.head := link;
      assert Queued() == [onResult] + old(Queued());
    }

    /** The handlers of the write in flight, oldest first. */
    method TakeHandlers() returns (handlers: seq<H>)
      requires !completion.NoCompletion? && (completion.Chained? ==> completion.handlers.Valid())
      ensures handlers == State().batch
    {
      match completion {
        case First(_, onResult) =>
          handlers := [onResult];
        case Chained(_, chain) =>
          handlers := chain.HandleResult([]);
          assert [] + chain.Handlers == chain.Handlers;
      }
    }

    lemma WriteInFlight(w: Writer<H>, code: ErrorCode)
      requires Enabled(w, DoComplete(code))
      ensures w.inFlight && w.calling == [] && !w.resume
      ensures Step(w, DoComplete(code)) == Complete(w, code)
    {
    }

    lemma HeadCounts(queue: HandlerQueue<H>)
      requires queue.head != null ==> queue.head.Valid()
      ensures queue.head != null ==> queue.head.Handlers != [] && Reverse(queue.head.Handlers) != []
    {
    }

    /** `finish_send`, called with the result of the write. */
    method FinishSend(code: ErrorCode)
      requires Valid() && Enabled(State(), DoComplete(code))
      modifies this`completion, this`calling, this`results, this`state, this`resuming
      ensures Valid() && Repr == old(Repr)
      ensures State() == Complete(old(State()), code)
    {
      hide Invariant, ResultHandler.Valid, Reverse, Enabled;
      ghost var before := State();
      StepKeeps(before, DoComplete(code));
      WriteInFlight(before, code);
      var queue := completion.queue;
      HeadCounts(queue);
      assert before.queue == [] <==> queue.head == null;
      calling := TakeHandlers();
      completion := NoCompletion;
      results := results + [code];
      Resume(queue);
    }

    /** The next write is started after the calls if there is something to write
        and a handler for it. */
    method Resume(queue: HandlerQueue<H>)
      requires resuming == null
      modifies this`state, this`resuming
      ensures buffer != [] && queue.head != null ==> state == old(state) && resuming == queue
      ensures buffer == [] || queue.head == null ==> state == NotSending && resuming == null
    {
      if buffer == [] {
        state := NotSending;
      } else if queue.head != null {
        resuming := queue;
      } else {
        state := NotSending;
      }
    }

    /** The next handler of the completed write is called. */
    method CallNext() returns (handler: H)
      requires Valid() && Enabled(State(), DoCall)
      modifies this
      ensures Valid() && Repr == old(Repr)
      ensures handler == old(calling)[0]
      ensures State() == WriterModel.CallNext(old(State()))
    {
      StepKeeps(State(), DoCall);
      handler := calling[0];
      called := called + [Call(handler, results[|results| - 1])];
      calling := calling[1..];
    }

    /** `continue_send`. */
    method ContinueSend()
      requires Valid() && Enabled(State(), DoContinue)
      modifies this
      ensures Valid() && fresh(Repr - old(Repr))
      ensures State() == Continue(old(State()))
    {
      StepKeeps(State(), DoContinue);
      var handlers := resuming.head;
      ReverseInvolution(handlers.Handlers);
      var queue := PrepareSendState();
      completion := Chained(queue, handlers);
      resuming := null;
    }
  }
}
