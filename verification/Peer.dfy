/** An endpoint that makes requests and serves them, receiving the responses to its
    own requests in any order and the requests of its peer, cut in any way. */
module Peer {
  import opened WireTypes
  import opened BigEndian
  import opened WireFormat
  import opened RoundTrip
  import opened SplitterModel
  import opened Messages
  import opened Connection
  import opened ConnectionInvariant
  import opened Effects
  import opened IncomingStream
  import P = ParserMachine
  import Seqs
  import W = WriterModel

  // ----- the messages that may arrive -----

  /** A request that was sent. */
  predicate Issued(e: Endpoint, id: nat) {
    id < |e.issued| && e.issued[id].name in e.interface_ && id !in e.refused
  }

  /** The type its result has. */
  function ResultType(e: Endpoint, id: nat): Type
    requires Issued(e, id)
  {
    e.interface_[e.issued[id].name].result
  }

  /** A response the peer may send: to a request that was issued, of its type. */
  predicate Answers(e: Endpoint, m: Message) {
    m.ResponseOf? && Built(m) && Issued(e, m.id) && m.result == ResultType(e, m.id)
  }

  /** A request that a peer of the same interface may send. */
  predicate Asks(e: Endpoint, m: Message) {
    && m.RequestOf? && Built(m)
    && m.name in e.interface_ && e.interface_[m.name].parameters == m.parameters
  }

  predicate Fits(e: Endpoint, m: Message) {
    Answers(e, m) || Asks(e, m)
  }

  /** All messages fit, and no two of them respond to the same request. */
  predicate Incoming(e: Endpoint, ms: seq<Message>) {
    && (forall i :: 0 <= i < |ms| ==> Fits(e, ms[i]))
    && (forall i, j :: 0 <= i < j < |ms| && ms[i].ResponseOf? && ms[j].ResponseOf? ==> ms[i].id != ms[j].id)
  }

  /** The ids that the first `n` messages respond to. */
  predicate Taken(ms: seq<Message>, n: nat, id: nat)
    requires n <= |ms|
  {
    exists i :: 0 <= i < n && ms[i].ResponseOf? && ms[i].id == id
  }

  /** A value that one of the first `m` messages carries for the id. */
  predicate Delivered(ms: seq<Message>, m: nat, id: nat, v: Value)
    requires m <= |ms|
  {
    exists i :: 0 <= i < m && ms[i].ResponseOf? && ms[i].id == id && ms[i].value == v
  }

  /** The calls that are about to be made. */
  function Implementing(stack: seq<Frame>): seq<Invocation> {
    if stack == [] then []
    else
      (if stack[0].Implement? then [Invocation(stack[0].request, stack[0].name, stack[0].args)] else [])
      + Implementing(stack[1..])
  }

  // ----- the invariant -----

  /** The frames of a run without errors. */
  predicate FrameFits(ms: seq<Message>, m: nat, f: Frame)
    requires m <= |ms|
  {
    match f
    case NextResponse(id, v) => Delivered(ms, m, id, v)
    case Answer(id, v) => Delivered(ms, m, id, v)
    case AfterError(_) => false
    case FailAll(_, _) => false
    case ServeError => false
    case _ => true
  }

  predicate ReadingResult(c: Current) {
    c.SomeOp? && c.op.purpose.Result?
  }

  /** The operation under way is one that the message at position `m` needs, with
      the parser of its own request or method. */
  predicate OpFits(ms: seq<Message>, m: nat, c: Current) {
    match c
    case NoOp => true
    case SomeOp(op) =>
      match op.purpose
      case MessageType => true
      case ResponseHeader => m < |ms| && ms[m].ResponseOf?
      case RequestHeader => m < |ms| && ms[m].RequestOf?
      case Result(id, t) => m < |ms| && ms[m].ResponseOf? && ms[m].id == id && ms[m].result == t
      case Argument(id, name, ts) =>
        m < |ms| && ms[m].RequestOf? && ms[m].id == id && ms[m].name == name && ms[m].parameters == ts
  }

  /** The position in the stream. */
  predicate Stream(e: Endpoint, ms: seq<Message>, m: nat, c: Current) {
    At(e, ms, m, c) && OpFits(ms, m, c)
  }

  /** What is pending is what was issued and not answered by the first `n`. */
  ghost predicate Register(e: Endpoint, ms: seq<Message>, n: nat) {
    && n <= |ms| && Incoming(e, ms)
    && (forall i :: 0 <= i < |e.issued| ==> e.issued[i].name in e.interface_)
    && (forall i :: 0 <= i < |e.refused| ==> e.refused[i] < |e.issued|)
    && (forall id :: id in e.registry.expected <==> Issued(e, id) && !Taken(ms, n, id))
    && (forall id :: id in e.registry.expected ==> Issued(e, id) && e.registry.expected[id] == ResultType(e, id))
  }

  /** What was handed over are values and calls that the first `m` messages carry. */
  predicate Record(e: Endpoint, ms: seq<Message>, m: nat) {
    && m <= |ms|
    && (forall i :: 0 <= i < |e.stack| ==> FrameFits(ms, m, e.stack[i]))
    && (forall i :: 0 <= i < |e.answered| ==> Delivered(ms, m, e.answered[i].id, e.answered[i].value))
    && e.invoked + Implementing(e.stack) == Asked(ms[..m])
  }

  /** Nothing has gone wrong; who requests nothing waits for nothing. */
  predicate Fine(e: Endpoint) {
    && Conformable(e.interface_)
    && e.failed == [] && e.dropped == [] && e.clean && !e.halted
    && (e.issued == [] ==> e.registry.state == NotExpectingResponse)
  }

  /** The messages whose headers have been read. */
  function Past(m: nat, c: Current): nat {
    if ReadingResult(c) then m + 1 else m
  }

  ghost predicate Half(e: Endpoint, ms: seq<Message>, m: nat, c: Current) {
    Stream(e, ms, m, c) && Register(e, ms, Past(m, c)) && Record(e, ms, m) && Fine(e)
  }

  ghost predicate PeerInvariant(e: Endpoint, ms: seq<Message>, m: nat) {
    Base(e) && Half(e, ms, m, CurrentOp(e))
  }

  // ----- the parts of the invariant -----

  lemma SameStream(e: Endpoint, e': Endpoint, ms: seq<Message>, m: nat, c: Current)
    requires Stream(e, ms, m, c) && e'.received == e.received && e'.buffer == e.buffer
    ensures Stream(e', ms, m, c)
  {
    hide AllBytes, AllBuilt;
  }

  lemma SameRegister(e: Endpoint, e': Endpoint, ms: seq<Message>, n: nat)
    requires Register(e, ms, n)
    requires e'.interface_ == e.interface_ && e'.issued == e.issued && e'.refused == e.refused
    requires e'.registry.expected == e.registry.expected
    ensures Register(e', ms, n)
  {
    hide Built;
    assert forall id :: Issued(e', id) == Issued(e, id);
    forall i | 0 <= i < |ms|
      ensures Fits(e', ms[i])
    {
      assert Fits(e, ms[i]);
    }
  }

  lemma SameRecord(e: Endpoint, e': Endpoint, ms: seq<Message>, m: nat)
    requires Record(e, ms, m) && e'.stack == e.stack && e'.answered == e.answered && e'.invoked == e.invoked
    ensures Record(e', ms, m)
  {
    hide FrameFits, Delivered, Asked, Implementing;
  }

  lemma PushRecord(e: Endpoint, ms: seq<Message>, m: nat, f: Frame)
    requires Record(e, ms, m) && FrameFits(ms, m, f) && !f.Implement?
    ensures Record(Push(e, f), ms, m)
  {
    hide FrameFits, Delivered, Asked;
    PushImplementing(f, e.stack);
  }

  lemma PushImplementing(f: Frame, stack: seq<Frame>)
    ensures Implementing([f] + stack)
         == (if f.Implement? then [Invocation(f.request, f.name, f.args)] else []) + Implementing(stack)
    ensures !f.Implement? ==> Implementing([f] + stack) == Implementing(stack)
  {
    assert ([f] + stack)[1..] == stack;
    assert [] + Implementing(stack) == Implementing(stack);
  }

  lemma PopRecord(e: Endpoint, ms: seq<Message>, m: nat)
    requires Record(e, ms, m) && e.stack != [] && !e.stack[0].Implement?
    ensures Record(e.(stack := e.stack[1..]), ms, m) && FrameFits(ms, m, e.stack[0])
  {
    hide FrameFits, Delivered, Asked;
    assert [e.stack[0]] + e.stack[1..] == e.stack;
    PushImplementing(e.stack[0], e.stack[1..]);
  }

  /** One message further, of which nothing has been handed over yet. */
  lemma RecordAdvances(e: Endpoint, ms: seq<Message>, m: nat)
    requires Record(e, ms, m) && m < |ms|
    ensures forall i :: 0 <= i < |e.stack| ==> FrameFits(ms, m + 1, e.stack[i])
    ensures forall i :: 0 <= i < |e.answered| ==> Delivered(ms, m + 1, e.answered[i].id, e.answered[i].value)
    ensures Asked(ms[..m + 1]) == Asked(ms[..m])
                               + (if ms[m].RequestOf? then [Invocation(ms[m].id, ms[m].name, ms[m].args)] else [])
  {
    hide Implementing;
    assert ms[..m + 1][..m] == ms[..m] && ms[..m + 1][m] == ms[m];
    forall i | 0 <= i < |e.stack|
      ensures FrameFits(ms, m + 1, e.stack[i])
    {
      assert FrameFits(ms, m, e.stack[i]);
    }
    forall i | 0 <= i < |e.answered|
      ensures Delivered(ms, m + 1, e.answered[i].id, e.answered[i].value)
    {
      assert Delivered(ms, m, e.answered[i].id, e.answered[i].value);
    }
  }

  lemma ResultRecord(e: Endpoint, ms: seq<Message>, m: nat)
    requires Record(e, ms, m) && m < |ms| && ms[m].ResponseOf?
    ensures Record(Push(e, NextResponse(ms[m].id, ms[m].value)), ms, m + 1)
  {
    hide FrameFits, Asked, Implementing;
    RecordAdvances(e, ms, m);
    assert Asked(ms[..m]) + [] == Asked(ms[..m]);
    assert Record(e, ms, m + 1);
    FitsNow(ms, m);
    PushRecord(e, ms, m + 1, NextResponse(ms[m].id, ms[m].value));
  }

  lemma FitsNow(ms: seq<Message>, m: nat)
    requires m < |ms| && ms[m].ResponseOf?
    ensures Delivered(ms, m + 1, ms[m].id, ms[m].value)
    ensures FrameFits(ms, m + 1, NextResponse(ms[m].id, ms[m].value))
  {
  }

  lemma ArgumentRecord(e: Endpoint, ms: seq<Message>, m: nat)
    requires Record(e, ms, m) && m < |ms| && ms[m].RequestOf? && Serves(e.stack) == 0
    ensures Record(Push(e, Implement(ms[m].id, ms[m].name, ms[m].args)), ms, m + 1)
  {
    hide Delivered, Asked;
    RecordAdvances(e, ms, m);
    NoneImplementing(e.stack);
    PushImplementing(Implement(ms[m].id, ms[m].name, ms[m].args), e.stack);
    assert e.invoked + [] == e.invoked;
  }

  lemma {:induction false} NoneImplementing(stack: seq<Frame>)
    requires Serves(stack) == 0
    ensures Implementing(stack) == []
    decreases |stack|
  {
    if stack != [] {
      NoneImplementing(stack[1..]);
    }
  }

  /** The call is made. */
  lemma ImplementRecord(e: Endpoint, e': Endpoint, ms: seq<Message>, m: nat)
    requires Record(e, ms, m) && e.stack != [] && e.stack[0].Implement?
    requires e'.stack == e.stack[1..] && e'.answered == e.answered
    requires e'.invoked == e.invoked + [Invocation(e.stack[0].request, e.stack[0].name, e.stack[0].args)]
    ensures Record(e', ms, m)
  {
    hide FrameFits, Delivered, Asked;
    var f := e.stack[0];
    assert [f] + e.stack[1..] == e.stack;
    PushImplementing(f, e.stack[1..]);
    Seqs.Assoc(e.invoked, [Invocation(f.request, f.name, f.args)], Implementing(e.stack[1..]));
  }

  lemma AnswerRecord(e: Endpoint, ms: seq<Message>, m: nat, id: nat, v: Value)
    requires Record(e, ms, m) && Delivered(ms, m, id, v)
    ensures Record(e.(answered := e.answered + [Answered(id, v)]), ms, m)
  {
    hide FrameFits, Delivered, Asked, Implementing;
  }

  // ----- what the invariant of all endpoints adds -----

  lemma Facts(e: Endpoint, ms: seq<Message>, m: nat)
    requires PeerInvariant(e, ms, m)
    ensures Base(e) && m <= |ms|
    ensures var c := CurrentOp(e);
            && Half(e, ms, m, c) && Stream(e, ms, m, c) && Register(e, ms, Past(m, c)) && Record(e, ms, m) && Fine(e)
            && At(e, ms, m, c) && OpFits(ms, m, c)
    ensures e.clean && !e.halted
  {
  }

  /** With an operation about to run, the splitter is as it should be for it. */
  lemma AboutToParse(e: Endpoint, op: Op)
    requires Base(e) && e.clean && e.stack != [] && e.stack[0] == StartParse(op)
    ensures e.readers == [] && CurrentOp(e) == SomeOp(op) && Quiet(e.stack[1..]) && !e.faulty
    ensures op.purpose.ResponseHeader? ==> e.splitter.waitingForResponse && e.registry.state == ParsingHeader
    ensures op.purpose.RequestHeader? ==> e.splitter.waitingForRequest
    ensures IsHeader(op.purpose) ==> e.splitter.parsingHeader && !e.splitter.locked
    ensures !IsHeader(op.purpose) ==> e.splitter.locked && !e.splitter.parsingHeader
    ensures op.purpose.Result? ==> e.registry.state == ParsingResult
    ensures op.purpose.Argument? ==> Serves(e.stack[1..]) == 0
    ensures e.asserted
  {
    hide LogFits;
    PopSound(e);
    PopFacts(e);
  }

  lemma NothingToRun(e: Endpoint)
    requires Base(e) && e.stack != [] && !e.stack[0].StartParse?
    ensures Quiet(e.stack[1..]) && Quiet(e.stack)
  {
    hide Core, Awake;
    PopFacts(e);
  }

  /** Where no operation is about to run, the one under way waits for a read. */
  lemma QuietCurrent(e: Endpoint)
    requires Quiet(e.stack)
    ensures CurrentOp(e) == if e.readers != [] then SomeOp(e.readers[0]) else NoOp
  {
  }

  /** A header parse has been started: nothing was being read. */
  lemma StartedFacts(e: Endpoint, effect: Effect)
    requires Invariant(Apply(e, effect)) && e.clean && !e.halted
    ensures effect.begun
    ensures effect.starts ==> e.readers == [] && CurrentOp(Apply(e, effect)) == SomeOp(Op(MessageType, []))
  {
    hide Core, Awake;
    var e' := Apply(e, effect);
    if effect.starts {
      assert e'.stack[0].StartParse?;
      assert e'.readers != [] ==> !Quiet(e'.stack);
    }
  }

  lemma ApplyHalf(e: Endpoint, ms: seq<Message>, m: nat, effect: Effect)
    requires Quiet(e.stack) && Half(e, ms, m, CurrentOp(e)) && Invariant(Apply(e, effect))
    ensures Half(Apply(e, effect), ms, m, CurrentOp(Apply(e, effect)))
  {
    hide Invariant, Stream, Register, Record, Conformable;
    StartedFacts(e, effect);
    QuietCurrent(e);
    var e' := Apply(e, effect);
    SameRegister(e, e', ms, Past(m, CurrentOp(e)));
    if effect.starts {
      var op := Op(MessageType, []);
      StreamBegins(e, ms, m);
      SameStream(e, e', ms, m, SomeOp(op));
      PushRecord(e, ms, m, StartParse(op));
      SameRecord(Push(e, StartParse(op)), e', ms, m);
    } else {
      SameStream(e, e', ms, m, CurrentOp(e));
      SameRecord(e, e', ms, m);
      QuietCurrent(e');
    }
  }

  lemma StreamBegins(e: Endpoint, ms: seq<Message>, m: nat)
    requires Stream(e, ms, m, NoOp)
    ensures Stream(e, ms, m, SomeOp(Op(MessageType, [])))
  {
    NothingYet(e, ms, m, MessageType);
  }

  // ----- the parse operations -----

  /** An operation that has not seen enough waits for a read. */
  lemma WaitsOn(e: Endpoint, ms: seq<Message>, m: nat, op: Op)
    requires PeerInvariant(e, ms, m) && e.stack != [] && e.stack[0] == StartParse(op)
    requires Parse(PurposeType(op.purpose), op.fed + e.buffer).Waiting?
    ensures Half(Resume(e), ms, m, CurrentOp(Resume(e)))
  {
    hide PeerInvariant, Half, Base, At, Stream, Register, Record, Conformable, Resume, OnStartParse, Parse, OpFits;
    Facts(e, ms, m);
    AboutToParse(e, op);
    ResumeParse(e, op);
    var e1 := e.(stack := e.stack[1..]);
    ParseWaits(e1, op);
    PopRecord(e, ms, m);
    FedOn(e, ms, m, op);
    var op' := Op(op.purpose, op.fed + e.buffer);
    var e' := e1.(buffer := [], readers := [op']);
    assert Resume(e) == e';
    SameRegister(e, e', ms, Past(m, SomeOp(op)));
    SameRecord(e1, e', ms, m);
    SameAt(e.(buffer := []), e', ms, m, SomeOp(op'));
    Parts(e', ms, m, SomeOp(op'), op);
  }

  lemma Parts(e: Endpoint, ms: seq<Message>, m: nat, c: Current, op: Op)
    requires c.SomeOp? && c.op.purpose == op.purpose && OpFits(ms, m, SomeOp(op))
    requires At(e, ms, m, c) && Register(e, ms, Past(m, SomeOp(op))) && Record(e, ms, m) && Fine(e)
    ensures Half(e, ms, m, c)
  {
    hide At, Register, Record, Fine;
  }

  /** The type byte of the next message has arrived, and nobody waits for a
      message of its kind. */
  predicate Unwanted(e: Endpoint) {
    && e.stack != [] && e.stack[0].StartParse? && e.stack[0].op.purpose.MessageType?
    && var x := e.stack[0].op.fed + e.buffer;
       && x != []
       && !(x[0] == MESSAGE_RESPONSE && e.splitter.waitingForResponse)
       && !(x[0] == MESSAGE_REQUEST && e.splitter.waitingForRequest)
  }

  /** An error of the splitter, in a step that hands nothing over. */
  predicate Fails(e: Endpoint, e': Endpoint) {
    e'.faulty && e'.answered == e.answered && e'.invoked == e.invoked
  }

  function TypeByte(m: Message): byte {
    if m.RequestOf? then MESSAGE_REQUEST else MESSAGE_RESPONSE
  }

  /** What of a message follows its type byte. */
  function AfterType(m: Message): seq<byte>
    requires HasTypes(m)
  {
    match m
    case RequestOf(id, name, _, _) => (Encode(id, 8) + ([|name|] + name)) + Body(m).bytes
    case ResponseOf(id, _, _) => Encode(id, 8) + Body(m).bytes
  }

  lemma TypeFirst(m: Message)
    requires HasTypes(m)
    ensures Bytes(m) == [TypeByte(m)] + AfterType(m) && Bytes(m) == [] + ([TypeByte(m)] + AfterType(m))
  {
    match m {
      case RequestOf(id, name, _, _) =>
        Seqs.Assoc([MESSAGE_REQUEST], Encode(id, 8) + ([|name|] + name), Body(m).bytes);
      case ResponseOf(id, _, _) =>
        Seqs.Assoc([MESSAGE_RESPONSE], Encode(id, 8), Body(m).bytes);
    }
  }

  lemma FitsBuilt(e: Endpoint, ms: seq<Message>, m: nat, n: nat)
    requires Register(e, ms, n) && m < |ms|
    ensures Fits(e, ms[m]) && Built(ms[m])
  {
    assert Fits(e, ms[m]);
  }

  lemma TypeSeen(e: Endpoint, ms: seq<Message>, m: nat, op: Op)
    requires At(e, ms, m, SomeOp(op)) && op.purpose.MessageType? && m < |ms| && Built(ms[m])
    ensures var x := op.fed + e.buffer;
            if x == [] then Parse(Integer(MESSAGE_TYPE), x).Waiting?
            else
              && x[0] == TypeByte(ms[m]) && [TypeByte(ms[m])] <= x
              && Parse(Integer(MESSAGE_TYPE), x) == P.Done(IntegerValue(TypeByte(ms[m])), 1, false)
  {
    hide At, AllBytes, Bytes, AfterType;
    var n, rest := TypeByte(ms[m]), AfterType(ms[m]);
    var x := op.fed + e.buffer;
    TypeFirst(ms[m]);
    AtBuilt(e, ms, m, SomeOp(op));
    Visible(e, ms, m, op, [n], rest);
    if x == [] {
      NothingToParse(MessageType);
    } else {
      var more := rest + AllBytes(ms[m + 1..]);
      assert x[0] == ([n] + more)[0];
      MessageTypeWritten(n);
      TypeParsed(n, x);
    }
  }

  lemma AtBuilt(e: Endpoint, ms: seq<Message>, m: nat, c: Current)
    requires At(e, ms, m, c)
    ensures AllBuilt(ms) && m <= |ms| && AllBuilt(ms[..m]) && (m < |ms| ==> AllBuilt(ms[m + 1..]))
  {
  }

  lemma TypeParsed(n: byte, x: seq<byte>)
    requires x != [] && x[0] == n
    ensures Parse(Integer(MESSAGE_TYPE), x) == P.Done(IntegerValue(n), 1, false) && [n] <= x
  {
    MessageTypeWritten(n);
    var part := Write(Integer(MESSAGE_TYPE), IntegerValue(n)).bytes;
    assert part == [n] && x == [n] + x[1..];
    assert Width(MESSAGE_TYPE.maximum) == 1;
    P.RunIsRead(Integer(MESSAGE_TYPE), x);
    DecodeSnoc([], n);
    assert x[..1] == [] + [n];
  }

  /** The type byte of the next message is about to be decoded at a time when its
      kind is not waited for: that of a response after a result, before the next
      response is waited for; that of a request while no request is served, or
      after the arguments of one, before the implementation is called. */
  predicate Untimely(e: Endpoint) {
    && e.stack != [] && e.stack[0].StartParse? && e.stack[0].op.purpose.MessageType?
    && var x := e.stack[0].op.fed + e.buffer;
       && x != []
       && if x[0] == MESSAGE_RESPONSE then Nexts(e.stack) == 1 else !e.busy || Serves(e.stack) == 1
  }

  /** These are all the times at which nobody waits for the next message. */
  lemma UnwantedIsUntimely(e: Endpoint, ms: seq<Message>, m: nat)
    requires PeerInvariant(e, ms, m)
    ensures Unwanted(e) <==> Untimely(e)
  {
    hide PeerInvariant, At, Register, Record, Parse, Base, Nexts, Serves;
    if e.stack != [] && e.stack[0].StartParse? && e.stack[0].op.purpose.MessageType? {
      var op := e.stack[0].op;
      Facts(e, ms, m);
      AboutToParse(e, op);
      WaitersAre(e);
      if m == |ms| {
        AtEnd(e, ms, op);
      } else {
        FitsBuilt(e, ms, m, m);
        TypeSeen(e, ms, m, op);
        if ms[m].ResponseOf? {
          NextIsPending(e, ms, m);
        }
      }
    }
  }

  lemma WaitersAre(e: Endpoint)
    requires Base(e) && e.clean && e.stack != [] && e.stack[0].StartParse? && e.stack[0].op.purpose.MessageType?
    ensures e.splitter.waitingForResponse <==> e.registry.state == ParsingHeader
    ensures Nexts(e.stack) == One(e.registry.state == ParsingResult)
    ensures One(e.busy) == Serves(e.stack) + One(e.splitter.waitingForRequest)
    ensures e.registry.expected != map[] ==> e.registry.state != NotExpectingResponse
  {
    hide LogFits, Nexts, Serves, Errors;
  }

  /** A response that has not been read is to a request that is pending. */
  lemma NextIsPending(e: Endpoint, ms: seq<Message>, m: nat)
    requires Register(e, ms, m) && m < |ms| && ms[m].ResponseOf?
    ensures ms[m].id in e.registry.expected
  {
    hide Built;
    assert Fits(e, ms[m]);
  }

  /** The next message's type: somebody waits for it and its header is read next,
      or the endpoint meets an error. */
  lemma MessageTypeStep(e: Endpoint, ms: seq<Message>, m: nat, op: Op)
    requires PeerInvariant(e, ms, m) && e.stack != [] && e.stack[0] == StartParse(op) && op.purpose == MessageType
    ensures if Unwanted(e) then Fails(e, Resume(e))
            else Half(Resume(e), ms, m, CurrentOp(Resume(e))) && !Resume(e).faulty
  {
    hide PeerInvariant, Half, Base, At, Stream, Register, Record, Resume, OnStartParse, Parse, OpFits, Fine, Built;
    Facts(e, ms, m);
    AboutToParse(e, op);
    var x := op.fed + e.buffer;
    if m == |ms| {
      AtEnd(e, ms, op);
      NothingToParse(MessageType);
      WaitsOn(e, ms, m, op);
      WaitsClean(e, op);
    } else {
      FitsBuilt(e, ms, m, m);
      TypeSeen(e, ms, m, op);
      if x == [] {
        WaitsOn(e, ms, m, op);
        WaitsClean(e, op);
      } else {
        MessageTypeDone(e, ms, m, op);
      }
    }
  }

  lemma WaitsClean(e: Endpoint, op: Op)
    requires e.stack != [] && e.stack[0] == StartParse(op)
    requires Parse(PurposeType(op.purpose), op.fed + e.buffer).Waiting?
    ensures Resume(e).faulty == e.faulty
  {
    hide OnStartParse, Parse;
    ResumeParse(e, op);
    ParseWaits(e.(stack := e.stack[1..]), op);
  }

  lemma MessageTypeDone(e: Endpoint, ms: seq<Message>, m: nat, op: Op)
    requires PeerInvariant(e, ms, m) && e.stack != [] && e.stack[0] == StartParse(op) && op.purpose == MessageType
    requires m < |ms|
    requires var x := op.fed + e.buffer;
             && x != [] && x[0] == TypeByte(ms[m]) && [TypeByte(ms[m])] <= x
             && Parse(Integer(MESSAGE_TYPE), x) == P.Done(IntegerValue(TypeByte(ms[m])), 1, false)
    ensures if Unwanted(e) then Fails(e, Resume(e))
            else Half(Resume(e), ms, m, CurrentOp(Resume(e))) && !Resume(e).faulty
  {
    hide PeerInvariant, Half, Base, At, Stream, Register, Record, Resume, OnStartParse, Parse, Accept, SplitterError;
    var n := TypeByte(ms[m]);
    Facts(e, ms, m);
    AboutToParse(e, op);
    ResumeParse(e, op);
    var e1 := e.(stack := e.stack[1..]);
    var e2 := e1.(buffer := (op.fed + e.buffer)[1..]);
    ParseDone(e1, op);
    assert Resume(e) == OnMessageType(e2, n);
    if Unwanted(e) {
      SplitterErrorFaults(e2);
    } else {
      var header := if n == MESSAGE_RESPONSE then ResponseHeader else RequestHeader;
      assert Resume(e) == Accept(e2, n, header);
      AcceptHalf(e, e2, ms, m, op, header);
    }
  }

  lemma SplitterErrorFaults(e: Endpoint)
    ensures Fails(e, SplitterError(e))
  {
    hide RegistryError;
    if e.splitter.waitingForResponse {
      RegistryErrorSame(WaiterFails(Faulted(e)));
    }
  }

  lemma RegistryErrorSame(e: Endpoint)
    ensures var e' := RegistryError(e);
            e'.faulty == e.faulty && e'.answered == e.answered && e'.invoked == e.invoked
  {
  }

  lemma AcceptHalf(e: Endpoint, e2: Endpoint, ms: seq<Message>, m: nat, op: Op, header: Purpose)
    requires PeerInvariant(e, ms, m) && e.stack != [] && e.stack[0] == StartParse(op) && op.purpose == MessageType
    requires m < |ms| && [TypeByte(ms[m])] <= op.fed + e.buffer
    requires header == (if ms[m].RequestOf? then RequestHeader else ResponseHeader)
    requires e2 == e.(stack := e.stack[1..], buffer := (op.fed + e.buffer)[1..])
    ensures var e' := Accept(e2, TypeByte(ms[m]), header);
            Half(e', ms, m, CurrentOp(e')) && !e'.faulty
  {
    hide PeerInvariant, Base, At, Register, Record, Conformable;
    Facts(e, ms, m);
    AboutToParse(e, op);
    PopRecord(e, ms, m);
    var next := Op(header, []);
    var e' := Accept(e2, TypeByte(ms[m]), header);
    NextPart(e, ms, m, op, [TypeByte(ms[m])], header);
    SameAt(e.(buffer := e2.buffer), e', ms, m, SomeOp(next));
    SameRegister(e, e', ms, m);
    SameRecord(e.(stack := e.stack[1..]), e2, ms, m);
    PushRecord(e2, ms, m, StartParse(next));
    SameRecord(Push(e2, StartParse(next)), e', ms, m);
  }

  // ----- responses -----

  lemma ResponseHeaderStep(e: Endpoint, ms: seq<Message>, m: nat, op: Op)
    requires PeerInvariant(e, ms, m) && e.stack != [] && e.stack[0] == StartParse(op) && op.purpose == ResponseHeader
    ensures Half(Resume(e), ms, m, CurrentOp(Resume(e)))
  {
    hide PeerInvariant, Half, Base, At, Stream, Register, Record, Resume, OnStartParse, Parse, Fine, Bytes, Encode;
    Facts(e, ms, m);
    AboutToParse(e, op);
    FitsBuilt(e, ms, m, m);
    var r := ms[m];
    var x := op.fed + e.buffer;
    AtBuilt(e, ms, m, SomeOp(op));
    ResponseParts(r);
    Visible(e, ms, m, op, Encode(r.id, 8), Body(r).bytes);
    IdWritten(r.id);
    HeaderConforms();
    ParseAhead(Integer(REQUEST_ID), IntegerValue(r.id), Body(r).bytes + AllBytes(ms[m + 1..]), x);
    if Parse(Integer(REQUEST_ID), x).Waiting? {
      WaitsOn(e, ms, m, op);
    } else {
      ResponseHeaderDone(e, ms, m, op);
    }
  }

  lemma ResponseParts(r: Message)
    requires Built(r) && r.ResponseOf?
    ensures Bytes(r) == [MESSAGE_RESPONSE] + (Encode(r.id, 8) + Body(r).bytes)
    ensures Bytes(r) == ([MESSAGE_RESPONSE] + Encode(r.id, 8)) + (Body(r).bytes + [])
  {
    Seqs.Assoc([MESSAGE_RESPONSE], Encode(r.id, 8), Body(r).bytes);
    assert Body(r).bytes + [] == Body(r).bytes;
  }

  /** The id of the next response is pending, and no longer is when its result is
      being parsed. */
  lemma TakesPending(e: Endpoint, e': Endpoint, ms: seq<Message>, m: nat)
    requires Register(e, ms, m) && m < |ms| && ms[m].ResponseOf?
    requires e'.interface_ == e.interface_ && e'.issued == e.issued && e'.refused == e.refused
    requires e'.registry.expected == e.registry.expected - {ms[m].id}
    ensures Issued(e, ms[m].id) && ms[m].id in e.registry.expected && ms[m].result == e.registry.expected[ms[m].id]
    ensures Register(e', ms, m + 1)
  {
    hide Built;
    var id := ms[m].id;
    assert Fits(e, ms[m]);
    assert !Taken(ms, m, id);
    assert forall i :: Issued(e', i) == Issued(e, i);
    forall i | 0 <= i < |ms|
      ensures Fits(e', ms[i])
    {
      assert Fits(e, ms[i]);
    }
    forall i: nat
      ensures Taken(ms, m + 1, i) <==> Taken(ms, m, i) || i == id
    {
      TakenNext(ms, m, i);
    }
  }

  lemma TakenNext(ms: seq<Message>, m: nat, id: nat)
    requires m < |ms|
    ensures Taken(ms, m + 1, id) <==> Taken(ms, m, id) || (ms[m].ResponseOf? && ms[m].id == id)
  {
    if Taken(ms, m + 1, id) {
      var k :| 0 <= k < m + 1 && ms[k].ResponseOf? && ms[k].id == id;
      if k < m {
        assert Taken(ms, m, id);
      }
    }
    if ms[m].ResponseOf? && ms[m].id == id {
      assert Taken(ms, m + 1, id);
    }
  }

  lemma ResponseHeaderDone(e: Endpoint, ms: seq<Message>, m: nat, op: Op)
    requires PeerInvariant(e, ms, m) && e.stack != [] && e.stack[0] == StartParse(op) && op.purpose == ResponseHeader
    requires m < |ms| && ms[m].ResponseOf?
    requires var x := op.fed + e.buffer;
             var r := Parse(Integer(REQUEST_ID), x);
             r.Done? && r.value == IntegerValue(ms[m].id) && r.used == 8 && Encode(ms[m].id, 8) <= x
    ensures Half(Resume(e), ms, m, CurrentOp(Resume(e)))
  {
    hide PeerInvariant, Half, Base, At, Stream, Register, Record, Resume, OnStartParse, Parse, Fine, Encode, Dispatch,
         OnResponseId;
    var id := ms[m].id;
    Facts(e, ms, m);
    AboutToParse(e, op);
    ResumeParse(e, op);
    var e1 := e.(stack := e.stack[1..]);
    var e2 := e1.(buffer := (op.fed + e.buffer)[8..]);
    ParseDone(e1, op);
    assert Assert(e2, e2.splitter.waitingForResponse && e2.splitter.parsingHeader) == e2;
    assert Resume(e) == OnResponseId(Dispatch(e2, ForResponse), id);
    var e3 := e1.(registry := Registry(ParsingResult, e.registry.expected - {id}));
    TakesPending(e, e3, ms, m);
    DispatchedResponse(e2, id);
    ResultBegins(e, e2, ms, m, op);
  }

  lemma DispatchedResponse(e: Endpoint, id: nat)
    requires e.registry.state == ParsingHeader && id in e.registry.expected && !e.splitter.locked
    ensures var e' := OnResponseId(Dispatch(e, ForResponse), id);
            var t := e.registry.expected[id];
            && e'.stack
               == [StartParse(Op(Result(id, t), []))] + ([AfterResponse(e.splitter.waitingForRequest)] + e.stack)
            && e'.registry == Registry(ParsingResult, e.registry.expected - {id})
            && e'.readers == e.readers && e'.buffer == e.buffer && e'.received == e.received
            && e'.interface_ == e.interface_ && e'.issued == e.issued && e'.refused == e.refused
            && e'.answered == e.answered && e'.invoked == e.invoked
            && e'.failed == e.failed && e'.dropped == e.dropped && e'.clean == e.clean && e'.halted == e.halted
  {
    ResponseIdIs(Dispatch(e, ForResponse), id);
  }

  lemma ResultBegins(e: Endpoint, e2: Endpoint, ms: seq<Message>, m: nat, op: Op)
    requires PeerInvariant(e, ms, m) && e.stack != [] && e.stack[0] == StartParse(op) && op.purpose == ResponseHeader
    requires m < |ms| && ms[m].ResponseOf? && Encode(ms[m].id, 8) <= op.fed + e.buffer
    requires e2 == e.(stack := e.stack[1..], buffer := (op.fed + e.buffer)[8..])
    requires ms[m].id in e.registry.expected && ms[m].result == e.registry.expected[ms[m].id] && Issued(e, ms[m].id)
    requires Register(e.(stack := e.stack[1..],
                         registry := Registry(ParsingResult, e.registry.expected - {ms[m].id})), ms, m + 1)
    ensures var e' := OnResponseId(Dispatch(e2, ForResponse), ms[m].id);
            Half(e', ms, m, CurrentOp(e'))
  {
    hide PeerInvariant, Base, At, Register, Record, Conformable, Encode, Dispatch, OnResponseId;
    var id := ms[m].id;
    var next := Op(Result(id, ms[m].result), []);
    Facts(e, ms, m);
    AboutToParse(e, op);
    DispatchedResponse(e2, id);
    var e' := OnResponseId(Dispatch(e2, ForResponse), id);
    NextPart(e, ms, m, op, Encode(id, 8), next.purpose);
    SameAt(e.(buffer := e2.buffer), e', ms, m, SomeOp(next));
    SameRegister(e.(stack := e.stack[1..], registry := Registry(ParsingResult, e.registry.expected - {id})),
                 e', ms, m + 1);
    BodyRecord(e, e2, e', ms, m, AfterResponse(e.splitter.waitingForRequest), next);
  }

  /** The frames of a header give way to those of the body. */
  lemma BodyRecord(e: Endpoint, e2: Endpoint, e': Endpoint, ms: seq<Message>, m: nat, f: Frame, next: Op)
    requires Record(e, ms, m) && e.stack != [] && e.stack[0].StartParse? && (f.AfterResponse? || f.AfterRequest?)
    requires e2.stack == e.stack[1..] && e2.answered == e.answered && e2.invoked == e.invoked
    requires e'.stack == [StartParse(next)] + ([f] + e2.stack) && e'.answered == e.answered && e'.invoked == e.invoked
    ensures Record(e', ms, m)
  {
    hide Record;
    PopRecord(e, ms, m);
    SameRecord(e.(stack := e.stack[1..]), e2, ms, m);
    PushRecord(e2, ms, m, f);
    PushRecord(Push(e2, f), ms, m, StartParse(next));
    SameRecord(Push(Push(e2, f), StartParse(next)), e', ms, m);
  }

  lemma ResultStep(e: Endpoint, ms: seq<Message>, m: nat, op: Op) returns (m': nat)
    requires PeerInvariant(e, ms, m) && e.stack != [] && e.stack[0] == StartParse(op) && op.purpose.Result?
    requires Invariant(Resume(e))
    ensures Half(Resume(e), ms, m', CurrentOp(Resume(e)))
  {
    hide PeerInvariant, Half, Base, At, Stream, Register, Record, Resume, OnStartParse, Parse, Fine, Bytes, Encode,
         Invariant;
    Facts(e, ms, m);
    AboutToParse(e, op);
    FitsBuilt(e, ms, m, m + 1);
    var r := ms[m];
    ResultConforms(e, ms, m);
    var x := op.fed + e.buffer;
    AtBuilt(e, ms, m, SomeOp(op));
    ResponseParts(r);
    var part := Body(r).bytes;
    Visible(e, ms, m, op, part, []);
    ParseAhead(r.result, r.value, [] + AllBytes(ms[m + 1..]), x);
    if Parse(r.result, x).Waiting? {
      m' := m;
      WaitsOn(e, ms, m, op);
    } else {
      m' := m + 1;
      assert part + [] == part;
      ResultDone(e, ms, m, op);
    }
  }

  lemma ResultConforms(e: Endpoint, ms: seq<Message>, m: nat)
    requires PeerInvariant(e, ms, m) && m < |ms| && ms[m].ResponseOf?
    ensures Conforming(ms[m].result) && Accepted(ms[m].result, ms[m].value)
  {
    hide Base, Stream, Record, Conforming;
    assert Fits(e, ms[m]);
  }

  lemma ResultDone(e: Endpoint, ms: seq<Message>, m: nat, op: Op)
    requires PeerInvariant(e, ms, m) && e.stack != [] && e.stack[0] == StartParse(op) && op.purpose.Result?
    requires Invariant(Resume(e)) && m < |ms| && ms[m].ResponseOf? && Built(ms[m])
    requires Bytes(ms[m]) == Prefix(op.purpose) + Body(ms[m]).bytes
    requires var x := op.fed + e.buffer;
             var part := Body(ms[m]).bytes;
             var r := Parse(op.purpose.result, x);
             r.Done? && r.value == ms[m].value && r.used == |part| && part <= x
    ensures Half(Resume(e), ms, m + 1, CurrentOp(Resume(e)))
  {
    hide PeerInvariant, Half, Base, At, Stream, Register, Record, Resume, OnStartParse, Parse, Fine, Apply, Invariant,
         Bytes, Encode;
    var part := Body(ms[m]).bytes;
    var Result(id, t) := op.purpose;
    Facts(e, ms, m);
    AboutToParse(e, op);
    ResumeParse(e, op);
    var e1 := e.(stack := e.stack[1..]);
    var e2 := e1.(buffer := (op.fed + e.buffer)[|part|..]);
    ParseDone(e1, op);
    var e3 := Push(e2, NextResponse(id, ms[m].value));
    assert Assert(e2, e2.registry.state == ParsingResult) == e2;
    assert Resume(e) == Apply(e3, UnlockInput(e3.splitter));
    ResultHalf(e, e2, ms, m, op);
    PushFacts(NextResponse(id, ms[m].value), e1.stack);
    ApplyHalf(e3, ms, m + 1, UnlockInput(e3.splitter));
  }

  lemma ResultHalf(e: Endpoint, e2: Endpoint, ms: seq<Message>, m: nat, op: Op)
    requires PeerInvariant(e, ms, m) && e.stack != [] && e.stack[0] == StartParse(op) && op.purpose.Result?
    requires m < |ms| && ms[m].ResponseOf? && Built(ms[m]) && Body(ms[m]).bytes <= op.fed + e.buffer
    requires Bytes(ms[m]) == Prefix(op.purpose) + Body(ms[m]).bytes
    requires e2 == e.(stack := e.stack[1..], buffer := (op.fed + e.buffer)[|Body(ms[m]).bytes|..])
    ensures var e3 := Push(e2, NextResponse(op.purpose.id, ms[m].value));
            Half(e3, ms, m + 1, CurrentOp(e3)) && CurrentOp(e3) == NoOp
  {
    hide PeerInvariant, Base, At, Register, Record, Conformable, Bytes, Body, Prefix;
    Facts(e, ms, m);
    AboutToParse(e, op);
    var f := NextResponse(op.purpose.id, ms[m].value);
    var e3 := Push(e2, f);
    NextMessage(e, ms, m, op, Body(ms[m]).bytes);
    SameAt(e.(buffer := e2.buffer), e3, ms, m + 1, NoOp);
    SameRegister(e, e3, ms, m + 1);
    PopRecord(e, ms, m);
    SameRecord(e.(stack := e.stack[1..]), e2, ms, m);
    ResultRecord(e2, ms, m);
  }

  // ----- requests -----

  lemma RequestParts(r: Message)
    requires Built(r) && r.RequestOf?
    ensures var header := Encode(r.id, 8) + ([|r.name|] + r.name);
            && Bytes(r) == [MESSAGE_REQUEST] + (header + Body(r).bytes)
            && Bytes(r) == ([MESSAGE_REQUEST] + header) + (Body(r).bytes + [])
  {
    var header := Encode(r.id, 8) + ([|r.name|] + r.name);
    Seqs.Assoc([MESSAGE_REQUEST], header, Body(r).bytes);
    assert Body(r).bytes + [] == Body(r).bytes;
  }

  lemma RequestHeaderStep(e: Endpoint, ms: seq<Message>, m: nat, op: Op)
    requires PeerInvariant(e, ms, m) && e.stack != [] && e.stack[0] == StartParse(op) && op.purpose == RequestHeader
    ensures Half(Resume(e), ms, m, CurrentOp(Resume(e)))
  {
    hide PeerInvariant, Half, Base, At, Stream, Register, Record, Resume, OnStartParse, Parse, Fine, Bytes, Encode,
         Write;
    Facts(e, ms, m);
    AboutToParse(e, op);
    FitsBuilt(e, ms, m, m);
    var r := ms[m];
    var x := op.fed + e.buffer;
    var header := TupleValue([IntegerValue(r.id), TextValue(r.name)]);
    AtBuilt(e, ms, m, SomeOp(op));
    RequestParts(r);
    HeaderWritten(r.id, r.name);
    HeaderConforms();
    Visible(e, ms, m, op, Write(HEADER, header).bytes, Body(r).bytes);
    ParseAhead(HEADER, header, Body(r).bytes + AllBytes(ms[m + 1..]), x);
    if Parse(HEADER, x).Waiting? {
      WaitsOn(e, ms, m, op);
    } else {
      RequestHeaderDone(e, ms, m, op);
    }
  }

  lemma RequestHeaderDone(e: Endpoint, ms: seq<Message>, m: nat, op: Op)
    requires PeerInvariant(e, ms, m) && e.stack != [] && e.stack[0] == StartParse(op) && op.purpose == RequestHeader
    requires m < |ms| && ms[m].RequestOf?
    requires var part := Encode(ms[m].id, 8) + ([|ms[m].name|] + ms[m].name);
             var x := op.fed + e.buffer;
             var r := Parse(HEADER, x);
             && r.Done? && r.value == TupleValue([IntegerValue(ms[m].id), TextValue(ms[m].name)])
             && r.used == |part| && part <= x
    ensures Half(Resume(e), ms, m, CurrentOp(Resume(e)))
  {
    hide PeerInvariant, Half, Base, At, Stream, Register, Record, Resume, OnStartParse, Parse, Fine, Encode, Dispatch,
         Apply;
    var part := Encode(ms[m].id, 8) + ([|ms[m].name|] + ms[m].name);
    Facts(e, ms, m);
    AboutToParse(e, op);
    KnownRequest(e, ms, m);
    ResumeParse(e, op);
    var e1 := e.(stack := e.stack[1..]);
    var e2 := e1.(buffer := (op.fed + e.buffer)[|part|..]);
    ParseDone(e1, op);
    assert Resume(e) == OnRequestHeader(e2, ms[m].id, ms[m].name);
    ArgumentBegins(e, e2, ms, m, op);
  }

  lemma KnownRequest(e: Endpoint, ms: seq<Message>, m: nat)
    requires PeerInvariant(e, ms, m) && m < |ms| && ms[m].RequestOf?
    ensures ms[m].name in e.interface_ && e.interface_[ms[m].name].parameters == ms[m].parameters
    ensures Conforming(Tuple(ms[m].parameters)) && Accepted(Tuple(ms[m].parameters), TupleValue(ms[m].args))
    ensures Body(ms[m]).bytes == Write(Tuple(ms[m].parameters), TupleValue(ms[m].args)).bytes
  {
    hide Base, Stream, Record, Conforming;
    assert Fits(e, ms[m]);
  }

  lemma ArgumentBegins(e: Endpoint, e2: Endpoint, ms: seq<Message>, m: nat, op: Op)
    requires PeerInvariant(e, ms, m) && e.stack != [] && e.stack[0] == StartParse(op) && op.purpose == RequestHeader
    requires m < |ms| && ms[m].RequestOf? && ms[m].name in e.interface_
          && e.interface_[ms[m].name].parameters == ms[m].parameters
    requires Encode(ms[m].id, 8) + ([|ms[m].name|] + ms[m].name) <= op.fed + e.buffer
    requires e2 == e.(stack := e.stack[1..],
                      buffer := (op.fed + e.buffer)[|Encode(ms[m].id, 8) + ([|ms[m].name|] + ms[m].name)|..])
    ensures var e' := OnRequestHeader(e2, ms[m].id, ms[m].name);
            Half(e', ms, m, CurrentOp(e'))
  {
    hide PeerInvariant, Base, At, Register, Record, Conformable, Encode, OnRequestHeader;
    var part := Encode(ms[m].id, 8) + ([|ms[m].name|] + ms[m].name);
    var next := Op(Argument(ms[m].id, ms[m].name, ms[m].parameters), []);
    Facts(e, ms, m);
    AboutToParse(e, op);
    DispatchedRequest(e2, ms[m].id, ms[m].name);
    var e' := OnRequestHeader(e2, ms[m].id, ms[m].name);
    NextPart(e, ms, m, op, part, next.purpose);
    SameAt(e.(buffer := e2.buffer), e', ms, m, SomeOp(next));
    SameRegister(e, e', ms, m);
    BodyRecord(e, e2, e', ms, m, AfterRequest(e.splitter.waitingForResponse), next);
  }

  lemma ArgumentStep(e: Endpoint, ms: seq<Message>, m: nat, op: Op) returns (m': nat)
    requires PeerInvariant(e, ms, m) && e.stack != [] && e.stack[0] == StartParse(op) && op.purpose.Argument?
    requires Invariant(Resume(e))
    ensures Half(Resume(e), ms, m', CurrentOp(Resume(e)))
  {
    hide PeerInvariant, Half, Base, At, Stream, Register, Record, Resume, OnStartParse, Parse, Fine, Bytes, Encode,
         Invariant, Write, Body;
    Facts(e, ms, m);
    AboutToParse(e, op);
    FitsBuilt(e, ms, m, m);
    KnownRequest(e, ms, m);
    var r := ms[m];
    var x := op.fed + e.buffer;
    AtBuilt(e, ms, m, SomeOp(op));
    RequestParts(r);
    var part := Body(r).bytes;
    Visible(e, ms, m, op, part, []);
    ParseAhead(Tuple(r.parameters), TupleValue(r.args), [] + AllBytes(ms[m + 1..]), x);
    if Parse(Tuple(r.parameters), x).Waiting? {
      m' := m;
      WaitsOn(e, ms, m, op);
    } else {
      m' := m + 1;
      assert part + [] == part;
      ArgumentDone(e, ms, m, op);
    }
  }

  lemma ArgumentDone(e: Endpoint, ms: seq<Message>, m: nat, op: Op)
    requires PeerInvariant(e, ms, m) && e.stack != [] && e.stack[0] == StartParse(op) && op.purpose.Argument?
    requires Invariant(Resume(e)) && m < |ms| && ms[m].RequestOf? && Built(ms[m])
    requires Bytes(ms[m]) == Prefix(op.purpose) + Body(ms[m]).bytes
    requires var x := op.fed + e.buffer;
             var part := Body(ms[m]).bytes;
             var r := Parse(PurposeType(op.purpose), x);
             r.Done? && r.value == TupleValue(ms[m].args) && r.used == |part| && part <= x
    ensures Half(Resume(e), ms, m + 1, CurrentOp(Resume(e)))
  {
    hide PeerInvariant, Half, Base, At, Stream, Register, Record, Resume, OnStartParse, Parse, Fine, Apply, Invariant,
         Bytes, Encode, Body;
    var part := Body(ms[m]).bytes;
    var Argument(id, name, ts) := op.purpose;
    Facts(e, ms, m);
    AboutToParse(e, op);
    ResumeParse(e, op);
    var e1 := e.(stack := e.stack[1..]);
    var e2 := e1.(buffer := (op.fed + e.buffer)[|part|..]);
    ParseDone(e1, op);
    var f := Implement(id, name, ms[m].args);
    var e3 := Push(e2, f);
    assert Resume(e) == Apply(e3, UnlockInput(e3.splitter));
    ArgumentHalf(e, e2, ms, m, op);
    PushFacts(f, e1.stack);
    ApplyHalf(e3, ms, m + 1, UnlockInput(e3.splitter));
  }

  lemma ArgumentHalf(e: Endpoint, e2: Endpoint, ms: seq<Message>, m: nat, op: Op)
    requires PeerInvariant(e, ms, m) && e.stack != [] && e.stack[0] == StartParse(op) && op.purpose.Argument?
    requires m < |ms| && ms[m].RequestOf? && Built(ms[m]) && Body(ms[m]).bytes <= op.fed + e.buffer
    requires Bytes(ms[m]) == Prefix(op.purpose) + Body(ms[m]).bytes
    requires e2 == e.(stack := e.stack[1..], buffer := (op.fed + e.buffer)[|Body(ms[m]).bytes|..])
    ensures var e3 := Push(e2, Implement(op.purpose.request, op.purpose.name, ms[m].args));
            Half(e3, ms, m + 1, CurrentOp(e3)) && CurrentOp(e3) == NoOp
  {
    hide PeerInvariant, Base, At, Register, Record, Conformable, Bytes, Body, Prefix;
    Facts(e, ms, m);
    AboutToParse(e, op);
    var f := Implement(op.purpose.request, op.purpose.name, ms[m].args);
    var e3 := Push(e2, f);
    NextMessage(e, ms, m, op, Body(ms[m]).bytes);
    SameAt(e.(buffer := e2.buffer), e3, ms, m + 1, NoOp);
    RegisterSkips(e, ms, m);
    SameRegister(e, e3, ms, m + 1);
    PopRecord(e, ms, m);
    SameRecord(e.(stack := e.stack[1..]), e2, ms, m);
    ArgumentRecord(e2, ms, m);
  }

  /** A request takes nothing from what is pending. */
  lemma RegisterSkips(e: Endpoint, ms: seq<Message>, m: nat)
    requires Register(e, ms, m) && m < |ms| && ms[m].RequestOf?
    ensures Register(e, ms, m + 1)
  {
    hide Fits, Built;
    forall id: nat
      ensures Taken(ms, m + 1, id) <==> Taken(ms, m, id)
    {
      TakenNext(ms, m, id);
    }
  }

  // ----- the other continuations -----

  /** The frame on top has been taken off. */
  lemma PopHalf(e: Endpoint, ms: seq<Message>, m: nat)
    requires PeerInvariant(e, ms, m) && e.stack != [] && !e.stack[0].StartParse? && !e.stack[0].Implement?
    ensures var e1 := e.(stack := e.stack[1..]);
            Half(e1, ms, m, CurrentOp(e1)) && CurrentOp(e1) == CurrentOp(e) && Quiet(e1.stack)
    ensures FrameFits(ms, m, e.stack[0])
  {
    hide PeerInvariant, Base, Stream, Register, Record, Conformable;
    Facts(e, ms, m);
    NothingToRun(e);
    var e1 := e.(stack := e.stack[1..]);
    QuietCurrent(e);
    QuietCurrent(e1);
    PopRecord(e, ms, m);
    SameStream(e, e1, ms, m, CurrentOp(e));
    SameRegister(e, e1, ms, Past(m, CurrentOp(e)));
  }

  /** A frame that reads nothing has been pushed. */
  lemma PushHalf(e: Endpoint, ms: seq<Message>, m: nat, f: Frame)
    requires Half(e, ms, m, CurrentOp(e)) && Quiet(e.stack) && FrameFits(ms, m, f) && !f.StartParse? && !f.Implement?
    ensures Half(Push(e, f), ms, m, CurrentOp(Push(e, f))) && CurrentOp(Push(e, f)) == CurrentOp(e)
          && Quiet(Push(e, f).stack)
  {
    hide Stream, Register, Record, Conformable, FrameFits;
    PushFacts(f, e.stack);
    QuietCurrent(e);
    QuietCurrent(Push(e, f));
    PushRecord(e, ms, m, f);
    SameStream(e, Push(e, f), ms, m, CurrentOp(e));
    SameRegister(e, Push(e, f), ms, Past(m, CurrentOp(e)));
  }

  /** What the invariant says nothing about may change. */
  predicate Alike(e: Endpoint, e': Endpoint) {
    && e'.received == e.received && e'.buffer == e.buffer && e'.readers == e.readers && e'.stack == e.stack
    && e'.interface_ == e.interface_ && e'.issued == e.issued && e'.refused == e.refused
    && e'.registry.expected == e.registry.expected
    && e'.answered == e.answered && e'.invoked == e.invoked
    && e'.failed == e.failed && e'.dropped == e.dropped && e'.clean == e.clean && e'.halted == e.halted
  }

  lemma AlikeHalf(e: Endpoint, e': Endpoint, ms: seq<Message>, m: nat)
    requires Half(e, ms, m, CurrentOp(e)) && Alike(e, e')
    requires e'.issued == [] ==> e'.registry.state == NotExpectingResponse
    ensures Half(e', ms, m, CurrentOp(e'))
  {
    hide Stream, Register, Record, Conformable;
    SameStream(e, e', ms, m, CurrentOp(e));
    SameRegister(e, e', ms, Past(m, CurrentOp(e)));
    SameRecord(e, e', ms, m);
  }

  lemma ContinueStep(e: Endpoint, ms: seq<Message>, m: nat)
    requires PeerInvariant(e, ms, m) && e.stack != [] && (e.stack[0].AfterRequest? || e.stack[0].AfterResponse?)
    requires Invariant(Resume(e))
    ensures Half(Resume(e), ms, m, CurrentOp(Resume(e)))
  {
    hide PeerInvariant, Half, Invariant, Apply;
    PopHalf(e, ms, m);
    var e1 := e.(stack := e.stack[1..]);
    if e.stack[0].AfterRequest? {
      ApplyHalf(e1, ms, m, ContinueFor(e1.splitter, e.stack[0].continue_, e1.splitter.waitingForResponse));
    } else {
      ApplyHalf(e1, ms, m, ContinueFor(e1.splitter, e.stack[0].continue_, e1.splitter.waitingForRequest));
    }
  }

  /** `wait_for_response`, by somebody who has issued a request. */
  lemma ParseHeaderHalf(e: Endpoint, ms: seq<Message>, m: nat)
    requires Half(e, ms, m, CurrentOp(e)) && Quiet(e.stack) && e.issued != [] && Invariant(ParseHeader(e))
    ensures Half(ParseHeader(e), ms, m, CurrentOp(ParseHeader(e)))
  {
    hide Half, Invariant, Apply;
    AlikeHalf(e, Awaits(e), ms, m);
    ApplyHalf(Awaits(e), ms, m, WaitForResponse(e.splitter));
  }

  lemma DeliveredIsIssued(e: Endpoint, ms: seq<Message>, m: nat, id: nat, v: Value)
    requires PeerInvariant(e, ms, m) && m <= |ms| && Delivered(ms, m, id, v)
    ensures e.issued != []
  {
    hide Base, Stream, Record, Built;
    var i :| 0 <= i < m && ms[i].ResponseOf? && ms[i].id == id && ms[i].value == v;
    assert Fits(e, ms[i]);
  }

  lemma NextResponseStep(e: Endpoint, ms: seq<Message>, m: nat)
    requires PeerInvariant(e, ms, m) && e.stack != [] && e.stack[0].NextResponse? && Invariant(Resume(e))
    ensures Half(Resume(e), ms, m, CurrentOp(Resume(e)))
  {
    hide PeerInvariant, Half, Invariant, OnNextResponse, Delivered;
    var NextResponse(id, v) := e.stack[0];
    Facts(e, ms, m);
    PopHalf(e, ms, m);
    DeliveredIsIssued(e, ms, m, id, v);
    NextResponseHalf(e.(stack := e.stack[1..]), ms, m, id, v);
  }

  lemma NextResponseHalf(e: Endpoint, ms: seq<Message>, m: nat, id: nat, v: Value)
    requires Half(e, ms, m, CurrentOp(e)) && Quiet(e.stack) && e.issued != [] && m <= |ms| && Delivered(ms, m, id, v)
    requires Invariant(OnNextResponse(e, id, v))
    ensures Half(OnNextResponse(e, id, v), ms, m, CurrentOp(OnNextResponse(e, id, v)))
  {
    hide Half, Invariant, ParseHeader, Delivered;
    PushHalf(e, ms, m, Answer(id, v));
    var e2 := Push(e, Answer(id, v));
    if e.registry.expected == map[] {
      AlikeHalf(e2, OnNextResponse(e, id, v), ms, m);
    } else {
      ParseHeaderHalf(e2, ms, m);
    }
  }

  lemma AnswerStep(e: Endpoint, ms: seq<Message>, m: nat)
    requires PeerInvariant(e, ms, m) && e.stack != [] && e.stack[0].Answer?
    ensures Half(Resume(e), ms, m, CurrentOp(Resume(e)))
  {
    hide PeerInvariant, Stream, Register, Record, Conformable, Delivered;
    var Answer(id, v) := e.stack[0];
    PopHalf(e, ms, m);
    Facts(e, ms, m);
    var e1 := e.(stack := e.stack[1..]);
    var e2 := e1.(answered := e.answered + [Answered(id, v)]);
    AnswerRecord(e1, ms, m, id, v);
    SameStream(e1, e2, ms, m, CurrentOp(e1));
    SameRegister(e1, e2, ms, Past(m, CurrentOp(e1)));
    PushHalf(e2, ms, m, User);
  }

  lemma ImplementStep(e: Endpoint, ms: seq<Message>, m: nat)
    requires PeerInvariant(e, ms, m) && e.stack != [] && e.stack[0].Implement?
    ensures Half(Resume(e), ms, m, CurrentOp(Resume(e)))
  {
    hide PeerInvariant, Half, Base, Stream, Register, Record, Fine, Push, Resume;
    Facts(e, ms, m);
    NothingToRun(e);
    var f := e.stack[0];
    ResumeImplement(e);
    var e2 := e.(stack := e.stack[1..], busy := false, open := e.open + {|e.invoked|},
                 invoked := e.invoked + [Invocation(f.request, f.name, f.args)]);
    ImplementHalf(e, e2, ms, m);
    PushHalf(e2, ms, m, User);
  }

  lemma ResumeImplement(e: Endpoint)
    requires e.stack != [] && e.stack[0].Implement?
    ensures var f := e.stack[0];
            Resume(e) == Push(e.(stack := e.stack[1..], busy := false, open := e.open + {|e.invoked|},
                                 invoked := e.invoked + [Invocation(f.request, f.name, f.args)]), User)
  {
  }

  lemma ImplementHalf(e: Endpoint, e': Endpoint, ms: seq<Message>, m: nat)
    requires Half(e, ms, m, CurrentOp(e)) && Quiet(e.stack) && e.stack != [] && e.stack[0].Implement?
    requires e' == e.(stack := e.stack[1..], busy := false, open := e.open + {|e.invoked|},
                      invoked := e.invoked + [Invocation(e.stack[0].request, e.stack[0].name, e.stack[0].args)])
    ensures Half(e', ms, m, CurrentOp(e'))
  {
    hide Stream, Register, Record, Conformable;
    ImplementRecord(e, e', ms, m);
    QuietCurrent(e);
    QuietCurrent(e');
    SameStream(e, e', ms, m, CurrentOp(e));
    SameRegister(e, e', ms, Past(m, CurrentOp(e)));
  }

  lemma ResumeStep(e: Endpoint, ms: seq<Message>, m: nat) returns (m': nat)
    requires PeerInvariant(e, ms, m) && e.stack != [] && !e.stack[0].User? && Invariant(Resume(e))
    ensures Unwanted(e) ==> Fails(e, Resume(e))
    ensures !Unwanted(e) ==> Half(Resume(e), ms, m', CurrentOp(Resume(e)))
  {
    hide PeerInvariant, Half, Invariant, Resume, Delivered;
    m' := m;
    TopFits(e, ms, m);
    match e.stack[0] {
      case StartParse(op) =>
        match op.purpose {
          case MessageType => MessageTypeStep(e, ms, m, op);
          case ResponseHeader => ResponseHeaderStep(e, ms, m, op);
          case RequestHeader => RequestHeaderStep(e, ms, m, op);
          case Result(_, _) => m' := ResultStep(e, ms, m, op);
          case Argument(_, _, _) => m' := ArgumentStep(e, ms, m, op);
        }
      case AfterRequest(_) => ContinueStep(e, ms, m);
      case AfterResponse(_) => ContinueStep(e, ms, m);
      case NextResponse(_, _) => NextResponseStep(e, ms, m);
      case Answer(_, _) => AnswerStep(e, ms, m);
      case Implement(_, _, _) => ImplementStep(e, ms, m);
    }
  }

  lemma TopFits(e: Endpoint, ms: seq<Message>, m: nat)
    requires PeerInvariant(e, ms, m) && e.stack != []
    ensures m <= |ms| && FrameFits(ms, m, e.stack[0])
  {
    hide Base, Stream, Register, Fine, FrameFits;
  }

  // ----- what the application does -----

  lemma RegisterIssues(e: Endpoint, e': Endpoint, ms: seq<Message>, n: nat, name: Name, args: seq<Value>)
    requires Register(e, ms, n) && name in e.interface_ && e'.interface_ == e.interface_
    requires e'.issued == e.issued + [Issue(name, args)]
    requires || (e'.refused == e.refused
                 && e'.registry.expected == Inserted(e.registry.expected, |e.issued|, e.interface_[name].result))
             || (e'.refused == e.refused + [|e.issued|] && e'.registry.expected == e.registry.expected)
    ensures Register(e', ms, n)
  {
    hide Built;
    var id := |e.issued|;
    forall i: nat
      ensures Issued(e', i) <==> Issued(e, i) || (i == id && e'.refused == e.refused)
      ensures Issued(e, i) ==> ResultType(e', i) == ResultType(e, i)
    {
      if i < id {
        assert e'.issued[i] == e.issued[i];
      }
    }
    forall i | 0 <= i < |ms|
      ensures Fits(e', ms[i])
    {
      assert Fits(e, ms[i]);
    }
    assert !Taken(ms, n, id) by {
      assert forall k :: 0 <= k < |ms| ==> Fits(e, ms[k]);
    }
    assert forall i :: 0 <= i < |e'.refused| ==> e'.refused[i] < |e'.issued|;
  }

  lemma RequestStep(e: Endpoint, ms: seq<Message>, m: nat, name: Name, args: seq<Value>)
    requires PeerInvariant(e, ms, m) && Enabled(e, DoRequest(name, args))
    requires Invariant(Request(e, name, args))
    ensures Half(Request(e, name, args), ms, m, CurrentOp(Request(e, name, args)))
  {
    hide PeerInvariant, Half, Invariant, Requested, RequestRefused, Build, HaveTypes, ExpectResponse;
    UserQuiet(e, ms, m);
    if Build(RequestMessage(e, name, args)).ok {
      RequestSent_(e, ms, m, name, args);
    } else {
      RequestRefusedStep(e, ms, m, name, args);
    }
  }

  lemma UserQuiet(e: Endpoint, ms: seq<Message>, m: nat)
    requires PeerInvariant(e, ms, m) && (e.stack == [] || e.stack[0].User?)
    ensures Quiet(e.stack) && Half(e, ms, m, CurrentOp(e)) && !e.halted && e.clean
  {
    hide Half, Base;
    Facts(e, ms, m);
    UserIsQuiet(e);
  }

  lemma RequestRefusedStep(e: Endpoint, ms: seq<Message>, m: nat, name: Name, args: seq<Value>)
    requires Quiet(e.stack) && Half(e, ms, m, CurrentOp(e)) && Enabled(e, DoRequest(name, args))
    ensures var e' := RequestRefused(e, name, args);
            Half(e', ms, m, CurrentOp(e'))
  {
    hide Stream, Register, Record, Conformable, HaveTypes, RequestMessage, Bytes, W.Append;
    var e1 := RequestRefused(e, name, args).(stack := e.stack);
    RegisterIssues(e, e1, ms, Past(m, CurrentOp(e)), name, args);
    SameStream(e, e1, ms, m, CurrentOp(e));
    SameRecord(e, e1, ms, m);
    PushHalf(e1, ms, m, User);
  }

  lemma RequestSent_(e: Endpoint, ms: seq<Message>, m: nat, name: Name, args: seq<Value>)
    requires Quiet(e.stack) && Half(e, ms, m, CurrentOp(e)) && Enabled(e, DoRequest(name, args))
    requires var e' := ExpectResponse(Requested(e, name, args), |e.issued|, e.interface_[name].result);
             Invariant(e')
    ensures var e' := ExpectResponse(Requested(e, name, args), |e.issued|, e.interface_[name].result);
            Half(e', ms, m, CurrentOp(e'))
  {
    hide Stream, Register, Record, Conformable, HaveTypes, RequestMessage, Bytes, W.Append, W.SendBuffer, ParseHeader,
         Invariant;
    var e1 := Requested(e, name, args);
    var t := e.interface_[name].result;
    var e2 := e1.(registry := e1.registry.(expected := Inserted(e1.registry.expected, |e.issued|, t)));
    RegisterIssues(e, e2, ms, Past(m, CurrentOp(e)), name, args);
    SameStream(e, e2, ms, m, CurrentOp(e));
    SameRecord(e, e2, ms, m);
    if e.registry.state == NotExpectingResponse {
      ParseHeaderHalf(e2, ms, m);
    }
  }

  lemma ServeStep(e: Endpoint, ms: seq<Message>, m: nat)
    requires PeerInvariant(e, ms, m) && Enabled(e, DoServe) && Invariant(Serve(e))
    ensures Half(Serve(e), ms, m, CurrentOp(Serve(e)))
  {
    hide PeerInvariant, Half, Invariant, Apply;
    UserQuiet(e, ms, m);
    ServingAlike(e, ms, m);
    ApplyHalf(Serving(e), ms, m, WaitForRequest(e.splitter));
  }

  lemma ServingAlike(e: Endpoint, ms: seq<Message>, m: nat)
    requires Half(e, ms, m, CurrentOp(e))
    ensures Half(Serving(e), ms, m, CurrentOp(Serving(e)))
  {
    hide Stream, Register, Record, Conformable;
    AlikeHalf(e, Serving(e), ms, m);
  }

  lemma OutputStep(e: Endpoint, ms: seq<Message>, m: nat, w: W.Writer<Sent>, open: set<nat>, responses: seq<Response>,
          messages: seq<Message>)
    requires PeerInvariant(e, ms, m) && (e.stack == [] || e.stack[0].User?)
    ensures var e' := e.(writer := w, open := open, responses := responses, messages := messages);
            && Half(e', ms, m, CurrentOp(e'))
            && Half(Push(e', User), ms, m, CurrentOp(Push(e', User)))
  {
    hide PeerInvariant, Stream, Register, Record, Conformable;
    UserQuiet(e, ms, m);
    var e' := e.(writer := w, open := open, responses := responses, messages := messages);
    AlikeHalf(e, e', ms, m);
    UserFits(ms, m, e');
    PushHalf(e', ms, m, User);
  }

  lemma ReportStep(e: Endpoint, ms: seq<Message>, m: nat, w: W.Writer<Sent>, open: set<nat>, k: nat)
    requires PeerInvariant(e, ms, m) && (e.stack == [] || e.stack[0].User?)
    ensures var e' := Report(e.(writer := w, open := open), k);
            Half(e', ms, m, CurrentOp(e'))
  {
    hide PeerInvariant, Stream, Register, Record, Conformable;
    UserQuiet(e, ms, m);
    var e' := Reported(e.(writer := w, open := open), k);
    AlikeHalf(e, e', ms, m);
    UserFits(ms, m, e');
    PushHalf(e', ms, m, User);
  }

  lemma SentStep(e: Endpoint, ms: seq<Message>, m: nat)
    requires PeerInvariant(e, ms, m) && e.stack == [] && e.writer.calling != [] && e.writer.results != []
    ensures var e' := OnSent(e.(writer := W.CallNext(e.writer)), e.writer.calling[0]);
            Half(e', ms, m, CurrentOp(e'))
  {
    hide PeerInvariant, Half, W.CallNext, Report;
    if e.writer.calling[0].ResponseSent? {
      ReportStep(e, ms, m, W.CallNext(e.writer), e.open, e.writer.calling[0].invocation);
    } else {
      OutputStep(e, ms, m, W.CallNext(e.writer), e.open, e.responses, e.messages);
    }
  }

  lemma UserFits(ms: seq<Message>, m: nat, e: Endpoint)
    requires Half(e, ms, m, CurrentOp(e))
    ensures m <= |ms|
  {
    hide Register, Stream, Fine;
  }

  lemma RespondStep(e: Endpoint, ms: seq<Message>, m: nat, k: nat, v: Value)
    requires Results(e, k, v) && PeerInvariant(e, ms, m) && UserRuns(e)
    ensures Half(Respond(e, k, v), ms, m, CurrentOp(Respond(e, k, v)))
  {
    hide PeerInvariant, Half, Results, Bytes, Build, W.Append, W.SendBuffer;
    var r := ResponseMessage(e, k, v);
    var w := W.Append(e.writer, Bytes(r));
    ReportStep(e, ms, m, w, e.open - {k}, k);
    OutputStep(e, ms, m, W.SendBuffer(w, ResponseSent(k)), e.open - {k},
               e.responses + [Response(k, v)], e.messages + [r]);
  }

  lemma ReadStep(e: Endpoint, ms: seq<Message>, m: nat, bytes: seq<byte>)
    requires PeerInvariant(e, ms, m) && e.stack == [] && e.readers != []
    requires AllBuilt(ms) && e.received + bytes <= AllBytes(ms)
    ensures Half(OnRead(e, bytes), ms, m, CurrentOp(OnRead(e, bytes)))
  {
    hide PeerInvariant, Base, At, Register, Record, Conformable, AllBytes, AllBuilt, HasType, HaveTypes;
    Facts(e, ms, m);
    OneReader(e);
    var op := e.readers[0];
    var e' := OnRead(e, bytes);
    ReadOn(e, ms, m, op, bytes);
    SameRegister(e, e', ms, Past(m, SomeOp(op)));
    PushRecord(e, ms, m, StartParse(op));
    SameRecord(Push(e, StartParse(op)), e', ms, m);
  }

  // ----- steps -----

  /** No read fails, and what is read is the stream as it was sent. */
  ghost predicate PeerEnabled(e: Endpoint, ms: seq<Message>, event: Event) {
    && Enabled(e, event) && !event.DoReadError?
    && (event.DoRead? ==> AllBuilt(ms) && e.received + event.bytes <= AllBytes(ms))
  }

  /** Every step keeps the invariant, except for one: when the type byte of a
      message is decoded that nobody waits for, and then the endpoint meets an
      error. */
  lemma PeerStep(e: Endpoint, ms: seq<Message>, m: nat, event: Event) returns (m': nat)
    requires PeerInvariant(e, ms, m) && PeerEnabled(e, ms, event)
    ensures event == DoResume && Unwanted(e) ==> Fails(e, Connection.Step(e, event))
    ensures !(event == DoResume && Unwanted(e)) ==> PeerInvariant(Connection.Step(e, event), ms, m')
  {
    hide Half, Base, HasType, HaveTypes, Resume, Request, Respond, OnRead, OnError, Serve, Unwanted, Invariant,
         PeerInvariant, AllBytes, AllBuilt;
    FactsInvariant(e, ms, m);
    StepKeeps(e, event);
    m' := m;
    match event {
      case DoResume => m' := ResumeStep(e, ms, m);
      case DoRequest(name, args) => RequestStep(e, ms, m, name, args);
      case DoServe => ServeStep(e, ms, m);
      case DoRespond(k, v) => RespondStep(e, ms, m, k, v);
      case DoRespondError(k) => ReportStep(e, ms, m, e.writer, e.open - {k}, k);
      case DoLeave => PopHalf(e, ms, m);
      case DoEnter => OutputStep(e, ms, m, e.writer, e.open, e.responses, e.messages);
      case DoRead(bytes) => ReadStep(e, ms, m, bytes);
      case DoWritten => OutputStep(e, ms, m, W.Complete(e.writer, 0), e.open, e.responses, e.messages);
      case DoWriterCall => SentStep(e, ms, m);
      case DoWriterContinue => OutputStep(e, ms, m, W.Continue(e.writer), e.open, e.responses, e.messages);
    }
    if !(event == DoResume && Unwanted(e)) {
      HalfHolds(Connection.Step(e, event), ms, m');
    }
  }

  lemma FactsInvariant(e: Endpoint, ms: seq<Message>, m: nat)
    requires PeerInvariant(e, ms, m)
    ensures Invariant(e)
  {
    hide Half, Base;
    BaseInvariant(e);
  }

  lemma HalfHolds(e: Endpoint, ms: seq<Message>, m: nat)
    requires Half(e, ms, m, CurrentOp(e)) && Invariant(e)
    ensures PeerInvariant(e, ms, m)
  {
    hide Stream, Register, Record, Base;
  }

  /** The invariant excludes errors. */
  lemma NotFaulty(e: Endpoint, ms: seq<Message>, m: nat)
    requires PeerInvariant(e, ms, m)
    ensures !e.faulty && e.clean && !e.halted
  {
    hide Stream, Register, Record, LogFits;
  }
}
