/** Where an endpoint that makes requests and serves them meets an error on a valid
    stream. The input is unlocked after a result before the next response is
    waited for, and after the arguments of a request before the next request can
    be: with the other waiter registered, the splitter reads on at once. */
module Duplex {
  import opened WireTypes
  import opened BigEndian
  import opened WireFormat
  import opened ParserMachine
  import opened RoundTrip
  import opened SplitterModel
  import opened Messages
  import opened Connection
  import opened ConnectionInvariant
  import opened IncomingStream
  import opened Peer
  import opened Demultiplexing
  import Seqs
  import Utf8
  import W = WriterModel

  // ----- the two places -----

  /** The body of a message, a result or arguments, that has been read completely. */
  predicate BodyIsRead(e: Endpoint, op: Op) {
    && e.stack != [] && e.stack[0] == StartParse(op) && !IsHeader(op.purpose)
    && Parse(PurposeType(op.purpose), op.fed + e.buffer).Done?
  }

  function Leftover(e: Endpoint, op: Op): seq<byte>
    requires BodyIsRead(e, op)
  {
    (op.fed + e.buffer)[Parse(PurposeType(op.purpose), op.fed + e.buffer).used..]
  }

  /** A header parse is about to run, with these waiters. */
  predicate HeaderNext(e: Endpoint, request: bool, response: bool) {
    && e.stack != [] && e.stack[0] == StartParse(Op(MessageType, []))
    && e.splitter.waitingForRequest == request && e.splitter.waitingForResponse == response
    && !e.faulty && !e.halted
  }

  lemma BodyFacts(e: Endpoint, op: Op)
    requires Base(e) && e.log.known && BodyIsRead(e, op)
    ensures var s := e.splitter;
            && s.locked && !s.parsingHeader && !e.faulty && !e.halted
            && (HasWaiter(s) ==> s.beginParseMessage)
            && (op.purpose.Result? ==> !s.waitingForResponse)
            && (op.purpose.Argument? ==> !s.waitingForRequest)
  {
    hide LogFits, Parse;
    PopSound(e);
  }

  /** What the splitter does when it is unlocked with a waiter. */
  lemma UnlockedBegins(e: Endpoint, f: Frame)
    requires e.splitter.locked && !e.splitter.parsingHeader && e.splitter.beginParseMessage && HasWaiter(e.splitter)
    requires !e.faulty && !e.halted
    ensures HeaderNext(Apply(Push(e, f), UnlockInput(e.splitter)),
                       e.splitter.waitingForRequest, e.splitter.waitingForResponse)
    ensures Apply(Push(e, f), UnlockInput(e.splitter)).buffer == e.buffer
  {
  }

  lemma BodyUnlocks(e: Endpoint, p: Purpose, v: Value)
    requires HasType(PurposeType(p), v) && !IsHeader(p)
    requires e.splitter.locked && !e.splitter.parsingHeader && e.splitter.beginParseMessage && HasWaiter(e.splitter)
    requires !e.faulty && !e.halted
    ensures var e' := OnValue(e, p, v);
            HeaderNext(e', e.splitter.waitingForRequest, e.splitter.waitingForResponse) && e'.buffer == e.buffer
  {
    hide Apply, Push, UnlockInput, HeaderNext;
    match p {
      case Result(id, _) => UnlockedBegins(Assert(e, e.registry.state == ParsingResult), NextResponse(id, v));
      case Argument(id, name, _) => UnlockedBegins(e, Implement(id, name, v.values));
    }
  }

  /** With a waiter registered, the next header parse starts at once. */
  lemma ReadsAhead(e: Endpoint, op: Op)
    requires Base(e) && e.log.known && HasWaiter(e.splitter) && BodyIsRead(e, op)
    ensures HeaderNext(Resume(e), op.purpose.Result?, op.purpose.Argument?)
    ensures Resume(e).buffer == Leftover(e, op)
  {
    hide Parse, OnStartParse, OnValue, HasType, Base, Push, Apply;
    BodyFacts(e, op);
    ResumeParse(e, op);
    var e1 := e.(stack := e.stack[1..]);
    ParseDone(e1, op);
    var Done(v, used, _) := Parse(PurposeType(op.purpose), op.fed + e.buffer);
    BodyUnlocks(e1.(buffer := (op.fed + e.buffer)[used..]), op.purpose, v);
  }

  /** It fails if and only if there is a byte that is the type of another message
      than those waited for. */
  lemma HeaderFails(e: Endpoint, request: bool, response: bool)
    requires HeaderNext(e, request, response) && (request || response)
    ensures Resume(e).faulty <==>
              && e.buffer != []
              && !(request && e.buffer[0] == MESSAGE_REQUEST) && !(response && e.buffer[0] == MESSAGE_RESPONSE)
  {
    hide OnStartParse, Parse, OnMessageType;
    var op := Op(MessageType, []);
    var e1 := e.(stack := e.stack[1..]);
    ResumeParse(e, op);
    assert [] + e.buffer == e.buffer;
    if e.buffer == [] {
      NothingToParse(MessageType);
      ParseWaits(e1, op);
    } else {
      TypeParsed(e.buffer[0], e.buffer);
      ParseDone(e1, op);
      TypeFails(e1.(buffer := e.buffer[1..]), e.buffer[0]);
    }
  }

  lemma TypeFails(e: Endpoint, n: nat)
    requires !e.faulty
    ensures OnMessageType(e, n).faulty <==>
              && !(n == MESSAGE_REQUEST && e.splitter.waitingForRequest)
              && !(n == MESSAGE_RESPONSE && e.splitter.waitingForResponse)
  {
    hide SplitterError;
    SplitterErrorFaults(e);
  }

  /** After a result, with a request waiter registered, the run fails if and only
      if the byte after the result is there and is not that of a request: in
      particular when the response to another pending request has arrived together
      with this one. */
  lemma FailsOnNextResponse(e: Endpoint, op: Op)
    requires Base(e) && e.log.known && e.splitter.waitingForRequest && BodyIsRead(e, op) && op.purpose.Result?
    ensures Resume(e).stack != [] && !Resume(e).stack[0].User? && !Resume(e).halted
    ensures Resume(Resume(e)).faulty <==> Leftover(e, op) != [] && Leftover(e, op)[0] != MESSAGE_REQUEST
  {
    hide Resume, Base, Parse, Leftover, PurposeType;
    ReadsAhead(e, op);
    HeaderFails(Resume(e), true, false);
  }

  /** After the arguments of a request, with a response waiter registered, the run
      fails if and only if the byte after them is there and is not that of a
      response: in particular when the next request has arrived together with this
      one, for which the implementation that is about to be called has not asked. */
  lemma FailsOnNextRequest(e: Endpoint, op: Op)
    requires Base(e) && e.log.known && e.splitter.waitingForResponse && BodyIsRead(e, op) && op.purpose.Argument?
    ensures Resume(e).stack != [] && !Resume(e).stack[0].User? && !Resume(e).halted
    ensures Resume(Resume(e)).faulty <==> Leftover(e, op) != [] && Leftover(e, op)[0] != MESSAGE_RESPONSE
  {
    hide Resume, Base, Parse, Leftover, PurposeType;
    ReadsAhead(e, op);
    HeaderFails(Resume(e), false, true);
  }

  // ----- a run up to requests in both directions -----

  const UNIT: Type := Tuple([])
  const NAME: Name := []
  const ECHO: Interface := map[NAME := Method([], UNIT)]

  const CALL: Event := DoRequest(NAME, [])

  /** One more event at the end. */
  lemma Extend(e: Endpoint, a: seq<Event>, event: Event)
    requires Legal(e, a) && Enabled(RunAll(e, a), event)
    ensures Legal(e, a + [event]) && RunAll(e, a + [event]) == Connection.Step(RunAll(e, a), event)
  {
    hide Connection.Step, Enabled;
    var e1 := RunAll(e, a);
    assert [event][1..] == [];
    assert Legal(Connection.Step(e1, event), []);
    assert RunAll(Connection.Step(e1, event), []) == Connection.Step(e1, event);
    LegalInTurn(e, a, [event]);
  }

  lemma Single(e: Endpoint, event: Event)
    requires Enabled(e, event)
    ensures Legal(e, [event]) && RunAll(e, [event]) == Connection.Step(e, event)
  {
    hide Connection.Step, Enabled;
    Extend(e, [], event);
    assert [] + [event] == [event];
  }

  /** With `n` requests pending, a splitter and nothing else of interest. */
  predicate Opening(e: Endpoint, s: Splitter, n: nat, stack: seq<Frame>, readers: seq<Op>) {
    && e.interface_ == ECHO && e.splitter == s && e.stack == stack && e.readers == readers
    && |e.issued| == n && (forall i :: 0 <= i < n ==> e.issued[i] == Issue(NAME, [])) && e.refused == []
    && e.registry == (if n == 0 then Registry(NotExpectingResponse, map[]) else Registry(ParsingHeader, Units(n)))
    && e.received == [] && e.buffer == [] && e.writer.calling == [] && !e.writer.resume && e.clean && !e.halted
  }

  function Units(n: nat): map<nat, Type> {
    if n == 0 then map[] else Units(n - 1)[n - 1 := UNIT]
  }

  const FRESH: Splitter := Splitter(false, false, false, false, false)
  const SERVING: Splitter := Splitter(false, true, true, false, false)
  const WAITING: Splitter := Splitter(false, true, true, true, true)
  const HEADER_OP: Op := Op(MessageType, [])

  lemma Opening0()
    ensures Opening(New(ECHO), FRESH, 0, [], [])
  {
  }

  lemma Opening1(e: Endpoint)
    requires Opening(e, FRESH, 0, [], [])
    ensures Enabled(e, DoEnter) && Opening(Push(e, User), FRESH, 0, [User], [])
  {
  }

  lemma Opening2(e: Endpoint)
    requires Opening(e, FRESH, 0, [User], []) && !e.busy
    ensures Enabled(e, DoServe) && Opening(Serve(e), SERVING, 0, [StartParse(HEADER_OP), User], [])
  {
  }

  lemma Opening3(e: Endpoint)
    requires Opening(e, SERVING, 0, [StartParse(HEADER_OP), User], [])
    ensures Enabled(e, DoResume) && Opening(Resume(e), SERVING, 0, [User], [HEADER_OP])
  {
    hide Parse, OnStartParse;
    ResumeParse(e, HEADER_OP);
    NothingToParse(MessageType);
    assert HEADER_OP.fed + e.buffer == [];
    ParseWaits(e.(stack := e.stack[1..]), HEADER_OP);
  }

  lemma CallRun(e: Endpoint)
    requires e.interface_ == ECHO && UserRuns(e) && !e.halted && |e.issued| < 0x1_0000_0000_0000_0000
    ensures Enabled(e, CALL) && Build(RequestMessage(e, NAME, [])).ok
  {
    assert WriteAll([], []).ok;
  }

  /** Everything but the registration of the callback. */
  lemma CallSent(e: Endpoint)
    requires e.interface_ == ECHO && UserRuns(e) && !e.halted && |e.issued| < 0x1_0000_0000_0000_0000
    ensures Enabled(e, CALL)
    ensures var e1 := Requested(e, NAME, []);
            && Request(e, NAME, []) == ExpectResponse(e1, |e.issued|, UNIT)
            && e1 == e.(issued := e1.issued, messages := e1.messages, writer := e1.writer)
            && e1.issued == e.issued + [Issue(NAME, [])]
            && e1.writer.calling == e.writer.calling && e1.writer.resume == e.writer.resume
  {
    hide HasType, HaveTypes, Bytes, W.Append, W.SendBuffer, ExpectResponse;
    CallRun(e);
    SendsLater(e.writer, Bytes(RequestMessage(e, NAME, [])), RequestSent(|e.issued|));
  }

  lemma SendsLater(w: W.Writer<Sent>, bytes: seq<byte>, handler: Sent)
    ensures var w' := W.SendBuffer(W.Append(w, bytes), handler);
            w'.calling == w.calling && w'.resume == w.resume
  {
  }

  lemma Opening4(e: Endpoint, s: Splitter, n: nat)
    requires n < 2 && s == (if n == 0 then SERVING else WAITING) && Opening(e, s, n, [User], [HEADER_OP])
    ensures Enabled(e, CALL) && Opening(Request(e, NAME, []), WAITING, n + 1, [User], [HEADER_OP])
  {
    hide HaveTypes, Request, Requested;
    CallSent(e);
    UnitsGrow(n);
    if n == 0 {
      assert ExpectResponse(Requested(e, NAME, []), n, UNIT).splitter == WAITING;
    }
  }

  lemma {:induction false} UnitsKeys(n: nat)
    ensures forall id: nat :: id in Units(n) <==> id < n
  {
    if n > 0 {
      UnitsKeys(n - 1);
    }
  }

  lemma UnitsGrow(n: nat)
    ensures n !in Units(n) && Inserted(Units(n), n, UNIT) == Units(n + 1)
  {
    UnitsKeys(n);
  }

  lemma Opening5(e: Endpoint)
    requires Opening(e, WAITING, 2, [User], [HEADER_OP])
    ensures Enabled(e, DoLeave) && Opening(e.(stack := e.stack[1..]), WAITING, 2, [], [HEADER_OP])
  {
  }

  const OPENING: seq<Event> := [] + [DoEnter] + [DoServe] + [DoResume] + [CALL] + [CALL] + [DoLeave]

  /** Requests 0 and 1 are pending and a request is waited for. */
  lemma OpeningRun()
    ensures Legal(New(ECHO), OPENING) && Opening(RunAll(New(ECHO), OPENING), WAITING, 2, [], [HEADER_OP])
  {
    hide Opening, Resume, Request, Serve, Enabled, New;
    var e := New(ECHO);
    var r0: seq<Event> := [];
    assert Legal(e, r0) && RunAll(e, r0) == e;
    Opening0();
    Opening1(e);
    Extend(e, r0, DoEnter);
    var r1 := r0 + [DoEnter];
    NotBusy(ECHO);
    Opening2(RunAll(e, r1));
    Extend(e, r1, DoServe);
    var r2 := r1 + [DoServe];
    Opening3(RunAll(e, r2));
    Extend(e, r2, DoResume);
    var r3 := r2 + [DoResume];
    Opening4(RunAll(e, r3), SERVING, 0);
    Extend(e, r3, CALL);
    var r4 := r3 + [CALL];
    Opening4(RunAll(e, r4), WAITING, 1);
    Extend(e, r4, CALL);
    var r5 := r4 + [CALL];
    Opening5(RunAll(e, r5));
    Extend(e, r5, DoLeave);
  }

  lemma NotBusy(interface_: Interface)
    ensures !Push(New(interface_), User).busy
  {
  }

  // ----- two messages of a kind arrive together -----

  /** What was built of the first message's header is to be parsed next. */
  predicate HeaderBytes(e: Endpoint, p: Purpose, rest: seq<byte>) {
    && e.interface_ == ECHO && e.splitter == WAITING && e.registry == Registry(ParsingHeader, Units(2))
    && e.stack == [StartParse(Op(p, []))] && e.readers == [] && e.buffer == rest && e.clean && !e.halted
  }

  function HeaderFor(n: byte): Purpose {
    if n == MESSAGE_REQUEST then RequestHeader else ResponseHeader
  }

  lemma TypeArrives(e: Endpoint, n: byte, rest: seq<byte>)
    requires Opening(e, WAITING, 2, [], [HEADER_OP])
    ensures Enabled(e, DoRead([n] + rest)) && e.readers != []
    ensures var e1 := OnRead(e, [n] + rest);
            && Enabled(e1, DoResume) && e1.stack == [StartParse(HEADER_OP)] && e1.readers == []
                  && e1.buffer == [n] + rest
            && e1.interface_ == ECHO && e1.splitter == WAITING && e1.registry == Registry(ParsingHeader, Units(2))
            && e1.clean && !e1.halted
  {
    hide Units;
    assert [] + ([n] + rest) == [n] + rest;
  }

  lemma TypeIsRead(e: Endpoint, n: byte, rest: seq<byte>)
    requires n == MESSAGE_REQUEST || n == MESSAGE_RESPONSE
    requires e.stack == [StartParse(HEADER_OP)] && e.readers == [] && e.buffer == [n] + rest
    requires e.interface_ == ECHO && e.splitter == WAITING && e.registry == Registry(ParsingHeader, Units(2))
    requires e.clean && !e.halted
    ensures HeaderBytes(Resume(e), HeaderFor(n), rest) && Enabled(Resume(e), DoResume)
  {
    hide Parse, OnStartParse, Units;
    var e1 := e.(stack := e.stack[1..]);
    ResumeParse(e, HEADER_OP);
    assert HEADER_OP.fed + e.buffer == e.buffer;
    TypeParsed(n, e.buffer);
    ParseDone(e1, HEADER_OP);
    assert e.buffer[1..] == rest;
  }

  /** A message's body, of which there is nothing, is to be parsed next. */
  predicate AtBody(e: Endpoint, p: Purpose, rest: seq<byte>) {
    && e.stack != [] && e.stack[0] == StartParse(Op(p, [])) && e.buffer == rest && e.clean && !e.halted
  }

  lemma IdParsed(id: nat, rest: seq<byte>)
    requires id <= REQUEST_ID.maximum
    ensures var r := Parse(Integer(REQUEST_ID), Encode(id, 8) + rest);
            r.Done? && r.value == IntegerValue(id) && r.used == 8 && (Encode(id, 8) + rest)[r.used..] == rest
  {
    hide Encode, Parse;
    var bytes := Encode(id, 8) + rest;
    IdWritten(id);
    HeaderConforms();
    EnoughToParse(Integer(REQUEST_ID), IntegerValue(id), bytes);
    ParseAhead(Integer(REQUEST_ID), IntegerValue(id), rest, bytes);
    Seqs.Split(Encode(id, 8), rest);
  }

  lemma IdIsRead(e: Endpoint, rest: seq<byte>)
    requires HeaderBytes(e, ResponseHeader, Encode(0, 8) + rest)
    ensures AtBody(Resume(e), Result(0, UNIT), rest) && Resume(e).splitter.waitingForRequest
    ensures 1 in Resume(e).registry.expected
  {
    hide Parse, OnStartParse, Encode, Dispatch, Assert;
    var op := Op(ResponseHeader, []);
    assert op.fed + e.buffer == Encode(0, 8) + rest;
    ResumeParse(e, op);
    IdParsed(0, rest);
    var e1 := e.(stack := e.stack[1..]);
    ParseDone(e1, op);
    ResponseTaken(e1.(buffer := rest));
  }

  lemma ResponseTaken(e: Endpoint)
    requires e.splitter == WAITING && e.registry == Registry(ParsingHeader, Units(2)) && e.clean && !e.halted
    ensures AtBody(OnResponseHeader(e, 0), Result(0, UNIT), e.buffer)
    ensures OnResponseHeader(e, 0).splitter.waitingForRequest && 1 in OnResponseHeader(e, 0).registry.expected
  {
    assert Units(2) == Units(1)[1 := UNIT] && Units(1) == Units(0)[0 := UNIT];
    assert Units(2)[0] == UNIT && 1 in Units(2);
  }

  lemma NameIsRead(e: Endpoint, rest: seq<byte>)
    requires HeaderBytes(e, RequestHeader, (Encode(0, 8) + ([|NAME|] + NAME)) + rest)
    ensures AtBody(Resume(e), Argument(0, NAME, []), rest) && Resume(e).splitter.waitingForResponse
  {
    hide Parse, OnStartParse, Encode, OnRequestHeader, Units;
    var op := Op(RequestHeader, []);
    var header := TupleValue([IntegerValue(0), TextValue(NAME)]);
    var part := Encode(0, 8) + ([|NAME|] + NAME);
    assert op.fed + e.buffer == part + rest;
    ResumeParse(e, op);
    assert Utf8.IsValid(NAME);
    HeaderWritten(0, NAME);
    HeaderConforms();
    HeaderNeverLate(RequestHeader, header);
    EnoughToParse(HEADER, header, part + rest);
    ParseAhead(HEADER, header, rest, part + rest);
    var e1 := e.(stack := e.stack[1..]);
    ParseDone(e1, op);
    assert (part + rest)[|part|..] == rest;
    RequestTaken(e1.(buffer := rest));
  }

  lemma RequestTaken(e: Endpoint)
    requires e.interface_ == ECHO && e.splitter == WAITING && e.clean && !e.halted
    ensures AtBody(OnRequestHeader(e, 0, NAME), Argument(0, NAME, []), e.buffer)
    ensures OnRequestHeader(e, 0, NAME).splitter.waitingForResponse
  {
  }

  lemma NothingIsRead(e: Endpoint, p: Purpose, rest: seq<byte>)
    requires AtBody(e, p, rest) && PurposeType(p) == UNIT && !IsHeader(p)
    ensures BodyIsRead(e, Op(p, [])) && Leftover(e, Op(p, [])) == rest
  {
    assert [] + e.buffer == rest;
    assert Immediate(UNIT);
  }

  /** The last two steps: the body, and the first byte of the next message. */
  lemma LastSteps(e: Endpoint, p: Purpose, n: byte)
    requires Base(e) && AtBody(e, p, [n])
    requires || (p == Result(0, UNIT) && n == MESSAGE_RESPONSE && e.splitter.waitingForRequest)
             || (p == Argument(0, NAME, []) && n == MESSAGE_REQUEST && e.splitter.waitingForResponse)
    ensures Legal(e, [DoResume] + [DoResume]) && RunAll(e, [DoResume] + [DoResume]).faulty
  {
    hide Resume, Base, Parse, BodyIsRead, Leftover;
    CleanIsKnown(e);
    NothingIsRead(e, p, [n]);
    if p.Result? {
      FailsOnNextResponse(e, Op(p, []));
    } else {
      FailsOnNextRequest(e, Op(p, []));
    }
    Single(e, DoResume);
    Extend(e, [DoResume], DoResume);
  }

  const RESPONSES: seq<Message> := [ResponseOf(0, UNIT, TupleValue([])), ResponseOf(1, UNIT, TupleValue([]))]
  const REQUESTS: seq<Message> := [RequestOf(0, NAME, [], []), RequestOf(1, NAME, [], [])]

  /** The first of two messages and the first byte of the second. */
  function Beginning(ms: seq<Message>): seq<byte>
    requires |ms| == 2 && AllBuilt(ms)
  {
    Bytes(ms[0]) + [TypeByte(ms[1])]
  }

  function Reads(bytes: seq<byte>): seq<Event> {
    ([DoRead(bytes)] + [DoResume] + [DoResume]) + ([DoResume] + [DoResume])
  }

  /** The messages are such as the peer may send, and so is what is read of them. */
  predicate ValidBeginning(e: Endpoint, ms: seq<Message>) {
    && |ms| == 2 && AllBuilt(ms) && Incoming(e, ms)
    && e.received + Beginning(ms) <= AllBytes(ms)
  }

  lemma Begins(ms: seq<Message>)
    requires |ms| == 2 && AllBuilt(ms)
    ensures Beginning(ms) <= AllBytes(ms)
  {
    hide HasType, HaveTypes, Body, Head, AfterType, Utf8.IsValid, Bytes;
    TypeFirst(ms[1]);
    assert ms[1..] == [ms[1]] && ms[1..][1..] == [];
    assert AllBytes(ms[1..]) == Bytes(ms[1]) + AllBytes([]);
    FirstByte(Bytes(ms[0]), TypeByte(ms[1]), AfterType(ms[1]), AllBytes([]));
  }

  lemma FirstByte(a: seq<byte>, n: byte, b: seq<byte>, c: seq<byte>)
    ensures a + [n] <= a + (([n] + b) + c)
  {
    assert a + (([n] + b) + c) == (a + [n]) + (b + c);
  }

  /** The bytes of the first message's type and header, and where they lead. */
  lemma HeaderArrives(e: Endpoint, n: byte, part: seq<byte>, p: Purpose)
    requires Opening(e, WAITING, 2, [], [HEADER_OP]) && Invariant(e)
    requires || (n == MESSAGE_RESPONSE && part == Encode(0, 8) && p == Result(0, UNIT))
             || (n == MESSAGE_REQUEST && part == Encode(0, 8) + ([|NAME|] + NAME) && p == Argument(0, NAME, []))
    ensures var events := [DoRead([n] + (part + [n]))] + [DoResume] + [DoResume];
            && Legal(e, events)
            && var e3 := RunAll(e, events);
               && Base(e3) && AtBody(e3, p, [n])
               && (if p.Result? then e3.splitter.waitingForRequest else e3.splitter.waitingForResponse)
               && (p.Result? ==> 1 in e3.registry.expected)
  {
    hide Resume, OnRead, Opening, HeaderBytes, AtBody, Base, Encode, Enabled, Units, Legal, RunAll, Invariant;
    var bytes := [n] + (part + [n]);
    TypeArrives(e, n, part + [n]);
    Single(e, DoRead(bytes));
    var e1 := OnRead(e, bytes);
    TypeIsRead(e1, n, part + [n]);
    Extend(e, [DoRead(bytes)], DoResume);
    Extend(e, [DoRead(bytes)] + [DoResume], DoResume);
    if p.Result? {
      IdIsRead(Resume(e1), [n]);
    } else {
      NameIsRead(Resume(e1), [n]);
    }
    RunKeeps(e, [DoRead(bytes)] + [DoResume] + [DoResume]);
    AtBodyRuns(RunAll(e, [DoRead(bytes)] + [DoResume] + [DoResume]), p, [n]);
  }

  lemma AtBodyRuns(e: Endpoint, p: Purpose, rest: seq<byte>)
    requires AtBody(e, p, rest) && Invariant(e)
    ensures Base(e)
  {
    hide Base;
  }

  lemma Opened()
    ensures Legal(New(ECHO), OPENING)
    ensures Opening(RunAll(New(ECHO), OPENING), WAITING, 2, [], [HEADER_OP]) && Invariant(RunAll(New(ECHO), OPENING))
  {
    hide Opening, Invariant, New, Connection.Step, Enabled;
    OpeningRun();
    NewInvariant(ECHO);
    RunKeeps(New(ECHO), OPENING);
  }

  lemma ReadsFail(e: Endpoint, n: byte, part: seq<byte>, p: Purpose)
    requires Opening(e, WAITING, 2, [], [HEADER_OP]) && Invariant(e)
    requires || (n == MESSAGE_RESPONSE && part == Encode(0, 8) && p == Result(0, UNIT))
             || (n == MESSAGE_REQUEST && part == Encode(0, 8) + ([|NAME|] + NAME) && p == Argument(0, NAME, []))
    ensures Legal(e, Reads([n] + (part + [n]))) && RunAll(e, Reads([n] + (part + [n]))).faulty
  {
    hide Opening, Invariant, AtBody, Base, Encode, Enabled, Connection.Step, RunAll, Legal;
    HeaderArrives(e, n, part, p);
    var events := [DoRead([n] + (part + [n]))] + [DoResume] + [DoResume];
    LastSteps(RunAll(e, events), p, n);
    LegalInTurn(e, events, [DoResume] + [DoResume]);
  }

  lemma TwoResponses(e: Endpoint)
    requires Opening(e, WAITING, 2, [], [HEADER_OP])
    ensures ValidBeginning(e, RESPONSES)
    ensures Beginning(RESPONSES) == [MESSAGE_RESPONSE] + (Encode(0, 8) + [MESSAGE_RESPONSE])
  {
    hide Encode;
    assert forall i :: 0 <= i < 2 ==> Built(RESPONSES[i]) && Answers(e, RESPONSES[i]);
    Begins(RESPONSES);
    assert [] + Beginning(RESPONSES) == Beginning(RESPONSES);
  }

  lemma TwoRequests(e: Endpoint)
    requires Opening(e, WAITING, 2, [], [HEADER_OP])
    ensures ValidBeginning(e, REQUESTS)
    ensures Beginning(REQUESTS)
         == [MESSAGE_REQUEST] + ((Encode(0, 8) + ([|NAME|] + NAME)) + [MESSAGE_REQUEST])
  {
    hide Encode;
    assert Utf8.IsValid(NAME);
    assert forall i :: 0 <= i < 2 ==> Built(REQUESTS[i]) && Asks(e, REQUESTS[i]);
    Begins(REQUESTS);
    assert [] + Beginning(REQUESTS) == Beginning(REQUESTS);
  }

  /** Requests 0 and 1 are pending, a request is waited for, and the response to
      request 0 arrives together with the first byte of that to request 1: the
      run fails. */
  lemma PendingResponseIsNotRead()
    ensures Legal(New(ECHO), OPENING)
    ensures var e := RunAll(New(ECHO), OPENING);
            && ValidBeginning(e, RESPONSES)
            && Legal(e, Reads(Beginning(RESPONSES))) && RunAll(e, Reads(Beginning(RESPONSES))).faulty
  {
    hide Opening, Invariant, Encode, Enabled, Connection.Step, RunAll, Legal, ValidBeginning, Beginning, Reads;
    Opened();
    var e := RunAll(New(ECHO), OPENING);
    TwoResponses(e);
    ReadsFail(e, MESSAGE_RESPONSE, Encode(0, 8), Result(0, UNIT));
  }

  /** And it fails when a whole request arrives together with the first byte of
      the next. Only an endpoint that does not serve, or makes no requests, can
      count on every message. */
  lemma PendingRequestIsNotRead()
    ensures Legal(New(ECHO), OPENING)
    ensures var e := RunAll(New(ECHO), OPENING);
            && ValidBeginning(e, REQUESTS)
            && Legal(e, Reads(Beginning(REQUESTS))) && RunAll(e, Reads(Beginning(REQUESTS))).faulty
  {
    hide Opening, Invariant, Encode, Enabled, Connection.Step, RunAll, Legal, ValidBeginning, Beginning, Reads;
    Opened();
    var e := RunAll(New(ECHO), OPENING);
    TwoRequests(e);
    ReadsFail(e, MESSAGE_REQUEST, Encode(0, 8) + ([|NAME|] + NAME), Argument(0, NAME, []));
  }
}
