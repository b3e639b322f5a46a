/** After the response to a request that nobody made a wake-up can be lost: a
    callback that fails makes a request, and the header parse that this starts
    takes away the function that the request waiter has left to begin the next. */
module LostWakeUp {
  import opened BigEndian
  import opened WireFormat
  import opened ParserMachine
  import opened RoundTrip
  import opened SplitterModel
  import opened Messages
  import opened Connection
  import opened ConnectionInvariant
  import opened Effects
  import opened IncomingStream
  import opened Peer
  import opened Duplex
  import opened Stopping

  /** Both waiters are there, and `begin_parse_message` is not. */
  const BROKEN: Splitter := Splitter(false, true, true, true, false)

  /** What runs when a header is being read and request 2 alone is pending. */
  predicate Broken(e: Endpoint, stack: seq<Frame>, readers: seq<Op>, buffer: seq<byte>) {
    && e.splitter == BROKEN && e.registry == Registry(ParsingHeader, map[2 := UNIT])
    && e.stack == stack && e.readers == readers && e.buffer == buffer
    && e.writer.calling == [] && !e.writer.resume && !e.halted
  }

  // ----- the response to an unknown request -----

  lemma UnknownArrives(e: Endpoint)
    requires e.stack == [StartParse(Op(ResponseHeader, []))] && e.buffer == Encode(7, 8)
    requires e.registry.expected == Units(2)
    ensures UnknownResponse(e, Op(ResponseHeader, []))
  {
    hide Encode, Parse;
    var id := Encode(7, 8);
    assert [] + id == id && id + [] == id;
    IdParsed(7, []);
    assert Units(2) == Units(1)[1 := UNIT] && Units(1) == Units(0)[0 := UNIT];
  }

  /** Nothing is being written. */
  predicate Calm(e: Endpoint) {
    |e.issued| == 2 && e.interface_ == ECHO && e.writer.calling == [] && !e.writer.resume && !e.halted
  }

  /** All callbacks are to fail, with a request waiter. */
  predicate Failing(e: Endpoint, stack: seq<Frame>) {
    && Calm(e) && e.splitter == Splitter(false, false, true, false, true)
    && e.registry == Registry(NotExpectingResponse, map[])
    && e.stack == stack && e.readers == [] && e.buffer == []
  }

  const WAITER: Frame := Frame.AfterResponse(true)

  lemma TypeKeepsCalm(e: Endpoint, bytes: seq<byte>)
    requires Opening(e, WAITING, 2, [], [HEADER_OP])
    ensures var e1 := OnRead(e, bytes);
            e1.stack != [] && !e1.stack[0].User? && !Resume(e1).halted ==> Calm(Resume(e1))
  {
    hide Resume, Units;
    ResumeOutput(OnRead(e, bytes));
  }

  lemma UnknownFails(e: Endpoint) returns (error: nat, ids: set<nat>)
    requires HeaderBytes(e, ResponseHeader, Encode(7, 8)) && Base(e) && Calm(e)
    ensures Enabled(e, DoResume) && Failing(Resume(e), [FailAll(error, ids)] + [WAITER]) && ids != {}
  {
    hide Resume, Base, Encode, Parse, Stopped;
    var op := Op(ResponseHeader, []);
    UnknownArrives(e);
    IdParsed(7, []);
    assert Encode(7, 8) + [] == Encode(7, 8);
    UnknownStep(e, op);
    error, ids := |e.errors|, e.registry.expected.Keys;
    assert [] + e.buffer == Encode(7, 8);
    assert ([WAITER] + e.stack[1..]) == [WAITER];
    assert 0 in ids by {
      assert Units(2) == Units(1)[1 := UNIT] && Units(1) == Units(0)[0 := UNIT];
    }
  }

  /** The first callback is called. */
  lemma FirstFails(e: Endpoint, error: nat, ids: set<nat>) returns (others: set<nat>)
    requires Failing(e, [FailAll(error, ids)] + [WAITER]) && ids != {}
    ensures Enabled(e, DoResume) && Failing(Resume(e), [User, FailAll(error, others)] + [WAITER])
  {
    hide Resume, Least, FailOne;
    var e0 := e.(stack := e.stack[1..]);
    var id := Least(ids);
    others := ids - {id};
    ResumeFailAll(e);
    FailOneSame(e0, error, ids, id);
    FailOneStreams(e0, error, ids, id);
    assert e0.stack == [WAITER];
  }

  // ----- the callback makes a request -----

  lemma CallStarts(e: Endpoint, rest: seq<Frame>)
    requires Failing(e, [User] + rest)
    ensures Enabled(e, CALL)
    ensures Broken(Request(e, NAME, []), [StartParse(HEADER_OP)] + ([User] + rest), [], [])
  {
    hide HaveTypes, Request, Requested;
    CallSent(e);
    assert map[][2 := UNIT] == map[2 := UNIT];
  }

  lemma HeaderWaits(e: Endpoint, rest: seq<Frame>)
    requires Broken(e, [StartParse(HEADER_OP)] + rest, [], [])
    ensures Enabled(e, DoResume) && Broken(Resume(e), rest, [HEADER_OP], [])
  {
    hide Parse, OnStartParse;
    ResumeParse(e, HEADER_OP);
    NothingToParse(MessageType);
    assert HEADER_OP.fed + e.buffer == [];
    ParseWaits(e.(stack := e.stack[1..]), HEADER_OP);
  }

  /** The other callbacks fail, and the response waiter has returned. */
  lemma OthersFail(e: Endpoint, error: nat, others: set<nat>) returns (events: seq<Event>)
    requires Broken(e, [User, FailAll(error, others)] + [WAITER], [HEADER_OP], [])
    ensures Legal(e, events) && Broken(RunAll(e, events), [], [HEADER_OP], [])
  {
    hide Resume, Legal, RunAll, Enabled;
    LeaveEnabled(e);
    var e1 := e.(stack := e.stack[1..]);
    Single(e, DoLeave);
    var failing := CallbacksFail(e1, error, others, [WAITER]);
    LegalInTurn(e, [DoLeave], failing);
    var e2 := RunAll(e1, failing);
    WaiterReturned(e2);
    Extend(e, [DoLeave] + failing, DoResume);
    events := [DoLeave] + failing + [DoResume];
  }

  lemma LeaveEnabled(e: Endpoint)
    requires e.stack != [] && e.stack[0].User? && !e.halted
    ensures Enabled(e, DoLeave)
  {
  }

  lemma WaiterReturned(e: Endpoint)
    requires Broken(e, [WAITER], [HEADER_OP], [])
    ensures Enabled(e, DoResume) && Broken(Resume(e), [], [HEADER_OP], [])
  {
  }

  // ----- the response to it -----

  const ANSWER: seq<byte> := [MESSAGE_RESPONSE] + Encode(2, 8)

  lemma AnswerArrives(e: Endpoint)
    requires Broken(e, [], [HEADER_OP], [])
    ensures Enabled(e, DoRead(ANSWER)) && Broken(OnRead(e, ANSWER), [StartParse(HEADER_OP)], [], ANSWER)
  {
    hide Encode;
    assert [] + ANSWER == ANSWER;
  }

  lemma AnswerType(e: Endpoint)
    requires Broken(e, [StartParse(HEADER_OP)], [], ANSWER)
    ensures Enabled(e, DoResume) && Broken(Resume(e), [StartParse(Op(ResponseHeader, []))], [], Encode(2, 8))
  {
    hide Parse, OnStartParse, Encode;
    ResumeParse(e, HEADER_OP);
    assert HEADER_OP.fed + e.buffer == ANSWER;
    TypeParsed(MESSAGE_RESPONSE, ANSWER);
    ParseDone(e.(stack := e.stack[1..]), HEADER_OP);
    assert ANSWER[1..] == Encode(2, 8);
  }

  /** The result is read with the request waiter alone, and without the function
      that begins the next header parse. */
  predicate Stuck(e: Endpoint) {
    && e.stack == [StartParse(Op(Result(2, UNIT), []))] + [WAITER]
    && e.splitter == Splitter(true, false, true, false, false) && !e.halted
  }

  lemma AnswerHeader(e: Endpoint)
    requires Broken(e, [StartParse(Op(ResponseHeader, []))], [], Encode(2, 8))
    ensures Enabled(e, DoResume) && Stuck(Resume(e))
  {
    hide Parse, OnStartParse, Encode, OnResponseHeader;
    var op := Op(ResponseHeader, []);
    var id := Encode(2, 8);
    assert [] + id == id && id + [] == id;
    ResumeParse(e, op);
    IdParsed(2, []);
    var e1 := e.(stack := e.stack[1..]);
    ParseDone(e1, op);
    AnswerTaken(e1.(buffer := id[8..]));
  }

  lemma AnswerTaken(e: Endpoint)
    requires e.splitter == BROKEN && e.registry == Registry(ParsingHeader, map[2 := UNIT]) && e.stack == [] && !e.halted
    ensures Stuck(OnResponseHeader(e, 2))
  {
  }

  /** The function that is to begin the next header parse is called though it is
      not set. */
  lemma AnswerUnlocks(e: Endpoint)
    requires Stuck(e)
    ensures Enabled(e, DoResume) && !Resume(e).begun && Resume(e).halted
  {
    hide OnStartParse;
    var op := Op(Result(2, UNIT), []);
    ResumeParse(e, op);
    assert Immediate(UNIT);
    ParseDone(e.(stack := e.stack[1..]), op);
  }

  // ----- the run -----

  const UNKNOWN: Event := DoRead([MESSAGE_RESPONSE] + Encode(7, 8))

  lemma FirstPart(e: Endpoint) returns (error: nat, others: set<nat>)
    requires Opening(e, WAITING, 2, [], [HEADER_OP]) && Invariant(e)
    ensures Legal(e, [UNKNOWN] + [DoResume] + [DoResume] + [DoResume])
    ensures Failing(RunAll(e, [UNKNOWN] + [DoResume] + [DoResume] + [DoResume]),
                    [User, FailAll(error, others)] + [WAITER])
  {
    hide Resume, OnRead, Base, Encode, Enabled, Legal, RunAll, Opening, Calm, HeaderBytes, Failing, Invariant, Units;
    var bytes := [MESSAGE_RESPONSE] + Encode(7, 8);
    TypeArrives(e, MESSAGE_RESPONSE, Encode(7, 8));
    Single(e, UNKNOWN);
    TypeIsRead(OnRead(e, bytes), MESSAGE_RESPONSE, Encode(7, 8));
    Extend(e, [UNKNOWN], DoResume);
    TypeKeepsCalm(e, bytes);
    var e2 := Resume(OnRead(e, bytes));
    RunKeeps(e, [UNKNOWN] + [DoResume]);
    StillBase(e2);
    var ids;
    error, ids := UnknownFails(e2);
    Extend(e, [UNKNOWN] + [DoResume], DoResume);
    others := FirstFails(RunAll(e, [UNKNOWN] + [DoResume] + [DoResume]), error, ids);
    Extend(e, [UNKNOWN] + [DoResume] + [DoResume], DoResume);
  }

  lemma StillBase(e: Endpoint)
    requires HeaderBytes(e, ResponseHeader, Encode(7, 8)) && Invariant(e)
    ensures Base(e) && !e.halted
  {
    hide Base;
  }

  lemma SecondPart(e: Endpoint, error: nat, others: set<nat>) returns (events: seq<Event>)
    requires Failing(e, [User, FailAll(error, others)] + [WAITER])
    ensures Legal(e, events) && Broken(RunAll(e, events), [], [HEADER_OP], [])
  {
    hide Resume, Request, Enabled, Legal, RunAll, Failing, Broken;
    var rest := [FailAll(error, others)] + [WAITER];
    assert [User, FailAll(error, others)] + [WAITER] == [User] + rest;
    CallStarts(e, rest);
    Single(e, CALL);
    HeaderWaits(RunAll(e, [CALL]), [User] + rest);
    Extend(e, [CALL], DoResume);
    var more := OthersFail(RunAll(e, [CALL] + [DoResume]), error, others);
    LegalInTurn(e, [CALL] + [DoResume], more);
    events := [CALL] + [DoResume] + more;
  }

  lemma LastPart(e: Endpoint)
    requires Broken(e, [], [HEADER_OP], [])
    ensures Legal(e, [DoRead(ANSWER)] + [DoResume] + [DoResume] + [DoResume])
    ensures !RunAll(e, [DoRead(ANSWER)] + [DoResume] + [DoResume] + [DoResume]).begun
  {
    hide Resume, OnRead, Encode, Enabled, Legal, RunAll, Broken, Stuck;
    AnswerArrives(e);
    NobodyElse(e);
    Single(e, DoRead(ANSWER));
    var e1 := OnRead(e, ANSWER);
    AnswerType(e1);
    Extend(e, [DoRead(ANSWER)], DoResume);
    AnswerHeader(RunAll(e, [DoRead(ANSWER)] + [DoResume]));
    Extend(e, [DoRead(ANSWER)] + [DoResume], DoResume);
    AnswerUnlocks(RunAll(e, [DoRead(ANSWER)] + [DoResume] + [DoResume]));
    Extend(e, [DoRead(ANSWER)] + [DoResume] + [DoResume], DoResume);
  }

  lemma NobodyElse(e: Endpoint)
    requires Broken(e, [], [HEADER_OP], [])
    ensures e.readers != []
  {
  }

  /** There is a run in which `begin_parse_message` is not set when it is called:
      after the response to a request that nobody made, a callback that fails makes
      another request, and the response to that arrives. */
  lemma WakeUpIsLost() returns (events: seq<Event>)
    ensures Legal(New(ECHO), events) && !RunAll(New(ECHO), events).begun
  {
    hide Opening, Invariant, Enabled, Connection.Step, Legal, RunAll, Failing, Broken;
    Opened();
    var e := RunAll(New(ECHO), OPENING);
    var failing := [UNKNOWN] + [DoResume] + [DoResume] + [DoResume];
    var error, others := FirstPart(e);
    LegalInTurn(New(ECHO), OPENING, failing);
    var e1 := RunAll(e, failing);
    var requesting := SecondPart(e1, error, others);
    LegalInTurn(New(ECHO), OPENING + failing, requesting);
    var answering := [DoRead(ANSWER)] + [DoResume] + [DoResume] + [DoResume];
    LastPart(RunAll(e1, requesting));
    LegalInTurn(New(ECHO), OPENING + failing + requesting, answering);
    events := OPENING + failing + requesting + answering;
  }
}
