/** Two endpoints of the same interface, joined by two byte streams; both may make
    requests and serve them. */
module EndToEnd {
  import opened BigEndian
  import opened WireFormat
  import opened Messages
  import opened ParseOperations
  import opened Connection
  import opened ConnectionInvariant
  import opened ConnectionAccounting
  import opened Effects
  import opened Output
  import opened IncomingStream
  import opened Peer
  import opened Demultiplexing
  import opened Handing
  import opened Stopping
  import W = WriterModel

  // ----- the two ends -----

  datatype System = System(left: Endpoint, right: Endpoint)

  datatype Side = Left | Right

  datatype Move = Move(side: Side, event: Event)

  function Own(s: System, side: Side): Endpoint {
    if side.Left? then s.left else s.right
  }

  function Other(s: System, side: Side): Endpoint {
    if side.Left? then s.right else s.left
  }

  /** The bytes an endpoint has put on its stream. */
  function OnTheWire(e: Endpoint): seq<byte> {
    Flatten(e.writer.writes)
  }

  /** A read returns the next bytes of what the peer has put on the stream; what
      is built is built without an error, and the streams do not break. */
  ghost predicate MayDo(e: Endpoint, peer: Endpoint, event: Event) {
    && Enabled(e, event) && BuildsOk(e, event)
    && !event.DoReadError?
    && (event.DoRead? ==> e.received + event.bytes <= OnTheWire(peer))
  }

  ghost predicate May(s: System, move: Move) {
    MayDo(Own(s, move.side), Other(s, move.side), move.event)
  }

  ghost function Moved(s: System, move: Move): System
    requires May(s, move)
  {
    var e := Connection.Step(Own(s, move.side), move.event);
    if move.side.Left? then System(e, s.right) else System(s.left, e)
  }

  ghost predicate Interleaving(s: System, moves: seq<Move>)
    decreases |moves|
  {
    moves == [] || (May(s, moves[0]) && Interleaving(Moved(s, moves[0]), moves[1..]))
  }

  ghost function After(s: System, moves: seq<Move>): System
    requires Interleaving(s, moves)
    decreases |moves|
  {
    if moves == [] then s else After(Moved(s, moves[0]), moves[1..])
  }

  function Begin(interface_: Interface): System {
    System(New(interface_), New(interface_))
  }

  /** What holds of an endpoint that reads what its peer has built. */
  ghost predicate Joined(e: Endpoint, peer: Endpoint) {
    && (exists m :: PeerInvariant(e, peer.messages, m))
    && Framed(e) && Hungry(e) && Accounted(e) && e.refused == [] && e.interface_ == peer.interface_
  }

  /** What every move keeps that does not run into an error. */
  ghost predicate Joint(s: System) {
    Joined(s.left, s.right) && Joined(s.right, s.left)
  }

  /** What holds of it even after it has met an error. */
  ghost predicate Linked(e: Endpoint, peer: Endpoint) {
    && Handed(e, peer.messages) && Framed(e) && Accounted(e)
    && e.refused == [] && e.dropped == [] && e.interface_ == peer.interface_
    && (forall i :: 0 <= i < |e.issued| ==> e.issued[i].name in e.interface_)
  }

  ghost predicate Steady(e: Endpoint, peer: Endpoint) {
    Linked(e, peer) && if e.faulty then Invariant(e) else Joined(e, peer)
  }

  /** What every move keeps. */
  ghost predicate Consistent(s: System) {
    Steady(s.left, s.right) && Steady(s.right, s.left)
  }

  // ----- what an endpoint builds is what its peer can take -----

  lemma WireIsMessages(e: Endpoint)
    requires Framed(e)
    ensures AllBuilt(e.messages) && OnTheWire(e) <= AllBytes(e.messages)
  {
    hide Registered, InOrder;
    assert OnTheWire(e) + e.writer.buffer == AllBytes(e.messages);
  }

  lemma PeerMayDo(e: Endpoint, peer: Endpoint, event: Event)
    requires Framed(peer) && MayDo(e, peer, event)
    ensures PeerEnabled(e, peer.messages, event)
  {
    hide Framed, Enabled, BuildsOk;
    WireIsMessages(peer);
  }

  /** The implementation's calls are the first requests of the peer. */
  lemma CallsAreRequests(e: Endpoint, peer: Endpoint)
    requires Handed(e, peer.messages) && Framed(peer)
    ensures |e.invoked| <= |peer.issued|
    ensures forall k :: 0 <= k < |e.invoked| ==>
              e.invoked[k] == Invocation(k, peer.issued[k].name, peer.issued[k].args)
  {
    hide HandsOver, Delivered, Implementing, W.Invariant, Registered, Asked, AllBytes, AllBuilt;
    assert e.invoked <= Issues(peer.issued);
  }

  /** The responses so far are to calls that are not open any more. */
  lemma RespondedBefore(e: Endpoint, i: nat)
    requires Framed(e) && i < |e.messages| && e.messages[i].ResponseOf?
    ensures exists k: nat :: k < |e.invoked| && k !in e.open && e.messages[i].id == e.invoked[k].request
  {
    hide W.Invariant, AllBuilt, AllBytes, InOrder;
    var sent := e.writer.registered[i].handler;
    assert Origin(e, sent, e.messages[i]);
    assert sent.invocation < |e.invoked|;
  }

  lemma KnownNames(e: Endpoint, ms: seq<Message>, m: nat)
    requires PeerInvariant(e, ms, m)
    ensures forall i :: 0 <= i < |e.issued| ==> e.issued[i].name in e.interface_
  {
    hide Base, Stream, Record, Fine;
  }

  lemma JoinedLinked(e: Endpoint, peer: Endpoint)
    requires Joined(e, peer)
    ensures Linked(e, peer) && !e.faulty
  {
    hide PeerInvariant, Framed, Accounted, Hungry, Handed, Half, Record;
    var m :| PeerInvariant(e, peer.messages, m);
    Facts(e, peer.messages, m);
    RecordHanded(e, peer.messages, m);
    KnownNames(e, peer.messages, m);
    NotFaulty(e, peer.messages, m);
    NothingFails(e, peer.messages, m);
  }

  /** A response that is built answers a request of that type, for the first time. */
  lemma ResponseMayArrive(e: Endpoint, peer: Endpoint, k: nat, v: Value)
    requires Results(e, k, v) && k in e.open && Built(ResponseMessage(e, k, v))
    requires Linked(e, peer) && Linked(peer, e)
    ensures MayArrive(peer, e.messages, ResponseMessage(e, k, v))
  {
    hide Handed, Framed, Accounted, Built;
    CallsAreRequests(e, peer);
    forall i | 0 <= i < |e.messages| && e.messages[i].ResponseOf?
      ensures e.messages[i].id != k
    {
      RespondedBefore(e, i);
    }
  }

  lemma RequestMayArrive(e: Endpoint, peer: Endpoint, name: Name, args: seq<Value>)
    requires e.interface_ == peer.interface_ && MayDo(e, peer, DoRequest(name, args))
    ensures MayArrive(peer, e.messages, RequestMessage(e, name, args))
  {
    hide Built, HaveTypes;
  }

  // ----- one move -----

  lemma StillJoined(e: Endpoint, peer: Endpoint, e': Endpoint)
    requires Joined(peer, e) && e'.messages == e.messages && e'.interface_ == e.interface_
    ensures Joined(peer, e')
  {
    hide PeerInvariant, Framed, Accounted, Hungry;
  }

  lemma OneMoreMessage(e: Endpoint, peer: Endpoint, e': Endpoint, m: Message)
    requires Joined(peer, e) && e'.messages == e.messages + [m] && e'.interface_ == e.interface_
    requires MayArrive(peer, e.messages, m)
    ensures Joined(peer, e')
  {
    hide PeerInvariant, Framed, Accounted, Hungry, MayArrive;
    var n :| PeerInvariant(peer, e.messages, n);
    PeerGrows(peer, e.messages, n, m);
  }

  /** What a move means for the other end. */
  lemma PeerStaysJoined(e: Endpoint, peer: Endpoint, event: Event)
    requires Linked(e, peer) && Joined(peer, e) && MayDo(e, peer, event)
    ensures Joined(peer, Connection.Step(e, event))
  {
    hide Joined, Linked, HaveTypes, Results, Request, Respond, RequestMessage, ResponseMessage, MayArrive, MayDo;
    Builds(e, peer, event);
    JoinedLinked(peer, e);
    var e' := Connection.Step(e, event);
    if event.DoRequest? {
      RequestMayArrive(e, peer, event.name, event.args);
      OneMoreMessage(e, peer, e', RequestMessage(e, event.name, event.args));
    } else if event.DoRespond? {
      ResponseMayArrive(e, peer, event.invocation, event.value);
      OneMoreMessage(e, peer, e', ResponseMessage(e, event.invocation, event.value));
    } else {
      StillJoined(e, peer, e');
    }
  }

  /** What a move adds to the messages. */
  lemma Builds(e: Endpoint, peer: Endpoint, event: Event)
    requires MayDo(e, peer, event) && Linked(e, peer)
    ensures Enabled(e, event) && e.interface_ == peer.interface_
    ensures event.DoRespond? ==> Built(ResponseMessage(e, event.invocation, event.value))
    ensures var e' := Connection.Step(e, event);
            && e'.interface_ == e.interface_ && e'.refused == e.refused
            && e'.issued == (if event.DoRequest? then e.issued + [Issue(event.name, event.args)] else e.issued)
            && e'.messages == match event
                              case DoRequest(name, args) => e.messages + [RequestMessage(e, name, args)]
                              case DoRespond(k, v) => e.messages + [ResponseMessage(e, k, v)]
                              case _ => e.messages
  {
    hide HaveTypes, Results, Request, Respond, RequestMessage, ResponseMessage, Handed, Framed, Accounted, Enabled;
    match event {
      case DoRequest(name, args) => RequestBuilds(e, name, args);
      case DoRespond(k, v) => RespondBuilds(e, k, v);
      case _ => StepMessages(e, event);
    }
  }

  lemma RequestBuilds(e: Endpoint, name: Name, args: seq<Value>)
    requires Enabled(e, DoRequest(name, args)) && Built(RequestMessage(e, name, args))
    ensures var e' := Request(e, name, args);
            && e'.messages == e.messages + [RequestMessage(e, name, args)]
            && e'.interface_ == e.interface_ && e'.refused == e.refused
            && e'.issued == e.issued + [Issue(name, args)]
  {
    hide HaveTypes, RequestMessage, Bytes, Body, Head, ExpectResponse, W.SendBuffer, W.Append;
    RequestMessages(e, name, args);
    ExpectStreams(Requested(e, name, args), |e.issued|, e.interface_[name].result);
  }

  lemma RespondBuilds(e: Endpoint, k: nat, v: Value)
    requires Enabled(e, DoRespond(k, v)) && Built(ResponseMessage(e, k, v))
    ensures var e' := Respond(e, k, v);
            && e'.messages == e.messages + [ResponseMessage(e, k, v)]
            && e'.interface_ == e.interface_ && e'.refused == e.refused && e'.issued == e.issued
  {
    hide Results, ResponseMessage, Bytes, Body, Head, W.SendBuffer, W.Append;
    RespondMessages(e, k, v);
  }

  /** What a move means for the end that makes it. */
  lemma StaysJoined(e: Endpoint, peer: Endpoint, event: Event)
    requires Joined(e, peer) && Framed(peer) && MayDo(e, peer, event)
    ensures var e' := Connection.Step(e, event);
            if event == DoResume && Unwanted(e) then Fails(e, e') && Invariant(e') else Joined(e', peer) && !e'.faulty
  {
    hide PeerInvariant, Framed, AccountedFor, Hungry, Connection.Step, Enabled, BuildsOk, Unwanted, Base, Invariant,
         Fails, Linked;
    JoinedLinked(e, peer);
    var m :| PeerInvariant(e, peer.messages, m);
    var e' := Connection.Step(e, event);
    PeerMayDo(e, peer, event);
    Facts(e, peer.messages, m);
    FactsInvariant(e, peer.messages, m);
    StepKeeps(e, event);
    StepHungry(e, event);
    StepFramed(e, event);
    Builds(e, peer, event);
    var m' := PeerStep(e, peer.messages, m, event);
    if !(event == DoResume && Unwanted(e)) {
      NotFaulty(e', peer.messages, m');
    }
    forall id: nat
      ensures AccountedFor(e', id)
    {
      StepAccounted(e, event, id);
    }
  }

  lemma JoinedFramed(e: Endpoint, peer: Endpoint)
    requires Joined(e, peer)
    ensures Framed(e)
  {
    hide PeerInvariant, Framed, Accounted, Hungry;
  }

  /** A move runs into an error if and only if it decodes the type byte of a
      message that nobody waits for. */
  predicate Unlucky(s: System, move: Move) {
    move.event == DoResume && Unwanted(Own(s, move.side))
  }

  lemma MoveJoint(s: System, move: Move)
    requires Joint(s) && May(s, move)
    ensures if Unlucky(s, move) then Fails(Own(s, move.side), Own(Moved(s, move), move.side))
            else Joint(Moved(s, move)) && !Own(Moved(s, move), move.side).faulty
    ensures Unlucky(s, move) ==> Invariant(Own(Moved(s, move), move.side))
  {
    hide Joined, Linked, MayDo, Fails, Unwanted, Invariant, Connection.Step;
    var e, peer := Own(s, move.side), Other(s, move.side);
    JoinedFramed(peer, e);
    JoinedLinked(e, peer);
    StaysJoined(e, peer, move.event);
    PeerStaysJoined(e, peer, move.event);
  }

  // ----- one move, after an error -----

  lemma FinishedRuns(e: Endpoint, event: Event)
    requires Invariant(e) && e.faulty && Enabled(e, event)
    ensures Base(e) && Stopped(e) && !event.DoRead? && (event.DoResume? ==> !e.stack[0].StartParse?)
  {
    hide Base;
    StoppedIsBlocked(e);
  }

  /** An end that has met an error goes on to hand over what was under way. */
  lemma FinishedSteady(e: Endpoint, peer: Endpoint, event: Event)
    requires Linked(e, peer) && Invariant(e) && e.faulty && MayDo(e, peer, event)
    ensures var e' := Connection.Step(e, event);
            Linked(e', peer) && Invariant(e') && e'.faulty
  {
    hide Handed, Framed, AccountedFor, Connection.Step, Enabled, BuildsOk, Base, Invariant, Stopped;
    var e' := Connection.Step(e, event);
    FinishedRuns(e, event);
    StepKeeps(e, event);
    StepFramed(e, event);
    Builds(e, peer, event);
    StepHanded(e, event, peer.messages);
    NoParseMarks(e, event);
    EachAccounted(e, event);
    assert event.DoRequest? ==> event.name in e.interface_ by {
      RequestNamed(e, event);
    }
  }

  lemma RequestNamed(e: Endpoint, event: Event)
    requires Enabled(e, event)
    ensures event.DoRequest? ==> event.name in e.interface_
  {
    hide HaveTypes;
  }

  lemma EachAccounted(e: Endpoint, event: Event)
    requires Accounted(e) && Enabled(e, event)
    ensures Accounted(Connection.Step(e, event))
  {
    hide AccountedFor, Connection.Step, Enabled;
    forall id: nat
      ensures AccountedFor(Connection.Step(e, event), id)
    {
      assert AccountedFor(e, |e.issued|);
      StepAccounted(e, event, id);
    }
  }

  /** The step in which an end meets an error. */
  lemma UnluckyLinked(e: Endpoint, peer: Endpoint)
    requires Linked(e, peer) && Unwanted(e) && MayDo(e, peer, DoResume)
    ensures Linked(Connection.Step(e, DoResume), peer)
  {
    hide Handed, Framed, Accounted, Resume, BuildsOk;
    StepFramed(e, DoResume);
    Builds(e, peer, DoResume);
    TypeStepHanded(e, e.stack[0].op, peer.messages);
    EachAccounted(e, DoResume);
  }

  lemma OwnSteady(e: Endpoint, peer: Endpoint, event: Event)
    requires Steady(e, peer) && Steady(peer, e) && MayDo(e, peer, event)
    ensures Steady(Connection.Step(e, event), peer)
    ensures !e.faulty ==> (Connection.Step(e, event).faulty <==> event == DoResume && Unwanted(e))
  {
    hide Joined, Linked, Invariant, MayDo, Unwanted, Connection.Step, Fails, Enabled;
    LinkedFramed(peer, e);
    MayEnabled(e, peer, event);
    if e.faulty {
      FinishedSteady(e, peer, event);
    } else {
      StaysJoined(e, peer, event);
      if event == DoResume && Unwanted(e) {
        UnluckyLinked(e, peer);
        FailedFaulty(e, Connection.Step(e, event));
      } else {
        JoinedLinked(Connection.Step(e, event), peer);
      }
    }
  }

  lemma FailedFaulty(e: Endpoint, e': Endpoint)
    requires Fails(e, e')
    ensures e'.faulty
  {
  }

  lemma LinkedFramed(e: Endpoint, peer: Endpoint)
    requires Linked(e, peer)
    ensures Framed(e)
  {
    hide Handed, Framed, Accounted;
  }

  lemma PeerSteady(e: Endpoint, peer: Endpoint, event: Event)
    requires Steady(e, peer) && Steady(peer, e) && MayDo(e, peer, event)
    ensures Steady(peer, Connection.Step(e, event))
  {
    hide Joined, Linked, Invariant, MayDo, Connection.Step;
    if peer.faulty {
      PeerLinked(e, peer, event);
    } else {
      PeerStaysJoined(e, peer, event);
      MayEnabled(e, peer, event);
      JoinedLinked(peer, Connection.Step(e, event));
    }
  }

  lemma PeerLinked(e: Endpoint, peer: Endpoint, event: Event)
    requires Linked(e, peer) && Linked(peer, e) && MayDo(e, peer, event)
    ensures Linked(peer, Connection.Step(e, event))
  {
    hide Handed, Framed, Accounted, Connection.Step, MayDo, RequestMessage, ResponseMessage, HaveTypes, Results;
    Builds(e, peer, event);
    if event.DoRequest? {
      HandedGrows(peer, e.messages, RequestMessage(e, event.name, event.args));
    } else if event.DoRespond? {
      HandedGrows(peer, e.messages, ResponseMessage(e, event.invocation, event.value));
    }
  }

  // ----- every interleaving -----

  lemma BeginJoint(interface_: Interface)
    requires Conformable(interface_)
    ensures Joint(Begin(interface_))
  {
    hide PeerInvariant, Framed, Accounted, Hungry, Conformable;
    NewPeer(interface_);
    NewFramed(interface_);
    NewHungry(interface_);
    NewAccounts(interface_);
    assert New(interface_).messages == [];
  }

  lemma NewAccounts(interface_: Interface)
    ensures Accounted(New(interface_))
  {
    hide AccountedFor, New;
    forall id: nat
      ensures AccountedFor(New(interface_), id)
    {
      NewAccounted(interface_, id);
    }
  }

  predicate Faulty(s: System) {
    s.left.faulty || s.right.faulty
  }

  lemma MayEnabled(e: Endpoint, peer: Endpoint, event: Event)
    requires MayDo(e, peer, event)
    ensures Enabled(e, event) && !event.DoReadError?
  {
    hide Enabled, BuildsOk;
  }

  lemma BeginConsistent(interface_: Interface)
    requires Conformable(interface_)
    ensures Consistent(Begin(interface_))
  {
    hide Joined, Linked, Invariant, Conformable;
    BeginJoint(interface_);
    var s := Begin(interface_);
    JoinedLinked(s.left, s.right);
    JoinedLinked(s.right, s.left);
  }

  /** Every move keeps this, and one that meets an error decodes the type byte of a
      message that its end does not wait for. */
  lemma MoveConsistent(s: System, move: Move)
    requires Consistent(s) && May(s, move)
    ensures Consistent(Moved(s, move))
    ensures !Own(s, move.side).faulty ==> (Own(Moved(s, move), move.side).faulty <==> Unlucky(s, move))
  {
    hide Steady, MayDo, Unwanted, Connection.Step;
    var e, peer := Own(s, move.side), Other(s, move.side);
    OwnSteady(e, peer, move.event);
    PeerSteady(e, peer, move.event);
  }

  lemma {:induction false} AfterConsistent(s: System, moves: seq<Move>)
    requires Consistent(s) && Interleaving(s, moves)
    ensures Consistent(After(s, moves))
    decreases |moves|
  {
    hide Consistent, May, Moved, Unlucky, Own;
    if moves != [] {
      MoveConsistent(s, moves[0]);
      AfterConsistent(Moved(s, moves[0]), moves[1..]);
    }
  }

  lemma AfterJoint(s: System, moves: seq<Move>)
    requires Joint(s) && Interleaving(s, moves) && !Faulty(After(s, moves))
    ensures Joint(After(s, moves))
  {
    hide Joined, Linked, Invariant, May, Moved;
    JoinedLinked(s.left, s.right);
    JoinedLinked(s.right, s.left);
    AfterConsistent(s, moves);
  }

  // ----- the theorem -----

  /** The callback of a request was called with the result that the peer's
      implementation gave for the call with that request's own arguments. */
  predicate OwnResult(e: Endpoint, peer: Endpoint, answered: Answered) {
    var id := answered.id;
    && id < |e.issued| && id < |peer.invoked|
    && peer.invoked[id] == Invocation(id, e.issued[id].name, e.issued[id].args)
    && Response(id, answered.value) in peer.responses
  }

  lemma AnsweredIsOwn(e: Endpoint, peer: Endpoint, j: nat)
    requires Linked(e, peer) && Linked(peer, e) && j < |e.answered|
    ensures OwnResult(e, peer, e.answered[j])
  {
    hide Framed, Accounted, HandsOver, Implementing, Asked;
    var Answered(id, v) := e.answered[j];
    assert Delivered(peer.messages, |peer.messages|, id, v);
    var i :| 0 <= i < |peer.messages| && peer.messages[i].ResponseOf?
             && peer.messages[i].id == id && peer.messages[i].value == v;
    CallsAreRequests(peer, e);
    GivenBy(peer, i);
  }

  /** A message that is a response carries a result that was given. */
  lemma GivenBy(e: Endpoint, i: nat)
    requires Framed(e) && i < |e.messages| && e.messages[i].ResponseOf?
    ensures exists k: nat :: k < |e.invoked| && e.messages[i].id == e.invoked[k].request
                             && Response(k, e.messages[i].value) in e.responses
  {
    hide W.Invariant, AllBuilt, AllBytes, InOrder;
    var sent := e.writer.registered[i].handler;
    assert Origin(e, sent, e.messages[i]);
    assert sent.invocation < |e.invoked|;
  }

  /** A callback is called at most once, with an error or with the one result that
      the peer's implementation has given for the call's own arguments; the
      implementation is called once for each request, in the order of the requests. */
  ghost predicate Safe(e: Endpoint, peer: Endpoint) {
    && (forall j :: 0 <= j < |e.answered| ==> OwnResult(e, peer, e.answered[j]))
    && (forall id: nat :: AnsweredCount(e.answered, id) + FailedCount(e.failed, id) <= One(id < |e.issued|))
    && (forall i, j :: 0 <= i < j < |peer.responses| ==> peer.responses[i].invocation != peer.responses[j].invocation)
    && |peer.invoked| <= |e.issued|
    && (forall k :: 0 <= k < |peer.invoked| ==> peer.invoked[k] == Invocation(k, e.issued[k].name, e.issued[k].args))
    && e.dropped == []
  }

  /** Nothing has failed. */
  predicate Unharmed(e: Endpoint) {
    e.failed == [] && e.dropped == [] && e.clean && !e.halted
  }

  /** And nothing fails as long as the end itself has met no error. */
  ghost predicate Correct(e: Endpoint, peer: Endpoint) {
    Safe(e, peer) && (!e.faulty ==> Unharmed(e))
  }

  lemma LinkedSafe(e: Endpoint, peer: Endpoint)
    requires Linked(e, peer) && Linked(peer, e)
    ensures Safe(e, peer)
  {
    hide Handed, Framed, Accounted, OwnResult, AnsweredCount, FailedCount;
    CallsAreRequests(peer, e);
    ResponsesDiffer(peer);
    AtMostOnceAtAll(e);
    forall j | 0 <= j < |e.answered|
      ensures OwnResult(e, peer, e.answered[j])
    {
      AnsweredIsOwn(e, peer, j);
    }
  }

  lemma AtMostOnceAtAll(e: Endpoint)
    requires Accounted(e)
    ensures forall id: nat :: AnsweredCount(e.answered, id) + FailedCount(e.failed, id) <= One(id < |e.issued|)
  {
    hide AnsweredCount, FailedCount, IdCount, StackCount, ReaderCount;
    forall id: nat
      ensures AnsweredCount(e.answered, id) + FailedCount(e.failed, id) <= One(id < |e.issued|)
    {
      assert AccountedFor(e, id);
    }
  }

  lemma SteadyCorrect(e: Endpoint, peer: Endpoint)
    requires Steady(e, peer) && Linked(peer, e)
    ensures Correct(e, peer)
  {
    hide Joined, Linked, Invariant, Safe;
    LinkedSafe(e, peer);
    if !e.faulty {
      JoinedFine(e, peer);
    }
  }

  lemma JoinedFine(e: Endpoint, peer: Endpoint)
    requires Joined(e, peer)
    ensures Unharmed(e)
  {
    hide PeerInvariant, Framed, Accounted, Hungry;
    var m :| PeerInvariant(e, peer.messages, m);
    ReadingFine(e, peer.messages, m);
  }

  lemma ReadingFine(e: Endpoint, ms: seq<Message>, m: nat)
    requires PeerInvariant(e, ms, m)
    ensures Unharmed(e)
  {
    hide Base, Stream, Register, Record, Conformable;
  }

  lemma JoinedCalls(e: Endpoint, peer: Endpoint)
    requires Joined(e, peer) && Joined(peer, e)
    ensures |e.invoked| <= |peer.issued|
    ensures forall k :: 0 <= k < |e.invoked| ==>
              e.invoked[k] == Invocation(k, peer.issued[k].name, peer.issued[k].args)
  {
    hide Joined, Handed, Framed, Accounted;
    JoinedLinked(e, peer);
    JoinedFramed(peer, e);
    CallsAreRequests(e, peer);
  }

  lemma ResponsesDiffer(e: Endpoint)
    requires Framed(e)
    ensures forall i, j :: 0 <= i < j < |e.responses| ==> e.responses[i].invocation != e.responses[j].invocation
  {
    hide Registered, W.Invariant;
  }

  /** Over every interleaving of the two ends, every way the streams are cut into
      reads and any number of pipelined calls in both directions, also after one end
      or both have met an error: a callback at either end gets its own call's result
      or an error, once, and nothing else; and nothing fails at an end that has met
      no error. */
  lemma EachCallGetsItsOwnResult(interface_: Interface, moves: seq<Move>)
    requires Conformable(interface_) && Interleaving(Begin(interface_), moves)
    ensures var s := After(Begin(interface_), moves);
            Correct(s.left, s.right) && Correct(s.right, s.left)
  {
    hide Joined, Linked, Invariant, Correct, May, Moved;
    BeginConsistent(interface_);
    AfterConsistent(Begin(interface_), moves);
    var s := After(Begin(interface_), moves);
    SteadyCorrect(s.left, s.right);
    SteadyCorrect(s.right, s.left);
  }

  lemma JoinedUntimely(e: Endpoint, peer: Endpoint)
    requires Joined(e, peer)
    ensures Unwanted(e) <==> Untimely(e)
  {
    hide PeerInvariant, Framed, Accounted, Hungry, Unwanted, Untimely;
    var m :| PeerInvariant(e, peer.messages, m);
    UnwantedIsUntimely(e, peer.messages, m);
  }

  /** And a move of an end that has met no error runs into one exactly when it
      decodes the type byte of a message that its end does not wait for, at one of
      the times that `Untimely` lists. */
  lemma SystemFailsExactly(interface_: Interface, moves: seq<Move>, move: Move)
    requires Conformable(interface_) && Interleaving(Begin(interface_), moves)
    requires var s := After(Begin(interface_), moves);
             !Own(s, move.side).faulty && May(s, move)
    ensures var s := After(Begin(interface_), moves);
            var e' := Own(Moved(s, move), move.side);
            && (e'.faulty <==> Unlucky(s, move))
            && (e'.faulty <==> move.event == DoResume && Untimely(Own(s, move.side)))
  {
    hide Joined, Linked, Invariant, May, Moved, Unwanted, Untimely, Connection.Step, Interleaving;
    BeginConsistent(interface_);
    AfterConsistent(Begin(interface_), moves);
    var s := After(Begin(interface_), moves);
    JoinedUntimely(Own(s, move.side), Other(s, move.side));
    MoveConsistent(s, move);
  }

  // ----- a client and a server -----

  /** The left end makes requests only, the right one serves them only. */
  predicate ClientServer(moves: seq<Move>) {
    forall i :: 0 <= i < |moves| ==>
      if moves[i].side.Left? then !moves[i].event.DoServe? else !moves[i].event.DoRequest?
  }

  predicate Roles(s: System) {
    s.left.log.serves == 0 && s.right.issued == []
  }

  lemma {:induction false} NoRequests(ms: seq<Message>)
    requires Asked(ms) == []
    ensures forall i :: 0 <= i < |ms| ==> ms[i].ResponseOf?
    decreases |ms|
  {
    if ms != [] {
      NoRequests(ms[..|ms| - 1]);
      assert forall i :: 0 <= i < |ms| - 1 ==> ms[..|ms| - 1][i] == ms[i];
    }
  }

  /** Then the right end's messages are responses, the left end's requests. */
  lemma RolesApart(s: System)
    requires Joint(s) && Roles(s)
    ensures Client(World(s.left, s.right.messages)) && Server(World(s.right, s.left.messages))
  {
    hide Joined, Handed, Framed, Accounted, Asked;
    JoinedLinked(s.left, s.right);
    JoinedLinked(s.right, s.left);
    FramedAsks(s.right);
    NoRequests(s.right.messages);
    CallsAreRequests(s.left, s.right);
    forall i | 0 <= i < |s.left.messages|
      ensures s.left.messages[i].RequestOf?
    {
      if s.left.messages[i].ResponseOf? {
        GivenBy(s.left, i);
      }
    }
  }

  lemma FramedAsks(e: Endpoint)
    requires Framed(e)
    ensures Asked(e.messages) == Issues(e.issued)
  {
    hide Registered, W.Invariant, Asked, AllBuilt, AllBytes;
  }

  lemma RolesStay(s: System, move: Move)
    requires May(s, move) && Roles(s)
    requires if move.side.Left? then !move.event.DoServe? else !move.event.DoRequest?
    ensures Roles(Moved(s, move))
  {
    hide Connection.Step, BuildsOk, Enabled;
    var e := Own(s, move.side);
    if move.event.DoRequest? {
      RequestRole(e, move.event);
    } else if move.event.DoRespond? {
      RespondRole(e, move.event);
    } else {
      StepMessages(e, move.event);
    }
  }

  lemma NeverUnlucky(s: System, move: Move)
    requires Joint(s) && Roles(s) && May(s, move)
    ensures !Unlucky(s, move)
  {
    hide PeerInvariant, Framed, Accounted, Hungry, MayDo, Client, Server, PeerEnabled, Unwanted;
    var e, peer := Own(s, move.side), Other(s, move.side);
    RolesApart(s);
    JoinedFramed(peer, e);
    PeerMayDo(e, peer, move.event);
    var m :| PeerInvariant(e, peer.messages, m);
    NotUnlucky(World(e, peer.messages), Does(move.event), m);
  }

  lemma {:induction false} ClientServerRuns(s: System, moves: seq<Move>)
    requires Joint(s) && !Faulty(s) && Roles(s) && Interleaving(s, moves) && ClientServer(moves)
    ensures !Faulty(After(s, moves))
    decreases |moves|
  {
    hide Joined, MayDo, Roles, Unlucky, Invariant, Connection.Step, Fails;
    if moves != [] {
      NeverUnlucky(s, moves[0]);
      MoveJoint(s, moves[0]);
      RolesStay(s, moves[0]);
      ClientServerRuns(Moved(s, moves[0]), moves[1..]);
    }
  }

  /** A client and a server never meet an error: every call of the client gets its
      own result over all their interleavings. */
  lemma ClientAndServer(interface_: Interface, moves: seq<Move>)
    requires Conformable(interface_) && Interleaving(Begin(interface_), moves) && ClientServer(moves)
    ensures var s := After(Begin(interface_), moves);
            !Faulty(s) && Correct(s.left, s.right) && Correct(s.right, s.left)
  {
    hide Joint, Correct, May, Moved;
    BeginJoint(interface_);
    ClientServerRuns(Begin(interface_), moves);
    EachCallGetsItsOwnResult(interface_, moves);
  }
}
