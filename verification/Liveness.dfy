/** From every state that a client and a server can reach they can go on to one
    where all that was sent has arrived and has been handed over, with the
    applications doing no more than to serve the next request. */
module Liveness {
  import opened BigEndian
  import opened WireFormat
  import opened SplitterModel
  import opened Messages
  import opened ParseOperations
  import opened Connection
  import opened ConnectionInvariant
  import opened ConnectionAccounting
  import opened Effects
  import opened Output
  import opened IncomingStream
  import opened Peer
  import opened Demultiplexing
  import opened EndToEnd
  import opened Delivery
  import opened Progress
  import W = WriterModel

  // ----- moves one after the other -----

  /** These moves lead from one state to the other. */
  ghost predicate Leads(s: System, moves: seq<Move>, t: System) {
    Interleaving(s, moves) && ClientServer(moves) && After(s, moves) == t
  }

  predicate InRole(move: Move) {
    if move.side.Left? then !move.event.DoServe? else !move.event.DoRequest?
  }

  lemma {:induction false} LeadsOn(s: System, a: seq<Move>, t: System, b: seq<Move>, u: System)
    requires Leads(s, a, t) && Leads(t, b, u)
    ensures Leads(s, a + b, u)
    decreases |a|
  {
    hide May, Moved;
    if a == [] {
      assert a + b == b;
    } else {
      assert Leads(Moved(s, a[0]), a[1..], t);
      LeadsOn(Moved(s, a[0]), a[1..], t, b, u);
      assert (a + b)[0] == a[0] && (a + b)[1..] == a[1..] + b;
    }
  }

  lemma LeadsBy(s: System, move: Move)
    requires May(s, move) && InRole(move)
    ensures Leads(s, [move], Moved(s, move))
  {
    hide May, Moved;
    assert [move][1..] == [];
    assert Interleaving(Moved(s, move), []);
    assert After(Moved(s, move), []) == Moved(s, move);
  }

  /** A client and a server that have met no error. */
  ghost predicate Live(s: System) {
    Joint(s) && !Faulty(s) && Roles(s)
  }

  lemma MoveLive(s: System, move: Move)
    requires Live(s) && May(s, move) && InRole(move)
    ensures Live(Moved(s, move))
  {
    hide Joint, MayDo, Roles, EndToEnd.Unlucky, Invariant, Connection.Step, Fails;
    NeverUnlucky(s, move);
    MoveJoint(s, move);
    RolesStay(s, move);
  }

  lemma {:induction false} RunsLive(s: System, moves: seq<Move>)
    requires Live(s) && Interleaving(s, moves) && ClientServer(moves)
    ensures Live(After(s, moves))
    decreases |moves|
  {
    hide Live, May, Moved;
    if moves != [] {
      MoveLive(s, moves[0]);
      RunsLive(Moved(s, moves[0]), moves[1..]);
    }
  }

  lemma LiveJoined(s: System, side: Side)
    requires Live(s)
    ensures Joined(Own(s, side), Other(s, side)) && Joined(Other(s, side), Own(s, side))
    ensures Framed(Own(s, side)) && Framed(Other(s, side)) && !Own(s, side).halted
  {
    hide Joined, Framed;
    JoinedFramed(s.left, s.right);
    JoinedFramed(s.right, s.left);
    JoinedFine(Own(s, side), Other(s, side));
  }

  // ----- nothing is sent -----

  predicate SendsNothing(e: Endpoint, e': Endpoint) {
    e'.messages == e.messages && e'.log.serves == e.log.serves && e'.log.told == e.log.told
  }

  /** Running what is on the stack. */
  lemma UnwindStep(e: Endpoint, peer: Endpoint, event: Event)
    requires Joined(e, peer) && Enabled(e, event) && (event.DoResume? || event.DoLeave?)
    ensures var e' := Connection.Step(e, event);
            SendsNothing(e, e') && e'.writer == e.writer && e'.received == e.received
  {
    hide PeerInvariant, Framed, Accounted, Hungry, Resume, FrameFits;
    if event.DoResume? {
      var m :| PeerInvariant(e, peer.messages, m);
      TopFits(e, peer.messages, m);
      ResumeSends(e, peer.messages, m);
    }
  }

  lemma ResumeSends(e: Endpoint, ms: seq<Message>, m: nat)
    requires m <= |ms| && e.stack != [] && !e.stack[0].User? && FrameFits(ms, m, e.stack[0])
    ensures SendsNothing(e, Resume(e)) && Resume(e).writer == e.writer && Resume(e).received == e.received
  {
    hide Least, Apply, OnStartParse, OnImplement, OnNextResponse, OnFailAll, OnAnswer, OnAfterError, OnServeError,
         Delivered;
    if e.stack[0].Implement? {
      ImplementMessages(e.(stack := e.stack[1..]), e.stack[0].request, e.stack[0].name, e.stack[0].args);
    } else {
      ResumeOutput(e);
    }
  }

  /** What is on the stack of an end runs, its application doing nothing. */
  lemma {:induction false} Unwind(s: System, side: Side) returns (moves: seq<Move>, t: System)
    requires Live(s)
    ensures Leads(s, moves, t) && Live(t) && Other(t, side) == Other(s, side)
    ensures var e, e' := Own(s, side), Own(t, side);
            e'.stack == [] && SendsNothing(e, e') && e'.writer == e.writer && e'.received == e.received
    decreases Effort(Own(s, side))
  {
    hide Live, Leads, Effort, Joined, Framed, Connection.Step;
    var e := Own(s, side);
    if e.stack == [] {
      moves, t := [], s;
      NoMoves(s);
    } else {
      var move := Move(side, if e.stack[0].User? then DoLeave else DoResume);
      LiveJoined(s, side);
      UnwindStep(e, Other(s, side), move.event);
      StepEffort(e, move.event);
      MoveLive(s, move);
      LeadsBy(s, move);
      var rest;
      rest, t := Unwind(Moved(s, move), side);
      LeadsOn(s, [move], Moved(s, move), rest, t);
      moves := [move] + rest;
    }
  }

  lemma NoMoves(s: System)
    ensures Leads(s, [], s)
  {
  }

  // ----- the writer becomes idle -----

  predicate Idle(w: W.Writer<Sent>) {
    !w.inFlight && w.calling == [] && !w.resume
  }

  function ToSend(w: W.Writer<Sent>): nat {
    |w.calling| + |w.batch| + |w.queue|
    + (if w.inFlight then (if w.buffer != [] then 4 else 1) else 0) + (if w.resume then 3 else 0)
  }

  /** What an idle loop does next for the writer. */
  function NextSend(w: W.Writer<Sent>): Event {
    if w.calling != [] then DoWriterCall else if w.resume then DoWriterContinue else DoWritten
  }

  lemma WriterEnabled(e: Endpoint)
    requires W.Invariant(e.writer) && e.stack == [] && !e.halted && !Idle(e.writer)
    ensures Enabled(e, NextSend(e.writer))
  {
  }

  lemma WriterStep(e: Endpoint)
    requires W.Invariant(e.writer) && e.stack == [] && Enabled(e, NextSend(e.writer))
    ensures var e' := Connection.Step(e, NextSend(e.writer));
            SendsNothing(e, e') && e'.received == e.received && ToSend(e'.writer) < ToSend(e.writer)
  {
    hide W.Invariant, ToSend, W.CallNext, W.Continue, W.Complete, OnSent, SendsNothing, Connection.Step, Enabled;
    OneWrite(e.writer);
    WriterShrinks(e.writer);
    if e.writer.calling != [] {
      CallStep(e);
    } else {
      WriteStep(e);
    }
  }

  lemma CallStep(e: Endpoint)
    requires Enabled(e, DoWriterCall)
    ensures var e' := Connection.Step(e, DoWriterCall);
            && SendsNothing(e, e') && e'.received == e.received
            && e.writer.calling != [] && e.writer.results != [] && e'.writer == W.CallNext(e.writer)
  {
    hide W.CallNext, OnSent, HaveTypes, Results, Resume, OnRead, OnError, Request, Respond, Serve;
    SentStreams(e.(writer := W.CallNext(e.writer)), e.writer.calling[0]);
  }

  lemma WriteStep(e: Endpoint)
    requires e.writer.calling == [] && Enabled(e, NextSend(e.writer))
    ensures var e' := Connection.Step(e, NextSend(e.writer));
            && SendsNothing(e, e') && e'.received == e.received
            && e'.writer == (if e.writer.resume then W.Continue(e.writer) else W.Complete(e.writer, 0))
            && (e.writer.resume || e.writer.inFlight)
  {
    hide W.Continue, W.Complete, HaveTypes, Results, Resume, OnRead, OnError, Request, Respond, Serve;
  }

  lemma OneWrite(w: W.Writer<Sent>)
    requires W.Invariant(w)
    ensures !(w.inFlight && w.resume)
  {
    hide W.Conserves, W.Ordered, W.Answered;
  }

  lemma WriterShrinks(w: W.Writer<Sent>)
    ensures w.calling != [] && w.results != [] ==> ToSend(W.CallNext(w)) < ToSend(w)
    ensures w.calling == [] && w.resume && !w.inFlight ==> ToSend(W.Continue(w)) < ToSend(w)
    ensures w.calling == [] && !w.resume && w.inFlight ==> ToSend(W.Complete(w, 0)) < ToSend(w)
  {
  }

  lemma {:induction false} FinishSending(s: System, side: Side) returns (moves: seq<Move>, t: System)
    requires Live(s) && Own(s, side).stack == []
    ensures Leads(s, moves, t) && Live(t) && Other(t, side) == Other(s, side)
    ensures var e, e' := Own(s, side), Own(t, side);
            e'.stack == [] && SendsNothing(e, e') && e'.received == e.received && Idle(e'.writer)
    decreases ToSend(Own(s, side).writer)
  {
    hide Live, Leads, ToSend, Joined, Framed, Connection.Step, Idle, Enabled, W.Invariant;
    var e := Own(s, side);
    if Idle(e.writer) {
      moves, t := [], s;
      NoMoves(s);
    } else {
      var move := Move(side, NextSend(e.writer));
      LiveJoined(s, side);
      FramedWriter(e);
      WriterEnabled(e);
      WriterStep(e);
      MoveLive(s, move);
      LeadsBy(s, move);
      var s1 := Moved(s, move);
      var a, s2 := Unwind(s1, side);
      LeadsOn(s, [move], s1, a, s2);
      var rest;
      rest, t := FinishSending(s2, side);
      LeadsOn(s, [move] + a, s2, rest, t);
      moves := [move] + a + rest;
    }
  }

  lemma FramedWriter(e: Endpoint)
    requires Framed(e)
    ensures W.Invariant(e.writer)
  {
    hide Registered, InOrder, W.Invariant;
  }

  /** Then everything it has built is on the wire. */
  lemma AllSent(e: Endpoint)
    requires Framed(e) && Idle(e.writer)
    ensures AllBuilt(e.messages) && OnTheWire(e) == AllBytes(e.messages)
  {
    hide Registered, InOrder, AllBytes, Flatten;
    var w := e.writer;
    assert Flatten(w.writes) + w.buffer == w.appended;
    if w.registered != [] {
      var last := |w.registered| - 1;
      AllCalled(w);
      assert W.Covers(w, w.registered[last]);
      FlattenSplit(w.writes, w.registered[last].write + 1);
    }
    assert w.buffer == [];
    assert Flatten(w.writes) + [] == Flatten(w.writes);
  }

  lemma AllCalled(w: W.Writer<Sent>)
    requires W.Invariant(w) && Idle(w)
    ensures |w.called| == |w.registered| && |w.writes| == |w.results|
    ensures forall i :: 0 <= i < |w.registered| ==> w.registered[i].write < |w.writes|
  {
    hide W.Covers, Flatten;
    assert |W.Handlers(w.registered)| == |W.CalledHandlers(w.called)|;
  }

  // ----- everything is read -----

  lemma ReadSends(e: Endpoint, bytes: seq<byte>)
    requires !e.halted && e.stack == [] && Idle(e.writer) && e.readers != []
    ensures Enabled(e, DoRead(bytes))
    ensures var e' := Connection.Step(e, DoRead(bytes));
            SendsNothing(e, e') && e'.writer == e.writer && e'.received == e.received + bytes
  {
  }

  /** All that is left of the stream arrives in one read. */
  lemma ReadRest(s: System, side: Side) returns (moves: seq<Move>, t: System)
    requires Live(s) && Own(s, side).stack == [] && Idle(Own(s, side).writer) && Own(s, side).readers != []
    requires Idle(Other(s, side).writer)
    ensures AllBuilt(Other(s, side).messages)
    ensures Leads(s, moves, t) && Live(t) && Other(t, side) == Other(s, side)
    ensures var e, e' := Own(s, side), Own(t, side);
            && e'.stack == [] && SendsNothing(e, e') && Idle(e'.writer)
            && e'.received == AllBytes(Other(s, side).messages)
  {
    hide Live, Leads, Joined, Framed, Connection.Step, Idle, Enabled, AllBytes;
    var e, peer := Own(s, side), Other(s, side);
    LiveJoined(s, side);
    AllSent(peer);
    SoFar(e, peer);
    var all := AllBytes(peer.messages);
    var bytes := all[|e.received|..];
    assert e.received + bytes == all;
    var move := Move(side, DoRead(bytes));
    ReadSends(e, bytes);
    MoveLive(s, move);
    LeadsBy(s, move);
    var rest;
    rest, t := Unwind(Moved(s, move), side);
    LeadsOn(s, [move], Moved(s, move), rest, t);
    moves := [move] + rest;
  }

  lemma SoFar(e: Endpoint, peer: Endpoint)
    requires Joined(e, peer)
    ensures AllBuilt(peer.messages) && e.received <= AllBytes(peer.messages)
  {
    hide Base, Register, Record, Fine, Framed, Accounted, Hungry;
  }

  /** A client reads on as long as there is anything it has not been given. */
  lemma ClientReads(e: Endpoint, ms: seq<Message>, m: nat)
    requires PeerInvariant(e, ms, m) && Client(World(e, ms)) && e.stack == [] && e.readers == []
    ensures AllBuilt(ms) && e.received == AllBytes(ms)
  {
    hide PeerInvariant, At;
    Demultiplexing.NobodyReads(e, ms, m);
    if ms != [] {
      AllTaken(e, ms, m, |ms| - 1);
    }
    Facts(e, ms, m);
    assert ms[..|ms|] == ms;
    AtTheEnd(e, ms, m);
  }

  lemma AtTheEnd(e: Endpoint, ms: seq<Message>, m: nat)
    requires At(e, ms, m, NoOp) && m == |ms|
    ensures AllBuilt(ms) && e.received == AllBytes(ms)
  {
    hide AllBytes;
    assert ms[..m] == ms;
    assert AllBytes(ms) + [] == AllBytes(ms);
    assert |e.received| == |AllBytes(ms)| + |e.buffer|;
  }

  lemma ReadAsClient(s: System) returns (moves: seq<Move>, t: System)
    requires Live(s) && s.left.stack == [] && Idle(s.left.writer) && Idle(s.right.writer)
    ensures AllBuilt(s.right.messages)
    ensures Leads(s, moves, t) && Live(t) && t.right == s.right
    ensures t.left.stack == [] && SendsNothing(s.left, t.left) && Idle(t.left.writer)
    ensures t.left.received == AllBytes(s.right.messages)
  {
    hide Live, Leads, Joined, Framed, Idle, AllBytes, Roles, Client, Server, PeerInvariant;
    if s.left.readers != [] {
      moves, t := ReadRest(s, Left);
    } else {
      moves, t := [], s;
      NoMoves(s);
      LiveRoles(s);
      var m := Position(s.left, s.right);
      ClientReads(s.left, s.right.messages, m);
    }
  }

  lemma LiveRoles(s: System)
    requires Live(s)
    ensures Client(World(s.left, s.right.messages)) && Server(World(s.right, s.left.messages))
    ensures Joined(s.left, s.right) && Joined(s.right, s.left)
  {
    hide Joined, Client, Server;
    RolesApart(s);
  }

  lemma Position(e: Endpoint, peer: Endpoint) returns (m: nat)
    requires Joined(e, peer)
    ensures PeerInvariant(e, peer.messages, m)
  {
    hide PeerInvariant, Framed, Accounted, Hungry;
    m :| PeerInvariant(e, peer.messages, m);
  }

  // ----- the server serves and reads in turn -----

  /** The requests still to come to the implementation. */
  function Unserved(e: Endpoint, peer: Endpoint): int {
    |Asked(peer.messages)| - |e.invoked|
  }

  /** An end that serves at a point of rest reads, and its calls add up. */
  lemma ServerFacts(e: Endpoint, peer: Endpoint)
    requires Joined(e, peer)
    ensures Unserved(e, peer) >= 0
    ensures e.log.serves == |e.invoked| + e.log.told + One(e.busy)
    ensures e.stack == [] && e.busy ==> e.readers != []
  {
    hide PeerInvariant, Framed, Accounted, Hungry, Asked, Invariant;
    var m := Position(e, peer);
    DeliveredInAll(e, peer.messages, m);
    FactsInvariant(e, peer.messages, m);
    Facts(e, peer.messages, m);
    InvariantLog(e);
    if e.stack == [] && e.busy && e.readers == [] {
      Demultiplexing.NobodyReads(e, peer.messages, m);
    }
  }

  lemma ServeSends(e: Endpoint)
    requires !e.halted && e.stack == [] && Idle(e.writer) && !e.busy
    ensures Enabled(e, DoEnter) && Enabled(Connection.Step(e, DoEnter), DoServe)
    ensures var e' := Connection.Step(Connection.Step(e, DoEnter), DoServe);
            && e'.messages == e.messages && e'.log.serves == e.log.serves + 1 && e'.log.told == e.log.told
            && e'.writer == e.writer && e'.received == e.received
  {
    hide Apply, WaitForRequest;
    ApplyStreams(Serving(Push(e, User)), WaitForRequest(e.splitter));
  }

  /** The application serves one more request, and what then runs, runs. */
  lemma ServeNext(s: System) returns (moves: seq<Move>, t: System)
    requires Live(s) && s.right.stack == [] && Idle(s.right.writer) && !s.right.busy
    ensures Leads(s, moves, t) && Live(t) && t.left == s.left
    ensures t.right.stack == [] && Idle(t.right.writer) && t.right.received == s.right.received
    ensures t.right.messages == s.right.messages
    ensures t.right.log.serves == s.right.log.serves + 1 && t.right.log.told == s.right.log.told
  {
    hide Live, Leads, Joined, Framed, Idle, Connection.Step, Enabled;
    var enter, serve := Move(Right, DoEnter), Move(Right, DoServe);
    LiveJoined(s, Right);
    ServeSends(s.right);
    MoveLive(s, enter);
    LeadsBy(s, enter);
    var s1 := Moved(s, enter);
    MoveLive(s1, serve);
    LeadsBy(s1, serve);
    LeadsOn(s, [enter], s1, [serve], Moved(s1, serve));
    var rest;
    rest, t := Unwind(Moved(s1, serve), Right);
    LeadsOn(s, [enter] + [serve], Moved(s1, serve), rest, t);
    moves := [enter] + [serve] + rest;
  }

  /** Until everything has arrived and the next request is being waited for. */
  lemma {:induction false} ReadAsServer(s: System) returns (moves: seq<Move>, t: System)
    requires Live(s) && s.right.stack == [] && Idle(s.right.writer) && Idle(s.left.writer)
    ensures AllBuilt(s.left.messages)
    ensures Leads(s, moves, t) && Live(t) && t.left == s.left
    ensures t.right.stack == [] && t.right.messages == s.right.messages && Idle(t.right.writer)
    ensures t.right.busy && t.right.received == AllBytes(s.left.messages)
    decreases Unserved(s.right, s.left), if s.right.busy then 0 else 1,
              if AllBuilt(s.left.messages) && s.right.received == AllBytes(s.left.messages) then 0 else 1
  {
    hide Live, Leads, Joined, Framed, Idle, AllBytes, AllBuilt;
    LiveJoined(s, Right);
    SoFar(s.right, s.left);
    ServerFacts(s.right, s.left);
    if s.right.busy && s.right.received == AllBytes(s.left.messages) {
      moves, t := [], s;
      NoMoves(s);
    } else {
      var a, s1;
      if !s.right.busy {
        a, s1 := ServeNext(s);
      } else {
        a, s1 := ReadRest(s, Right);
      }
      LiveJoined(s1, Right);
      ServerFacts(s1.right, s1.left);
      var rest;
      rest, t := ReadAsServer(s1);
      LeadsOn(s, a, s1, rest, t);
      moves := a + rest;
    }
  }

  // ----- the theorem -----

  /** From every state that a client and a server can reach, without another
      request and without another result, they can come to one where everything
      that was sent has arrived and been handed over at both ends, and the server
      waits for the next request. */
  lemma EverythingCanBeDelivered(interface_: Interface, moves: seq<Move>) returns (more: seq<Move>, t: System)
    requires Conformable(interface_) && Interleaving(Begin(interface_), moves) && ClientServer(moves)
    ensures var s := After(Begin(interface_), moves);
            && Leads(s, more, t) && t.left.messages == s.left.messages && t.right.messages == s.right.messages
    ensures AllArrived(t) && t.right.busy && AllDelivered(t.left, t.right) && AllDelivered(t.right, t.left)
  {
    hide Live, Leads, May, Moved, Idle, AllBytes, AllDelivered;
    BeginLive(interface_);
    RunsLive(Begin(interface_), moves);
    var s := After(Begin(interface_), moves);
    var a, s1 := ComeToRest(s);
    var b, s2 := ReadAsClient(s1);
    var c, s3 := ReadAsServer(s2);
    LeadsOn(s, a, s1, b, s2);
    LeadsOn(s, a + b, s2, c, s3);
    more, t := a + b + c, s3;
    Arrived(t);
    LiveDelivers(t);
  }

  lemma BeginLive(interface_: Interface)
    requires Conformable(interface_)
    ensures Live(Begin(interface_))
  {
    hide Joint, Conformable;
    BeginJoint(interface_);
  }

  /** Both stacks run and both writers finish. */
  lemma ComeToRest(s: System) returns (moves: seq<Move>, t: System)
    requires Live(s)
    ensures Leads(s, moves, t) && Live(t)
    ensures t.left.stack == [] && t.right.stack == [] && Idle(t.left.writer) && Idle(t.right.writer)
    ensures t.left.messages == s.left.messages && t.right.messages == s.right.messages
  {
    hide Live, Leads, Idle;
    var a, s1 := Unwind(s, Left);
    var b, s2 := FinishSending(s1, Left);
    var c, s3 := Unwind(s2, Right);
    var d, s4 := FinishSending(s3, Right);
    LeadsOn(s, a, s1, b, s2);
    LeadsOn(s, a + b, s2, c, s3);
    LeadsOn(s, a + b + c, s3, d, s4);
    moves, t := a + b + c + d, s4;
  }

  lemma Arrived(s: System)
    requires s.left.stack == [] && s.right.stack == [] && Idle(s.left.writer) && Idle(s.right.writer)
    requires AllBuilt(s.left.messages) && AllBuilt(s.right.messages)
    requires s.left.received == AllBytes(s.right.messages) && s.right.received == AllBytes(s.left.messages)
    ensures AllArrived(s)
  {
    hide AllBytes, AllBuilt;
  }

  lemma LiveDelivers(s: System)
    requires Live(s) && AllArrived(s)
    ensures AllDelivered(s.left, s.right) && AllDelivered(s.right, s.left)
  {
    hide Live, Joined, AllDelivered;
    LiveJoined(s, Left);
    EmptyStacks(s);
    JoinedDelivers(s.left, s.right);
    JoinedDelivers(s.right, s.left);
  }
}
