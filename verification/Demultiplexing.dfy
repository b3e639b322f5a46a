/** Whole runs of an endpoint on a valid stream: responses to its own requests in
    any order and requests of its peer, cut into reads in any way. */
module Demultiplexing {
  import opened WireTypes
  import opened BigEndian
  import opened WireFormat
  import opened ParserMachine
  import opened Conformance
  import opened RoundTrip
  import opened SplitterModel
  import opened Messages
  import opened Connection
  import opened ConnectionInvariant
  import opened ConnectionAccounting
  import opened Effects
  import opened IncomingStream
  import opened Peer
  import W = WriterModel

  // ----- an operation that waits has used up the buffer -----

  predicate Hungry(e: Endpoint) {
    e.readers != [] ==>
      && e.buffer == [] && |e.readers| == 1
      && Parse(PurposeType(e.readers[0].purpose), e.readers[0].fed).Waiting?
  }

  lemma StartParseHungry(e: Endpoint, op: Op)
    requires e.readers == []
    ensures Hungry(OnStartParse(e, op))
  {
    hide OnValue, OnError, Parse, SameOutput;
    var all := op.fed + e.buffer;
    if Parse(PurposeType(op.purpose), all).Done? {
      ParseDone(e, op);
      var Done(v, used, _) := Parse(PurposeType(op.purpose), all);
      ValueStreams(e.(buffer := all[used..]), op.purpose, v);
    } else if Parse(PurposeType(op.purpose), all).Waiting? {
      ParseWaits(e, op);
    } else {
      ErrorStreams(e, op.purpose);
    }
  }

  lemma SameHungry(e: Endpoint, e': Endpoint)
    requires Hungry(e) && SameStreams(e, e')
    ensures Hungry(e')
  {
  }

  lemma ResumeHungry(e: Endpoint)
    requires Base(e) && Hungry(e) && e.stack != [] && !e.stack[0].User?
    ensures Hungry(Resume(e))
  {
    hide Hungry, Parse, Least, Apply, OnStartParse, OnImplement, OnNextResponse, OnFailAll, OnAnswer, OnAfterError,
         OnServeError, SameStreams;
    var e1 := e.(stack := e.stack[1..]);
    PopHungry(e);
    match e.stack[0] {
      case StartParse(op) =>
        NoReader(e);
        StartParseHungry(e1, op);
      case AfterRequest(c) => ApplyStreams(e1, ContinueFor(e1.splitter, c, e1.splitter.waitingForResponse));
      case AfterResponse(c) => ApplyStreams(e1, ContinueFor(e1.splitter, c, e1.splitter.waitingForRequest));
      case NextResponse(id, v) => NextResponseStreams(e1, id, v);
      case FailAll(error, ids) => FailAllStreams(e1, error, ids);
      case Answer(id, v) => AnswerStreams(e1, id, v);
      case AfterError(had) => AfterErrorStreams(e1, had);
      case ServeError =>
        ServeErrorMessages(e1);
        OutputHungry(e1, OnServeError(e1));
      case Implement(id, name, args) => ImplementHungry(e1, id, name, args);
    }
    if !e.stack[0].StartParse? && !e.stack[0].Implement? && !e.stack[0].ServeError? {
      SameHungry(e1, Resume(e));
    }
  }

  lemma NoReader(e: Endpoint)
    requires Base(e) && e.stack != [] && e.stack[0].StartParse?
    ensures e.readers == []
  {
  }

  lemma PopHungry(e: Endpoint)
    requires Hungry(e) && e.stack != []
    ensures Hungry(e.(stack := e.stack[1..]))
  {
  }

  lemma ImplementHungry(e: Endpoint, id: nat, name: Name, args: seq<Value>)
    requires Hungry(e)
    ensures Hungry(OnImplement(e, id, name, args))
  {
  }

  /** Requests and results leave the input alone, too. */
  lemma OutputHungry(e: Endpoint, e': Endpoint)
    requires Hungry(e) && e'.buffer == e.buffer && e'.readers == e.readers
    ensures Hungry(e')
  {
  }

  lemma RequestHungry(e: Endpoint, name: Name, args: seq<Value>)
    requires Hungry(e) && Enabled(e, DoRequest(name, args))
    ensures Hungry(Request(e, name, args))
  {
    hide Hungry, HaveTypes, RequestMessage, Bytes, Build, ExpectResponse, W.SendBuffer, W.Append, SameOutput;
    ExpectStreams(Requested(e, name, args), |e.issued|, e.interface_[name].result);
    OutputHungry(e, Request(e, name, args));
  }

  lemma RespondHungry(e: Endpoint, k: nat, v: Value)
    requires Hungry(e) && Enabled(e, DoRespond(k, v))
    ensures Hungry(Respond(e, k, v))
  {
    hide Hungry, Results, ResponseMessage, Build, Responded, ResponseRefused;
    RespondedMessages(e, k, v);
    OutputHungry(e, Respond(e, k, v));
  }

  lemma ReadHungry(e: Endpoint, bytes: seq<byte>)
    requires Hungry(e) && e.readers != []
    ensures Hungry(OnRead(e, bytes))
  {
    hide Parse;
  }

  lemma ReadErrorHungry(e: Endpoint)
    requires Hungry(e) && e.readers != []
    ensures Hungry(OnError(e.(readers := e.readers[1..]), e.readers[0].purpose))
  {
    hide Parse, OnError, SameOutput;
    ErrorStreams(e.(readers := e.readers[1..]), e.readers[0].purpose);
  }

  lemma StepHungry(e: Endpoint, event: Event)
    requires Base(e) && Hungry(e) && Enabled(e, event)
    ensures Hungry(Connection.Step(e, event))
  {
    hide Hungry, Results, HaveTypes, Resume, Request, Respond, OnError, OnRead, Base, Apply, SameOutput, OnSent, Report,
         W.Complete, W.CallNext, W.Continue;
    match event {
      case DoResume => ResumeHungry(e);
      case DoRequest(name, args) => RequestHungry(e, name, args);
      case DoRespond(k, v) => RespondHungry(e, k, v);
      case DoServe =>
        ApplyStreams(Serving(e), WaitForRequest(e.splitter));
        OutputHungry(e, Serve(e));
      case DoRead(bytes) => ReadHungry(e, bytes);
      case DoReadError => ReadErrorHungry(e);
      case DoRespondError(k) =>
        ReportStreams(e.(open := e.open - {k}), k);
        OutputHungry(e, RespondError(e, k));
      case DoWriterCall =>
        SentStreams(e.(writer := W.CallNext(e.writer)), e.writer.calling[0]);
        OutputHungry(e, Connection.Step(e, event));
      case _ => OutputHungry(e, Connection.Step(e, event));
    }
  }

  // ----- one more message arrives -----

  /** A message that the peer may send now: a request, or a response to a request
      that was issued and not answered before. */
  predicate MayArrive(e: Endpoint, ms: seq<Message>, r: Message) {
    && Fits(e, r)
    && (r.ResponseOf? ==> forall i :: 0 <= i < |ms| && ms[i].ResponseOf? ==> ms[i].id != r.id)
  }

  lemma TakenGrows(ms: seq<Message>, n: nat, id: nat, r: Message)
    requires n <= |ms|
    ensures Taken(ms + [r], n, id) <==> Taken(ms, n, id)
  {
    if Taken(ms + [r], n, id) {
      var i :| 0 <= i < n && (ms + [r])[i].ResponseOf? && (ms + [r])[i].id == id;
      assert ms[i] == (ms + [r])[i];
    }
    if Taken(ms, n, id) {
      var i :| 0 <= i < n && ms[i].ResponseOf? && ms[i].id == id;
      assert ms[i] == (ms + [r])[i];
    }
  }

  lemma DeliveredGrows(ms: seq<Message>, m: nat, id: nat, v: Value, r: Message)
    requires m <= |ms| && Delivered(ms, m, id, v)
    ensures Delivered(ms + [r], m, id, v)
  {
    var i :| 0 <= i < m && ms[i].ResponseOf? && ms[i].id == id && ms[i].value == v;
    assert (ms + [r])[i] == ms[i];
  }

  lemma StreamGrows(e: Endpoint, ms: seq<Message>, m: nat, c: Current, r: Message)
    requires Stream(e, ms, m, c) && Built(r)
    ensures Stream(e, ms + [r], m, c)
  {
    hide At, Built;
    AtGrows(e, ms, m, c, r);
  }

  lemma RegisterGrows(e: Endpoint, ms: seq<Message>, n: nat, r: Message)
    requires Register(e, ms, n) && MayArrive(e, ms, r)
    ensures Register(e, ms + [r], n)
  {
    hide Fits, Taken;
    forall id: nat
      ensures Taken(ms + [r], n, id) <==> Taken(ms, n, id)
    {
      TakenGrows(ms, n, id, r);
    }
  }

  lemma RecordGrows(e: Endpoint, ms: seq<Message>, m: nat, r: Message)
    requires Record(e, ms, m)
    ensures Record(e, ms + [r], m)
  {
    hide Delivered, Asked, Implementing;
    assert (ms + [r])[..m] == ms[..m];
    forall i | 0 <= i < |e.stack|
      ensures FrameFits(ms + [r], m, e.stack[i])
    {
      var f := e.stack[i];
      assert FrameFits(ms, m, f);
      if f.NextResponse? || f.Answer? {
        DeliveredGrows(ms, m, f.id, f.value, r);
      }
    }
    forall i | 0 <= i < |e.answered|
      ensures Delivered(ms + [r], m, e.answered[i].id, e.answered[i].value)
    {
      DeliveredGrows(ms, m, e.answered[i].id, e.answered[i].value, r);
    }
  }

  lemma PeerGrows(e: Endpoint, ms: seq<Message>, m: nat, r: Message)
    requires PeerInvariant(e, ms, m) && MayArrive(e, ms, r)
    ensures PeerInvariant(e, ms + [r], m)
  {
    hide Base, Stream, Register, Record, Fine, MayArrive;
    MayBuild(e, ms, r);
    StreamGrows(e, ms, m, CurrentOp(e), r);
    RegisterGrows(e, ms, Past(m, CurrentOp(e)), r);
    RecordGrows(e, ms, m, r);
  }

  lemma MayBuild(e: Endpoint, ms: seq<Message>, r: Message)
    requires MayArrive(e, ms, r)
    ensures Built(r)
  {
  }

  // ----- nothing is left when everything has arrived -----

  /** The parser completes the body only when it is given one byte more. */
  predicate NeedsAnother(m: Message) {
    && HasTypes(m) && Body(m).bytes != []
    && match m
       case ResponseOf(_, _, v) => Late(v)
       case RequestOf(_, _, _, args) => Late(TupleValue(args))
  }

  lemma EnoughToParse(t: Type, v: Value, x: seq<byte>)
    requires Conforming(t) && Accepted(t, v) && Write(t, v).bytes <= x
    requires Write(t, v).bytes == [] || !Late(v) || |x| > |Write(t, v).bytes|
    ensures Parse(t, x).Done?
  {
    var part := Write(t, v).bytes;
    SafeLosesNothing(t, v);
    if part == [] {
      EmptyIsImmediate(t, v);
    } else {
      NarrowHasNoExcess(t, v);
      var rest := x[|part|..];
      assert x == part + rest;
      if rest != [] {
        ParseOfPrefix(t, v, rest, x);
      } else {
        Timing(t, v, |part|);
        assert part[..|part|] == part == x;
      }
    }
  }

  /** What an operation was given when it waits at the end of the stream. */
  lemma FedAll(e: Endpoint, ms: seq<Message>, m: nat, op: Op)
    requires At(e, ms, m, SomeOp(op)) && e.buffer == [] && e.received == AllBytes(ms)
    ensures Prefix(op.purpose) + op.fed == AllBytes(ms[m..])
  {
    AllBytesSplit(ms, m);
    var a, x := AllBytes(ms[..m]), Prefix(op.purpose) + op.fed;
    assert (a + x) + [] == a + x;
    SameTail(a, a, x, AllBytes(ms[m..]));
  }

  lemma FirstOfMany(ms: seq<Message>, m: nat)
    requires AllBuilt(ms) && m < |ms|
    ensures AllBuilt(ms[m + 1..]) && AllBytes(ms[m..]) == Bytes(ms[m]) + AllBytes(ms[m + 1..])
    ensures m + 1 < |ms| ==> AllBytes(ms[m + 1..]) != []
  {
    assert ms[m..][0] == ms[m] && ms[m..][1..] == ms[m + 1..];
  }

  /** The part of the message that the operation parses, in the order of parts. */
  function PartOf(m: Message, p: Purpose): seq<byte>
    requires HasTypes(m)
  {
    match p
    case MessageType => [TypeByte(m)]
    case ResponseHeader => Encode(m.id, 8)
    case RequestHeader => if m.RequestOf? then Encode(m.id, 8) + ([|m.name|] + m.name) else []
    case Result(_, _) => Body(m).bytes
    case Argument(_, _, _) => Body(m).bytes
  }

  function PartValue(m: Message, p: Purpose): Value {
    match p
    case MessageType => IntegerValue(TypeByte(m))
    case ResponseHeader => IntegerValue(m.id)
    case RequestHeader => TupleValue([IntegerValue(m.id), TextValue(if m.RequestOf? then m.name else [])])
    case Result(_, _) => if m.ResponseOf? then m.value else IntegerValue(0)
    case Argument(_, _, _) => if m.RequestOf? then TupleValue(m.args) else IntegerValue(0)
  }

  /** The next part of the message is what the operation's parser is to find. */
  lemma PartWritten(e: Endpoint, ms: seq<Message>, m: nat, op: Op)
    requires PeerInvariant(e, ms, m) && CurrentOp(e) == SomeOp(op) && m < |ms|
    ensures Built(ms[m]) && HasTypes(ms[m]) && OpFits(ms, m, SomeOp(op))
    ensures Conforming(PurposeType(op.purpose)) && Accepted(PurposeType(op.purpose), PartValue(ms[m], op.purpose))
    ensures Write(PurposeType(op.purpose), PartValue(ms[m], op.purpose)).bytes == PartOf(ms[m], op.purpose)
  {
    hide PeerInvariant, Base, At, Record, Conforming, Encode, Write, Register;
    Facts(e, ms, m);
    FitsBuilt(e, ms, m, Past(m, SomeOp(op)));
    HeaderConforms();
    match op.purpose {
      case MessageType => MessageTypeWritten(TypeByte(ms[m]));
      case ResponseHeader => IdWritten(ms[m].id);
      case RequestHeader => HeaderWritten(ms[m].id, ms[m].name);
      case Result(_, _) =>
        ResultConforms(e, ms, m);
        ResultBody(ms[m]);
      case Argument(_, _, _) => KnownRequest(e, ms, m);
    }
  }

  lemma ResultBody(m: Message)
    requires Built(m) && m.ResponseOf?
    ensures Body(m).bytes == Write(m.result, m.value).bytes
  {
  }

  /** A message is its parts one after the other. */
  lemma PartsOf(m: Message, p: Purpose, rest: seq<byte>) returns (more: seq<byte>)
    requires Built(m) && OpFits([m], 0, SomeOp(Op(p, [])))
    ensures Bytes(m) + rest == Prefix(p) + (PartOf(m, p) + (more + rest))
    ensures p.Result? || p.Argument? ==> more == []
  {
    hide Encode, Body;
    match p {
      case MessageType =>
        more := AfterType(m);
        TypeFirst(m);
      case ResponseHeader =>
        more := Body(m).bytes;
        ResponseParts(m);
      case RequestHeader =>
        more := Body(m).bytes;
        RequestParts(m);
      case Result(_, _) =>
        more := [];
        ResponseParts(m);
      case Argument(_, _, _) =>
        more := [];
        RequestParts(m);
    }
    FourParts(Prefix(p), PartOf(m, p), more, rest);
  }

  lemma FourParts(a: seq<byte>, b: seq<byte>, c: seq<byte>, d: seq<byte>)
    ensures (a + (b + c)) + d == a + (b + (c + d))
  {
  }

  lemma WaitingFor(e: Endpoint, ms: seq<Message>, m: nat)
    requires PeerInvariant(e, ms, m) && Hungry(e) && e.readers != []
    ensures AllBuilt(ms) && e.buffer == [] && CurrentOp(e) == SomeOp(e.readers[0])
    ensures At(e, ms, m, SomeOp(e.readers[0]))
    ensures Parse(PurposeType(e.readers[0].purpose), e.readers[0].fed).Waiting?
  {
    hide Base, Register, Record, Fine;
  }

  /** An operation that waits although everything has arrived is in the body of the
      last message, which needs another byte. */
  lemma WaitingAtEnd(e: Endpoint, ms: seq<Message>, m: nat)
    requires PeerInvariant(e, ms, m) && Hungry(e) && e.readers != [] && m < |ms|
    requires AllBuilt(ms) && e.received == AllBytes(ms)
    ensures m + 1 == |ms| && NeedsAnother(ms[m])
  {
    hide PeerInvariant, Hungry, At, Conforming, Late, Parse, AllBytes, HasType, Write, Encode, Built, Body,
         Prefix;
    WaitingFor(e, ms, m);
    var op := e.readers[0];
    PartWritten(e, ms, m, op);
    FedAll(e, ms, m, op);
    FirstOfMany(ms, m);
    var rest := AllBytes(ms[m + 1..]);
    SameFits(ms, m, op);
    var more := PartsOf(ms[m], op.purpose, rest);
    var part := PartOf(ms[m], op.purpose);
    SameTail(Prefix(op.purpose), Prefix(op.purpose), op.fed, part + (more + rest));
    var t, v := PurposeType(op.purpose), PartValue(ms[m], op.purpose);
    if IsHeader(op.purpose) {
      HeaderNeverLate(op.purpose, v);
    }
    if part == [] || !Late(v) || more + rest != [] {
      EnoughToParse(t, v, op.fed);
    }
  }

  lemma SameFits(ms: seq<Message>, m: nat, op: Op)
    requires m < |ms| && OpFits(ms, m, SomeOp(op))
    ensures OpFits([ms[m]], 0, SomeOp(Op(op.purpose, [])))
  {
  }

  lemma HeaderNeverLate(p: Purpose, v: Value)
    requires IsHeader(p) && HasType(PurposeType(p), v)
    ensures !Late(v)
  {
    assert Members(HEADER)[|Members(HEADER)| - 1] == Utf8(MESSAGE_TYPE);
    assert Eager(HEADER);
    EagerIsNeverLate(PurposeType(p), v);
  }

  /** With nobody reading nothing is pending and no request is waited for. */
  lemma NobodyReads(e: Endpoint, ms: seq<Message>, m: nat)
    requires PeerInvariant(e, ms, m) && e.stack == [] && e.readers == []
    ensures e.registry.expected == map[] && !e.busy && CurrentOp(e) == NoOp
  {
    hide Stream, Register, Record, LogFits;
    assert Nexts(e.stack) == 0 && Serves(e.stack) == 0;
  }

  lemma OnceAnswered(answered: seq<Answered>, id: nat)
    requires AnsweredCount(answered, id) > 0
    ensures exists j :: 0 <= j < |answered| && answered[j].id == id
  {
    if answered[|answered| - 1].id != id {
      OnceAnswered(answered[..|answered| - 1], id);
    }
  }

  lemma {:induction false} NotCounted(ids: seq<nat>, id: nat)
    requires id !in ids
    ensures IdCount(ids, id) == 0
    decreases |ids|
  {
    if ids != [] {
      NotCounted(ids[..|ids| - 1], id);
    }
  }

  predicate HandedOver(e: Endpoint, r: Message) {
    r.ResponseOf? && Answered(r.id, r.value) in e.answered
  }

  /** At a point of rest, every response that has been read has been handed to the
      callback of its request. */
  lemma AnsweredAtRest(e: Endpoint, ms: seq<Message>, m: nat, i: nat)
    requires i < m <= |ms| && PeerInvariant(e, ms, m) && ms[i].ResponseOf?
    requires AccountedFor(e, ms[i].id) && e.stack == []
    ensures HandedOver(e, ms[i])
  {
    hide PeerInvariant, HasType, Delivered;
    var id := ms[i].id;
    NotPending(e, ms, m, i);
    NotCounted(e.refused, id);
    OneReaderCount(e.readers, id);
    assert AnsweredCount(e.answered, id) > 0;
    OnceAnswered(e.answered, id);
    var j :| 0 <= j < |e.answered| && e.answered[j].id == id;
    DeliveredThat(e, ms, m, i, j);
  }

  /** A response that has been read is no longer pending nor being read. */
  lemma NotPending(e: Endpoint, ms: seq<Message>, m: nat, i: nat)
    requires i < m <= |ms| && PeerInvariant(e, ms, m) && ms[i].ResponseOf?
    ensures ms[i].id < |e.issued| && ms[i].id !in e.refused && ms[i].id !in e.registry.expected
    ensures |e.readers| <= 1 && (e.readers != [] ==> OpCount(e.readers[0].purpose, ms[i].id) == 0)
    ensures e.failed == [] && e.dropped == []
  {
    hide At, Base, Record, Conformable, Built;
    OneReaderAtMost(e);
    assert Fits(e, ms[i]);
    assert Taken(ms, Past(m, CurrentOp(e)), ms[i].id);
  }

  lemma DeliveredThat(e: Endpoint, ms: seq<Message>, m: nat, i: nat, j: nat)
    requires i < m <= |ms| && PeerInvariant(e, ms, m) && ms[i].ResponseOf?
    requires j < |e.answered| && e.answered[j].id == ms[i].id
    ensures e.answered[j] == Answered(ms[i].id, ms[i].value)
  {
    hide Base, Stream, Fine, Fits, Asked;
    assert Delivered(ms, m, e.answered[j].id, e.answered[j].value);
  }

  lemma OneReaderAtMost(e: Endpoint)
    requires Base(e)
    ensures |e.readers| <= 1
  {
  }

  /** With nothing pending all responses have been read. */
  lemma AllTaken(e: Endpoint, ms: seq<Message>, m: nat, i: nat)
    requires PeerInvariant(e, ms, m) && e.registry.expected == map[] && CurrentOp(e) == NoOp
    requires i < |ms| && ms[i].ResponseOf?
    ensures i < m <= |ms|
  {
    hide At, Base, Record, Conformable, Built;
    assert Fits(e, ms[i]);
    assert Taken(ms, m, ms[i].id);
  }

  /** What may be left when everything has arrived and nothing runs. */
  predicate NothingLeft(e: Endpoint, ms: seq<Message>) {
    && (forall i :: 0 <= i < |ms| && ms[i].ResponseOf? ==>
          HandedOver(e, ms[i]) || (i == |ms| - 1 && NeedsAnother(ms[i])))
    && (e.busy ==>
          || e.invoked == Asked(ms)
          || (ms != [] && e.invoked == Asked(ms[..|ms| - 1]) && NeedsAnother(ms[|ms| - 1])))
  }

  lemma RestLeavesNothing(e: Endpoint, ms: seq<Message>, m: nat)
    requires PeerInvariant(e, ms, m) && Hungry(e) && Accounted(e) && e.stack == []
    requires AllBuilt(ms) && e.received == AllBytes(ms)
    ensures NothingLeft(e, ms)
  {
    hide PeerInvariant, Hungry, AccountedFor, NeedsAnother, AllBytes, HandedOver, Asked;
    CallsSoFar(e, ms, m);
    if e.readers == [] {
      NobodyReads(e, ms, m);
    } else if m < |ms| {
      WaitingAtEnd(e, ms, m);
    }
    assert ms[..|ms|] == ms;
    forall i: nat | i < |ms| && ms[i].ResponseOf? && !(i == |ms| - 1 && NeedsAnother(ms[i]))
      ensures HandedOver(e, ms[i])
    {
      if e.readers == [] {
        AllTaken(e, ms, m, i);
      }
      assert AccountedFor(e, ms[i].id);
      AnsweredAtRest(e, ms, m, i);
    }
  }

  lemma CallsSoFar(e: Endpoint, ms: seq<Message>, m: nat)
    requires PeerInvariant(e, ms, m) && e.stack == []
    ensures m <= |ms| && e.invoked == Asked(ms[..m])
  {
    hide Base, Stream, Register, Fine, Asked;
    assert e.invoked + [] == e.invoked;
  }

  // ----- runs -----

  /** An endpoint and the stream of messages sent to it so far. */
  datatype World = World(e: Endpoint, ms: seq<Message>)

  datatype Happening = Does(event: Event) | Arrives(message: Message)

  ghost predicate Possible(w: World, h: Happening) {
    match h
    case Does(event) => PeerEnabled(w.e, w.ms, event)
    case Arrives(r) => MayArrive(w.e, w.ms, r)
  }

  ghost function Happen(w: World, h: Happening): World
    requires Possible(w, h)
  {
    match h
    case Does(event) => World(Connection.Step(w.e, event), w.ms)
    case Arrives(r) => World(w.e, w.ms + [r])
  }

  ghost predicate History(w: World, hs: seq<Happening>)
    decreases |hs|
  {
    hs == [] || (Possible(w, hs[0]) && History(Happen(w, hs[0]), hs[1..]))
  }

  ghost function Outcome(w: World, hs: seq<Happening>): World
    requires History(w, hs)
    decreases |hs|
  {
    if hs == [] then w else Outcome(Happen(w, hs[0]), hs[1..])
  }

  function Start(interface_: Interface): World {
    World(New(interface_), [])
  }

  ghost predicate Good(w: World) {
    && (exists m :: PeerInvariant(w.e, w.ms, m))
    && Hungry(w.e) && Accounted(w.e)
  }

  lemma StartGood(interface_: Interface)
    requires Conformable(interface_)
    ensures Good(Start(interface_))
  {
    hide PeerInvariant, Hungry, AccountedFor, New, Conformable;
    NewPeer(interface_);
    NewHungry(interface_);
    forall id: nat
      ensures AccountedFor(New(interface_), id)
    {
      NewAccounted(interface_, id);
    }
  }

  lemma NewHungry(interface_: Interface)
    ensures Hungry(New(interface_))
  {
  }

  lemma NewPeer(interface_: Interface)
    requires Conformable(interface_)
    ensures PeerInvariant(New(interface_), [], 0)
  {
    hide Conformable, Base;
    var e := New(interface_);
    var none: seq<Message> := [];
    assert At(e, none, 0, NoOp) by {
      assert none[..0] == none;
    }
    assert Stream(e, none, 0, NoOp);
    assert Register(e, none, 0);
    assert Record(e, none, 0) by {
      assert none[..0] == none;
    }
    NewBase(interface_);
  }

  lemma NewBase(interface_: Interface)
    ensures Base(New(interface_))
  {
    hide Core, Awake;
    NewInvariant(interface_);
  }

  /** The step in which a message is decoded that nobody waits for. */
  predicate Unlucky(w: World, h: Happening) {
    h == Does(DoResume) && Unwanted(w.e)
  }

  lemma HappenGood(w: World, h: Happening)
    requires Good(w) && Possible(w, h)
    ensures if Unlucky(w, h) then Fails(w.e, Happen(w, h).e) && Invariant(Happen(w, h).e)
            else Good(Happen(w, h)) && !Happen(w, h).e.faulty
  {
    hide PeerInvariant, Hungry, AccountedFor, Connection.Step, MayArrive, Enabled, Unwanted, Base, Invariant;
    var m :| PeerInvariant(w.e, w.ms, m);
    match h {
      case Arrives(r) =>
        PeerGrows(w.e, w.ms, m, r);
        NotFaulty(w.e, w.ms, m);
      case Does(event) =>
        Facts(w.e, w.ms, m);
        FactsInvariant(w.e, w.ms, m);
        StepKeeps(w.e, event);
        StepHungry(w.e, event);
        var m' := PeerStep(w.e, w.ms, m, event);
        if !Unlucky(w, h) {
          NotFaulty(Connection.Step(w.e, event), w.ms, m');
        }
        forall id: nat
          ensures AccountedFor(Connection.Step(w.e, event), id)
        {
          StepAccounted(w.e, event, id);
        }
    }
  }

  lemma {:induction false} StaysFaulty(w: World, hs: seq<Happening>)
    requires Invariant(w.e) && w.e.faulty && History(w, hs)
    ensures Outcome(w, hs).e.faulty
    decreases |hs|
  {
    hide Invariant, Connection.Step, Enabled, MayArrive;
    if hs != [] {
      if hs[0].Does? {
        StepKeeps(w.e, hs[0].event);
        StoppedStep(w.e, hs[0].event);
      }
      StaysFaulty(Happen(w, hs[0]), hs[1..]);
    }
  }

  lemma {:induction false} OutcomeGood(w: World, hs: seq<Happening>)
    requires Good(w) && History(w, hs) && !Outcome(w, hs).e.faulty
    ensures Good(Outcome(w, hs))
    decreases |hs|
  {
    hide Good, Possible, Happen, Unlucky, Invariant;
    if hs != [] {
      HappenGood(w, hs[0]);
      if Unlucky(w, hs[0]) {
        StaysFaulty(Happen(w, hs[0]), hs[1..]);
      }
      OutcomeGood(Happen(w, hs[0]), hs[1..]);
    }
  }

  // ----- what this means -----

  /** What holds as long as the endpoint has met no error: no callback gets
      anything but what the response to its own request carries, none is called
      twice or fails, the implementation has been called for the first requests,
      in their order, and no byte has been lost between messages; at a point of
      rest where everything has arrived, nothing is left. */
  ghost predicate Demultiplexes(w: World) {
    && w.e.failed == [] && w.e.dropped == [] && w.e.clean && !w.e.halted
    && (exists m :: At(w.e, w.ms, m, CurrentOp(w.e)))
    && (forall j :: 0 <= j < |w.e.answered| ==> Delivered(w.ms, |w.ms|, w.e.answered[j].id, w.e.answered[j].value))
    && (forall id: nat :: AnsweredCount(w.e.answered, id) <= One(id < |w.e.issued|))
    && w.e.invoked <= Asked(w.ms)
    && (Rest(w.e) && AllBuilt(w.ms) && w.e.received == AllBytes(w.ms) ==> NothingLeft(w.e, w.ms))
  }

  lemma GoodDemultiplexes(w: World)
    requires Good(w)
    ensures Demultiplexes(w)
  {
    hide PeerInvariant, Hungry, Accounted, Delivered, AnsweredCount, Asked, NothingLeft, At, AllBytes;
    var m :| PeerInvariant(w.e, w.ms, m);
    Facts(w.e, w.ms, m);
    NothingFails(w.e, w.ms, m);
    AtMostOnceEach(w.e);
    DeliveredInAll(w.e, w.ms, m);
    if Rest(w.e) && AllBuilt(w.ms) && w.e.received == AllBytes(w.ms) {
      RestLeavesNothing(w.e, w.ms, m);
    }
  }

  lemma NothingFails(e: Endpoint, ms: seq<Message>, m: nat)
    requires PeerInvariant(e, ms, m)
    ensures e.failed == [] && e.dropped == []
  {
    hide Base, Stream, Register, Record;
  }

  lemma AtMostOnceEach(e: Endpoint)
    requires Accounted(e)
    ensures forall id: nat :: AnsweredCount(e.answered, id) <= One(id < |e.issued|)
  {
    hide AnsweredCount, FailedCount, IdCount, StackCount, ReaderCount;
    forall id: nat
      ensures AnsweredCount(e.answered, id) <= One(id < |e.issued|)
    {
      assert AccountedFor(e, id);
    }
  }

  lemma DeliveredInAll(e: Endpoint, ms: seq<Message>, m: nat)
    requires PeerInvariant(e, ms, m)
    ensures m <= |ms|
    ensures forall j :: 0 <= j < |e.answered| ==> Delivered(ms, |ms|, e.answered[j].id, e.answered[j].value)
    ensures e.invoked <= Asked(ms)
  {
    hide Base, Stream, Register, Fine, FrameFits, Asked, Implementing;
    forall j | 0 <= j < |e.answered|
      ensures Delivered(ms, |ms|, e.answered[j].id, e.answered[j].value)
    {
      assert Delivered(ms, m, e.answered[j].id, e.answered[j].value);
    }
    AskedGrows(ms, m);
  }

  /** Over every run of an endpoint that makes requests, some of which may be
      refused, and serves them: as long as it has met no error it demultiplexes. */
  lemma Demultiplexed(interface_: Interface, hs: seq<Happening>)
    requires Conformable(interface_) && History(Start(interface_), hs)
    requires !Outcome(Start(interface_), hs).e.faulty
    ensures Demultiplexes(Outcome(Start(interface_), hs))
  {
    hide Good, Possible, Happen, Demultiplexes, Start;
    StartGood(interface_);
    OutcomeGood(Start(interface_), hs);
    GoodDemultiplexes(Outcome(Start(interface_), hs));
  }

  lemma GoodUntimely(w: World)
    requires Good(w)
    ensures Unwanted(w.e) <==> Untimely(w.e)
  {
    hide PeerInvariant, Hungry, Accounted, Unwanted, Untimely;
    var m :| PeerInvariant(w.e, w.ms, m);
    UnwantedIsUntimely(w.e, w.ms, m);
  }

  /** And it meets an error in a step if and only if that step decodes the type
      byte of a message that nobody waits for, at one of the times that `Untimely`
      lists; nothing is handed over in it. */
  lemma FailsExactly(interface_: Interface, hs: seq<Happening>, h: Happening)
    requires Conformable(interface_) && History(Start(interface_), hs)
    requires var w := Outcome(Start(interface_), hs);
             !w.e.faulty && Possible(w, h)
    ensures var w := Outcome(Start(interface_), hs);
            && (Happen(w, h).e.faulty <==> Unlucky(w, h))
            && (Happen(w, h).e.faulty <==> h == Does(DoResume) && Untimely(w.e))
            && (Unlucky(w, h) ==> Happen(w, h).e.answered == w.e.answered && Happen(w, h).e.invoked == w.e.invoked)
  {
    hide Good, Possible, Happen, Start, Unwanted, Untimely, Invariant;
    StartGood(interface_);
    OutcomeGood(Start(interface_), hs);
    GoodUntimely(Outcome(Start(interface_), hs));
    HappenGood(Outcome(Start(interface_), hs), h);
  }

  // ----- who only requests, or only serves, never fails -----

  predicate OnlyRequests(hs: seq<Happening>) {
    forall i :: 0 <= i < |hs| ==> hs[i] != Does(DoServe) && (hs[i].Arrives? ==> hs[i].message.ResponseOf?)
  }

  predicate OnlyServes(hs: seq<Happening>) {
    forall i :: 0 <= i < |hs| ==>
      (hs[i].Does? ==> !hs[i].event.DoRequest?) && (hs[i].Arrives? ==> hs[i].message.RequestOf?)
  }

  predicate Client(w: World) {
    w.e.log.serves == 0 && forall i :: 0 <= i < |w.ms| ==> w.ms[i].ResponseOf?
  }

  predicate Server(w: World) {
    w.e.issued == [] && forall i :: 0 <= i < |w.ms| ==> w.ms[i].RequestOf?
  }

  /** The waiter there is waits for the messages there are. */
  lemma NotUnlucky(w: World, h: Happening, m: nat)
    requires PeerInvariant(w.e, w.ms, m) && (Client(w) || Server(w)) && Possible(w, h)
    ensures !Unlucky(w, h)
  {
    hide PeerInvariant, At, Base, Client, Server, PeerEnabled, MayArrive, Parse;
    if Unlucky(w, h) {
      var op := w.e.stack[0].op;
      Facts(w.e, w.ms, m);
      AboutToParse(w.e, op);
      if m == |w.ms| {
        AtEnd(w.e, w.ms, op);
      } else {
        FitsBuilt(w.e, w.ms, m, m);
        TypeSeen(w.e, w.ms, m, op);
        WaiterFits(w, m);
      }
    }
  }

  lemma WaiterFits(w: World, m: nat)
    requires PeerInvariant(w.e, w.ms, m) && (Client(w) || Server(w)) && m < |w.ms|
    requires w.e.stack != [] && w.e.stack[0].StartParse? && w.e.stack[0].op.purpose.MessageType? && w.e.readers == []
    ensures if TypeByte(w.ms[m]) == MESSAGE_RESPONSE then w.e.splitter.waitingForResponse
            else w.e.splitter.waitingForRequest
  {
    hide Stream, Register, Record;
  }

  lemma KeepsRole(w: World, h: Happening)
    requires Possible(w, h)
    ensures Client(w) && h != Does(DoServe) && (h.Arrives? ==> h.message.ResponseOf?) ==> Client(Happen(w, h))
    ensures Server(w) && (h.Does? ==> !h.event.DoRequest?) && (h.Arrives? ==> h.message.RequestOf?) ==>
              Server(Happen(w, h))
  {
    hide Connection.Step, Enabled, MayArrive;
    if h.Does? {
      RoleEnabled(w.e, w.ms, h.event);
      if h.event.DoRequest? {
        RequestRole(w.e, h.event);
      } else if h.event.DoRespond? {
        RespondRole(w.e, h.event);
      } else {
        StepMessages(w.e, h.event);
      }
    }
  }

  lemma RoleEnabled(e: Endpoint, ms: seq<Message>, event: Event)
    requires PeerEnabled(e, ms, event)
    ensures Enabled(e, event)
  {
  }

  lemma RequestRole(e: Endpoint, event: Event)
    requires Enabled(e, event) && event.DoRequest?
    ensures Connection.Step(e, event).log.serves == e.log.serves
  {
    hide Request, HaveTypes;
    RequestMessages(e, event.name, event.args);
  }

  lemma RespondRole(e: Endpoint, event: Event)
    requires Enabled(e, event) && event.DoRespond?
    ensures Connection.Step(e, event).log.serves == e.log.serves && Connection.Step(e, event).issued == e.issued
  {
    hide Respond, Results;
    RespondMessages(e, event.invocation, event.value);
  }

  lemma {:induction false} RoleNeverFails(w: World, hs: seq<Happening>)
    requires Good(w) && !w.e.faulty && History(w, hs)
    requires (Client(w) && OnlyRequests(hs)) || (Server(w) && OnlyServes(hs))
    ensures !Outcome(w, hs).e.faulty
    decreases |hs|
  {
    hide PeerInvariant, Hungry, Accounted, Possible, Happen, Unlucky, Client, Server;
    if hs != [] {
      var m :| PeerInvariant(w.e, w.ms, m);
      NotUnlucky(w, hs[0], m);
      HappenGood(w, hs[0]);
      KeepsRole(w, hs[0]);
      RoleNeverFails(Happen(w, hs[0]), hs[1..]);
    }
  }

  /** An endpoint that only makes requests, or only serves them, meets no error on
      any valid stream: all that `Demultiplexes` says holds over all its runs. */
  lemma ClientAndServerDemultiplex(interface_: Interface, hs: seq<Happening>)
    requires Conformable(interface_) && History(Start(interface_), hs)
    requires OnlyRequests(hs) || OnlyServes(hs)
    ensures !Outcome(Start(interface_), hs).e.faulty && Demultiplexes(Outcome(Start(interface_), hs))
  {
    hide Good, Possible, Happen, Demultiplexes;
    StartGood(interface_);
    RoleNeverFails(Start(interface_), hs);
    Demultiplexed(interface_, hs);
  }
}
