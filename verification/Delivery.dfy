/** When every byte has arrived and nothing is left to run, nothing is left to
    deliver, in either direction. */
module Delivery {
  import opened Messages
  import opened Connection
  import opened ConnectionAccounting
  import opened Output
  import opened IncomingStream
  import opened Peer
  import opened Demultiplexing
  import opened EndToEnd
  import W = WriterModel

  /** The last message on the stream, whose body is only completed by another byte. */
  predicate LastNeedsAnother(ms: seq<Message>) {
    ms != [] && NeedsAnother(ms[|ms| - 1])
  }

  /** The last message is the response that carries this result. */
  predicate IsLast(ms: seq<Message>, response: Response) {
    && LastNeedsAnother(ms) && ms[|ms| - 1].ResponseOf?
    && ms[|ms| - 1].id == response.invocation && ms[|ms| - 1].value == response.value
  }

  /** Every result that the peer has given has been handed to its callback, and an
      endpoint that serves has been called for every request; only the very last
      message of the stream may still wait for one byte after it. */
  predicate AllDelivered(e: Endpoint, peer: Endpoint) {
    && (forall i :: 0 <= i < |peer.responses| ==>
          || Answered(peer.responses[i].invocation, peer.responses[i].value) in e.answered
          || IsLast(peer.messages, peer.responses[i]))
    && (e.busy ==>
          || |e.invoked| == |peer.issued|
          || (|e.invoked| + 1 == |peer.issued| && LastNeedsAnother(peer.messages)))
  }

  /** Every byte has arrived at either end and nothing is left to run. */
  predicate AllArrived(s: System) {
    && Rest(s.left) && Rest(s.right)
    && AllBuilt(s.left.messages) && AllBuilt(s.right.messages)
    && s.left.received == AllBytes(s.right.messages)
    && s.right.received == AllBytes(s.left.messages)
  }

  /** Among the messages there is one for every result that was given. */
  lemma {:induction false} MessageOf(ms: seq<Message>, i: nat) returns (p: nat)
    requires i < |Replied(ms)|
    ensures p < |ms| && ms[p].ResponseOf? && Replied(ms)[i] == Answered(ms[p].id, ms[p].value)
    decreases |ms|
  {
    if i < |Replied(ms[..|ms| - 1])| {
      p := MessageOf(ms[..|ms| - 1], i);
    } else {
      p := |ms| - 1;
    }
  }

  lemma ReplyOf(e: Endpoint, i: nat) returns (p: nat)
    requires Framed(e) && i < |e.responses|
    ensures e.responses[i].invocation < |e.invoked|
    ensures p < |e.messages| && e.messages[p].ResponseOf? && e.messages[p].value == e.responses[i].value
    ensures e.messages[p].id == e.invoked[e.responses[i].invocation].request
  {
    hide W.Invariant, Registered, AllBuilt, AllBytes, Asked, Replied;
    assert Replies(e, i);
    p := MessageOf(e.messages, i);
  }

  lemma ResponsesDelivered(e: Endpoint, peer: Endpoint, i: nat)
    requires Joined(e, peer) && Joined(peer, e) && NothingLeft(e, peer.messages) && i < |peer.responses|
    ensures || Answered(peer.responses[i].invocation, peer.responses[i].value) in e.answered
            || IsLast(peer.messages, peer.responses[i])
  {
    hide Joined, NeedsAnother, Asked;
    JoinedFramed(peer, e);
    JoinedCalls(peer, e);
    var p := ReplyOf(peer, i);
    assert HandedOver(e, peer.messages[p]) || (p == |peer.messages| - 1 && NeedsAnother(peer.messages[p]));
  }

  lemma RequestsDelivered(e: Endpoint, peer: Endpoint)
    requires Framed(peer) && NothingLeft(e, peer.messages) && e.busy
    ensures || |e.invoked| == |peer.issued|
            || (|e.invoked| + 1 == |peer.issued| && LastNeedsAnother(peer.messages))
  {
    hide Framed, NeedsAnother;
    FramedAsks(peer);
  }

  lemma JoinedDelivers(e: Endpoint, peer: Endpoint)
    requires Joined(e, peer) && Joined(peer, e) && e.stack == []
    requires AllBuilt(peer.messages) && e.received == AllBytes(peer.messages)
    ensures AllDelivered(e, peer)
  {
    hide PeerInvariant, Framed, Accounted, Hungry, NothingLeft, IsLast, LastNeedsAnother, AllBytes;
    var m :| PeerInvariant(e, peer.messages, m);
    RestLeavesNothing(e, peer.messages, m);
    forall i | 0 <= i < |peer.responses|
      ensures || Answered(peer.responses[i].invocation, peer.responses[i].value) in e.answered
              || IsLast(peer.messages, peer.responses[i])
    {
      ResponsesDelivered(e, peer, i);
    }
    if e.busy {
      RequestsDelivered(e, peer);
    }
  }

  /** Over every interleaving in which neither end has met an error: when all has
      arrived, all is delivered at both ends. */
  lemma NothingIsLeft(interface_: Interface, moves: seq<Move>)
    requires Conformable(interface_) && Interleaving(Begin(interface_), moves)
    requires !Faulty(After(Begin(interface_), moves)) && AllArrived(After(Begin(interface_), moves))
    ensures var s := After(Begin(interface_), moves);
            AllDelivered(s.left, s.right) && AllDelivered(s.right, s.left)
  {
    hide Joined, May, Moved, AllDelivered, Faulty;
    BeginJoint(interface_);
    AfterJoint(Begin(interface_), moves);
    var s := After(Begin(interface_), moves);
    EmptyStacks(s);
    JoinedDelivers(s.left, s.right);
    JoinedDelivers(s.right, s.left);
  }

  lemma EmptyStacks(s: System)
    requires AllArrived(s)
    ensures s.left.stack == [] && s.right.stack == []
    ensures AllBuilt(s.right.messages) && s.left.received == AllBytes(s.right.messages)
    ensures AllBuilt(s.left.messages) && s.right.received == AllBytes(s.left.messages)
  {
  }
}
