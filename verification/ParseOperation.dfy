/** `begin_parse_value`: one parser driven over a receive buffer that reads of
    any size fill. */
module ParseOperations {
  import opened WireTypes
  import opened BigEndian
  import opened WireFormat
  import opened ParserMachine
  import opened RoundTrip
  import Parsers
  import Seqs

  function Flatten(pieces: seq<seq<byte>>): seq<byte> {
    if pieces == [] then [] else pieces[0] + Flatten(pieces[1..])
  }

  lemma {:induction false} FlattenSnoc(pieces: seq<seq<byte>>, piece: seq<byte>)
    ensures Flatten(pieces + [piece]) == Flatten(pieces) + piece
  {
    if pieces == [] {
      assert pieces + [piece] == [piece];
    } else {
      assert (pieces + [piece])[1..] == pieces[1..] + [piece];
      FlattenSnoc(pieces[1..], piece);
      Seqs.Assoc(pieces[0], Flatten(pieces[1..]), piece);
    }
  }

  lemma {:induction false} FlattenSplit(pieces: seq<seq<byte>>, i: nat)
    requires i <= |pieces|
    ensures Flatten(pieces) == Flatten(pieces[..i]) + Flatten(pieces[i..])
  {
    if i > 0 {
      FlattenSplit(pieces[1..], i - 1);
      assert pieces[..i][1..] == pieces[1..][..i - 1] && pieces[1..][i - 1..] == pieces[i..];
    } else {
      assert pieces[..0] == [] && pieces[0..] == pieces;
    }
  }

  /** The stream buffer: bytes in pieces, consumed at the front and committed at
      the back. */
  class ReceiveBuffer {
    var pieces: seq<seq<byte>>

    ghost function Data(): seq<byte>
      reads this
    {
      Flatten(pieces)
    }

    constructor ()
      ensures Data() == []
    {
      pieces := [];
    }

    method Commit(read: seq<byte>)
      modifies this
      ensures Data() == old(Data()) + read
    {
      FlattenSnoc(pieces, read);
      pieces := pieces + [read];
    }

    method Consume(count: nat)
      requires count <= |Data()|
      modifies this
      ensures Data() == old(Data())[count..]
    {
      var left := count;
      while pieces != [] && left >= |pieces[0]|
        invariant 0 <= left <= |Data()|
        invariant Data()[left..] == old(Data())[count..]
        decreases |pieces|
      {
        left := left - |pieces[0]|;
        pieces := pieces[1..];
      }
      if left > 0 {
        pieces := pieces[0 := pieces[0][left..]];
      }
    }
  }

  datatype Status =
    | Reading
    | Completed(value: Value)
    | Rejected
    | ReadFailed

  lemma RunNothing(p: Parser)
    requires Feedable(p)
    ensures Run(p, []) == Waiting(p)
  {
  }

  /** One byte more for a machine that is still waiting. */
  lemma RunNextByte(p: Parser, a: seq<byte>, b: byte, rest: seq<byte>)
    requires Feedable(p) && Run(p, a).Waiting?
    ensures var step := Step(Run(p, a).parser, b);
            && (step.NeedMore? ==> Run(p, a + [b]) == Waiting(step.next))
            && (step.ParseComplete? ==>
                  Run(p, a + ([b] + rest)) == Done(step.value, if step.consumed then |a| + 1 else |a|, !step.consumed))
            && (step.Invalid? ==> Run(p, a + ([b] + rest)) == Failed)
  {
    RunSplit(p, a, [b]);
    RunSplit(p, a, [b] + rest);
    assert [b][1..] == [];
  }

  class ParseOperation {
    const t: Type
    const receiveBuffer: ReceiveBuffer
    var parser: Parsers.Node
    var status: Status
    /** The bytes the parser has been given by earlier rounds. */
    ghost var fed: seq<byte>
    ghost var Repr: set<object>

    ghost predicate Valid()
      reads this, Repr
    {
      && this in Repr && receiveBuffer !in Repr
      && parser.Root() <= Repr && parser.Repr() <= Repr && this !in parser.Repr()
      && (status.Reading? ==>
            && parser.Valid()
            && Run(Initial(t), fed) == Waiting(parser.State())
            && (Immediate(t) ==> fed == []))
    }

    constructor (receiveBuffer: ReceiveBuffer, t: Type)
      ensures Valid() && fresh(Repr)
      ensures this.t == t && this.receiveBuffer == receiveBuffer
      ensures status == Reading && fed == []
    {
      hide Step, Run, Initial, Immediate, MaxDepth, Depth;
      RunNothing(Initial(t));
      this.t := t;
      this.receiveBuffer := receiveBuffer;
      var p := Parsers.NewParser(t);
      parser := p;
      status := Reading;
      fed := [];
      Repr := {this} + p.Repr() + p.Root();
    }

    /** The operation stands as `Parse` has it for the bytes `all`, of which the
        parser had been given `floor` before; `data` is what the buffer holds if
        the input is rejected, because then nothing is consumed. */
    ghost predicate Settled(all: seq<byte>, floor: nat, data: seq<byte>)
      reads this, receiveBuffer
    {
      match Parse(t, all)
      case Done(v, used, _) => status == Completed(v) && floor <= used && receiveBuffer.Data() == all[used..]
      case Failed => status == Rejected && receiveBuffer.Data() == data
      case Waiting(_) => status == Reading && fed == all && receiveBuffer.Data() == []
    }

    /** `start`: completes, rejects, or uses up the buffer and asks for more. */
    method Start()
      requires Valid() && status.Reading?
      modifies Repr, receiveBuffer
      ensures Valid() && fresh(Repr - old(Repr))
      ensures Settled(old(fed + receiveBuffer.Data()), old(|fed|), old(receiveBuffer.Data()))
    {
      hide Step, Run, Initial, StateOf;
      InitialState(t);
      RunState(t, Initial(t), fed);
      ImmediateIsStable(t, parser.State());
      var immediate := parser.CheckForImmediateCompletion();
      if immediate {
        status := Completed(ImmediateValue(t));
        assert fed + receiveBuffer.Data() == receiveBuffer.Data();
        return;
      }
      Drain();
    }

    /** The outer loop, over the pieces of the buffer. */
    method Drain()
      requires Valid() && status.Reading? && !Immediate(t)
      modifies Repr, receiveBuffer
      ensures Valid() && fresh(Repr - old(Repr))
      ensures Settled(old(fed + receiveBuffer.Data()), old(|fed|), old(receiveBuffer.Data()))
    {
      hide Step, Run, Initial, Feedable, Immediate, Flatten;
      ghost var data := receiveBuffer.Data();
      var pieces := receiveBuffer.pieces;
      var consumed := 0;
      var k := 0;
      FlattenNone(pieces);
      while k < |pieces|
        invariant 0 <= k <= |pieces|
        invariant Valid() && status.Reading? && fresh(Repr - old(Repr))
        invariant receiveBuffer.pieces == pieces
        invariant consumed == |Flatten(pieces[..k])| <= |data|
        invariant fed == old(fed) + data[..consumed]
      {
        PieceBounds(pieces, k);
        Cut(old(fed), data, consumed, |pieces[k]|);
        var decided := Feed(pieces[k], consumed);
        consumed := consumed + |pieces[k]|;
        if decided {
          return;
        }
        k := k + 1;
      }
      assert pieces[..k] == pieces;
      assert data[..consumed] == data;
      receiveBuffer.Consume(consumed);
    }

    /** The inner loop, over one piece of the buffer. */
    method Feed(piece: seq<byte>, start: nat) returns (decided: bool)
      requires Valid() && status.Reading? && !Immediate(t)
      requires start + |piece| <= |receiveBuffer.Data()|
      requires receiveBuffer.Data()[start..start + |piece|] == piece
      modifies Repr, receiveBuffer
      ensures Valid() && fresh(Repr - old(Repr))
      ensures !decided ==>
                status.Reading? && fed == old(fed) + piece && receiveBuffer.pieces == old(receiveBuffer.pieces)
      ensures decided ==> Settled(old(fed + receiveBuffer.Data()[start..]), old(|fed|), old(receiveBuffer.Data()))
      ensures Waits(old(fed + receiveBuffer.Data()[start..])) ==> !decided
    {
      ghost var data := receiveBuffer.Data();
      var i := 0;
      while i < |piece|
        invariant 0 <= i <= |piece|
        invariant Valid() && status.Reading? && fresh(Repr - old(Repr))
        invariant receiveBuffer.pieces == old(receiveBuffer.pieces)
        invariant fed == old(fed) + piece[..i]
      {
        PrefixOf(old(fed), data[start..], piece, i);
        Seqs.DropDrop(data, start, i);
        decided := FeedByte(piece[i], start + i);
        if decided {
          return;
        }
        assert piece[..i + 1] == piece[..i] + [piece[i]];
        Seqs.Assoc(old(fed), piece[..i], [piece[i]]);
        i := i + 1;
      }
      assert piece[..i] == piece;
      return false;
    }

    ghost predicate Waits(all: seq<byte>) {
      Parse(t, all).Waiting?
    }

    /** One call of `parse_byte` and what is made of its answer. */
    method FeedByte(input: byte, position: nat) returns (decided: bool)
      requires Valid() && status.Reading? && !Immediate(t)
      requires position < |receiveBuffer.Data()| && receiveBuffer.Data()[position] == input
      modifies Repr, receiveBuffer
      ensures Valid() && fresh(Repr - old(Repr))
      ensures !decided ==>
                status.Reading? && fed == old(fed) + [input] && receiveBuffer.pieces == old(receiveBuffer.pieces)
      ensures decided ==> Settled(old(fed + receiveBuffer.Data()[position..]), old(|fed|), old(receiveBuffer.Data()))
      ensures Waits(old(fed + receiveBuffer.Data()[position..])) ==> !decided
    {
      hide Step, Run, Initial, Feedable, Immediate, Flatten;
      ghost var data := receiveBuffer.Data();
      ghost var rest := data[position + 1..];
      assert data[position..] == [input] + rest;
      RunNextByte(Initial(t), fed, input, rest);
      var response := GiveByte(input);
      match response
      case ParseComplete(value, isConsumed) =>
        var consumed := position;
        if isConsumed {
          consumed := consumed + 1;
        }
        status := Completed(value);
        Finish(consumed);
        RestOf(fed, data, position, consumed - position);
        return true;
      case InvalidInput =>
        status := Rejected;
        return true;
      case NeedMoreInput =>
        fed := fed + [input];
        return false;
    }

    /** The parser takes a byte; what it is made of may have changed. */
    method GiveByte(input: byte) returns (response: Parsers.ParseResult)
      requires Valid() && status.Reading?
      modifies Repr
      ensures this in Repr && receiveBuffer !in Repr && fresh(Repr - old(Repr))
      ensures parser.Root() <= Repr && parser.Repr() <= Repr && this !in parser.Repr()
      ensures unchanged(this`status, this`fed, this`parser)
      ensures Parsers.Announces(response, Step(old(parser.State()), input))
      ensures Step(old(parser.State()), input).NeedMore? ==>
                parser.Valid() && parser.State() == Step(old(parser.State()), input).next
    {
      hide Step, Run, Initial, Feedable, Immediate, Flatten;
      response := parser.ParseByte(input);
      Repr := Repr + parser.Repr();
    }

    /** What the value took is consumed. */
    method Finish(count: nat)
      requires Valid() && status.Completed? && count <= |receiveBuffer.Data()|
      modifies receiveBuffer
      ensures Valid() && receiveBuffer.Data() == old(receiveBuffer.Data())[count..]
    {
      receiveBuffer.Consume(count);
    }

    /** The handler of `async_read_some`. */
    method OnRead(read: seq<byte>)
      requires Valid() && status.Reading? && receiveBuffer.Data() == []
      modifies Repr, receiveBuffer
      ensures Valid() && fresh(Repr - old(Repr))
      ensures Settled(old(fed) + read, old(|fed|), read)
    {
      receiveBuffer.Commit(read);
      assert receiveBuffer.Data() == read;
      Start();
    }

    method OnReadError()
      requires Valid() && status.Reading?
      modifies this
      ensures Valid() && status == ReadFailed && Repr == old(Repr)
    {
      status := ReadFailed;
    }
  }

  lemma FlattenNone(pieces: seq<seq<byte>>)
    ensures Flatten(pieces[..0]) == []
  {
  }

  lemma PieceBounds(pieces: seq<seq<byte>>, k: nat)
    requires k < |pieces|
    ensures var start := |Flatten(pieces[..k])|;
            && start + |pieces[k]| == |Flatten(pieces[..k + 1])| <= |Flatten(pieces)|
            && Flatten(pieces)[start..start + |pieces[k]|] == pieces[k]
  {
    FlattenSplit(pieces, k);
    FlattenSplit(pieces, k + 1);
    FlattenSnoc(pieces[..k], pieces[k]);
    assert pieces[..k + 1] == pieces[..k] + [pieces[k]];
  }

  lemma Cut(before: seq<byte>, data: seq<byte>, consumed: nat, more: nat)
    requires consumed + more <= |data|
    ensures (before + data[..consumed]) + data[consumed..] == before + data
    ensures (before + data[..consumed]) + data[consumed..consumed + more] == before + data[..consumed + more]
  {
  }

  lemma PrefixOf(before: seq<byte>, data: seq<byte>, piece: seq<byte>, i: nat)
    requires i < |piece| <= |data| && data[..|piece|] == piece
    ensures (before + piece[..i]) + data[i..] == before + data
    ensures data[i] == piece[i]
  {
    assert data == piece[..i] + data[i..];
  }

  lemma RestOf(before: seq<byte>, data: seq<byte>, position: nat, more: nat)
    requires position + more <= |data|
    ensures (before + data[position..])[|before| + more..] == data[position + more..]
  {
  }

  /** A value is parsed out of the buffer followed by as many of the reads as it
      takes. The outcome is that of the whole stream at once, however the stream
      is cut: the same value and the same bytes left over, in the buffer or not
      yet read; the same rejection; or the same wish for more. */
  method BeginParseValue(receiveBuffer: ReceiveBuffer, t: Type, reads_: seq<seq<byte>>)
    returns (status: Status, used: nat)
    modifies receiveBuffer
    ensures used <= |reads_|
    ensures var stream := old(receiveBuffer.Data()) + Flatten(reads_);
            match Parse(t, stream)
            case Done(v, n, _) =>
              status == Completed(v) && receiveBuffer.Data() + Flatten(reads_[used..]) == stream[n..]
            case Failed => status == Rejected
            case Waiting(_) => status == Reading && used == |reads_| && receiveBuffer.Data() == []
  {
    hide Step, Run, Initial, Immediate, Flatten;
    FlattenNone(reads_);
    var operation := new ParseOperation(receiveBuffer, t);
    ghost var data := receiveBuffer.Data();
    used := 0;
    operation.Start();
    assert [] + data == data;
    ghost var given := data;
    assert data == data + Flatten(reads_[..0]);
    while operation.status.Reading? && used < |reads_|
      invariant used <= |reads_|
      invariant operation.Valid() && fresh(operation.Repr) && operation.t == t
            && operation.receiveBuffer == receiveBuffer
      invariant given == data + Flatten(reads_[..used])
      invariant exists floor, rejected :: operation.Settled(given, floor, rejected)
      decreases |reads_| - used
    {
      operation.OnRead(reads_[used]);
      FlattenSnoc(reads_[..used], reads_[used]);
      assert reads_[..used + 1] == reads_[..used] + [reads_[used]];
      Seqs.Assoc(data, Flatten(reads_[..used]), reads_[used]);
      given := given + reads_[used];
      used := used + 1;
    }
    status := operation.status;
    FlattenSplit(reads_, used);
    Seqs.Assoc(data, Flatten(reads_[..used]), Flatten(reads_[used..]));
    if !status.Reading? {
      ParseMonotone(t, given, Flatten(reads_[used..]));
      TailAppend(t, given, Flatten(reads_[used..]));
    } else {
      assert reads_[..used] == reads_;
    }
  }

  lemma TailAppend(t: Type, given: seq<byte>, rest: seq<byte>)
    ensures Parse(t, given).Done? ==> given[Parse(t, given).used..] + rest == (given + rest)[Parse(t, given).used..]
  {
  }
}
