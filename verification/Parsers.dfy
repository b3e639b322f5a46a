/** The parser objects of the generated code. A parser that contains another one
    owns it; `State()` is the state of the machine the objects make up. */
module Parsers {
  import opened WireTypes
  import opened BigEndian
  import opened WireFormat
  import M = ParserMachine
  import Utf8

  datatype ParseResult =
    | ParseComplete(value: Value, consumed: bool)
    | NeedMoreInput
    | InvalidInput

  /** The result announces the machine's progress. */
  predicate Announces(r: ParseResult, progress: M.Progress) {
    match progress
    case ParseComplete(value, consumed) => r == ParseComplete(value, consumed)
    case NeedMore(_) => r == NeedMoreInput
    case Invalid => r == InvalidInput
  }

  class IntegerParser {
    const size: nat
    var result: nat
    var bytesReceived: nat

    ghost predicate Valid()
      reads this
    {
      M.Feedable(State())
    }

    ghost function State(): M.Parser
      reads this
    {
      M.IntegerParser(size, result, bytesReceived)
    }

    constructor (size: nat)
      requires size > 0
      ensures Valid() && State() == M.IntegerParser(size, 0, 0)
    {
      this.size := size;
      result := 0;
      bytesReceived := 0;
    }

    method ParseByte(input: byte) returns (r: ParseResult)
      requires Valid()
      modifies this
      ensures Announces(r, M.Step(old(State()), input))
      ensures M.Step(old(State()), input).NeedMore? ==> Valid() && State() == M.Step(old(State()), input).next
    {
      M.AccumulateFits(size, result, bytesReceived, input);
      result := (result * 256) % Pow256(size);
      result := result + input;
      bytesReceived := bytesReceived + 1;
      if bytesReceived == size {
        return ParseComplete(IntegerValue(result), true);
      }
      return NeedMoreInput;
    }
  }

  class Utf8Parser {
    var length: IntegerParser
    var parsingElement: bool
    var currentIndex: nat
    var result: array<byte>
    ghost var Repr: set<object>

    ghost predicate Valid()
      reads this, Repr
    {
      && Repr == {this, length, result}
      && (!parsingElement ==> length.Valid())
      && (parsingElement ==> currentIndex < result.Length)
    }

    ghost function State(): M.Parser
      requires Valid()
      reads this, Repr
    {
      if parsingElement then M.Utf8ContentParser(result.Length, result[..currentIndex])
      else M.Utf8LengthParser(length.State())
    }

    constructor (size: nat)
      requires size > 0
      ensures Valid() && fresh(Repr)
      ensures State() == M.Utf8LengthParser(M.IntegerParser(size, 0, 0))
    {
      length := new IntegerParser(size);
      parsingElement := false;
      currentIndex := 0;
      result := new byte[0];
      Repr := {this, length, result};
    }

    method ParseByte(input: byte) returns (r: ParseResult)
      requires Valid()
      modifies Repr
      ensures fresh(Repr - old(Repr))
      ensures Announces(r, M.Step(old(State()), input))
      ensures M.Step(old(State()), input).NeedMore? ==> Valid() && State() == M.Step(old(State()), input).next
    {
      if !parsingElement {
        r := length.ParseByte(input);
        if r.ParseComplete? {
          result := new byte[r.value.n](_ => 0);
          Repr := {this, length, result};
          if result.Length == 0 {
            assert result[..] == [];
            return ParseComplete(TextValue(result[..]), r.consumed);
          }
          parsingElement := true;
          currentIndex := 0;
          return NeedMoreInput;
        }
      } else {
        result[currentIndex] := input;
        assert result[..currentIndex + 1] == old(result[..currentIndex]) + [input];
        if currentIndex == result.Length - 1 {
          assert result[..] == result[..currentIndex + 1];
          if Utf8.IsValid(result[..]) {
            return ParseComplete(TextValue(result[..]), true);
          }
          return InvalidInput;
        }
        currentIndex := currentIndex + 1;
        return NeedMoreInput;
      }
    }
  }

  /** A parser of any kind, as the element of another parser. */
  datatype Node =
    | IntegerNode(integer: IntegerParser)
    | Utf8Node(utf8: Utf8Parser)
    | VectorNode(vector: VectorParser)
    | TupleNode(tuple: TupleParser)
    | EmptyTupleNode
    | VariantNode(variant: VariantParser)
  {
    ghost function Root(): set<object> {
      match this
      case IntegerNode(p) => {p}
      case Utf8Node(p) => {p}
      case VectorNode(p) => {p}
      case TupleNode(p) => {p}
      case EmptyTupleNode => {}
      case VariantNode(p) => {p}
    }

    ghost function Repr(): set<object>
      reads Root()
    {
      match this
      case IntegerNode(p) => {p}
      case Utf8Node(p) => p.Repr
      case VectorNode(p) => p.Repr
      case TupleNode(p) => p.Repr
      case EmptyTupleNode => {}
      case VariantNode(p) => p.Repr
    }

    ghost predicate Valid()
      reads Root(), Repr()
      decreases Repr(), 2
    {
      match this
      case IntegerNode(p) => p.Valid()
      case Utf8Node(p) => p.Valid()
      case VectorNode(p) => p.Valid()
      case TupleNode(p) => p.Valid()
      case EmptyTupleNode => true
      case VariantNode(p) => p.Valid()
    }

    ghost function State(): (s: M.Parser)
      requires Valid()
      reads Root(), Repr()
      ensures M.Feedable(s)
      decreases Repr(), 2
    {
      match this
      case IntegerNode(p) => p.State()
      case Utf8Node(p) => p.State()
      case VectorNode(p) => p.State()
      case TupleNode(p) => p.State()
      case EmptyTupleNode => M.EmptyTupleParser
      case VariantNode(p) => p.State()
    }

    method ParseByte(input: byte) returns (r: ParseResult)
      requires Valid()
      modifies Repr()
      ensures fresh(Repr() - old(Repr()))
      ensures Announces(r, M.Step(old(State()), input))
      ensures M.Step(old(State()), input).NeedMore? ==> Valid() && State() == M.Step(old(State()), input).next
      decreases Repr(), 2
    {
      match this
      case IntegerNode(p) => r := p.ParseByte(input);
      case Utf8Node(p) => r := p.ParseByte(input);
      case VectorNode(p) => r := p.ParseByte(input);
      case TupleNode(p) => r := p.ParseByte(input);
      case EmptyTupleNode => r := ParseComplete(TupleValue([]), false);
      case VariantNode(p) => r := p.ParseByte(input);
    }

    /** `check_for_immediate_completion`. */
    method CheckForImmediateCompletion() returns (immediate: bool)
      requires Valid()
      ensures immediate == M.ChecksImmediate(State())
      decreases Repr(), 2
    {
      match this
      case TupleNode(p) =>
        if |p.types| == 1 {
          immediate := p.current.CheckForImmediateCompletion();
        } else {
          immediate := false;
        }
      case EmptyTupleNode => immediate := true;
      case _ => immediate := false;
    }
  }

  /** The parser `generate_parser_type` names for a type, in its first state. */
  method NewParser(t: Type) returns (n: Node)
    ensures n.Valid() && fresh(n.Repr()) && n.State() == M.Initial(t)
    decreases Depth(t), 0
  {
    match t
    case Integer(range) =>
      var p := new IntegerParser(Width(range.maximum));
      n := IntegerNode(p);
    case Utf8(codeUnits) =>
      var p := new Utf8Parser(Width(codeUnits.maximum));
      n := Utf8Node(p);
    case Variant(elements) =>
      var p := new VariantParser(elements);
      n := VariantNode(p);
    case Vector(length, element) =>
      var p := new VectorParser(Width(length.maximum), element);
      n := VectorNode(p);
    case Tuple(_) => n := NewTupleParser(Members(t));
    case Structure(_) => n := NewTupleParser(Members(t));
  }

  method NewTupleParser(ts: seq<Type>) returns (n: Node)
    ensures n.Valid() && fresh(n.Repr()) && n.State() == M.InitialTuple(ts)
    decreases MaxDepth(ts), 1
  {
    hide M.Initial, M.Run, M.Step, MaxDepth, Depth;
    if ts == [] {
      n := EmptyTupleNode;
    } else {
      MemberDepth(ts, 0);
      var first := NewParser(ts[0]);
      var p := new TupleParser(ts, first);
      n := TupleNode(p);
    }
  }

  class VectorParser {
    const element: Type
    var length: IntegerParser
    var parsingElement: bool
    var capacity: nat
    var parser: Node
    var result: seq<Value>
    ghost var Repr: set<object>

    ghost predicate Valid()
      reads this, Repr
      decreases Repr, 0
    {
      && this in Repr
      && (!parsingElement ==> length in Repr && length.Valid() && result == [])
      && (parsingElement ==>
            && parser.Root() <= Repr && parser.Repr() <= Repr && this !in parser.Repr() && parser.Valid()
            && |result| < capacity)
    }

    ghost function State(): (s: M.Parser)
      requires Valid()
      reads this, Repr
      ensures M.Feedable(s)
      decreases Repr, 0
    {
      if parsingElement then M.SequenceParser(true, Copies(element, capacity), result, parser.State())
      else M.VectorLengthParser(length.State(), element)
    }

    constructor (size: nat, element: Type)
      requires size > 0
      ensures Valid() && fresh(Repr)
      ensures State() == M.VectorLengthParser(M.IntegerParser(size, 0, 0), element)
    {
      this.element := element;
      length := new IntegerParser(size);
      parsingElement := false;
      capacity := 0;
      parser := EmptyTupleNode;
      result := [];
      Repr := {this, length};
    }

    method ParseByte(input: byte) returns (r: ParseResult)
      requires Valid()
      modifies Repr
      ensures fresh(Repr - old(Repr))
      ensures Announces(r, M.Step(old(State()), input))
      ensures M.Step(old(State()), input).NeedMore? ==> Valid() && State() == M.Step(old(State()), input).next
      decreases Repr, 1
    {
      if !parsingElement {
        r := ParseLength(input);
      } else {
        r := ParseElement(input);
      }
    }

    method ParseLength(input: byte) returns (r: ParseResult)
      requires Valid() && !parsingElement
      modifies Repr
      ensures fresh(Repr - old(Repr))
      ensures Announces(r, M.Step(old(State()), input))
      ensures M.Step(old(State()), input).NeedMore? ==> Valid() && State() == M.Step(old(State()), input).next
      decreases Repr, 0
    {
      hide M.Initial, M.InitialTuple, M.Run, MaxDepth, Depth;
      r := length.ParseByte(input);
      if r.ParseComplete? {
        if r.value.n == 0 {
          return ParseComplete(VectorValue(result), r.consumed);
        }
        capacity := r.value.n;
        StartElement();
        return NeedMoreInput;
      }
    }

    method ParseElement(input: byte) returns (r: ParseResult)
      requires Valid() && parsingElement
      modifies Repr
      ensures fresh(Repr - old(Repr))
      ensures Announces(r, M.Step(old(State()), input))
      ensures M.Step(old(State()), input).NeedMore? ==> Valid() && State() == M.Step(old(State()), input).next
      decreases Repr, 0
    {
      hide M.Initial, M.InitialTuple, M.Run, Copies, MaxDepth, Depth;
      ghost var before := State();
      r := parser.ParseByte(input);
      assert before == M.SequenceParser(true, Copies(element, capacity), result, old(parser.State()));
      if r.ParseComplete? {
        result := result + [r.value];
        if |result| == capacity {
          return ParseComplete(VectorValue(result), r.consumed);
        }
        StartElement();
        return NeedMoreInput;
      }
      Repr := Repr + parser.Repr();
    }

    /** A new parser for the next element. */
    method StartElement()
      requires |result| < capacity
      modifies this
      ensures Valid() && fresh(Repr - {this}) && parsingElement && capacity == old(capacity)
      ensures State() == M.SequenceParser(true, Copies(element, capacity), old(result), M.Initial(element))
      decreases Depth(element), 1
    {
      hide M.Initial, M.InitialTuple, M.Step, M.Run, Copies, MaxDepth, Depth;
      parsingElement := true;
      parser := NewParser(element);
      Repr := {this} + parser.Repr() + parser.Root();
    }
  }

  /** `basic_tuple_parser`, for tuples and structures of at least one member. */
  class TupleParser {
    const types: seq<Type>
    var current: Node
    var result: seq<Value>
    ghost var Repr: set<object>

    ghost predicate Valid()
      reads this, Repr
      decreases Repr, 0
    {
      && this in Repr
      && current.Root() <= Repr && current.Repr() <= Repr && this !in current.Repr() && current.Valid()
      && |result| < |types|
    }

    ghost function State(): (s: M.Parser)
      requires Valid()
      reads this, Repr
      ensures M.Feedable(s)
      decreases Repr, 0
    {
      M.SequenceParser(false, types, result, current.State())
    }

    constructor (types: seq<Type>, first: Node)
      requires types != [] && first.Valid()
      ensures Valid() && fresh(Repr - first.Repr() - first.Root())
      ensures State() == M.SequenceParser(false, types, [], first.State())
    {
      this.types := types;
      current := first;
      result := [];
      Repr := {this} + first.Repr() + first.Root();
    }

    method ParseByte(input: byte) returns (r: ParseResult)
      requires Valid()
      modifies Repr
      ensures fresh(Repr - old(Repr))
      ensures Announces(r, M.Step(old(State()), input))
      ensures M.Step(old(State()), input).NeedMore? ==> Valid() && State() == M.Step(old(State()), input).next
      decreases Repr, 0
    {
      hide M.Initial, M.InitialTuple, M.Run, Copies, MaxDepth, Depth;
      r := current.ParseByte(input);
      if r.ParseComplete? {
        result := result + [r.value];
        if |result| == |types| {
          return ParseComplete(TupleValue(result), r.consumed);
        }
        StartMember();
        return NeedMoreInput;
      }
      Repr := Repr + current.Repr();
    }

    /** A new parser for the next member. */
    method StartMember()
      requires |result| < |types|
      modifies this
      ensures Valid() && fresh(Repr - {this})
      ensures State() == M.SequenceParser(false, types, old(result), M.Next(types, |old(result)|))
      decreases MaxDepth(types), 1
    {
      hide M.Initial, M.InitialTuple, M.Run, MaxDepth, Depth;
      MemberDepth(types, |result|);
      current := NewParser(types[|result|]);
      Repr := {this} + current.Repr() + current.Root();
    }
  }

  class VariantParser {
    const elements: seq<Type>
    var index: IntegerParser
    var parsingIndex: bool
    var chosen: nat
    var current: Node
    ghost var Repr: set<object>

    ghost predicate Valid()
      reads this, Repr
      decreases Repr, 0
    {
      && this in Repr
      && (parsingIndex ==> index in Repr && index.Valid() && index.size == 1)
      && (!parsingIndex ==>
            current.Root() <= Repr && current.Repr() <= Repr && this !in current.Repr() && current.Valid())
    }

    ghost function State(): (s: M.Parser)
      requires Valid()
      reads this, Repr
      ensures M.Feedable(s)
      decreases Repr, 0
    {
      if parsingIndex then M.VariantIndexParser(index.State(), elements)
      else M.VariantElementParser(chosen, current.State())
    }

    constructor (elements: seq<Type>)
      ensures Valid() && fresh(Repr)
      ensures State() == M.VariantIndexParser(M.IntegerParser(1, 0, 0), elements)
    {
      this.elements := elements;
      index := new IntegerParser(1);
      parsingIndex := true;
      chosen := 0;
      current := EmptyTupleNode;
      Repr := {this, index};
    }

    method ParseByte(input: byte) returns (r: ParseResult)
      requires Valid()
      modifies Repr
      ensures fresh(Repr - old(Repr))
      ensures Announces(r, M.Step(old(State()), input))
      ensures M.Step(old(State()), input).NeedMore? ==> Valid() && State() == M.Step(old(State()), input).next
      decreases Repr, 1
    {
      if parsingIndex {
        r := ParseIndex(input);
      } else {
        r := ParseElement(input);
      }
    }

    method ParseIndex(input: byte) returns (r: ParseResult)
      requires Valid() && parsingIndex
      modifies Repr
      ensures fresh(Repr - old(Repr))
      ensures Announces(r, M.Step(old(State()), input))
      ensures M.Step(old(State()), input).NeedMore? ==> Valid() && State() == M.Step(old(State()), input).next
      decreases Repr, 0
    {
      hide M.Initial, M.InitialTuple, M.Run, Copies, MaxDepth, Depth;
      r := index.ParseByte(input);
      if r.ParseComplete? {
        if r.value.n >= |elements| {
          return InvalidInput;
        }
        StartElement(r.value.n);
        return NeedMoreInput;
      }
    }

    /** A new parser for the chosen alternative. */
    method StartElement(chosen: nat)
      requires chosen < |elements|
      modifies this
      ensures Valid() && fresh(Repr - {this})
      ensures State() == M.VariantElementParser(chosen, M.Next(elements, chosen))
      decreases MaxDepth(elements), 1
    {
      hide M.Initial, M.InitialTuple, M.Run, MaxDepth, Depth;
      MemberDepth(elements, chosen);
      this.chosen := chosen;
      current := NewParser(elements[chosen]);
      parsingIndex := false;
      Repr := {this} + current.Repr() + current.Root();
    }

    method ParseElement(input: byte) returns (r: ParseResult)
      requires Valid() && !parsingIndex
      modifies Repr
      ensures fresh(Repr - old(Repr))
      ensures Announces(r, M.Step(old(State()), input))
      ensures M.Step(old(State()), input).NeedMore? ==> Valid() && State() == M.Step(old(State()), input).next
      decreases Repr, 0
    {
      hide M.Initial, M.InitialTuple, M.Run, Copies, MaxDepth, Depth;
      r := current.ParseByte(input);
      if r.ParseComplete? {
        return ParseComplete(VariantValue(chosen, r.value), r.consumed);
      }
      Repr := Repr + current.Repr();
    }
  }
}
