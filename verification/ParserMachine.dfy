/** The nested byte-at-a-time parsers as one state machine, and the recursive
    descent they amount to. */
module ParserMachine {
  import opened WireTypes
  import opened BigEndian
  import opened WireFormat
  import Utf8
  import Seqs

  /** The state of a generated parser.
      `SequenceParser` serves both the elements of a vector and the members of a
      tuple or structure: `types` lists what is to be parsed, `values` what has
      been parsed, and `current` is the parser of `types[|values|]`. */
  datatype Parser =
    | IntegerParser(width: nat, result: nat, received: nat)
    | Utf8LengthParser(length: Parser)
    | Utf8ContentParser(size: nat, content: seq<byte>)
    | VectorLengthParser(length: Parser, element: Type)
    | SequenceParser(vector: bool, types: seq<Type>, values: seq<Value>, current: Parser)
    | EmptyTupleParser
    | VariantIndexParser(index: Parser, elements: seq<Type>)
    | VariantElementParser(chosen: nat, current: Parser)

  /** `parse_result`: a completed value says whether the byte was consumed. */
  datatype Progress =
    | ParseComplete(value: Value, consumed: bool)
    | NeedMore(next: Parser)
    | Invalid

  // ----- construction: generate_parser_type -----

  function IntegerStart(range: IntegerRange): Parser {
    IntegerParser(Width(range.maximum), 0, 0)
  }

  function Initial(t: Type): (p: Parser)
    ensures Feedable(p)
    decreases Depth(t), 0
  {
    match t
    case Integer(range) => IntegerStart(range)
    case Utf8(codeUnits) => Utf8LengthParser(IntegerStart(codeUnits))
    case Variant(elements) => VariantIndexParser(IntegerParser(1, 0, 0), elements)
    case Vector(length, element) => VectorLengthParser(IntegerStart(length), element)
    case Tuple(_) => InitialTuple(Members(t))
    case Structure(_) => InitialTuple(Members(t))
  }

  function InitialTuple(ts: seq<Type>): (p: Parser)
    ensures Feedable(p)
    decreases MaxDepth(ts), 1
  {
    if ts == [] then EmptyTupleParser else SequenceParser(false, ts, [], Initial(ts[0]))
  }

  function Next(ts: seq<Type>, i: nat): (p: Parser)
    requires i < |ts|
    ensures Feedable(p)
  {
    Initial(ts[i])
  }

  // ----- the states that may be given a byte -----

  /** No part of the machine has already completed: the bounds the integer, text
      and sequence parsers rely on. */
  predicate Feedable(p: Parser) {
    match p
    case IntegerParser(width, result, received) => received < width && result < Pow256(received)
    case Utf8LengthParser(length) => length.IntegerParser? && Feedable(length)
    case Utf8ContentParser(size, content) => |content| < size
    case VectorLengthParser(length, _) => length.IntegerParser? && Feedable(length)
    case SequenceParser(_, types, values, current) => |values| < |types| && Feedable(current)
    case EmptyTupleParser => true
    case VariantIndexParser(index, _) => index.IntegerParser? && index.width == 1 && Feedable(index)
    case VariantElementParser(_, current) => Feedable(current)
  }

  // ----- parse_byte -----

  function Collected(vector: bool, values: seq<Value>): Value {
    if vector then VectorValue(values) else TupleValue(values)
  }

  /** `result << 8 | input` in an unsigned type of `width` bytes. */
  function Accumulate(width: nat, result: nat, input: byte): nat {
    (result * 256) % Pow256(width) + input
  }

  lemma AccumulateFits(width: nat, result: nat, received: nat, input: byte)
    requires received < width && result < Pow256(received)
    ensures Accumulate(width, result, input) == 256 * result + input < Pow256(received + 1)
  {
    PowMonotone(received + 1, width);
    var p := Pow256(received);
    assert Pow256(received + 1) == 256 * p;
    assert 256 * result <= 256 * p - 256;
    SmallRemainder(result * 256, Pow256(width));
  }

  lemma SmallRemainder(x: nat, m: nat)
    requires x < m
    ensures x % m == x
  {
  }

  lemma PowMonotone(a: nat, b: nat)
    requires a <= b
    ensures Pow256(a) <= Pow256(b)
  {
  }

  function Step(p: Parser, input: byte): (r: Progress)
    requires Feedable(p)
    ensures r.NeedMore? ==> Feedable(r.next)
    ensures p.IntegerParser? ==> !r.Invalid? && (r.ParseComplete? ==> r.value.IntegerValue? && r.consumed)
    ensures p.IntegerParser? && r.NeedMore? ==> r.next.IntegerParser? && r.next.width == p.width
    decreases p
  {
    match p
    case IntegerParser(width, result, received) =>
      AccumulateFits(width, result, received, input);
      var result' := Accumulate(width, result, input);
      if received + 1 == width then ParseComplete(IntegerValue(result'), true)
      else NeedMore(IntegerParser(width, result', received + 1))
    case Utf8LengthParser(length) =>
      (match Step(length, input)
       case ParseComplete(size, consumed) =>
         if size.n == 0 then ParseComplete(TextValue([]), consumed) else NeedMore(Utf8ContentParser(size.n, []))
       case NeedMore(length') => NeedMore(Utf8LengthParser(length'))
       case Invalid => Invalid)
    case Utf8ContentParser(size, content) =>
      var content' := content + [input];
      if |content| == size - 1 then
        if Utf8.IsValid(content') then ParseComplete(TextValue(content'), true) else Invalid
      else NeedMore(Utf8ContentParser(size, content'))
    case VectorLengthParser(length, element) =>
      (match Step(length, input)
       case ParseComplete(size, consumed) =>
         if size.n == 0 then ParseComplete(VectorValue([]), consumed)
         else NeedMore(SequenceParser(true, Copies(element, size.n), [], Initial(element)))
       case NeedMore(length') => NeedMore(VectorLengthParser(length', element))
       case Invalid => Invalid)
    case SequenceParser(vector, types, values, current) =>
      (match Step(current, input)
       case ParseComplete(value, consumed) =>
         var values' := values + [value];
         if |values'| == |types| then ParseComplete(Collected(vector, values'), consumed)
         else NeedMore(SequenceParser(vector, types, values', Next(types, |values'|)))
       case NeedMore(current') => NeedMore(SequenceParser(vector, types, values, current'))
       case Invalid => Invalid)
    case EmptyTupleParser => ParseComplete(TupleValue([]), false)
    case VariantIndexParser(index, elements) =>
      (match Step(index, input)
       case ParseComplete(chosen, _) =>
         if chosen.n >= |elements| then Invalid
         else NeedMore(VariantElementParser(chosen.n, Next(elements, chosen.n)))
       case NeedMore(index') => NeedMore(VariantIndexParser(index', elements))
       case Invalid => Invalid)
    case VariantElementParser(chosen, current) =>
      (match Step(current, input)
       case ParseComplete(value, consumed) => ParseComplete(VariantValue(chosen, value), consumed)
       case NeedMore(current') => NeedMore(VariantElementParser(chosen, current'))
       case Invalid => Invalid)
  }

  // ----- running a machine over a string of bytes -----

  /** `late` says that the value completed on a byte it did not consume. */
  datatype Ran =
    | Done(value: Value, used: nat, late: bool)
    | Waiting(parser: Parser)
    | Failed
  {
    function After(skipped: nat): Ran {
      if Done? then Done(value, used + skipped, late) else this
    }
  }

  function Run(p: Parser, s: seq<byte>): (r: Ran)
    requires Feedable(p)
    ensures r.Done? ==> r.used <= |s| && (r.late ==> r.used < |s|)
    ensures r.Waiting? ==> Feedable(r.parser)
    decreases |s|
  {
    if s == [] then Waiting(p)
    else
      match Step(p, s[0])
      case ParseComplete(value, consumed) => Done(value, if consumed then 1 else 0, !consumed)
      case NeedMore(next) => Run(next, s[1..]).After(1)
      case Invalid => Failed
  }

  /** Feeding the bytes in two portions is feeding them in one. */
  lemma {:induction false} RunSplit(p: Parser, a: seq<byte>, b: seq<byte>)
    requires Feedable(p)
    ensures Run(p, a + b) == (match Run(p, a)
                              case Waiting(p') => Run(p', b).After(|a|)
                              case Done(_, _, _) => Run(p, a)
                              case Failed => Failed)
    decreases |a|
  {
    if a == [] {
      assert a + b == b;
    } else {
      assert (a + b)[1..] == a[1..] + b;
      var r := Step(p, a[0]);
      if r.NeedMore? {
        RunSplit(r.next, a[1..], b);
      }
    }
  }

  // ----- the recursive descent that the nested machines perform -----

  datatype Outcome<V> =
    | Found(value: V, used: nat, late: bool)
    | More
    | Bad

  function ReadInteger(width: nat, s: seq<byte>): (o: Outcome<nat>)
    requires width > 0
    ensures o.Found? ==> !o.late && o.used == width <= |s| && o.value == BigEndian.Decode(s[..width])
    ensures !o.Found? ==> o == More && |s| < width
  {
    if |s| < width then More else Found(BigEndian.Decode(s[..width]), width, false)
  }

  /** The value at the start of `s`, how many bytes it takes up and whether one
      more byte had to be seen. A member other than the last that needs to see
      one more byte swallows it. */
  function Read(t: Type, s: seq<byte>): (o: Outcome<Value>)
    ensures o.Found? ==> o.used <= |s| && (o.late ==> o.used < |s|)
    decreases Depth(t), 0
  {
    match t
    case Integer(range) =>
      (match ReadInteger(Width(range.maximum), s)
       case Found(n, used, late) => Found(IntegerValue(n), used, late)
       case More => More)
    case Utf8(codeUnits) =>
      (match ReadInteger(Width(codeUnits.maximum), s)
       case Found(n, used, _) =>
         if |s| < used + n then More
         else if Utf8.IsValid(s[used..used + n]) then Found(TextValue(s[used..used + n]), used + n, false)
         else Bad
       case More => More)
    case Variant(elements) =>
      if s == [] then More
      else if s[0] >= |elements| then Bad
      else
        MemberDepth(elements, s[0]);
        (match Read(elements[s[0]], s[1..])
         case Found(v, used, late) => Found(VariantValue(s[0], v), 1 + used, late)
         case More => More
         case Bad => Bad)
    case Tuple(_) => ReadTuple(Members(t), s)
    case Structure(_) => ReadTuple(Members(t), s)
    case Vector(length, element) =>
      (match ReadInteger(Width(length.maximum), s)
       case Found(n, used, _) =>
         if n == 0 then Found(VectorValue([]), used, false)
         else
           (match ReadAll(Copies(element, n), s[used..])
            case Found(vs, more, late) => Found(VectorValue(vs), used + more, late)
            case More => More
            case Bad => Bad)
       case More => More)
  }

  function ReadTuple(ts: seq<Type>, s: seq<byte>): (o: Outcome<Value>)
    ensures o.Found? ==> o.used <= |s| && (o.late ==> o.used < |s|)
    decreases MaxDepth(ts), 2 + |ts|
  {
    if ts == [] then
      if s == [] then More else Found(TupleValue([]), 0, true)
    else
      match ReadAll(ts, s)
      case Found(vs, used, late) => Found(TupleValue(vs), used, late)
      case More => More
      case Bad => Bad
  }

  function ReadAll(ts: seq<Type>, s: seq<byte>): (o: Outcome<seq<Value>>)
    requires ts != []
    ensures o.Found? ==> o.used <= |s| && (o.late ==> o.used < |s|) && |o.value| == |ts|
    decreases MaxDepth(ts), 1 + |ts|
  {
    match Read(ts[0], s)
    case Found(v, used, late) =>
      if |ts| == 1 then Found([v], used, late)
      else
        var start := if late then used + 1 else used;
        (match ReadAll(ts[1..], s[start..])
         case Found(vs, more, late') => Found([v] + vs, start + more, late')
         case More => More
         case Bad => Bad)
    case More => More
    case Bad => Bad
  }

  // ----- the machine computes the recursive descent -----

  predicate Agree(r: Ran, o: Outcome<Value>) {
    match o
    case Found(v, used, late) => r == Done(v, used, late)
    case More => r.Waiting?
    case Bad => r == Failed
  }

  lemma {:induction false} RunInteger(width: nat, before: seq<byte>, s: seq<byte>)
    requires |before| < width
    ensures Feedable(IntegerParser(width, BigEndian.Decode(before), |before|))
    ensures var r := Run(IntegerParser(width, BigEndian.Decode(before), |before|), s);
            if |before| + |s| < width
            then r == Waiting(IntegerParser(width, BigEndian.Decode(before + s), |before| + |s|))
            else r == Done(IntegerValue(BigEndian.Decode((before + s)[..width])), width - |before|, false)
    decreases |s|
  {
    DecodeBound(before);
    if s == [] {
      assert before + s == before;
    } else {
      var more := before + [s[0]];
      DecodeSnoc(before, s[0]);
      AccumulateFits(width, BigEndian.Decode(before), |before|, s[0]);
      assert before + s == more + s[1..];
      if |more| == width {
        assert (before + s)[..width] == more;
      } else {
        RunInteger(width, more, s[1..]);
      }
    }
  }

  lemma RunIntegerStart(range: IntegerRange, s: seq<byte>)
    ensures Agree(Run(IntegerStart(range), s), Read(Integer(range), s))
    ensures Run(IntegerStart(range), s).Done? ==>
              Run(IntegerStart(range), s)
              == Done(IntegerValue(BigEndian.Decode(s[..Width(range.maximum)])), Width(range.maximum), false)
    ensures Run(IntegerStart(range), s).Waiting? ==> Run(IntegerStart(range), s).parser.IntegerParser?
  {
    RunInteger(Width(range.maximum), [], s);
    assert [] + s == s;
  }

  lemma {:induction false} RunUtf8Length(length: Parser, s: seq<byte>)
    requires length.IntegerParser? && Feedable(length)
    ensures Run(Utf8LengthParser(length), s) == (match Run(length, s)
              case Waiting(length') => Waiting(Utf8LengthParser(length'))
              case Failed => Failed
              case Done(size, used, late) =>
                if size.IntegerValue? then
                  if size.n == 0 then Done(TextValue([]), used, late)
                  else Run(Utf8ContentParser(size.n, []), s[used..]).After(used)
                else Failed)
    ensures Run(length, s).Waiting? ==> Run(length, s).parser.IntegerParser?
    decreases |s|
  {
    if s != [] {
      var r := Step(length, s[0]);
      if r.NeedMore? {
        RunUtf8Length(r.next, s[1..]);
        var rest := Run(r.next, s[1..]);
        if rest.Done? {
          assert s[1..][rest.used..] == s[1 + rest.used..];
        }
      }
    }
  }

  lemma {:induction false} RunUtf8Content(size: nat, content: seq<byte>, s: seq<byte>)
    requires |content| < size
    ensures var r := Run(Utf8ContentParser(size, content), s);
            var all := content + s;
            if |all| < size then r == Waiting(Utf8ContentParser(size, all))
            else if Utf8.IsValid(all[..size]) then r == Done(TextValue(all[..size]), size - |content|, false)
            else r == Failed
    decreases |s|
  {
    if s == [] {
      assert content + s == content;
    } else {
      var content' := content + [s[0]];
      assert content + s == content' + s[1..];
      if |content'| < size {
        RunUtf8Content(size, content', s[1..]);
      } else {
        assert (content + s)[..size] == content';
      }
    }
  }

  lemma {:induction false} RunVectorLength(length: Parser, element: Type, s: seq<byte>)
    requires length.IntegerParser? && Feedable(length)
    ensures Run(VectorLengthParser(length, element), s) == (match Run(length, s)
              case Waiting(length') => Waiting(VectorLengthParser(length', element))
              case Failed => Failed
              case Done(size, used, late) =>
                if size.IntegerValue? then
                  if size.n == 0 then Done(VectorValue([]), used, late)
                  else Run(SequenceParser(true, Copies(element, size.n), [], Initial(element)), s[used..]).After(used)
                else Failed)
    ensures Run(length, s).Waiting? ==> Run(length, s).parser.IntegerParser?
    decreases |s|
  {
    if s != [] {
      var r := Step(length, s[0]);
      if r.NeedMore? {
        RunVectorLength(r.next, element, s[1..]);
        var rest := Run(r.next, s[1..]);
        if rest.Done? {
          assert s[1..][rest.used..] == s[1 + rest.used..];
        }
      }
    }
  }

  lemma {:induction false} RunVariantElement(chosen: nat, current: Parser, s: seq<byte>)
    requires Feedable(current)
    ensures Run(VariantElementParser(chosen, current), s) == (match Run(current, s)
              case Waiting(current') => Waiting(VariantElementParser(chosen, current'))
              case Failed => Failed
              case Done(value, used, late) => Done(VariantValue(chosen, value), used, late))
    decreases |s|
  {
    if s != [] {
      var r := Step(current, s[0]);
      if r.NeedMore? {
        RunVariantElement(chosen, r.next, s[1..]);
      }
    }
  }

  /** What follows once the current member's parser has run over `s`: the next
      member starts after it, or one byte later if it completed late. */
  function AfterMember(vector: bool, types: seq<Type>, values: seq<Value>, first: Ran, s: seq<byte>): Ran
    requires |values| < |types|
    requires first.Done? ==> first.used <= |s| && (first.late ==> first.used < |s|)
  {
    match first
    case Waiting(current) =>
      if Feedable(current) then Waiting(SequenceParser(vector, types, values, current)) else Failed
    case Failed => Failed
    case Done(value, used, late) =>
      if |values| + 1 == |types| then Done(Collected(vector, values + [value]), used, late)
      else
        var start := if late then used + 1 else used;
        Run(SequenceParser(vector, types, values + [value], Next(types, |values| + 1)), s[start..]).After(start)
  }

  lemma AfterMemberShift(vector: bool, types: seq<Type>, values: seq<Value>, first: Ran, s: seq<byte>)
    requires |values| < |types| && s != []
    requires first.Done? ==> first.used <= |s| - 1 && (first.late ==> first.used < |s| - 1)
    ensures AfterMember(vector, types, values, first, s[1..]).After(1)
         == AfterMember(vector, types, values, first.After(1), s)
  {
    if first.Done? && |values| + 1 < |types| {
      var start := if first.late then first.used + 1 else first.used;
      Seqs.DropDrop(s, 1, start);
    }
  }

  lemma {:induction false} RunSequence(vector: bool, types: seq<Type>, values: seq<Value>, current: Parser,
          s: seq<byte>)
    requires |values| < |types| && Feedable(current)
    ensures Run(SequenceParser(vector, types, values, current), s)
         == AfterMember(vector, types, values, Run(current, s), s)
    decreases |s|
  {
    if s != [] {
      var r := Step(current, s[0]);
      if r.NeedMore? {
        RunSequence(vector, types, values, r.next, s[1..]);
        AfterMemberShift(vector, types, values, Run(r.next, s[1..]), s);
      } else if r.ParseComplete? {
        RunCompletedMember(vector, types, values, current, s);
      }
    }
  }

  lemma RunCompletedMember(vector: bool, types: seq<Type>, values: seq<Value>, current: Parser, s: seq<byte>)
    requires |values| < |types| && Feedable(current) && s != []
    requires Step(current, s[0]).ParseComplete?
    ensures Run(SequenceParser(vector, types, values, current), s)
         == AfterMember(vector, types, values, Run(current, s), s)
  {
    var ParseComplete(value, consumed) := Step(current, s[0]);
    var p := SequenceParser(vector, types, values, current);
    if |values| + 1 < |types| {
      assert Step(p, s[0]) == NeedMore(SequenceParser(vector, types, values + [value], Next(types, |values| + 1)));
    }
  }

  lemma RunUtf8IsRead(codeUnits: IntegerRange, s: seq<byte>)
    ensures Agree(Run(Initial(Utf8(codeUnits)), s), Read(Utf8(codeUnits), s))
  {
    hide Step, Run;
    RunIntegerStart(codeUnits, s);
    RunUtf8Length(IntegerStart(codeUnits), s);
    var w := Width(codeUnits.maximum);
    if |s| >= w {
      var n := BigEndian.Decode(s[..w]);
      if n == 0 {
        assert s[w..w + n] == [];
      } else {
        RunUtf8Content(n, [], s[w..]);
        assert [] + s[w..] == s[w..];
        if |s| >= w + n {
          Seqs.TakeDrop(s, w, n);
        }
      }
    }
  }

  lemma VariantIndexStep(elements: seq<Type>, input: byte)
    ensures Step(VariantIndexParser(IntegerParser(1, 0, 0), elements), input)
         == if input >= |elements| then Invalid else NeedMore(VariantElementParser(input, Next(elements, input)))
  {
    assert Pow256(1) == 256 && Accumulate(1, 0, input) == input;
  }

  lemma RunVariantStart(elements: seq<Type>, s: seq<byte>)
    requires s != [] && s[0] < |elements|
    ensures Run(Initial(Variant(elements)), s)
         == Run(VariantElementParser(s[0], Initial(elements[s[0]])), s[1..]).After(1)
  {
    VariantIndexStep(elements, s[0]);
  }

  lemma RunVariantIsRead(elements: seq<Type>, s: seq<byte>)
    requires s != [] && s[0] < |elements| ==> Agree(Run(Initial(elements[s[0]]), s[1..]), Read(elements[s[0]], s[1..]))
    ensures Agree(Run(Initial(Variant(elements)), s), Read(Variant(elements), s))
  {
    if s != [] {
      if s[0] < |elements| {
        RunVariantStart(elements, s);
        hide Step, Run;
        RunVariantElement(s[0], Initial(elements[s[0]]), s[1..]);
      } else {
        VariantIndexStep(elements, s[0]);
      }
    }
  }

  lemma RunVectorIsRead(length: IntegerRange, element: Type, s: seq<byte>)
    requires var w := Width(length.maximum);
             |s| >= w && BigEndian.Decode(s[..w]) > 0 ==>
               var ts := Copies(element, BigEndian.Decode(s[..w]));
               AgreeAll(true, [], Run(SequenceParser(true, ts, [], Initial(element)), s[w..]), ReadAll(ts, s[w..]))
    ensures Agree(Run(Initial(Vector(length, element)), s), Read(Vector(length, element), s))
  {
    hide Step, Run, ReadAll, Copies;
    RunIntegerStart(length, s);
    RunVectorLength(IntegerStart(length), element, s);
    var w := Width(length.maximum);
    if |s| >= w && BigEndian.Decode(s[..w]) > 0 {
      var o := ReadAll(Copies(element, BigEndian.Decode(s[..w])), s[w..]);
      if o.Found? {
        assert [] + o.value == o.value;
      }
    }
  }

  predicate AgreeAll(vector: bool, values: seq<Value>, r: Ran, o: Outcome<seq<Value>>) {
    match o
    case Found(vs, used, late) => r == Done(Collected(vector, values + vs), used, late)
    case More => r.Waiting?
    case Bad => r == Failed
  }

  /** For every type and every string of bytes, valid or not, the machine gives
      the verdict, value and consumption of the recursive descent. */
  lemma {:induction false} RunIsRead(t: Type, s: seq<byte>)
    ensures Agree(Run(Initial(t), s), Read(t, s))
    decreases Depth(t), 0
  {
    match t
    case Integer(range) =>
      RunIntegerStart(range, s);
    case Utf8(codeUnits) =>
      RunUtf8IsRead(codeUnits, s);
    case Variant(elements) =>
      if s != [] && s[0] < |elements| {
        MemberDepth(elements, s[0]);
        RunIsRead(elements[s[0]], s[1..]);
      }
      RunVariantIsRead(elements, s);
    case Tuple(_) =>
      RunTupleIsRead(Members(t), s);
    case Structure(_) =>
      RunTupleIsRead(Members(t), s);
    case Vector(length, element) =>
      var w := Width(length.maximum);
      if |s| >= w && BigEndian.Decode(s[..w]) > 0 {
        var ts := Copies(element, BigEndian.Decode(s[..w]));
        RunAllIsRead(true, ts, [], ts, s[w..]);
      }
      RunVectorIsRead(length, element, s);
  }

  lemma {:induction false} RunTupleIsRead(ts: seq<Type>, s: seq<byte>)
    ensures Agree(Run(InitialTuple(ts), s), ReadTuple(ts, s))
    decreases MaxDepth(ts), 2 + |ts|
  {
    if ts != [] {
      RunAllIsRead(false, ts, [], ts, s);
      var o := ReadAll(ts, s);
      if o.Found? {
        assert [] + o.value == o.value;
      }
    }
  }

  /** The first member was found and the rest agrees: so does the whole. */
  lemma MembersAgree(vector: bool, all: seq<Type>, values: seq<Value>, ts: seq<Type>, first: Ran, s: seq<byte>)
    requires |values| + 1 < |all| && ts == all[|values|..] && Agree(first, Read(ts[0], s)) && first.Done?
    requires var start := if first.late then first.used + 1 else first.used;
             start <= |s|
             && AgreeAll(vector, values + [first.value],
                         Run(SequenceParser(vector, all, values + [first.value], Next(all, |values| + 1)), s[start..]),
                         ReadAll(ts[1..], s[start..]))
    ensures first.used <= |s| && (first.late ==> first.used < |s|)
    ensures AgreeAll(vector, values, AfterMember(vector, all, values, first, s), ReadAll(ts, s))
  {
    hide Run, Initial, Next, Read;
    var start := if first.late then first.used + 1 else first.used;
    var rest := ReadAll(ts[1..], s[start..]);
    if rest.Found? {
      Seqs.Assoc(values, [first.value], rest.value);
    }
  }

  /** It was the only one, or was not found. */
  lemma FirstDecides(vector: bool, all: seq<Type>, values: seq<Value>, ts: seq<Type>, first: Ran, s: seq<byte>)
    requires |values| < |all| && ts == all[|values|..] && Agree(first, Read(ts[0], s))
    requires first.Done? ==> |ts| == 1
    requires first.Waiting? ==> Feedable(first.parser)
    ensures first.Done? ==> first.used <= |s| && (first.late ==> first.used < |s|)
    ensures AgreeAll(vector, values, AfterMember(vector, all, values, first, s), ReadAll(ts, s))
  {
    hide Run, Initial, Next, Read;
  }

  lemma {:induction false} RunAllIsRead(vector: bool, all: seq<Type>, values: seq<Value>, ts: seq<Type>, s: seq<byte>)
    requires |values| < |all| && ts == all[|values|..]
    ensures AgreeAll(vector, values, Run(SequenceParser(vector, all, values, Initial(ts[0])), s), ReadAll(ts, s))
    decreases MaxDepth(ts), 1 + |ts|
  {
    hide Step, Run, Initial, Read;
    RunIsRead(ts[0], s);
    RunSequence(vector, all, values, Initial(ts[0]), s);
    var o := Read(ts[0], s);
    if o.Found? && |ts| > 1 {
      var values' := values + [o.value];
      var start := if o.late then o.used + 1 else o.used;
      assert ts[1..] == all[|values'|..];
      RunAllIsRead(vector, all, values', ts[1..], s[start..]);
      MembersAgree(vector, all, values, ts, Run(Initial(ts[0]), s), s);
    } else {
      FirstDecides(vector, all, values, ts, Run(Initial(ts[0]), s), s);
    }
  }

  // ----- immediate completion -----

  /** Types whose parser completes before any byte is looked at. */
  predicate Immediate(t: Type)
    decreases Depth(t)
  {
    if t.Tuple? || t.Structure? then
      var ts := Members(t);
      ts == [] || (|ts| == 1 && (MemberDepth(ts, 0); Immediate(ts[0])))
    else false
  }

  /** The value such a parser completes with: its result as it was constructed. */
  function ImmediateValue(t: Type): Value
    requires Immediate(t)
    decreases Depth(t)
  {
    var ts := Members(t);
    if ts == [] then TupleValue([]) else (MemberDepth(ts, 0); TupleValue([ImmediateValue(ts[0])]))
  }

  /** `check_for_immediate_completion` of a parser in any state. */
  predicate ChecksImmediate(p: Parser) {
    match p
    case EmptyTupleParser => true
    case SequenceParser(vector, types, _, current) => !vector && |types| == 1 && ChecksImmediate(current)
    case _ => false
  }

  /** `p` is a state a parser for `t` can be in. */
  predicate StateOf(t: Type, p: Parser)
    decreases Depth(t), 0
  {
    match t
    case Integer(_) => p.IntegerParser?
    case Utf8(_) => p.Utf8LengthParser? || p.Utf8ContentParser?
    case Variant(elements) =>
      || (p.VariantIndexParser? && p.elements == elements)
      || (p.VariantElementParser? && p.chosen < |elements|
            && (MemberDepth(elements, p.chosen); StateOf(elements[p.chosen], p.current)))
    case Vector(_, element) =>
      || (p.VectorLengthParser? && p.element == element)
      || (p.SequenceParser? && p.vector && p.types == Copies(element, |p.types|) && |p.values| < |p.types|
            && StateOf(element, p.current))
    case Tuple(_) => TupleStateOf(Members(t), p)
    case Structure(_) => TupleStateOf(Members(t), p)
  }

  predicate TupleStateOf(ts: seq<Type>, p: Parser)
    decreases MaxDepth(ts), 1
  {
    if ts == [] then p.EmptyTupleParser?
    else
      && p.SequenceParser? && !p.vector && p.types == ts && |p.values| < |ts|
      && (MemberDepth(ts, |p.values|); StateOf(ts[|p.values|], p.current))
  }

  lemma {:induction false} InitialState(t: Type)
    ensures StateOf(t, Initial(t))
    decreases Depth(t), 0
  {
    if t.Tuple? || t.Structure? {
      var ts := Members(t);
      if ts != [] {
        MemberDepth(ts, 0);
        InitialState(ts[0]);
      }
    }
  }

  lemma {:induction false} StepState(t: Type, p: Parser, input: byte)
    requires StateOf(t, p) && Feedable(p) && Step(p, input).NeedMore?
    ensures StateOf(t, Step(p, input).next)
    decreases Depth(t), 0
  {
    match t
    case Integer(_) =>
    case Utf8(_) =>
    case Variant(elements) =>
      if p.VariantElementParser? {
        MemberDepth(elements, p.chosen);
        StepState(elements[p.chosen], p.current, input);
      } else {
        var chosen := Step(p.index, input);
        if chosen.ParseComplete? {
          InitialState(elements[chosen.value.n]);
        }
      }
    case Vector(_, element) =>
      InitialState(element);
      if p.SequenceParser? && Step(p.current, input).NeedMore? {
        StepState(element, p.current, input);
      }
    case Tuple(_) => StepTupleState(Members(t), p, input);
    case Structure(_) => StepTupleState(Members(t), p, input);
  }

  lemma {:induction false} StepTupleState(ts: seq<Type>, p: Parser, input: byte)
    requires TupleStateOf(ts, p) && Feedable(p) && Step(p, input).NeedMore?
    ensures TupleStateOf(ts, Step(p, input).next)
    decreases MaxDepth(ts), 1
  {
    if Step(p.current, input).NeedMore? {
      MemberDepth(ts, |p.values|);
      StepState(ts[|p.values|], p.current, input);
    } else {
      InitialState(ts[|p.values| + 1]);
    }
  }

  lemma {:induction false} RunState(t: Type, p: Parser, s: seq<byte>)
    requires StateOf(t, p) && Feedable(p) && Run(p, s).Waiting?
    ensures StateOf(t, Run(p, s).parser)
    decreases |s|
  {
    if s != [] {
      StepState(t, p, s[0]);
      RunState(t, Step(p, s[0]).next, s[1..]);
    }
  }

  /** The question is asked again after every read, but in every reachable state
      its answer is decided by the type alone. */
  lemma {:induction false} ImmediateIsStable(t: Type, p: Parser)
    requires StateOf(t, p)
    ensures ChecksImmediate(p) <==> Immediate(t)
    decreases Depth(t)
  {
    if t.Tuple? || t.Structure? {
      var ts := Members(t);
      if |ts| == 1 {
        MemberDepth(ts, 0);
        ImmediateIsStable(ts[0], p.current);
      }
    }
  }
}
