/** Which parsers can reject input at all. */
module Rejection {
  import opened WireTypes
  import opened BigEndian
  import opened WireFormat
  import opened ParserMachine
  import Utf8

  /** A text that is not valid and an index without an alternative are the only
      reasons, wherever in the type they may occur. */
  predicate CanReject(t: Type)
    decreases Depth(t), 0
  {
    match t
    case Integer(_) => false
    case Utf8(_) => true
    case Variant(elements) =>
      || |elements| < 256
      || exists i :: 0 <= i < 256 && (MemberDepth(elements, i); CanReject(elements[i]))
    case Tuple(_) => SomeCanReject(Members(t))
    case Structure(_) => SomeCanReject(Members(t))
    case Vector(_, element) => CanReject(element)
  }

  predicate SomeCanReject(ts: seq<Type>)
    decreases MaxDepth(ts), 1 + |ts|
  {
    ts != [] && (CanReject(ts[0]) || SomeCanReject(ts[1..]))
  }

  lemma {:induction false} CopiesReject(t: Type, count: nat)
    ensures SomeCanReject(Copies(t, count)) <==> count > 0 && CanReject(t)
    decreases count
  {
    if count > 0 {
      CopiesReject(t, count - 1);
      assert Copies(t, count)[1..] == Copies(t, count - 1);
    }
  }

  // ----- the others reject nothing -----

  lemma {:induction false} NeverRejects(t: Type, s: seq<byte>)
    requires !CanReject(t)
    ensures Read(t, s) != Bad
    decreases Depth(t), 0
  {
    match t
    case Integer(_) =>
    case Variant(elements) =>
      if s != [] {
        MemberDepth(elements, s[0]);
        assert !CanReject(elements[s[0]]);
        NeverRejects(elements[s[0]], s[1..]);
      }
    case Tuple(_) => NoneRejects(Members(t), s);
    case Structure(_) => NoneRejects(Members(t), s);
    case Vector(length, element) =>
      var w := Width(length.maximum);
      if |s| >= w {
        var n := BigEndian.Decode(s[..w]);
        CopiesReject(element, n);
        NoneRejects(Copies(element, n), s[w..]);
      }
  }

  lemma {:induction false} NoneRejects(ts: seq<Type>, s: seq<byte>)
    requires !SomeCanReject(ts)
    ensures ts != [] ==> ReadAll(ts, s) != Bad
    decreases MaxDepth(ts), 1 + |ts|
  {
    if ts != [] {
      NeverRejects(ts[0], s);
      if |ts| > 1 && Read(ts[0], s).Found? {
        var Found(_, used, late) := Read(ts[0], s);
        NoneRejects(ts[1..], s[if late then used + 1 else used..]);
      }
    }
  }

  // ----- and complete on some input, after which a later member can reject -----

  /** The value has been found with the last byte of `s`. */
  predicate FoundAtEnd<V>(o: Outcome<V>, s: seq<byte>) {
    o.Found? && |s| == if o.late then o.used + 1 else o.used
  }

  function Zeros(n: nat): (s: seq<byte>)
    ensures |s| == n
  {
    seq(n, _ => 0)
  }

  lemma {:induction false} DecodeZeros(n: nat)
    ensures BigEndian.Decode(Zeros(n)) == 0
  {
    if n > 0 {
      DecodeZeros(n - 1);
      assert Zeros(n) == Zeros(n - 1) + [0];
      DecodeSnoc(Zeros(n - 1), 0);
    }
  }

  lemma {:induction false} SomeFound(t: Type) returns (s: seq<byte>)
    requires !CanReject(t)
    ensures FoundAtEnd(Read(t, s), s)
    decreases Depth(t), 0
  {
    match t
    case Integer(range) =>
      s := Zeros(Width(range.maximum));
    case Variant(elements) =>
      MemberDepth(elements, 0);
      var x := SomeFound(elements[0]);
      s := [0] + x;
      assert s[1..] == x;
    case Tuple(_) => s := SomeTupleFound(t);
    case Structure(_) => s := SomeTupleFound(t);
    case Vector(length, _) =>
      s := Zeros(Width(length.maximum));
      DecodeZeros(|s|);
      assert s[..|s|] == s;
  }

  lemma {:induction false} SomeTupleFound(t: Type) returns (s: seq<byte>)
    requires (t.Tuple? || t.Structure?) && !SomeCanReject(Members(t))
    ensures FoundAtEnd(Read(t, s), s)
    decreases MaxDepth(Members(t)), 2 + |Members(t)|
  {
    if Members(t) == [] {
      s := [0];
    } else {
      s := AllFound(Members(t));
    }
  }

  lemma {:induction false} AllFound(ts: seq<Type>) returns (s: seq<byte>)
    requires ts != [] && !SomeCanReject(ts)
    ensures FoundAtEnd(ReadAll(ts, s), s)
    decreases MaxDepth(ts), 1 + |ts|
  {
    var x := SomeFound(ts[0]);
    if |ts| == 1 {
      s := x;
    } else {
      var more := AllFound(ts[1..]);
      s := x + more;
      FoundStays(ts[0], x, more);
      assert s[|x|..] == more;
    }
  }

  lemma FoundStays(t: Type, x: seq<byte>, more: seq<byte>)
    requires Read(t, x).Found?
    ensures Read(t, x + more) == Read(t, x)
  {
    RunIsRead(t, x);
    RunIsRead(t, x + more);
    RunSplit(Initial(t), x, more);
  }

  lemma {:induction false} SomeRejected(t: Type) returns (s: seq<byte>)
    requires CanReject(t)
    ensures Read(t, s) == Bad
    decreases Depth(t), 0
  {
    match t
    case Utf8(codeUnits) =>
      s := BadText(codeUnits);
    case Variant(elements) =>
      if |elements| < 256 {
        s := [255];
      } else {
        var i :| 0 <= i < 256 && CanReject(elements[i]);
        MemberDepth(elements, i);
        var x := SomeRejected(elements[i]);
        s := [i] + x;
        assert s[1..] == x;
      }
    case Tuple(_) => s := AllRejected(Members(t));
    case Structure(_) => s := AllRejected(Members(t));
    case Vector(length, element) =>
      CopiesReject(element, 1);
      var x := AllRejected(Copies(element, 1));
      s := OneEncoded(Width(length.maximum)) + x;
      OneDecoded(Width(length.maximum));
      assert s[..Width(length.maximum)] == OneEncoded(Width(length.maximum));
      assert s[Width(length.maximum)..] == x;
  }

  lemma {:induction false} AllRejected(ts: seq<Type>) returns (s: seq<byte>)
    requires SomeCanReject(ts)
    ensures ReadAll(ts, s) == Bad
    decreases MaxDepth(ts), 1 + |ts|
  {
    if CanReject(ts[0]) {
      s := SomeRejected(ts[0]);
    } else {
      var x := SomeFound(ts[0]);
      var more := AllRejected(ts[1..]);
      s := x + more;
      FoundStays(ts[0], x, more);
      assert s[|x|..] == more;
    }
  }

  function OneEncoded(width: nat): (s: seq<byte>)
    requires width > 0
    ensures |s| == width
  {
    Zeros(width - 1) + [1]
  }

  lemma OneDecoded(width: nat)
    requires width > 0
    ensures BigEndian.Decode(OneEncoded(width)) == 1
  {
    DecodeZeros(width - 1);
    DecodeSnoc(Zeros(width - 1), 1);
  }

  /** A text of one byte that no character starts with. */
  lemma BadText(codeUnits: IntegerRange) returns (s: seq<byte>)
    ensures Read(Type.Utf8(codeUnits), s) == Bad
  {
    var w := Width(codeUnits.maximum);
    s := OneEncoded(w) + [255];
    OneDecoded(w);
    assert s[..w] == OneEncoded(w);
    assert s[w..w + 1] == [255];
    assert !Utf8.IsValid([255]);
  }

  predicate Rejects(t: Type, s: seq<byte>) {
    Run(Initial(t), s) == Failed
  }

  /** A parser rejects some input if and only if its type has a text, or a variant
      of fewer than 256 alternatives, that it can get to. */
  lemma RejectsExactly(t: Type)
    ensures CanReject(t) <==> exists s :: Rejects(t, s)
  {
    if CanReject(t) {
      var s := SomeRejected(t);
      RunIsRead(t, s);
      assert Rejects(t, s);
    } else {
      forall s
        ensures !Rejects(t, s)
      {
        NeverRejects(t, s);
        RunIsRead(t, s);
      }
    }
  }
}
