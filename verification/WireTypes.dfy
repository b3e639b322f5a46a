/** The type language of the wire format and the order in which generated
    structures are kept. */
module WireTypes {

  type Uint64 = x: int | 0 <= x <= 0xffff_ffff_ffff_ffff

  datatype IntegerRange = IntegerRange(minimum: Uint64, maximum: Uint64)

  datatype Field = Field(what: Type, name: string)

  datatype Type =
    | Integer(range: IntegerRange)
    | Variant(elements: seq<Type>)
    | Tuple(elements: seq<Type>)
    | Vector(length: IntegerRange, element: Type)
    | Utf8(codeUnits: IntegerRange)
    | Structure(fields: seq<Field>)
  {
    /** The position of the alternative inside the C++ variant. */
    function Index(): nat {
      match this
      case Integer(_) => 0
      case Variant(_) => 1
      case Tuple(_) => 2
      case Vector(_, _) => 3
      case Utf8(_) => 4
      case Structure(_) => 5
    }
  }

  // ----- nesting depth, the measure of every recursion over types -----

  function Max(a: nat, b: nat): nat {
    if a < b then b else a
  }

  function Depth(t: Type): nat
    decreases t, 0
  {
    match t
    case Integer(_) => 1
    case Utf8(_) => 1
    case Vector(_, element) => 1 + Depth(element)
    case Variant(elements) => 1 + MaxDepth(elements)
    case Tuple(elements) => 1 + MaxDepth(elements)
    case Structure(fields) => 1 + FieldsDepth(fields)
  }

  function MaxDepth(ts: seq<Type>): nat
    decreases ts, 1
  {
    if ts == [] then 0 else Max(Depth(ts[0]), MaxDepth(ts[1..]))
  }

  function FieldsDepth(fs: seq<Field>): nat
    decreases fs, 1
  {
    if fs == [] then 0 else Max(Depth(fs[0].what), FieldsDepth(fs[1..]))
  }

  function Whats(fs: seq<Field>): (ts: seq<Type>)
    ensures |ts| == |fs|
    ensures forall i :: 0 <= i < |fs| ==> ts[i] == fs[i].what
    ensures MaxDepth(ts) == FieldsDepth(fs)
  {
    if fs == [] then [] else [fs[0].what] + Whats(fs[1..])
  }

  lemma MemberDepth(ts: seq<Type>, i: nat)
    requires i < |ts|
    ensures Depth(ts[i]) <= MaxDepth(ts)
  {
    if i > 0 {
      MemberDepth(ts[1..], i - 1);
    }
  }

  // ----- the strict order on types -----

  /** `std::tie(minimum, maximum)` compared lexicographically. */
  predicate LessRange(left: IntegerRange, right: IntegerRange) {
    left.minimum < right.minimum || (left.minimum == right.minimum && left.maximum < right.maximum)
  }

  /** `operator<` of `std::string`. */
  predicate LessName(left: string, right: string) {
    if right == [] then false
    else if left == [] then true
    else if left[0] != right[0] then left[0] < right[0]
    else LessName(left[1..], right[1..])
  }

  predicate Less(left: Type, right: Type)
    decreases Depth(left) + Depth(right), 0
  {
    if left.Index() != right.Index() then left.Index() < right.Index()
    else
      match left
      case Integer(range) => LessRange(range, right.range)
      case Variant(elements) => LessTypes(elements, right.elements)
      case Tuple(elements) => LessTypes(elements, right.elements)
      case Vector(length, element) =>
        if LessRange(length, right.length) then true
        else if LessRange(right.length, length) then false
        else Less(element, right.element)
      case Utf8(codeUnits) => LessRange(codeUnits, right.codeUnits)
      case Structure(fields) => LessFields(fields, right.fields)
  }

  /** `std::lexicographical_compare` with the order on types. */
  predicate LessTypes(left: seq<Type>, right: seq<Type>)
    decreases MaxDepth(left) + MaxDepth(right), 2 + |left|
  {
    if right == [] then false
    else if left == [] then true
    else if Less(left[0], right[0]) then true
    else if Less(right[0], left[0]) then false
    else LessTypes(left[1..], right[1..])
  }

  predicate LessField(left: Field, right: Field)
    decreases Depth(left.what) + Depth(right.what), 1
  {
    if Less(left.what, right.what) then true
    else if Less(right.what, left.what) then false
    else LessName(left.name, right.name)
  }

  predicate LessFields(left: seq<Field>, right: seq<Field>)
    decreases FieldsDepth(left) + FieldsDepth(right), 2 + |left|
  {
    if right == [] then false
    else if left == [] then true
    else if LessField(left[0], right[0]) then true
    else if LessField(right[0], left[0]) then false
    else LessFields(left[1..], right[1..])
  }

  // ----- at most one direction, and unrelated means equal -----

  lemma {:induction false} NameTrichotomy(a: string, b: string)
    ensures LessName(a, b) ==> !LessName(b, a)
    ensures (!LessName(a, b) && !LessName(b, a)) <==> a == b
  {
    if a != [] && b != [] {
      NameTrichotomy(a[1..], b[1..]);
      assert a == [a[0]] + a[1..] && b == [b[0]] + b[1..];
    }
  }

  lemma {:induction false} Trichotomy(a: Type, b: Type)
    ensures Less(a, b) ==> !Less(b, a)
    ensures (!Less(a, b) && !Less(b, a)) <==> a == b
    decreases Depth(a) + Depth(b), 0
  {
    if a.Index() == b.Index() {
      match a
      case Integer(_) =>
      case Utf8(_) =>
      case Variant(elements) => TypesTrichotomy(elements, b.elements);
      case Tuple(elements) => TypesTrichotomy(elements, b.elements);
      case Vector(_, element) => Trichotomy(element, b.element);
      case Structure(fields) => FieldsTrichotomy(fields, b.fields);
    }
  }

  lemma {:induction false} TypesTrichotomy(a: seq<Type>, b: seq<Type>)
    ensures LessTypes(a, b) ==> !LessTypes(b, a)
    ensures (!LessTypes(a, b) && !LessTypes(b, a)) <==> a == b
    decreases MaxDepth(a) + MaxDepth(b), 2 + |a|
  {
    if a != [] && b != [] {
      Trichotomy(a[0], b[0]);
      TypesTrichotomy(a[1..], b[1..]);
      assert a == [a[0]] + a[1..] && b == [b[0]] + b[1..];
    }
  }

  lemma {:induction false} FieldTrichotomy(a: Field, b: Field)
    ensures LessField(a, b) ==> !LessField(b, a)
    ensures (!LessField(a, b) && !LessField(b, a)) <==> a == b
    decreases Depth(a.what) + Depth(b.what), 1
  {
    Trichotomy(a.what, b.what);
    NameTrichotomy(a.name, b.name);
  }

  lemma {:induction false} FieldsTrichotomy(a: seq<Field>, b: seq<Field>)
    ensures LessFields(a, b) ==> !LessFields(b, a)
    ensures (!LessFields(a, b) && !LessFields(b, a)) <==> a == b
    decreases FieldsDepth(a) + FieldsDepth(b), 2 + |a|
  {
    if a != [] && b != [] {
      FieldTrichotomy(a[0], b[0]);
      FieldsTrichotomy(a[1..], b[1..]);
      assert a == [a[0]] + a[1..] && b == [b[0]] + b[1..];
    }
  }

  // ----- transitivity -----

  lemma {:induction false} NameTransitive(a: string, b: string, c: string)
    requires LessName(a, b) && LessName(b, c)
    ensures LessName(a, c)
  {
    if a != [] && a[0] == b[0] == c[0] {
      NameTransitive(a[1..], b[1..], c[1..]);
    }
  }

  lemma {:induction false} Transitive(a: Type, b: Type, c: Type)
    requires Less(a, b) && Less(b, c)
    ensures Less(a, c)
    decreases Depth(a) + Depth(b) + Depth(c), 0
  {
    if a.Index() == b.Index() == c.Index() {
      match a
      case Integer(_) =>
      case Utf8(_) =>
      case Variant(elements) => TypesTransitive(elements, b.elements, c.elements);
      case Tuple(elements) => TypesTransitive(elements, b.elements, c.elements);
      case Vector(_, element) =>
        if Less(element, b.element) && Less(b.element, c.element) {
          Transitive(element, b.element, c.element);
        }
      case Structure(fields) => FieldsTransitive(fields, b.fields, c.fields);
    }
  }

  lemma {:induction false} TypesTransitive(a: seq<Type>, b: seq<Type>, c: seq<Type>)
    requires LessTypes(a, b) && LessTypes(b, c)
    ensures LessTypes(a, c)
    decreases MaxDepth(a) + MaxDepth(b) + MaxDepth(c), 2 + |a|
  {
    if a != [] {
      Trichotomy(a[0], b[0]);
      Trichotomy(b[0], c[0]);
      Trichotomy(a[0], c[0]);
      if Less(a[0], b[0]) && Less(b[0], c[0]) {
        Transitive(a[0], b[0], c[0]);
      } else if a[0] == b[0] == c[0] {
        TypesTransitive(a[1..], b[1..], c[1..]);
      }
    }
  }

  lemma {:induction false} FieldTransitive(a: Field, b: Field, c: Field)
    requires LessField(a, b) && LessField(b, c)
    ensures LessField(a, c)
    decreases Depth(a.what) + Depth(b.what) + Depth(c.what), 1
  {
    Trichotomy(a.what, b.what);
    Trichotomy(b.what, c.what);
    Trichotomy(a.what, c.what);
    if Less(a.what, b.what) && Less(b.what, c.what) {
      Transitive(a.what, b.what, c.what);
    } else if a.what == b.what == c.what {
      NameTransitive(a.name, b.name, c.name);
    }
  }

  lemma {:induction false} FieldsTransitive(a: seq<Field>, b: seq<Field>, c: seq<Field>)
    requires LessFields(a, b) && LessFields(b, c)
    ensures LessFields(a, c)
    decreases FieldsDepth(a) + FieldsDepth(b) + FieldsDepth(c), 2 + |a|
  {
    if a != [] {
      FieldTrichotomy(a[0], b[0]);
      FieldTrichotomy(b[0], c[0]);
      FieldTrichotomy(a[0], c[0]);
      if LessField(a[0], b[0]) && LessField(b[0], c[0]) {
        FieldTransitive(a[0], b[0], c[0]);
      } else if a[0] == b[0] == c[0] {
        FieldsTransitive(a[1..], b[1..], c[1..]);
      }
    }
  }

  // ----- which order it is -----

  /** The first difference decides; what ends first comes first. */
  ghost predicate Lexicographic<T(!new)>(less: (T, T) -> bool, a: seq<T>, b: seq<T>) {
    exists k: nat :: k <= |a| && k <= |b| && a[..k] == b[..k] && DecidesAt(less, a, b, k)
  }

  predicate DecidesAt<T>(less: (T, T) -> bool, a: seq<T>, b: seq<T>, k: nat)
    requires k <= |a| && k <= |b|
  {
    if k == |a| || k == |b| then k == |a| < |b| else less(a[k], b[k])
  }

  lemma LexicographicTail<T(!new)>(less: (T, T) -> bool, a: seq<T>, b: seq<T>)
    requires a != [] && b != [] && a[0] == b[0] && !less(a[0], b[0])
    ensures Lexicographic(less, a, b) <==> Lexicographic(less, a[1..], b[1..])
  {
    if Lexicographic(less, a, b) {
      var k: nat :| k <= |a| && k <= |b| && a[..k] == b[..k] && DecidesAt(less, a, b, k);
      assert k > 0;
      assert a[1..][..k - 1] == a[..k][1..] && b[1..][..k - 1] == b[..k][1..];
      assert DecidesAt(less, a[1..], b[1..], k - 1);
    }
    if Lexicographic(less, a[1..], b[1..]) {
      var k: nat :| k <= |a[1..]| && k <= |b[1..]| && a[1..][..k] == b[1..][..k] && DecidesAt(less, a[1..], b[1..], k);
      assert a[..k + 1] == [a[0]] + a[1..][..k] && b[..k + 1] == [b[0]] + b[1..][..k];
      assert DecidesAt(less, a, b, k + 1);
    }
  }

  lemma LexicographicHead<T(!new)>(less: (T, T) -> bool, a: seq<T>, b: seq<T>)
    requires a == [] || b == [] || a[0] != b[0]
    ensures Lexicographic(less, a, b) <==> b != [] && (a == [] || less(a[0], b[0]))
  {
    if b != [] && (a == [] || less(a[0], b[0])) {
      assert a[..0] == b[..0] && DecidesAt(less, a, b, 0);
    }
    if Lexicographic(less, a, b) {
      var k: nat :| k <= |a| && k <= |b| && a[..k] == b[..k] && DecidesAt(less, a, b, k);
      SameHead(a, b, k);
    }
  }

  lemma SameHead<T>(a: seq<T>, b: seq<T>, k: nat)
    requires k <= |a| && k <= |b| && a[..k] == b[..k]
    ensures k == 0 || (a != [] && b != [] && a[0] == b[0])
  {
    if k > 0 {
      assert a[..k][0] == b[..k][0];
    }
  }

  lemma {:induction false} NamesInOrder(a: string, b: string)
    ensures LessName(a, b) <==> Lexicographic((x: char, y: char) => x < y, a, b)
  {
    var less := (x: char, y: char) => x < y;
    if a != [] && b != [] && a[0] == b[0] {
      NamesInOrder(a[1..], b[1..]);
      LexicographicTail(less, a, b);
    } else {
      LexicographicHead(less, a, b);
    }
  }

  lemma {:induction false} TypesInOrder(a: seq<Type>, b: seq<Type>)
    ensures LessTypes(a, b) <==> Lexicographic(Less, a, b)
    decreases |a|
  {
    if a != [] && b != [] && a[0] == b[0] {
      Trichotomy(a[0], b[0]);
      TypesInOrder(a[1..], b[1..]);
      LexicographicTail(Less, a, b);
    } else {
      if a != [] && b != [] {
        Trichotomy(a[0], b[0]);
      }
      LexicographicHead(Less, a, b);
    }
  }

  lemma {:induction false} FieldsInOrder(a: seq<Field>, b: seq<Field>)
    ensures LessFields(a, b) <==> Lexicographic(LessField, a, b)
    decreases |a|
  {
    if a != [] && b != [] && a[0] == b[0] {
      FieldTrichotomy(a[0], b[0]);
      FieldsInOrder(a[1..], b[1..]);
      LexicographicTail(LessField, a, b);
    } else {
      if a != [] && b != [] {
        FieldTrichotomy(a[0], b[0]);
      }
      LexicographicHead(LessField, a, b);
    }
  }

  /** The type of a field decides before its name. */
  lemma FieldInOrder(a: Field, b: Field)
    ensures LessField(a, b)
       <==> Less(a.what, b.what) || (a.what == b.what && Lexicographic((x: char, y: char) => x < y, a.name, b.name))
  {
    Trichotomy(a.what, b.what);
    NamesInOrder(a.name, b.name);
  }

  /** The kinds of types in their order, and within a kind the bounds, the members,
      or the length and then the element. */
  lemma InOrder(a: Type, b: Type)
    ensures a.Integer? && !b.Integer? ==> Less(a, b)
    ensures a.Variant? && !b.Integer? && !b.Variant? ==> Less(a, b)
    ensures a.Tuple? && (b.Vector? || b.Utf8? || b.Structure?) ==> Less(a, b)
    ensures a.Vector? && (b.Utf8? || b.Structure?) ==> Less(a, b)
    ensures a.Utf8? && b.Structure? ==> Less(a, b)
    ensures a.Integer? && b.Integer? ==> (Less(a, b) <==> Lower(a.range, b.range))
    ensures a.Utf8? && b.Utf8? ==> (Less(a, b) <==> Lower(a.codeUnits, b.codeUnits))
    ensures a.Variant? && b.Variant? ==> (Less(a, b) <==> Lexicographic(Less, a.elements, b.elements))
    ensures a.Tuple? && b.Tuple? ==> (Less(a, b) <==> Lexicographic(Less, a.elements, b.elements))
    ensures a.Structure? && b.Structure? ==> (Less(a, b) <==> Lexicographic(LessField, a.fields, b.fields))
    ensures a.Vector? && b.Vector? ==>
              (Less(a, b) <==> Lower(a.length, b.length) || (a.length == b.length && Less(a.element, b.element)))
  {
    if a.Structure? && b.Structure? {
      FieldsInOrder(a.fields, b.fields);
    } else if (a.Variant? && b.Variant?) || (a.Tuple? && b.Tuple?) {
      TypesInOrder(a.elements, b.elements);
    }
  }

  predicate Lower(a: IntegerRange, b: IntegerRange) {
    a.minimum < b.minimum || (a.minimum == b.minimum && a.maximum < b.maximum)
  }

  // ----- the set of structures that were already generated -----

  /** `std::set::find` with the order above: an entry related neither way. */
  predicate Finds(generated: set<Type>, required: Type) {
    exists s :: s in generated && !Less(s, required) && !Less(required, s)
  }

  /** Looking a structure up finds it exactly when it was inserted itself. */
  lemma FindsIffGenerated(generated: set<Type>, required: Type)
    ensures Finds(generated, required) <==> required in generated
  {
    forall s | s in generated
      ensures (!Less(s, required) && !Less(required, s)) <==> s == required
    {
      Trichotomy(s, required);
    }
    if required in generated {
      Trichotomy(required, required);
    }
  }
}
