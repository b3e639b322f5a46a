/** The byte strings that the repository's own tests expect, and the values and bytes
    that they expect to be refused. */
module Examples {
  import opened WireTypes
  import opened BigEndian
  import opened WireFormat
  import opened ParserMachine
  import opened RoundTrip
  import opened Reference
  import opened Messages
  import opened Framing
  import Utf8

  const U8: Type := Integer(IntegerRange(0, 0xff))
  const U16: Type := Integer(IntegerRange(0, 0xffff))
  const U32: Type := Integer(IntegerRange(0, 0xffff_ffff))
  const U64: Type := Integer(IntegerRange(0, 0xffff_ffff_ffff_ffff))
  const TEXT: Type := Utf8(IntegerRange(0, 255))
  const ATYPICAL: Type := Integer(IntegerRange(1, 1000))
  const VECTORS: Type := Vector(IntegerRange(0, 0xffff_ffff_ffff_ffff), U64)
  const VECTORS_256: Type := Vector(IntegerRange(0, 255), U64)
  const NUMBER_OR_TEXT: Type := Variant([Integer(IntegerRange(1, 0xffff_ffff)), TEXT])

  const ZEROS: seq<byte> := [0, 0, 0, 0, 0, 0, 0, 0]

  function Ascii(s: string): (bytes: seq<byte>)
    requires forall i :: 0 <= i < |s| ==> s[i] < 128 as char
    ensures |bytes| == |s| && forall i :: 0 <= i < |s| ==> bytes[i] == s[i] as int < 0x80
  {
    seq(|s|, i requires 0 <= i < |s| => s[i] as int)
  }

  lemma {:induction false} AsciiIsValid(s: seq<byte>)
    requires forall i :: 0 <= i < |s| ==> s[i] < 0x80
    ensures Utf8.IsValid(s)
    decreases |s|
  {
    if s != [] {
      AsciiIsValid(s[1..]);
    }
  }

  lemma NumberBytes(range: IntegerRange, n: nat)
    requires range.minimum <= n <= range.maximum
    ensures var t, v := Integer(range), IntegerValue(n);
            HasType(t, v) && InRange(t, v) && Output(t, v) == Encode(n, Width(range.maximum))
  {
    WidthHolds(n, range.maximum);
  }

  lemma TextBytes(text: seq<byte>)
    requires |text| <= 255 && Utf8.IsValid(text)
    ensures var v := TextValue(text);
            HasType(TEXT, v) && InRange(TEXT, v) && Output(TEXT, v) == [|text|] + text
  {
    hide Utf8.IsValid;
    EncodeByte(|text|);
  }

  /** One part on its own. */
  lemma Single(t: Type, v: Value)
    requires HasType(t, v)
    ensures OutputOfElements([t], [v]) == Output(t, v) && (AllInRange([t], [v]) <==> InRange(t, v))
  {
    hide Output, InRange;
    assert [t][1..] == [] && [v][1..] == [];
    assert Output(t, v) + [] == Output(t, v);
  }

  lemma FirstId()
    ensures Encode(0, 8) == ZEROS
  {
  }

  /** `async_server_utf8` in test/valid_encoding.cpp: the request. */
  lemma TextRequest()
    ensures var args := [TextValue(Ascii("Name"))];
            && HaveTypes([TEXT], args)
            && Build(RequestOf(0, Ascii("utf8"), [TEXT], args))
               == Written([0] + ZEROS + [4] + Ascii("utf8") + ([4] + Ascii("Name")), true)
  {
    hide Encode, Output, OutputOfElements, AllInRange, InRange, Utf8.IsValid, Build, HasType, HaveTypes;
    var v := TextValue(Ascii("Name"));
    AsciiIsValid(Ascii("Name"));
    TextBytes(Ascii("Name"));
    FirstId();
    Single(TEXT, v);
    RequestBuilt(0, Ascii("utf8"), [TEXT], [v]);
  }

  /** And the response. */
  lemma TextResponse()
    ensures var v := TextValue(Ascii("Name123"));
            HasType(TEXT, v) && Build(ResponseOf(0, TEXT, v)) == Written([1] + ZEROS + ([7] + Ascii("Name123")), true)
  {
    hide Encode, Output, InRange, Utf8.IsValid, Build, HasType;
    AsciiIsValid(Ascii("Name123"));
    TextBytes(Ascii("Name123"));
    FirstId();
    ResponseBuilt(0, TEXT, TextValue(Ascii("Name123")));
  }

  /** `async_server_integer`, and the two refused numbers of
      test/invalid_encoding.cpp. */
  lemma AtypicalNumbers(n: nat)
    requires n <= 0xffff
    ensures HasType(ATYPICAL, IntegerValue(n))
    ensures Write(ATYPICAL, IntegerValue(n))
         == if n == 0 || n > 1000 then Written([], false) else Written([n / 256, n % 256], true)
  {
    Powers();
    assert HasType(ATYPICAL, IntegerValue(n));
    WrittenExactly(ATYPICAL, IntegerValue(n));
    assert Encode(n, 2) == Encode(n / 256, 1) + [n % 256];
    if n <= 1000 {
      EncodeByte(n / 256);
    }
  }

  /** The parameters of `integer_sizes` in test_interfaces/generate.cpp: the widths
      are 1, 2, 4 and 8 bytes. */
  lemma IntegerSizes()
    ensures Width(0xff) == 1 && Width(0xffff) == 2 && Width(0xffff_ffff) == 4 && Width(0xffff_ffff_ffff_ffff) == 8
    ensures var one := IntegerValue(1);
            && HasType(U8, one) && HasType(U16, one) && HasType(U32, one) && HasType(U64, one)
            && Write(U8, one).bytes == [1] && Write(U16, one).bytes == [0, 1] && Write(U32, one).bytes == [0, 0, 0, 1]
            && Write(U64, one).bytes == [0, 0, 0, 0, 0, 0, 0, 1]
  {
    WidthHolds(1, 0xff);
    WidthHolds(1, 0xffff);
    WidthHolds(1, 0xffff_ffff);
    WidthHolds(1, 0xffff_ffff_ffff_ffff);
    assert Encode(1, 1) == [1];
    assert Encode(1, 2) == [0, 1];
    assert Encode(1, 4) == [0, 0, 0, 1];
    assert Encode(1, 8) == [0, 0, 0, 0, 0, 0, 0, 1];
  }

  lemma TwoFields(fields: seq<Field>, a: Value, b: Value)
    requires |fields| == 2 && HasType(fields[0].what, a) && HasType(fields[1].what, b) && InRange(fields[0].what, a)
    ensures OutputOfFields(fields, [a, b]) == Output(fields[0].what, a) + Output(fields[1].what, b)
  {
    hide Output, InRange, HasType;
    var vs := [a, b];
    assert vs[1..] == [b] && vs[1..][1..] == [];
    assert OutputOfFields(fields[1..], vs[1..]) == Output(fields[1].what, b);
  }

  /** A structure's fields follow each other as they are declared. */
  lemma FieldsFollowEachOther()
    ensures var t := Structure([Field(U8, "a"), Field(U16, "b")]);
            var v := TupleValue([IntegerValue(1), IntegerValue(2)]);
            HasType(t, v) && Write(t, v) == Written([1, 0, 2], true)
  {
    hide Encode, Write, OutputOfFields;
    var fields := [Field(U8, "a"), Field(U16, "b")];
    var v := TupleValue([IntegerValue(1), IntegerValue(2)]);
    NumberBytes(IntegerRange(0, 0xff), 1);
    NumberBytes(IntegerRange(0, 0xffff), 2);
    FieldsTyped(fields, v);
    WrittenExactly(Structure(fields), v);
    TwoFields(fields, IntegerValue(1), IntegerValue(2));
    EncodeByte(1);
    TwoBytes();
  }

  lemma TwoBytes()
    ensures Encode(2, 2) == [0, 2]
  {
  }

  lemma ThreeElements(t: Type, a: Value, b: Value, c: Value)
    requires HasType(t, a) && HasType(t, b) && HasType(t, c) && InRange(t, a) && InRange(t, b)
    ensures OutputOfAll(t, [a, b, c]) == Output(t, a) + (Output(t, b) + Output(t, c))
  {
    hide Output, InRange, HasType;
    var vs := [a, b, c];
    assert vs[1..] == [b, c] && [b, c][1..] == [c] && [c][1..] == [];
    assert OutputOfAll(t, [c]) == Output(t, c);
    assert OutputOfAll(t, [b, c]) == Output(t, b) + OutputOfAll(t, [c]);
  }

  /** `async_server_vector`: the argument 3, 2, 1 of `vectors`. */
  lemma VectorBytes()
    ensures var v := VectorValue([IntegerValue(3), IntegerValue(2), IntegerValue(1)]);
            && HasType(VECTORS, v)
            && Write(VECTORS, v) == Written([0, 0, 0, 0, 0, 0, 0, 3] + ([0, 0, 0, 0, 0, 0, 0, 3]
                                            + ([0, 0, 0, 0, 0, 0, 0, 2] + [0, 0, 0, 0, 0, 0, 0, 1])), true)
  {
    hide Encode, Write, OutputOfAll;
    var vs := [IntegerValue(3), IntegerValue(2), IntegerValue(1)];
    var range := IntegerRange(0, 0xffff_ffff_ffff_ffff);
    NumberBytes(range, 3);
    NumberBytes(range, 2);
    NumberBytes(range, 1);
    MembersTyped(Copies(U64, 3), vs);
    WrittenExactly(VECTORS, VectorValue(vs));
    ThreeElements(U64, vs[0], vs[1], vs[2]);
    SmallNumbers();
  }

  lemma SmallNumbers()
    ensures Encode(1, 8) == [0, 0, 0, 0, 0, 0, 0, 1] && Encode(2, 8) == [0, 0, 0, 0, 0, 0, 0, 2]
    ensures Encode(3, 8) == [0, 0, 0, 0, 0, 0, 0, 3]
  {
    SmallNumber(1);
    SmallNumber(2);
    SmallNumber(3);
  }

  lemma SmallNumber(n: byte)
    ensures Encode(n, 8) == [0, 0, 0, 0, 0, 0, 0, n]
  {
    SevenZeros();
    assert Encode(n, 8) == Encode(n / 256, 7) + [n % 256];
  }

  lemma SevenZeros()
    ensures Encode(0, 7) == [0, 0, 0, 0, 0, 0, 0]
  {
  }

  /** `async_server_variant_first` and `async_server_variant_second`. */
  lemma VariantBytes()
    ensures var (a, b) := (VariantValue(0, IntegerValue(0x11223344)), VariantValue(1, TextValue(Ascii("abc"))));
            && HasType(NUMBER_OR_TEXT, a) && Write(NUMBER_OR_TEXT, a) == Written([0, 0x11, 0x22, 0x33, 0x44], true)
            && HasType(NUMBER_OR_TEXT, b) && Write(NUMBER_OR_TEXT, b) == Written([1, 3] + Ascii("abc"), true)
  {
    AsciiIsValid(Ascii("abc"));
    TextBytes(Ascii("abc"));
    NumberBytes(IntegerRange(1, 0xffff_ffff), 0x11223344);
    hide Utf8.IsValid;
    var a, b := VariantValue(0, IntegerValue(0x11223344)), VariantValue(1, TextValue(Ascii("abc")));
    WrittenExactly(NUMBER_OR_TEXT, a);
    WrittenExactly(NUMBER_OR_TEXT, b);
    FourBytes();
    EncodeByte(0);
    EncodeByte(1);
  }

  lemma FourBytes()
    ensures Encode(0x11223344, 4) == [0x11, 0x22, 0x33, 0x44]
  {
    assert Encode(0x11, 1) == [0x11];
    assert Encode(0x1122, 2) == [0x11, 0x22];
    assert Encode(0x112233, 3) == [0x11, 0x22, 0x33];
  }

  /** A text of 256 bytes and a vector of 256 elements where 255 are allowed. */
  lemma TooLong(text: seq<byte>, vs: seq<Value>)
    requires |text| == 256 && |vs| == 256 && HasType(VECTORS_256, VectorValue(vs))
    ensures Write(TEXT, TextValue(text)) == Written([], false)
    ensures Write(VECTORS_256, VectorValue(vs)) == Written([], false)
  {
    hide Utf8.IsValid;
    WrittenExactly(TEXT, TextValue(text));
    WrittenExactly(VECTORS_256, VectorValue(vs));
  }

  /** `async_server_invalid_variant_request_a` and `_b`. */
  lemma UnknownAlternative(index: byte, rest: seq<byte>)
    requires index >= 2
    ensures Parse(NUMBER_OR_TEXT, [index] + rest) == Failed
  {
    RunIsRead(NUMBER_OR_TEXT, [index] + rest);
  }

  lemma {:induction false} ValidAfterAscii(ascii: seq<byte>, rest: seq<byte>)
    requires forall i :: 0 <= i < |ascii| ==> ascii[i] < 0x80
    ensures Utf8.IsValid(ascii + rest) <==> Utf8.IsValid(rest)
    decreases |ascii|
  {
    if ascii == [] {
      assert ascii + rest == rest;
    } else {
      ValidAfterAscii(ascii[1..], rest);
      assert (ascii + rest)[1..] == ascii[1..] + rest;
    }
  }

  /** `async_server_invalid_utf8_request`. */
  lemma InvalidText()
    ensures Parse(TEXT, [5] + (Ascii("Name") + [0xff])) == Failed
  {
    hide Utf8.IsValid, Run;
    var text := Ascii("Name") + [0xff];
    var s := [5] + text;
    assert s[..1] == [] + [5] && s[1..6] == text;
    DecodeSnoc([], 5);
    ValidAfterAscii(Ascii("Name"), [0xff]);
    assert !Utf8.IsValid([0xff]) by {
      NotValid();
    }
    RunIsRead(TEXT, s);
  }

  lemma NotValid()
    ensures !Utf8.IsValid([0xff])
  {
  }

  /** `begin_parse_value_excess`: the bytes after the number stay. */
  lemma ExcessStays(rest: seq<byte>)
    ensures Parse(U32, [0xab, 0xcd, 0xef, 0x12] + rest) == Done(IntegerValue(0xabcdef12), 4, false)
  {
    hide BigEndian.Decode, Encode, Run;
    LargeNumber();
    Powers();
    DecodeEncode(0xabcdef12, 4);
    var s := [0xab, 0xcd, 0xef, 0x12] + rest;
    assert s[..4] == [0xab, 0xcd, 0xef, 0x12];
    RunIsRead(U32, s);
  }

  lemma LargeNumber()
    ensures Encode(0xabcdef12, 4) == [0xab, 0xcd, 0xef, 0x12]
  {
    assert Encode(0xab, 1) == [0xab];
    assert Encode(0xabcd, 2) == [0xab, 0xcd];
    assert Encode(0xabcdef, 3) == [0xab, 0xcd, 0xef];
  }

  /** The arguments of `no_result_no_parameter` are complete before any byte. */
  lemma NothingToRead()
    ensures Parse(Tuple([Tuple([])]), []) == Done(TupleValue([TupleValue([])]), 0, false)
  {
  }

  lemma NoneRead(s: seq<byte>)
    requires s != []
    ensures Read(Tuple([]), s) == Found(TupleValue([]), 0, true)
    ensures ReadAll([Tuple([])], s) == Found([TupleValue([])], 0, true)
  {
  }

  lemma TwoRead(a: byte, b: byte)
    ensures ReadAll([Tuple([]), Tuple([])], [a, b]) == Found([TupleValue([]), TupleValue([])], 1, true)
  {
    hide Read;
    var ts := [Tuple([]), Tuple([])];
    NoneRead([a, b]);
    NoneRead([b]);
    assert ts[1..] == [Tuple([])] && [a, b][1..] == [b];
    assert [TupleValue([])] + [TupleValue([])] == [TupleValue([]), TupleValue([])];
  }

  /** Of two elements that are encoded as nothing the first costs a byte. */
  lemma EmptyElementsLoseBytes(a: byte, b: byte)
    ensures Parse(Vector(IntegerRange(0, 0xff), Tuple([])), [2, a, b])
         == Done(VectorValue([TupleValue([]), TupleValue([])]), 2, true)
  {
    hide ReadAll, Run, BigEndian.Decode;
    var t, s := Vector(IntegerRange(0, 0xff), Tuple([])), [2, a, b];
    OneByteNumber(2);
    assert s[..1] == [2] && s[1..] == [a, b];
    assert Copies(Tuple([]), 2) == [Tuple([]), Tuple([])];
    TwoRead(a, b);
    RunIsRead(t, s);
  }

  lemma OneByteNumber(b: byte)
    ensures BigEndian.Decode([b]) == b
  {
    DecodeSnoc([], b);
    assert [] + [b] == [b];
  }
}
