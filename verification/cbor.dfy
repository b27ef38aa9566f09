/**
 What the interactor writes and the client reads (thirdparty/interactor/src/cbor.c,
 client/src/cbor.js), the subset of CBOR of sections 3.1, 3.2.1 and 3.2.2 of RFC 8949
 both sides use. Text is its bytes; numbers are exact.
*/
module Cbor {
  import opened Wrappers
  import opened Keys

  /** What is written. A stream is an array whose length is not known in advance. */
  datatype Item =
    | Num(v: int)
    | Text(b: Bytes)
    | Flag(f: bool)
    | Nothing
    | List(items: seq<Item>)
    | Stream(items: seq<Item>)
    | Record(fields: seq<Field>)
  datatype Field = Field(key: Bytes, value: Item)

  /** What is read. */
  datatype Js =
    | JsNum(v: int)
    | JsText(b: Bytes)
    | JsBool(f: bool)
    | JsNull
    | JsArray(items: seq<Js>)
    | JsObject(fields: seq<JsField>)
    | JsBreak
  datatype JsField = JsField(key: Bytes, value: Js)

  // ---- Writing ----

  /** A head: the major type, and an argument in the fewest bytes that hold it. */
  function Head(major: nat, v: nat): Bytes
    requires major < 8
  {
    if v < 24 then [major * 32 + v]
    else if v < Pow256(1) then [major * 32 + 24] + Be(v, 1)
    else if v < Pow256(2) then [major * 32 + 25] + Be(v, 2)
    else if v < Pow256(4) then [major * 32 + 26] + Be(v, 4)
    else [major * 32 + 27] + Be(v, 8)
  }

  function EncodedNum(v: int): Bytes {
    if v < 0 then Head(1, -(v + 1)) else Head(0, v)
  }

  function EncodedText(b: Bytes): Bytes {
    Head(3, |b|) + b
  }

  function Encoded(x: Item): Bytes
    decreases x
  {
    match x
    case Num(v) => EncodedNum(v)
    case Text(b) => EncodedText(b)
    case Flag(f) => [if f then 0xf5 else 0xf4]
    case Nothing => [0xf6]
    case List(items) => Head(4, |items|) + EncodedAll(items)
    case Stream(items) => [0x9f] + (EncodedAll(items) + [0xff])
    case Record(fields) => Head(5, |fields|) + EncodedFields(fields)
  }

  function EncodedAll(xs: seq<Item>): Bytes
    decreases xs
  {
    if xs == [] then [] else Encoded(xs[0]) + EncodedAll(xs[1..])
  }

  function EncodedFields(fs: seq<Field>): Bytes
    decreases fs
  {
    if fs == [] then [] else EncodedText(fs[0].key) + (Encoded(fs[0].value) + EncodedFields(fs[1..]))
  }

  /** Within sixty-four bits, and no key twice in one record. */
  predicate Fit(x: Item)
    decreases x
  {
    match x
    case Num(v) => Int64(v)
    case Text(b) => |b| < Pow256(8)
    case Flag(_) => true
    case Nothing => true
    case List(items) => |items| < Pow256(8) && FitAll(items)
    case Stream(items) => FitAll(items)
    case Record(fields) => |fields| < Pow256(8) && FitFields(fields)
  }

  predicate Int64(v: int) { -0x8000_0000_0000_0000 <= v < 0x8000_0000_0000_0000 }

  predicate FitAll(xs: seq<Item>)
    decreases xs
  {
    xs == [] || (Fit(xs[0]) && FitAll(xs[1..]))
  }

  predicate FitFields(fs: seq<Field>)
    decreases fs
  {
    fs == [] || (|fs[0].key| < Pow256(8) && Fit(fs[0].value) && FitFields(fs[1..]) && !HasKey(fs[1..], fs[0].key))
  }

  predicate HasKey(fs: seq<Field>, key: Bytes) {
    exists i :: 0 <= i < |fs| && fs[i].key == key
  }

  lemma BeOf1(v: nat) ensures Pow256(1) == 256 && Be(v, 1) == [v % 256] { }

  lemma BeOf2(v: nat)
    ensures Pow256(2) == 65536 && Be(v, 2) == [v / 256 % 256, v % 256]
  {
    BeOf1(v / 256);
  }

  lemma BeOf4(v: nat)
    ensures Pow256(4) == 0x1_0000_0000
    ensures Be(v, 4) == [v / 256 / 256 / 256 % 256, v / 256 / 256 % 256, v / 256 % 256, v % 256]
  {
    hide Be, Pow256;
    BeOf2(v / 256 / 256);
    BeNext(v / 256, 2);
    BeNext(v, 3);
  }

  lemma BeOf8(v: nat)
    ensures Be(v, 8) == Be(v / 256 / 256 / 256 / 256, 4) + Be(v, 4)
  {
    hide Be, Pow256;
    BeNext(v / 256 / 256 / 256, 4);
    BeNext(v / 256 / 256, 5);
    BeNext(v / 256, 6);
    BeNext(v, 7);
    BeOf4(v);
  }

  lemma BeNext(v: nat, n: nat)
    ensures Be(v, n + 1) == Be(v / 256, n) + [v % 256] && Pow256(n + 1) == 256 * Pow256(n)
  {
  }

  lemma OneByteIntegers()
    ensures Encoded(Num(0)) == [0x00] && Encoded(Num(23)) == [0x17] && Encoded(Num(24)) == [0x18, 0x18]
    ensures Encoded(Num(100)) == [0x18, 0x64]
    ensures Encoded(Num(-1)) == [0x20] && Encoded(Num(-10)) == [0x29] && Encoded(Num(-100)) == [0x38, 0x63]
  {
    hide Be, Pow256;
    BeOf1(24);
    BeOf1(100);
    BeOf1(99);
  }

  lemma TwoByteIntegers()
    ensures Encoded(Num(1000)) == [0x19, 0x03, 0xe8] && Encoded(Num(-1000)) == [0x39, 0x03, 0xe7]
  {
    hide Be, Pow256;
    BeOf1(0);
    BeOf2(1000);
    BeOf2(999);
  }

  lemma WideIntegers()
    ensures Encoded(Num(1000000)) == [0x1a, 0x00, 0x0f, 0x42, 0x40]
    ensures Encoded(Num(1000000000000)) == [0x1b, 0x00, 0x00, 0x00, 0xe8, 0xd4, 0xa5, 0x10, 0x00]
  {
    hide Be, Pow256;
    BeOf1(0);
    BeOf2(0);
    BeOf4(1000000);
    BeOf8(1000000000000);
    BeOf4(1000000000000);
    BeOf4(232);
  }

  /** Examples of appendix A of RFC 8949: integers. */
  lemma IntegersAsInTheRfc()
    ensures Encoded(Num(0)) == [0x00] && Encoded(Num(23)) == [0x17] && Encoded(Num(24)) == [0x18, 0x18]
    ensures Encoded(Num(100)) == [0x18, 0x64] && Encoded(Num(1000)) == [0x19, 0x03, 0xe8]
    ensures Encoded(Num(1000000)) == [0x1a, 0x00, 0x0f, 0x42, 0x40]
    ensures Encoded(Num(1000000000000)) == [0x1b, 0x00, 0x00, 0x00, 0xe8, 0xd4, 0xa5, 0x10, 0x00]
    ensures Encoded(Num(-1)) == [0x20] && Encoded(Num(-10)) == [0x29] && Encoded(Num(-100)) == [0x38, 0x63]
    ensures Encoded(Num(-1000)) == [0x39, 0x03, 0xe7]
  {
    hide Encoded;
    OneByteIntegers();
    TwoByteIntegers();
    WideIntegers();
  }

  lemma PairOf(a: Item, b: Item)
    ensures Encoded(List([a, b])) == Head(4, 2) + (Encoded(a) + Encoded(b))
  {
    hide Head;
    assert [a, b][1..] == [b] && [b][1..] == [];
    assert EncodedAll([b]) == Encoded(b) + [];
  }

  lemma RecordOf(fa: Field, fb: Field)
    ensures Encoded(Record([fa, fb])) ==
            Head(5, 2) + (EncodedText(fa.key) + Encoded(fa.value) + (EncodedText(fb.key) + Encoded(fb.value)))
  {
    hide Head, EncodedText;
    TwoFields(fa, fb);
  }

  lemma Letter(c: Byte)
    ensures EncodedText([c]) == [0x61, c]
  {
    hide Be, Pow256;
  }

  lemma Small(v: nat)
    requires v < 24
    ensures Encoded(Num(v)) == [v] && Head(4, v) == [0x80 + v] && Head(5, v) == [0xa0 + v]
  {
    hide Be, Pow256;
  }

  lemma ThreeOf(a: Item, b: Item, c: Item)
    ensures Encoded(List([a, b, c])) == Head(4, 3) + (Encoded(a) + (Encoded(b) + Encoded(c)))
  {
    hide Head;
    assert [a, b, c][1..] == [b, c] && [b, c][1..] == [c] && [c][1..] == [];
    assert EncodedAll([c]) == Encoded(c) + [] == Encoded(c);
    assert EncodedAll([b, c]) == Encoded(b) + Encoded(c);
    assert EncodedAll([a, b, c]) == Encoded(a) + EncodedAll([b, c]);
  }

  lemma Constants()
    ensures Encoded(Flag(false)) == [0xf4] && Encoded(Flag(true)) == [0xf5] && Encoded(Nothing) == [0xf6]
    ensures Encoded(List([])) == Head(4, 0) && Encoded(Stream([])) == [0x9f, 0xff] && Encoded(Record([])) == Head(5, 0)
  {
    hide Head;
    assert Head(4, 0) + [] == Head(4, 0) && Head(5, 0) + [] == Head(5, 0);
  }

  lemma Texts()
    ensures Encoded(Text([])) == [0x60] && Encoded(Text(Ascii("IETF"))) == [0x64, 0x49, 0x45, 0x54, 0x46]
  {
    hide Be, Pow256;
    assert Ascii("IETF") == [0x49, 0x45, 0x54, 0x46];
  }

  /** And the rest of what a reply is made of. */
  lemma OthersAsInTheRfc()
    ensures Encoded(Flag(false)) == [0xf4] && Encoded(Flag(true)) == [0xf5] && Encoded(Nothing) == [0xf6]
    ensures Encoded(Text([])) == [0x60] && Encoded(Text(Ascii("IETF"))) == [0x64, 0x49, 0x45, 0x54, 0x46]
    ensures Encoded(List([])) == [0x80] && Encoded(List([Num(1), Num(2), Num(3)])) == [0x83, 0x01, 0x02, 0x03]
    ensures Encoded(Stream([])) == [0x9f, 0xff] && Encoded(Record([])) == [0xa0]
  {
    hide Encoded, Head;
    Constants();
    Texts();
    ThreeOf(Num(1), Num(2), Num(3));
    Small(0);
    Small(1);
    Small(2);
    Small(3);
  }

  lemma RecordAsInTheRfc()
    ensures Encoded(Record([Field(Ascii("a"), Num(1)), Field(Ascii("b"), List([Num(2), Num(3)]))])) ==
            [0xa2, 0x61, 0x61, 0x01, 0x61, 0x62, 0x82, 0x02, 0x03]
  {
    assert Ascii("a") == [0x61] && Ascii("b") == [0x62];
    hide Encoded, EncodedText, Head;
    PairOf(Num(2), Num(3));
    RecordOf(Field(Ascii("a"), Num(1)), Field(Ascii("b"), List([Num(2), Num(3)])));
    Letter(0x61);
    Letter(0x62);
    Small(1);
    Small(2);
    Small(3);
  }

  lemma TwoFields(fa: Field, fb: Field)
    ensures EncodedFields([fa, fb]) ==
            EncodedText(fa.key) + Encoded(fa.value) + (EncodedText(fb.key) + Encoded(fb.value))
  {
    hide Encoded, EncodedText;
    assert [fa, fb][1..] == [fb] && [fb][1..] == [];
    assert EncodedFields([fb]) == EncodedText(fb.key) + (Encoded(fb.value) + []);
  }

  // ---- Reading ----

  /** The argument of a head, by its low five bits. */
  function ReadArg(low: nat, s: Bytes): (r: Option<(nat, Bytes)>)
    ensures r.Some? ==> |r.value.1| <= |s|
  {
    if low < 24 then Some((low, s))
    else
      var n := if low == 24 then 1 else if low == 25 then 2 else if low == 26 then 4 else if low == 27 then 8 else 0;
      if n == 0 || |s| < n then None else Some((FromBe(s[..n]), s[n..]))
  }

  /** A text runs on for n bytes, or to the end of the reply if that comes first. */
  function Taken(s: Bytes, n: nat): Bytes { if n <= |s| then s[..n] else s }
  function Dropped(s: Bytes, n: nat): Bytes { if n <= |s| then s[n..] else [] }

  function Read(s: Bytes): (r: Option<(Js, Bytes)>)
    ensures r.Some? ==> |r.value.1| < |s|
    decreases |s|, 0
  {
    if s == [] then None
    else if s[0] == 0xff then Some((JsBreak, s[1..]))
    else
      var major, low := s[0] / 32, s[0] % 32;
      if major == 4 && low == 31 then
        (match ReadStream(s[1..]) case None => None case Some(r) => Some((JsArray(r.0), r.1)))
      else if major == 7 then
        if low == 20 then Some((JsBool(false), s[1..]))
        else if low == 21 then Some((JsBool(true), s[1..]))
        else if low == 22 then Some((JsNull, s[1..]))
        else None
      else if major !in {0, 1, 3, 4, 5} then None
      else
        match ReadArg(low, s[1..])
        case None => None
        case Some(a) =>
          match major
          case 0 => Some((JsNum(a.0), a.1))
          case 1 => Some((JsNum(-1 - a.0), a.1))
          case 3 => Some((JsText(Taken(a.1, a.0)), Dropped(a.1, a.0)))
          case 4 => (match ReadMany(a.1, a.0) case None => None case Some(r) => Some((JsArray(r.0), r.1)))
          case _ => (match ReadFields(a.1, a.0, []) case None => None case Some(r) => Some((JsObject(r.0), r.1)))
  }

  function ReadMany(s: Bytes, n: nat): (r: Option<(seq<Js>, Bytes)>)
    ensures r.Some? ==> |r.value.1| <= |s|
    decreases |s|, 1
  {
    if n == 0 then Some(([], s))
    else
      match Read(s)
      case None => None
      case Some(v) =>
        match ReadMany(v.1, n - 1)
        case None => None
        case Some(r) => Some(([v.0] + r.0, r.1))
  }

  function ReadStream(s: Bytes): (r: Option<(seq<Js>, Bytes)>)
    ensures r.Some? ==> |r.value.1| <= |s|
    decreases |s|, 1
  {
    match Read(s)
    case None => None
    case Some(v) =>
      if v.0.JsBreak? then Some(([], v.1))
      else
        match ReadStream(v.1)
        case None => None
        case Some(r) => Some(([v.0] + r.0, r.1))
  }

  /** A key set again keeps its place and takes the new value. */
  function Put(fs: seq<JsField>, key: Bytes, v: Js): seq<JsField> {
    if fs == [] then [JsField(key, v)]
    else if fs[0].key == key then [JsField(key, v)] + fs[1..]
    else [fs[0]] + Put(fs[1..], key, v)
  }

  function ReadFields(s: Bytes, n: nat, acc: seq<JsField>): (r: Option<(seq<JsField>, Bytes)>)
    ensures r.Some? ==> |r.value.1| <= |s|
    decreases |s|, 1
  {
    if n == 0 then Some((acc, s))
    else
      match Read(s)
      case None => None
      case Some(k) =>
        if !k.0.JsText? then None
        else
          match Read(k.1)
          case None => None
          case Some(v) => ReadFields(v.1, n - 1, Put(acc, k.0.b, v.0))
  }

  // ---- The round trip ----

  /** The value a reader should be left with. */
  function Meant(x: Item): Js
    decreases x
  {
    match x
    case Num(v) => JsNum(v)
    case Text(b) => JsText(b)
    case Flag(f) => JsBool(f)
    case Nothing => JsNull
    case List(items) => JsArray(MeantAll(items))
    case Stream(items) => JsArray(MeantAll(items))
    case Record(fields) => JsObject(MeantFields(fields))
  }

  function MeantAll(xs: seq<Item>): seq<Js>
    decreases xs
  {
    if xs == [] then [] else [Meant(xs[0])] + MeantAll(xs[1..])
  }

  function MeantFields(fs: seq<Field>): seq<JsField>
    decreases fs
  {
    if fs == [] then [] else [JsField(fs[0].key, Meant(fs[0].value))] + MeantFields(fs[1..])
  }

  /** A head written is read back, whatever follows it. */
  lemma HeadReadsBack(major: nat, v: nat, rest: Bytes)
    requires major < 8 && v < Pow256(8)
    ensures var s := Head(major, v) + rest;
      (s != [] && s[0] / 32 == major && s[0] % 32 < 28 && ReadArg(s[0] % 32, s[1..]) == Some((v, rest)))
  {
    hide Be;
    var s := Head(major, v) + rest;
    if v < 24 {
      assert s[1..] == rest;
    } else {
      var n := if v < Pow256(1) then 1 else if v < Pow256(2) then 2 else if v < Pow256(4) then 4 else 8;
      assert s[1..] == Be(v, n) + rest;
      assert s[1..][..n] == Be(v, n) && s[1..][n..] == rest;
      ReadsBack(v, n);
    }
  }

  lemma TextReadsBack(b: Bytes, rest: Bytes)
    requires |b| < Pow256(8)
    ensures Read(EncodedText(b) + rest) == Some((JsText(b), rest))
  {
    hide Head, ReadArg, Pow256;
    HeadReadsBack(3, |b|, b + rest);
    assert EncodedText(b) + rest == Head(3, |b|) + (b + rest);
    assert (b + rest)[..|b|] == b && (b + rest)[|b|..] == rest;
  }

  lemma NumReadsBack(v: int, rest: Bytes)
    requires Int64(v)
    ensures Read(EncodedNum(v) + rest) == Some((JsNum(v), rest))
  {
    SixtyFourBits();
    hide Head, ReadArg, Pow256;
    if v < 0 { HeadReadsBack(1, -(v + 1), rest); } else { HeadReadsBack(0, v, rest); }
  }

  lemma SixtyFourBits()
    ensures Pow256(8) == 0x1_0000_0000_0000_0000
  {
    assert Pow256(4) == 0x1_0000_0000;
  }

  /** An item is never a break. */
  lemma NotBreak(x: Item)
    ensures !Meant(x).JsBreak?
  {
  }

  /** What is written is read back as what it means, with every byte used and none of the rest. */
  lemma {:induction false} ReadsItem(x: Item, rest: Bytes)
    requires Fit(x)
    ensures Read(Encoded(x) + rest) == Some((Meant(x), rest))
    decreases x, 0
  {
    match x
    case Num(v) => NumReadsBack(v, rest);
    case Text(b) => TextReadsBack(b, rest);
    case Flag(f) => FlagReadsBack(f, rest);
    case Nothing => NullReadsBack(rest);
    case List(items) =>
      hide Read, EncodedAll, MeantAll, Head;
      ReadsAll(items, rest);
      ListReadsBack(items, rest);
    case Stream(items) =>
      hide Read, EncodedAll, MeantAll;
      ReadsStream(items, rest);
      StreamReadsBack(items, rest);
    case Record(fields) =>
      hide Read, EncodedFields, MeantFields, Head;
      ReadsFields(fields, [], rest);
      RecordReadsBack(fields, rest);
  }

  lemma FlagReadsBack(f: bool, rest: Bytes)
    ensures Read(Encoded(Flag(f)) + rest) == Some((JsBool(f), rest))
  {
    hide ReadArg, ReadMany, ReadStream, ReadFields;
    assert ([if f then 0xf5 else 0xf4] + rest)[1..] == rest;
  }

  lemma NullReadsBack(rest: Bytes)
    ensures Read(Encoded(Nothing) + rest) == Some((JsNull, rest))
  {
    hide ReadArg, ReadMany, ReadStream, ReadFields;
    assert ([0xf6] + rest)[1..] == rest;
  }

  lemma ListReadsBack(items: seq<Item>, rest: Bytes)
    requires |items| < Pow256(8) && ReadMany(EncodedAll(items) + rest, |items|) == Some((MeantAll(items), rest))
    ensures Read(Encoded(List(items)) + rest) == Some((JsArray(MeantAll(items)), rest))
  {
    hide Head, ReadArg, Pow256, ReadMany, ReadStream, ReadFields, EncodedAll, MeantAll;
    HeadReadsBack(4, |items|, EncodedAll(items) + rest);
    assert Encoded(List(items)) + rest == Head(4, |items|) + (EncodedAll(items) + rest);
  }

  lemma StreamReadsBack(items: seq<Item>, rest: Bytes)
    requires ReadStream(EncodedAll(items) + [0xff] + rest) == Some((MeantAll(items), rest))
    ensures Read(Encoded(Stream(items)) + rest) == Some((JsArray(MeantAll(items)), rest))
  {
    hide ReadArg, ReadMany, ReadStream, ReadFields, EncodedAll, MeantAll;
    assert (Encoded(Stream(items)) + rest)[1..] == EncodedAll(items) + [0xff] + rest;
  }

  lemma RecordReadsBack(fields: seq<Field>, rest: Bytes)
    requires |fields| < Pow256(8)
    requires ReadFields(EncodedFields(fields) + rest, |fields|, []) == Some(([] + MeantFields(fields), rest))
    ensures Read(Encoded(Record(fields)) + rest) == Some((JsObject(MeantFields(fields)), rest))
  {
    hide Head, ReadArg, Pow256, ReadMany, ReadStream, ReadFields, EncodedFields, MeantFields;
    HeadReadsBack(5, |fields|, EncodedFields(fields) + rest);
    assert [] + MeantFields(fields) == MeantFields(fields);
    assert Encoded(Record(fields)) + rest == Head(5, |fields|) + (EncodedFields(fields) + rest);
  }

  lemma {:induction false} ReadsAll(xs: seq<Item>, rest: Bytes)
    requires FitAll(xs)
    ensures ReadMany(EncodedAll(xs) + rest, |xs|) == Some((MeantAll(xs), rest))
    decreases xs, 1
  {
    hide Read, Encoded, Meant, Fit;
    if xs == [] {
      assert EncodedAll(xs) + rest == rest;
    } else {
      ReadsItem(xs[0], EncodedAll(xs[1..]) + rest);
      ReadsAll(xs[1..], rest);
      assert EncodedAll(xs) + rest == Encoded(xs[0]) + (EncodedAll(xs[1..]) + rest);
    }
  }

  lemma BreakEnds(rest: Bytes)
    ensures Read([0xff] + rest) == Some((JsBreak, rest))
  {
    hide ReadArg, ReadMany, ReadStream, ReadFields;
    assert ([0xff] + rest)[1..] == rest;
  }

  lemma {:induction false} ReadsStream(xs: seq<Item>, rest: Bytes)
    requires FitAll(xs)
    ensures ReadStream(EncodedAll(xs) + [0xff] + rest) == Some((MeantAll(xs), rest))
    decreases xs, 1
  {
    hide Read, Encoded, Meant, Fit;
    if xs == [] {
      assert EncodedAll(xs) + [0xff] + rest == [0xff] + rest;
      BreakEnds(rest);
    } else {
      var tail := EncodedAll(xs[1..]) + [0xff] + rest;
      ReadsItem(xs[0], tail);
      NotBreak(xs[0]);
      ReadsStream(xs[1..], rest);
      assert EncodedAll(xs) + [0xff] + rest == Encoded(xs[0]) + tail;
    }
  }

  predicate Missing(acc: seq<JsField>, key: Bytes) {
    forall i :: 0 <= i < |acc| ==> acc[i].key != key
  }

  lemma {:induction false} PutNew(acc: seq<JsField>, key: Bytes, v: Js)
    requires Missing(acc, key)
    ensures Put(acc, key, v) == acc + [JsField(key, v)]
  {
    if acc != [] {
      PutNew(acc[1..], key, v);
      assert acc == [acc[0]] + acc[1..];
    }
  }

  lemma FieldsUnfold(fs: seq<Field>, rest: Bytes)
    requires fs != []
    ensures EncodedFields(fs) + rest ==
            EncodedText(fs[0].key) + (Encoded(fs[0].value) + (EncodedFields(fs[1..]) + rest))
  {
    hide Encoded, EncodedText;
  }

  lemma MeantUnfold(fs: seq<Field>, acc: seq<JsField>)
    requires fs != []
    ensures acc + MeantFields(fs) == acc + [JsField(fs[0].key, Meant(fs[0].value))] + MeantFields(fs[1..])
  {
    hide Meant;
  }

  lemma {:induction false} ReadsFields(fs: seq<Field>, acc: seq<JsField>, rest: Bytes)
    requires FitFields(fs) && forall i :: 0 <= i < |fs| ==> Missing(acc, fs[i].key)
    ensures ReadFields(EncodedFields(fs) + rest, |fs|, acc) == Some((acc + MeantFields(fs), rest))
    decreases fs, 1
  {
    if fs == [] {
      assert EncodedFields(fs) + rest == rest && acc + [] == acc;
    } else {
      var f, tail := fs[0], EncodedFields(fs[1..]) + rest;
      var acc' := acc + [JsField(f.key, Meant(f.value))];
      StillMissing(fs, acc, Meant(f.value));
      FieldsUnfold(fs, rest);
      MeantUnfold(fs, acc);
      hide Read, Encoded, Meant, EncodedText, Pow256, Fit, EncodedFields, MeantFields, Missing;
      TextReadsBack(f.key, Encoded(f.value) + tail);
      ReadsItem(f.value, tail);
      PutNew(acc, f.key, Meant(f.value));
      ReadsFields(fs[1..], acc', rest);
    }
  }

  lemma StillMissing(fs: seq<Field>, acc: seq<JsField>, v: Js)
    requires fs != [] && !HasKey(fs[1..], fs[0].key) && forall i :: 0 <= i < |fs| ==> Missing(acc, fs[i].key)
    ensures forall i :: 0 <= i < |fs[1..]| ==> Missing(acc + [JsField(fs[0].key, v)], fs[1..][i].key)
  {
    forall i | 0 <= i < |fs[1..]| ensures Missing(acc + [JsField(fs[0].key, v)], fs[1..][i].key) {
      assert fs[1..][i] == fs[i + 1];
      assert Missing(acc, fs[i + 1].key);
    }
  }

  /** A whole reply is one item, and the reader is left with its value and nothing more. */
  lemma ReplyReadsBack(x: Item)
    requires Fit(x)
    ensures Read(Encoded(x)) == Some((Meant(x), []))
  {
    ReadsItem(x, []);
    assert Encoded(x) + [] == Encoded(x);
  }
}
