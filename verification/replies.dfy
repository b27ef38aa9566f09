/**
 The reply of the interactor (src/interactor.c): the writer with its bounded buffer
 (thirdparty/interactor/src/cbor.c), and the ward described through it.
*/
module Replies {
  import opened Wrappers
  import opened Keys
  import opened Cbor

  // ---- The writer ----

  class Writer {
    const p: array<Byte>
    var n: nat
    var over: bool
    ghost var sent: Bytes   // everything asked to be written, kept or not

    /** The buffer holds as much of what was sent as fits, and `over` says whether that is all of it. */
    ghost predicate Valid()
      reads this, p
    {
      && n == (if |sent| < p.Length then |sent| else p.Length)
      && p[..n] == sent[..n]
      && (over <==> |sent| > p.Length)
    }

    constructor (cap: nat)
      ensures Valid() && sent == [] && p.Length == cap && fresh(p)
    {
      p := new Byte[cap](_ => 0);
      n, over, sent := 0, false, [];
    }

    method Raw(b: Byte)
      requires Valid()
      modifies this, p
      ensures Valid() && sent == old(sent) + [b]
    {
      sent := sent + [b];
      if n >= p.Length {
        over := true;
        return;
      }
      p[n] := b;
      n := n + 1;
      assert p[..n] == p[..n - 1] + [b];
    }

    method Head(major: nat, v: nat)
      requires Valid() && major < 8 && v < Pow256(8)
      modifies this, p
      ensures Valid() && sent == old(sent) + Cbor.Head(major, v)
    {
      hide Be, Valid, Pow256;
      if v < 24 {
        Raw(major * 32 + v);
      } else if v < Pow256(1) {
        Raw(major * 32 + 24);
        Spill(v, 1);
      } else if v < Pow256(2) {
        Raw(major * 32 + 25);
        Spill(v, 2);
      } else if v < Pow256(4) {
        Raw(major * 32 + 26);
        Spill(v, 4);
      } else {
        Raw(major * 32 + 27);
        Spill(v, 8);
      }
    }

    /** The argument in k bytes, the highest first. */
    method Spill(v: nat, k: nat)
      requires Valid()
      modifies this, p
      ensures Valid() && sent == old(sent) + Be(v, k)
    {
      hide Valid;
      var i := k;
      while i > 0
        invariant 0 <= i <= k && Valid() && sent == old(sent) + Be(v, k)[..k - i]
      {
        i := i - 1;
        ByteOf(v, k, k - 1 - i);
        assert Be(v, k)[..k - i] == Be(v, k)[..k - 1 - i] + [Be(v, k)[k - 1 - i]];
        Raw(v / Pow256(i) % 256);
      }
      assert Be(v, k)[..k] == Be(v, k);
    }

    method PutInt(v: int)
      requires Valid() && Int64(v)
      modifies this, p
      ensures Valid() && sent == old(sent) + EncodedNum(v)
    {
      SixtyFourBits();
      hide Valid, Pow256, Cbor.Head;
      if v < 0 { Head(1, -(v + 1)); } else { Head(0, v); }
    }

    method PutText(s: Bytes)
      requires Valid() && |s| < Pow256(8)
      modifies this, p
      ensures Valid() && sent == old(sent) + EncodedText(s)
    {
      hide Valid, Pow256, Cbor.Head;
      Head(3, |s|);
      ghost var start := sent;
      var i := 0;
      while i < |s|
        invariant 0 <= i <= |s| && Valid() && sent == start + s[..i]
      {
        Raw(s[i]);
        assert s[..i + 1] == s[..i] + [s[i]];
        i := i + 1;
      }
      assert s[..i] == s;
    }

    /** A field of a record that is being written. */
    method KvInt(key: Bytes, v: int, ghost base: Bytes, ghost fs: seq<Field>) returns (ghost fs': seq<Field>)
      requires Valid() && |key| < Pow256(8) && Int64(v) && sent == base + EncodedFields(fs)
      modifies this, p
      ensures Valid() && fs' == fs + [Field(key, Num(v))] && sent == base + EncodedFields(fs')
    {
      hide Valid, Pow256, EncodedFields, EncodedNum, EncodedText;
      PutText(key);
      PutInt(v);
      fs' := fs + [Field(key, Num(v))];
      FieldsSnoc(fs, Field(key, Num(v)));
      assert Encoded(Num(v)) == EncodedNum(v);
    }
  }

  lemma {:induction false} FieldsSnoc(fs: seq<Field>, f: Field)
    ensures EncodedFields(fs + [f]) == EncodedFields(fs) + EncodedText(f.key) + Encoded(f.value)
    decreases |fs|
  {
    hide Encoded, EncodedText;
    if fs == [] {
      assert fs + [f] == [f] && [f][1..] == [];
      assert EncodedText(f.key) + (Encoded(f.value) + []) == [] + EncodedText(f.key) + Encoded(f.value);
    } else {
      assert (fs + [f])[1..] == fs[1..] + [f];
      FieldsSnoc(fs[1..], f);
      Regroup(EncodedText(fs[0].key), Encoded(fs[0].value), EncodedFields(fs[1..]), EncodedText(f.key),
        Encoded(f.value));
    }
  }

  lemma Regroup(a: Bytes, b: Bytes, c: Bytes, x: Bytes, y: Bytes)
    ensures a + (b + (c + x + y)) == a + (b + c) + x + y
  {
  }

  lemma {:induction false} AllSnoc(xs: seq<Item>, x: Item)
    ensures EncodedAll(xs + [x]) == EncodedAll(xs) + Encoded(x)
    decreases |xs|
  {
    hide Encoded;
    if xs == [] {
      assert xs + [x] == [x] && [x][1..] == [];
    } else {
      assert (xs + [x])[1..] == xs[1..] + [x];
      AllSnoc(xs[1..], x);
    }
  }

  // ---- The ward, as a subscriber sees it ----

  /** A column of a row: text, a number or nothing. */
  type Cell = x: Item | x.Num? || x.Text? || x.Nothing? witness Nothing

  datatype Spark = Spark(id: int, purse: int, wear: int, x: int, y: int, z: int, wire: int, owner: int)
  datatype Scalars = Scalars(cycle: int, treasury: int, debt: int, issued: int, retired: int, spent: int, sparks: int,
                             room: int)

  /** A table as a query returned it; None when the query could not be prepared. */
  type Table = Option<seq<seq<Cell>>>
  datatype Reply = Reply(ok: bool, say: Bytes, honest: bool, ward: Scalars, venues: Table, board: Table,
                         sparks: seq<Spark>)

  /** Short enough for any head. */
  predicate Short(names: seq<Bytes>) { forall i :: 0 <= i < |names| ==> |names[i]| < 24 }

  function VenueCols(): (r: seq<Bytes>)
    ensures |r| == 9 && Short(r)
  {
    [Ascii("id"), Ascii("name"), Ascii("cost"), Ascii("built"), Ascii("x"), Ascii("y"), Ascii("z"), Ascii("wire"),
      Ascii("owner")]
  }

  function BoardCols(): (r: seq<Bytes>)
    ensures |r| == 11 && Short(r)
  {
    [Ascii("id"), Ascii("kind"), Ascii("payout"), Ascii("risk"), Ascii("taken"), Ascii("outcome"),
     Ascii("x"), Ascii("y"), Ascii("z"), Ascii("wire"), Ascii("owner")]
  }

  function SparkCols(): (r: seq<Bytes>)
    ensures |r| == 8 && Short(r)
  {
    [Ascii("id"), Ascii("purse"), Ascii("wear"), Ascii("x"), Ascii("y"), Ascii("z"), Ascii("wire"), Ascii("owner")]
  }

  function WardCols(): (r: seq<Bytes>)
    ensures |r| == 8 && Short(r)
  {
    [Ascii("cycle"), Ascii("treasury"), Ascii("debt"), Ascii("issued"), Ascii("retired"), Ascii("spent"),
      Ascii("sparks"), Ascii("room")]
  }

  function ReplyCols(): (r: seq<Bytes>)
    ensures |r| == 7 && Short(r)
  {
    [Ascii("ok"), Ascii("say"), Ascii("honest"), Ascii("ward"), Ascii("venues"), Ascii("board"), Ascii("sparks")]
  }

  /** No name twice. */
  predicate Distinct(names: seq<Bytes>) {
    forall i, j :: 0 <= i < j < |names| ==> names[i] != names[j]
  }

  function Named(names: seq<Bytes>, values: seq<Item>): (fs: seq<Field>)
    requires |names| == |values|
    ensures |fs| == |names| && forall i :: 0 <= i < |fs| ==> fs[i] == Field(names[i], values[i])
  {
    seq(|names|, i requires 0 <= i < |names| => Field(names[i], values[i]))
  }

  function RowItem(cols: seq<Bytes>, row: seq<Cell>): Item
    requires |row| == |cols|
  {
    Record(Named(cols, row))
  }

  function RowItems(cols: seq<Bytes>, rows: seq<seq<Cell>>): seq<Item>
    requires forall r <- rows :: |r| == |cols|
  {
    if rows == [] then [] else RowItems(cols, rows[..|rows| - 1]) + [RowItem(cols, rows[|rows| - 1])]
  }

  /** A table is streamed; one that could not be read is an empty array. */
  function TableItem(cols: seq<Bytes>, t: Table): Item
    requires t.Some? ==> forall r <- t.value :: |r| == |cols|
  {
    if t.Some? then Stream(RowItems(cols, t.value)) else List([])
  }

  function SparkItem(s: Spark): Item {
    Record(Named(SparkCols(), [Num(s.id), Num(s.purse), Num(s.wear), Num(s.x), Num(s.y), Num(s.z), Num(s.wire),
      Num(s.owner)]))
  }

  function SparkItems(ss: seq<Spark>): seq<Item> {
    if ss == [] then [] else SparkItems(ss[..|ss| - 1]) + [SparkItem(ss[|ss| - 1])]
  }

  function WardItem(w: Scalars): Item {
    Record(Named(WardCols(), [Num(w.cycle), Num(w.treasury), Num(w.debt), Num(w.issued), Num(w.retired), Num(w.spent),
      Num(w.sparks), Num(w.room)]))
  }

  predicate Shaped(r: Reply) {
    && (r.venues.Some? ==> forall row <- r.venues.value :: |row| == |VenueCols()|)
    && (r.board.Some? ==> forall row <- r.board.value :: |row| == |BoardCols()|)
  }

  /** Every number is within sixty-four bits and every text and list is countable in them. */
  predicate FitReply(r: Reply) {
    && |r.say| < Pow256(8) && |r.sparks| < Pow256(8) && FitScalars(r.ward) && (forall s <- r.sparks :: FitSpark(s))
    && (r.venues.Some? ==> FitRows(VenueCols(), r.venues.value))
    && (r.board.Some? ==> FitRows(BoardCols(), r.board.value))
  }

  function ReplyValues(r: Reply): seq<Item>
    requires Shaped(r)
  {
    [Flag(r.ok), Text(r.say), Flag(r.honest), WardItem(r.ward),
     TableItem(VenueCols(), r.venues), TableItem(BoardCols(), r.board), List(SparkItems(r.sparks))]
  }

  function ReplyItem(r: Reply): Item
    requires Shaped(r)
  {
    Record(Named(ReplyCols(), ReplyValues(r)))
  }

  // ---- What a reader finds under each name ----

  /** The record has a field of this name, and it holds this. */
  predicate Says(x: Item, name: Bytes, v: Item) {
    x.Record? && exists i :: 0 <= i < |x.fields| && x.fields[i] == Field(name, v)
  }

  lemma SaysAt(names: seq<Bytes>, values: seq<Item>, i: nat, name: Bytes)
    requires i < |names| == |values| && names[i] == name
    ensures Says(Record(Named(names, values)), name, values[i])
  {
    assert Named(names, values)[i] == Field(name, values[i]);
  }

  lemma WardSays(w: Scalars)
    ensures var x := WardItem(w);
            && |x.fields| == 8
            && Says(x, Ascii("cycle"), Num(w.cycle)) && Says(x, Ascii("treasury"), Num(w.treasury))
            && Says(x, Ascii("debt"), Num(w.debt))
            && Says(x, Ascii("issued"), Num(w.issued)) && Says(x, Ascii("retired"), Num(w.retired))
            && Says(x, Ascii("spent"), Num(w.spent))
            && Says(x, Ascii("sparks"), Num(w.sparks)) && Says(x, Ascii("room"), Num(w.room))
  {
    hide Says, Ascii;
    var names := WardCols();
    var values := [Num(w.cycle), Num(w.treasury), Num(w.debt), Num(w.issued), Num(w.retired), Num(w.spent),
      Num(w.sparks), Num(w.room)];
    SaysAt(names, values, 0, Ascii("cycle"));
    SaysAt(names, values, 1, Ascii("treasury"));
    SaysAt(names, values, 2, Ascii("debt"));
    SaysAt(names, values, 3, Ascii("issued"));
    SaysAt(names, values, 4, Ascii("retired"));
    SaysAt(names, values, 5, Ascii("spent"));
    SaysAt(names, values, 6, Ascii("sparks"));
    SaysAt(names, values, 7, Ascii("room"));
  }

  lemma SparkSays(s: Spark)
    ensures var x := SparkItem(s);
            && |x.fields| == 8
            && Says(x, Ascii("id"), Num(s.id)) && Says(x, Ascii("purse"), Num(s.purse))
            && Says(x, Ascii("wear"), Num(s.wear))
            && Says(x, Ascii("x"), Num(s.x)) && Says(x, Ascii("y"), Num(s.y)) && Says(x, Ascii("z"), Num(s.z))
            && Says(x, Ascii("wire"), Num(s.wire)) && Says(x, Ascii("owner"), Num(s.owner))
  {
    hide Says, Ascii;
    var names := SparkCols();
    var values := [Num(s.id), Num(s.purse), Num(s.wear), Num(s.x), Num(s.y), Num(s.z), Num(s.wire), Num(s.owner)];
    SaysAt(names, values, 0, Ascii("id"));
    SaysAt(names, values, 1, Ascii("purse"));
    SaysAt(names, values, 2, Ascii("wear"));
    SaysAt(names, values, 3, Ascii("x"));
    SaysAt(names, values, 4, Ascii("y"));
    SaysAt(names, values, 5, Ascii("z"));
    SaysAt(names, values, 6, Ascii("wire"));
    SaysAt(names, values, 7, Ascii("owner"));
  }

  lemma ReplySays(r: Reply)
    requires Shaped(r)
    ensures var x := ReplyItem(r);
            && |x.fields| == 7
            && Says(x, Ascii("ok"), Flag(r.ok)) && Says(x, Ascii("say"), Text(r.say))
            && Says(x, Ascii("honest"), Flag(r.honest))
            && Says(x, Ascii("ward"), WardItem(r.ward)) && Says(x, Ascii("venues"), TableItem(VenueCols(), r.venues))
            && Says(x, Ascii("board"), TableItem(BoardCols(), r.board))
            && Says(x, Ascii("sparks"), List(SparkItems(r.sparks)))
  {
    hide Says, Ascii, WardItem, VenueCols, BoardCols, TableItem, SparkItems;
    var names, values := ReplyCols(), ReplyValues(r);
    SaysAt(names, values, 0, Ascii("ok"));
    SaysAt(names, values, 1, Ascii("say"));
    SaysAt(names, values, 2, Ascii("honest"));
    SaysAt(names, values, 3, Ascii("ward"));
    SaysAt(names, values, 4, Ascii("venues"));
    SaysAt(names, values, 5, Ascii("board"));
    SaysAt(names, values, 6, Ascii("sparks"));
  }

  /** The Sparks in their order, and every row of a table with its cells under the columns' names. */
  lemma {:induction false} SparksInOrder(ss: seq<Spark>)
    ensures |SparkItems(ss)| == |ss| && forall i :: 0 <= i < |ss| ==> SparkItems(ss)[i] == SparkItem(ss[i])
  {
    hide SparkItem;
    if ss != [] {
      var init := ss[..|ss| - 1];
      SparksInOrder(init);
      forall i | 0 <= i < |ss| ensures SparkItems(ss)[i] == SparkItem(ss[i]) {
        if i < |init| { assert init[i] == ss[i]; }
      }
    }
  }

  lemma {:induction false} RowsInOrder(cols: seq<Bytes>, rows: seq<seq<Cell>>)
    requires forall r <- rows :: |r| == |cols|
    ensures |RowItems(cols, rows)| == |rows|
    ensures forall i :: 0 <= i < |rows| ==>
              RowItems(cols, rows)[i].Record? && |RowItems(cols, rows)[i].fields| == |cols|
              && forall k :: 0 <= k < |cols| ==> RowItems(cols, rows)[i].fields[k] == Field(cols[k], rows[i][k])
    decreases |rows|
  {
    if rows != [] {
      var init := rows[..|rows| - 1];
      RowsInOrder(cols, init);
      forall i | 0 <= i < |rows|
        ensures RowItems(cols, rows)[i] == RowItem(cols, rows[i])
      {
        if i < |init| {
          assert init[i] == rows[i];
          assert RowItems(cols, init)[i].fields == Named(cols, rows[i]);
        }
      }
    }
  }

  // ---- Saying it ----

  /** One row: a record of its columns. */
  method SayRow(c: Writer, cols: seq<Bytes>, row: seq<Cell>)
    requires c.Valid() && |row| == |cols| < 24 && Short(cols) && forall i :: 0 <= i < |row| ==> Fit(row[i])
    modifies c, c.p
    ensures c.Valid() && c.sent == old(c.sent) + Encoded(RowItem(cols, row))
  {
    hide Writer.Valid, Head, EncodedFields;
    EightBytes();
    hide Pow256;
    c.Head(5, |cols|);
    ghost var base, fs := c.sent, Named(cols, row);
    NoFields();
    assert base + [] == base && fs[..0] == [];
    var i := 0;
    while i < |cols|
      invariant 0 <= i <= |cols| && c.Valid() && c.sent == base + EncodedFields(fs[..i])
    {
      c.PutText(cols[i]);
      SayCell(c, row[i]);
      assert fs[..i + 1] == fs[..i] + [fs[i]];
      FieldsSnoc(fs[..i], fs[i]);
      i := i + 1;
    }
    assert fs[..i] == fs;
    assert Encoded(RowItem(cols, row)) == Head(5, |fs|) + EncodedFields(fs);
  }

  method SayCell(c: Writer, x: Cell)
    requires c.Valid() && Fit(x)
    modifies c, c.p
    ensures c.Valid() && c.sent == old(c.sent) + Encoded(x)
  {
    hide Writer.Valid, Head, Pow256, EncodedNum, EncodedText;
    match x {
      case Text(b) => c.PutText(b);
      case Nothing => c.Raw(0xf6);
      case Num(v) => c.PutInt(v);
    }
  }

  lemma NoFields() ensures EncodedFields([]) == [] && EncodedAll([]) == [] { }

  lemma EightBytes()
    ensures Pow256(8) > 0x1_0000_0000
  {
    SixtyFourBits();
  }

  predicate FitRows(cols: seq<Bytes>, rows: seq<seq<Cell>>) {
    forall k :: 0 <= k < |rows| ==> |rows[k]| == |cols| && forall i :: 0 <= i < |rows[k]| ==> Fit(rows[k][i])
  }

  method SayEach(c: Writer, cols: seq<Bytes>, rows: seq<seq<Cell>>)
    requires c.Valid() && |cols| < 24 && Short(cols) && FitRows(cols, rows)
    modifies c, c.p
    ensures c.Valid() && c.sent == old(c.sent) + EncodedAll(RowItems(cols, rows))
  {
    hide Writer.Valid, RowItem, EncodedAll, Short, Fit;
    ghost var start := c.sent;
    NoFields();
    assert rows[..0] == [] && start + [] == start;
    var i := 0;
    while i < |rows|
      invariant 0 <= i <= |rows| && c.Valid() && c.sent == start + EncodedAll(RowItems(cols, rows[..i]))
    {
      SayRow(c, cols, rows[i]);
      assert rows[..i + 1][..i] == rows[..i];
      AllSnoc(RowItems(cols, rows[..i]), RowItem(cols, rows[i]));
      i := i + 1;
    }
    assert rows[..i] == rows;
  }

  /** say_rows: an array of unknown length, closed by a break; an empty one if there was no statement. */
  method SayRows(c: Writer, key: Bytes, cols: seq<Bytes>, t: Table)
    requires c.Valid() && |key| < 24 && |cols| < 24 && Short(cols) && (t.Some? ==> FitRows(cols, t.value))
    modifies c, c.p
    ensures c.Valid() && c.sent == old(c.sent) + EncodedText(key) + Encoded(TableItem(cols, t))
  {
    EightBytes();
    hide Writer.Valid, Head, Pow256, EncodedText, EncodedAll, Short, FitRows, RowItems;
    c.PutText(key);
    ghost var start := c.sent;
    NoFields();
    if t.None? {
      c.Head(4, 0);
      assert Encoded(List([])) == Head(4, 0) + [] == Head(4, 0);
      return;
    }
    c.Raw(0x9f);
    RowsShaped(cols, t.value);
    ghost var all := EncodedAll(RowItems(cols, t.value));
    SayEach(c, cols, t.value);
    c.Raw(0xff);
    assert c.sent == start + ([0x9f] + (all + [0xff]));
  }

  lemma RowsShaped(cols: seq<Bytes>, rows: seq<seq<Cell>>)
    requires FitRows(cols, rows)
    ensures forall r <- rows :: |r| == |cols|
  {
  }

  predicate FitSpark(s: Spark) {
    Int64(s.id) && Int64(s.purse) && Int64(s.wear) && Int64(s.x) && Int64(s.y) && Int64(s.z) && Int64(s.wire)
      && Int64(s.owner)
  }

  method SaySpark(c: Writer, s: Spark)
    requires c.Valid() && FitSpark(s)
    modifies c, c.p
    ensures c.Valid() && c.sent == old(c.sent) + Encoded(SparkItem(s))
  {
    EightBytes();
    var cols := SparkCols();
    hide Writer.Valid, Head, Pow256, EncodedFields, SparkCols, Int64;
    c.Head(5, 8);
    ghost var base := c.sent;
    NoFields();
    assert base + [] == base;
    ghost var fs := c.KvInt(cols[0], s.id, base, []);
    fs := c.KvInt(cols[1], s.purse, base, fs);
    fs := c.KvInt(cols[2], s.wear, base, fs);
    fs := c.KvInt(cols[3], s.x, base, fs);
    fs := c.KvInt(cols[4], s.y, base, fs);
    fs := c.KvInt(cols[5], s.z, base, fs);
    fs := c.KvInt(cols[6], s.wire, base, fs);
    fs := c.KvInt(cols[7], s.owner, base, fs);
    assert SparkItem(s) == Record(fs);
  }

  predicate FitScalars(w: Scalars) {
    Int64(w.cycle) && Int64(w.treasury) && Int64(w.debt) && Int64(w.issued) && Int64(w.retired) && Int64(w.spent)
      && Int64(w.sparks) && Int64(w.room)
  }

  method SayScalars(c: Writer, w: Scalars)
    requires c.Valid() && FitScalars(w)
    modifies c, c.p
    ensures c.Valid() && c.sent == old(c.sent) + Encoded(WardItem(w))
  {
    EightBytes();
    var cols := WardCols();
    hide Writer.Valid, Head, Pow256, EncodedFields, WardCols, Int64;
    c.Head(5, 8);
    ghost var base := c.sent;
    NoFields();
    assert base + [] == base;
    ghost var fs := c.KvInt(cols[0], w.cycle, base, []);
    fs := c.KvInt(cols[1], w.treasury, base, fs);
    fs := c.KvInt(cols[2], w.debt, base, fs);
    fs := c.KvInt(cols[3], w.issued, base, fs);
    fs := c.KvInt(cols[4], w.retired, base, fs);
    fs := c.KvInt(cols[5], w.spent, base, fs);
    fs := c.KvInt(cols[6], w.sparks, base, fs);
    fs := c.KvInt(cols[7], w.room, base, fs);
    assert WardItem(w) == Record(fs);
  }

  /** say_sparks */
  method SaySparks(c: Writer, key: Bytes, ss: seq<Spark>)
    requires c.Valid() && |key| < 24 && |ss| < Pow256(8) && forall s <- ss :: FitSpark(s)
    modifies c, c.p
    ensures c.Valid() && c.sent == old(c.sent) + EncodedText(key) + Encoded(List(SparkItems(ss)))
  {
    EightBytes();
    hide Writer.Valid, Head, Pow256, EncodedText, EncodedAll, SparkItem, FitSpark;
    c.PutText(key);
    ghost var start := c.sent;
    c.Head(4, |ss|);
    NoFields();
    assert ss[..0] == [];
    var i := 0;
    while i < |ss|
      invariant 0 <= i <= |ss| && c.Valid() && c.sent == start + Head(4, |ss|) + EncodedAll(SparkItems(ss[..i]))
    {
      SaySpark(c, ss[i]);
      assert ss[..i + 1][..i] == ss[..i];
      AllSnoc(SparkItems(ss[..i]), SparkItem(ss[i]));
      i := i + 1;
    }
    assert ss[..i] == ss;
    SparkCount(ss);
    assert Encoded(List(SparkItems(ss))) == Head(4, |ss|) + EncodedAll(SparkItems(ss));
  }

  lemma {:induction false} SparkCount(ss: seq<Spark>)
    ensures |SparkItems(ss)| == |ss|
  {
    hide SparkItem;
    if ss != [] { SparkCount(ss[..|ss| - 1]); }
  }

  /** One more field of the record being written: its key and its value have just been sent. */
  lemma FieldSent(base: Bytes, fs: seq<Field>, f: Field, sent: Bytes)
    requires sent == base + EncodedFields(fs) + EncodedText(f.key) + Encoded(f.value)
    ensures sent == base + EncodedFields(fs + [f])
  {
    hide EncodedFields, EncodedText, Encoded;
    FieldsSnoc(fs, f);
  }

  /** The first three fields of the reply: carried out or not, what is said, and whether the ward is honest. */
  method SayVerdict(c: Writer, r: Reply, cols: seq<Bytes>, ghost base: Bytes, ghost fs: seq<Field>)
    requires c.Valid() && |r.say| < Pow256(8) && |cols| == |fs| == 7 && Short(cols) && c.sent == base
    requires fs[0] == Field(cols[0], Flag(r.ok)) && fs[1] == Field(cols[1], Text(r.say))
    requires fs[2] == Field(cols[2], Flag(r.honest))
    modifies c, c.p
    ensures c.Valid() && c.sent == base + EncodedFields(fs[..3])
  {
    hide Writer.Valid, Pow256, EncodedFields, EncodedText, Encoded;
    EightBytes();
    FlagIs(r.ok);
    FlagIs(r.honest);
    TextIs(r.say);
    NoFields();
    assert base + [] == base && fs[..0] == [];
    c.PutText(cols[0]);
    c.Raw(if r.ok then 0xf5 else 0xf4);
    Sent(base, fs, 0, c.sent);
    c.PutText(cols[1]);
    c.PutText(r.say);
    Sent(base, fs, 1, c.sent);
    c.PutText(cols[2]);
    c.Raw(if r.honest then 0xf5 else 0xf4);
    Sent(base, fs, 2, c.sent);
  }

  lemma TextIs(b: Bytes) ensures Encoded(Text(b)) == EncodedText(b) { }
  lemma FlagIs(f: bool) ensures Encoded(Flag(f)) == [if f then 0xf5 else 0xf4] { }

  /** say_ward: the scalars, the venues, the board and the Sparks, as the last four fields of the reply. */
  method SayWard(c: Writer, r: Reply, cols: seq<Bytes>, ghost base: Bytes, ghost fs: seq<Field>)
    requires c.Valid() && FitReply(r) && Shaped(r) && |cols| == |fs| == 7 && Short(cols)
    requires c.sent == base + EncodedFields(fs[..3])
    requires fs[3] == Field(cols[3], WardItem(r.ward)) && fs[4] == Field(cols[4], TableItem(VenueCols(), r.venues))
    requires fs[5] == Field(cols[5], TableItem(BoardCols(), r.board))
    requires fs[6] == Field(cols[6], List(SparkItems(r.sparks)))
    modifies c, c.p
    ensures c.Valid() && c.sent == base + EncodedFields(fs)
  {
    EightBytes();
    hide Writer.Valid, Pow256, EncodedFields, EncodedText, Encoded, VenueCols, BoardCols, FitScalars, FitSpark, FitRows,
         WardItem, TableItem, SparkItems;
    c.PutText(cols[3]);
    SayScalars(c, r.ward);
    Sent(base, fs, 3, c.sent);
    SayRows(c, cols[4], VenueCols(), r.venues);
    Sent(base, fs, 4, c.sent);
    SayRows(c, cols[5], BoardCols(), r.board);
    Sent(base, fs, 5, c.sent);
    SaySparks(c, cols[6], r.sparks);
    Sent(base, fs, 6, c.sent);
    assert fs[..7] == fs;
  }

  /** The reply map at the end of ward_command: seven fields, and exactly one item. */
  method SayReply(c: Writer, r: Reply)
    requires c.Valid() && FitReply(r) && Shaped(r)
    modifies c, c.p
    ensures c.Valid() && c.sent == old(c.sent) + Encoded(ReplyItem(r))
  {
    EightBytes();
    var cols := ReplyCols();
    hide Writer.Valid, Head, Pow256, EncodedFields, ReplyCols, FitScalars, FitSpark, FitRows, WardItem, TableItem,
         SparkItems;
    c.Head(5, 7);
    ghost var base, fs := c.sent, Named(cols, ReplyValues(r));
    SayVerdict(c, r, cols, base, fs);
    SayWard(c, r, cols, base, fs);
    assert Encoded(ReplyItem(r)) == Head(5, 7) + EncodedFields(fs);
  }

  lemma Sent(base: Bytes, fs: seq<Field>, i: nat, sent: Bytes)
    requires i < |fs| && sent == base + EncodedFields(fs[..i]) + EncodedText(fs[i].key) + Encoded(fs[i].value)
    ensures sent == base + EncodedFields(fs[..i + 1])
  {
    assert fs[..i + 1] == fs[..i] + [fs[i]];
    FieldSent(base, fs[..i], fs[i], sent);
  }

  // ---- Every reply fits, so every reply is read back ----

  /** Enough of a name to tell the names of one record apart: its length, its first and its last byte. */
  function Weight(b: Bytes): int {
    if b == [] then 0 else |b| * 65536 + (b[0] as int) * 256 + b[|b| - 1] as int
  }

  lemma OneOf(i: nat)
    requires i < 11
    ensures i == 0 || i == 1 || i == 2 || i == 3 || i == 4 || i == 5 || i == 6 || i == 7 || i == 8 || i == 9 || i == 10
  {
  }

  /** No table names a column twice. */
  lemma TableColsDistinct(c: seq<Bytes>)
    requires c == VenueCols() || c == BoardCols()
    ensures Distinct(c)
  {
    forall i, j | 0 <= i < j < |c|
      ensures c[i] != c[j]
    {
      OneOf(i);
      OneOf(j);
      assert Weight(c[i]) != Weight(c[j]);
    }
  }

  /** Nor does a record of numbers. */
  lemma RecordColsDistinct(c: seq<Bytes>)
    requires c == SparkCols() || c == WardCols()
    ensures Distinct(c)
  {
    forall i, j | 0 <= i < j < |c|
      ensures c[i] != c[j]
    {
      OneOf(i);
      OneOf(j);
      assert Weight(c[i]) != Weight(c[j]);
    }
  }

  /** Nor does the reply. */
  lemma ReplyColsDistinct(c: seq<Bytes>)
    requires c == ReplyCols()
    ensures Distinct(c)
  {
    forall i, j | 0 <= i < j < |c|
      ensures c[i] != c[j]
    {
      OneOf(i);
      OneOf(j);
      assert Weight(c[i]) != Weight(c[j]);
    }
  }

  lemma {:induction false} NamedFits(names: seq<Bytes>, values: seq<Item>, from: nat)
    requires |names| == |values| && from <= |names| < 24 && Short(names) && Distinct(names)
    requires forall i :: 0 <= i < |values| ==> Fit(values[i])
    ensures FitFields(Named(names, values)[from..])
    decreases |names| - from
  {
    EightBytes();
    hide Pow256, Fit;
    var fs := Named(names, values);
    if from < |names| {
      NamedFits(names, values, from + 1);
      assert fs[from..][1..] == fs[from + 1..];
      var tail := fs[from + 1..];
      forall i | 0 <= i < |tail| ensures tail[i].key != names[from] { assert tail[i] == fs[from + 1 + i]; }
    }
  }

  lemma RecordFits(names: seq<Bytes>, values: seq<Item>)
    requires |names| == |values| < 24 && Short(names) && Distinct(names) && forall i :: 0 <= i < |values| ==>
      Fit(values[i])
    ensures Fit(Record(Named(names, values)))
  {
    EightBytes();
    hide Pow256, Short, Distinct, FitFields;
    NamedFits(names, values, 0);
    assert Named(names, values)[0..] == Named(names, values);
  }

  lemma {:induction false} AllFit(xs: seq<Item>)
    requires forall i :: 0 <= i < |xs| ==> Fit(xs[i])
    ensures FitAll(xs)
  {
    hide Fit;
    if xs != [] { AllFit(xs[1..]); }
  }

  lemma {:induction false} RowItemsFit(cols: seq<Bytes>, rows: seq<seq<Cell>>)
    requires FitRows(cols, rows) && |cols| < 24 && Short(cols) && Distinct(cols) && forall r <- rows :: |r| == |cols|
    ensures forall i :: 0 <= i < |RowItems(cols, rows)| ==> Fit(RowItems(cols, rows)[i])
    decreases |rows|
  {
    hide Fit, Short, Distinct;
    if rows != [] {
      var n := |rows| - 1;
      RowItemsFit(cols, rows[..n]);
      RecordFits(cols, rows[n]);
    }
  }

  lemma TableFits(cols: seq<Bytes>, t: Table)
    requires |cols| < 24 && Short(cols) && Distinct(cols)
    requires t.Some? ==> FitRows(cols, t.value) && forall r <- t.value :: |r| == |cols|
    ensures Fit(TableItem(cols, t))
  {
    EightBytes();
    hide Pow256, Short, Distinct, FitRows, RowItems;
    if t.Some? {
      RowItemsFit(cols, t.value);
      AllFit(RowItems(cols, t.value));
    }
  }

  lemma SparkFits(s: Spark)
    requires FitSpark(s)
    ensures Fit(SparkItem(s))
  {
    hide SparkCols, Distinct, Short, Int64;
    RecordColsDistinct(SparkCols());
    RecordFits(SparkCols(), [Num(s.id), Num(s.purse), Num(s.wear), Num(s.x), Num(s.y), Num(s.z), Num(s.wire),
      Num(s.owner)]);
  }

  lemma WardFits(w: Scalars)
    requires FitScalars(w)
    ensures Fit(WardItem(w))
  {
    hide WardCols, Distinct, Short, Int64;
    RecordColsDistinct(WardCols());
    RecordFits(WardCols(), [Num(w.cycle), Num(w.treasury), Num(w.debt), Num(w.issued), Num(w.retired), Num(w.spent),
      Num(w.sparks), Num(w.room)]);
  }

  lemma {:induction false} SparksFit(ss: seq<Spark>)
    requires forall s <- ss :: FitSpark(s)
    ensures forall i :: 0 <= i < |SparkItems(ss)| ==> Fit(SparkItems(ss)[i])
  {
    hide Fit, FitSpark, SparkItem;
    if ss != [] {
      SparksFit(ss[..|ss| - 1]);
      SparkFits(ss[|ss| - 1]);
    }
  }

  lemma ReplyFits(r: Reply)
    requires Shaped(r) && FitReply(r)
    ensures Fit(ReplyItem(r))
  {
    hide VenueCols, BoardCols, ReplyCols, Distinct, Short, FitRows, FitSpark, FitScalars, WardItem, TableItem,
         SparkItems, Pow256;
    TableColsDistinct(VenueCols());
    TableColsDistinct(BoardCols());
    ReplyColsDistinct(ReplyCols());
    WardFits(r.ward);
    TableFits(VenueCols(), r.venues);
    TableFits(BoardCols(), r.board);
    SparksFit(r.sparks);
    AllFit(SparkItems(r.sparks));
    SparkCount(r.sparks);
    RecordFits(ReplyCols(), ReplyValues(r));
  }

  /**
   ward_ask: whatever the ward holds, a reply that fits the caller's buffer is a single item
   that reads back as the same value with every byte used; one that does not is reported as
   nothing, never cut.
  */
  method Ask(r: Reply, cap: nat) returns (bytes: Bytes)
    requires Shaped(r) && FitReply(r)
    ensures |Encoded(ReplyItem(r))| <= cap ==>
      bytes == Encoded(ReplyItem(r)) && Read(bytes) == Some((Meant(ReplyItem(r)), []))
    ensures |Encoded(ReplyItem(r))| > cap ==> bytes == []
  {
    hide Encoded, Read, ReplyItem, Meant, FitReply, Fit;
    var c := new Writer(cap);
    SayReply(c, r);
    ReplyFits(r);
    ReplyReadsBack(ReplyItem(r));
    assert [] + Encoded(ReplyItem(r)) == Encoded(ReplyItem(r));
    if c.over { return []; }
    return c.p[..c.n];
  }
}
