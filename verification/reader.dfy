/** The client's reader (client/src/cbor.js): a cursor that moves over the reply. An error is None. */
module ReplyReader {
  import opened Wrappers
  import opened Keys
  import opened Cbor

  class Reader {
    const b: Bytes
    var i: nat

    constructor (b: Bytes)
      ensures this.b == b && Left() == b
    {
      this.b, i := b, 0;
    }

    /** What the cursor has not passed; a text that ran past the end leaves nothing. */
    ghost function Left(): Bytes
      reads this
    {
      if i <= |b| then b[i..] else []
    }

    method NextByte() returns (r: Option<Byte>)
      modifies this
      ensures r.None? <==> old(Left()) == []
      ensures r.Some? ==> r.value == old(Left())[0] && Left() == old(Left())[1..]
    {
      if i >= |b| { return None; }
      r := Some(b[i]);
      i := i + 1;
      assert b[i..] == b[i - 1..][1..];
    }

    /** n bytes, the highest first. */
    method Bytes(n: nat) returns (r: Option<nat>)
      modifies this
      ensures r.None? <==> |old(Left())| < n
      ensures r.Some? ==> r.value == FromBe(old(Left())[..n]) && Left() == old(Left())[n..]
    {
      ghost var s := Left();
      var v: nat, k: nat := 0, 0;
      while k < n
        invariant 0 <= k <= n && k <= |s| && v == FromBe(s[..k]) && Left() == s[k..]
      {
        var x := NextByte();
        if x.None? { return None; }
        assert s[..k + 1][..k] == s[..k];
        assert s[..k + 1][k] == x.value;
        v, k := v * 256 + (x.value as int), k + 1;
      }
      r := Some(v);
    }

    method Arg(low: nat) returns (r: Option<nat>)
      modifies this
      ensures r.None? <==> ReadArg(low, old(Left())).None?
      ensures r.Some? ==> ReadArg(low, old(Left())) == Some((r.value, Left()))
    {
      hide FromBe;
      if low < 24 { return Some(low); }
      if low == 24 { r := Bytes(1); return; }
      if low == 25 { r := Bytes(2); return; }
      if low == 26 { r := Bytes(4); return; }
      if low == 27 { r := Bytes(8); return; }
      return None;
    }

    /** value: exactly what the bytes say, or an error exactly when they say nothing readable. */
    method Value() returns (r: Option<Js>)
      modifies this
      ensures r.None? <==> Read(old(Left())).None?
      ensures r.Some? ==> Read(old(Left())) == Some((r.value, Left()))
      decreases |Left()|, 0
    {
      hide ReadArg, ReadMany, ReadStream, ReadFields;
      var x := NextByte();
      if x.None? { return None; }
      var major, low := x.value / 32, x.value % 32;
      if x.value == 0xff { return Some(JsBreak); }
      if major == 4 && low == 31 {
        var out := ManyUntilBreak();
        return if out.None? then None else Some(JsArray(out.value));
      }
      if major == 7 {
        return if low == 20 then Some(JsBool(false)) else if low == 21 then Some(JsBool(true))
          else if low == 22 then Some(JsNull) else None;
      }
      if major !in {0, 1, 3, 4, 5} { return None; }
      var a := Arg(low);
      if a.None? { return None; }
      match major {
        case 0 => r := Some(JsNum(a.value));
        case 1 => r := Some(JsNum(-1 - a.value));
        case 3 => r := TextOf(a.value);
        case 4 =>
          var out := Many(a.value);
          r := if out.None? then None else Some(JsArray(out.value));
        case _ =>
          var out := Fields(a.value);
          r := if out.None? then None else Some(JsObject(out.value));
      }
    }

    /** The next n bytes as text; the cursor moves by n whether or not they are there. */
    method TextOf(n: nat) returns (r: Option<Js>)
      modifies this
      ensures r == Some(JsText(Taken(old(Left()), n))) && Left() == Dropped(old(Left()), n)
    {
      var from, to := if i <= |b| then i else |b|, if i + n <= |b| then i + n else |b|;
      r := Some(JsText(b[from..to]));
      assert b[from..to] == Taken(Left(), n);
      assert i + n <= |b| ==> b[i + n..] == b[i..][n..];
      i := i + n;
    }

    method Many(n: nat) returns (r: Option<seq<Js>>)
      modifies this
      ensures r.None? <==> ReadMany(old(Left()), n).None?
      ensures r.Some? ==> ReadMany(old(Left()), n) == Some((r.value, Left()))
      decreases |Left()|, 1
    {
      hide Read;
      ghost var s := Left();
      OntoNone(ReadMany(s, n));
      var out, k := [], 0;
      while k < n
        invariant 0 <= k <= n && |Left()| <= |s| && ReadMany(s, n) == Onto(out, ReadMany(Left(), n - k))
      {
        ghost var here := Left();
        var v := Value();
        if v.None? { return None; }
        OntoOne(out, v.value, ReadMany(Left(), n - k - 1));
        out, k := out + [v.value], k + 1;
      }
      assert out + [] == out;
      r := Some(out);
    }

    method ManyUntilBreak() returns (r: Option<seq<Js>>)
      modifies this
      ensures r.None? <==> ReadStream(old(Left())).None?
      ensures r.Some? ==> ReadStream(old(Left())) == Some((r.value, Left()))
      decreases |Left()|, 1
    {
      hide Read;
      ghost var s := Left();
      OntoNone(ReadStream(s));
      var out := [];
      while true
        invariant |Left()| <= |s| && ReadStream(s) == Onto(out, ReadStream(Left()))
        decreases |Left()|
      {
        var v := Value();
        if v.None? { return None; }
        if v.value.JsBreak? {
          assert out + [] == out;
          return Some(out);
        }
        OntoOne(out, v.value, ReadStream(Left()));
        out := out + [v.value];
      }
    }

    method Fields(n: nat) returns (r: Option<seq<JsField>>)
      modifies this
      ensures r.None? <==> ReadFields(old(Left()), n, []).None?
      ensures r.Some? ==> ReadFields(old(Left()), n, []) == Some((r.value, Left()))
      decreases |Left()|, 1
    {
      hide Read;
      ghost var s := Left();
      var out, k := [], 0;
      while k < n
        invariant 0 <= k <= n && |Left()| <= |s| && ReadFields(s, n, []) == ReadFields(Left(), n - k, out)
      {
        var key := Value();
        if key.None? || !key.value.JsText? { return None; }
        var v := Value();
        if v.None? { return None; }
        out, k := Put(out, key.value.b, v.value), k + 1;
      }
      r := Some(out);
    }
  }

  /** What was read before, in front of what is read now. */
  function Onto(out: seq<Js>, r: Option<(seq<Js>, Bytes)>): Option<(seq<Js>, Bytes)> {
    if r.None? then None else Some((out + r.value.0, r.value.1))
  }

  lemma OntoNone(r: Option<(seq<Js>, Bytes)>)
    ensures Onto([], r) == r
  {
    if r.Some? { assert [] + r.value.0 == r.value.0; }
  }

  lemma OntoOne(out: seq<Js>, v: Js, r: Option<(seq<Js>, Bytes)>)
    ensures Onto(out + [v], r) == if r.None? then None else Some((out + ([v] + r.value.0), r.value.1))
  {
    if r.Some? { assert out + [v] + r.value.0 == out + ([v] + r.value.0); }
  }

  /** decode */
  method Decode(bytes: Bytes) returns (r: Option<Js>)
    ensures r == if Read(bytes).None? then None else Some(Read(bytes).value.0)
  {
    var reader := new Reader(bytes);
    r := reader.Value();
  }

  /**
   decodeFramed: a reply behind its length, as it stands in a stream. Nothing until all of it
   has arrived; then the reply's own value, and where the next one starts.
  */
  method DecodeFramed(bytes: Bytes) returns (used: Option<nat>, r: Option<Js>)
    ensures used.Some? <==> |bytes| >= 4 && |bytes| >= 4 + FromBe(bytes[..4])
    ensures used.Some? ==> used.value == 4 + FromBe(bytes[..4])
    ensures used.Some? ==>
      r == if Read(bytes[4..used.value]).None? then None else Some(Read(bytes[4..used.value]).value.0)
  {
    if |bytes| < 4 { return None, None; }
    var reader := new Reader(bytes);
    var n := reader.Bytes(4);
    if n.None? || |bytes| < 4 + n.value { return None, None; }
    used := Some(4 + n.value);
    r := Decode(bytes[4..4 + n.value]);
  }

  /** A reply that was written, framed and followed by anything at all is read back as itself. */
  lemma FramedReplyReadsBack(x: Item, rest: Bytes)
    requires Fit(x) && |Encoded(x)| < Pow256(4)
    ensures var bytes := Be(|Encoded(x)|, 4) + Encoded(x) + rest;
      (FromBe(bytes[..4]) == |Encoded(x)| && Read(bytes[4..4 + |Encoded(x)|]) == Some((Meant(x), [])))
  {
    hide Encoded, Read, Meant, Fit;
    var e := Encoded(x);
    var bytes := Be(|e|, 4) + e + rest;
    ReadsBack(|e|, 4);
    assert bytes[..4] == Be(|e|, 4) && bytes[4..4 + |e|] == e;
    ReplyReadsBack(x);
  }
}
