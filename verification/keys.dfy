/**
 The keys of the store (thirdparty/store-plane/fdb_keys.h): numbers big endian, the
 bound after a prefix, and what the ranges built from them hold
 (thirdparty/store-plane/fdb_vfs.c). Keys are ordered byte by byte.
*/
module Keys {
  type Byte = b: int | 0 <= b < 256
  type Bytes = seq<Byte>

  const SLASH: Byte := 47

  // ---- Order ----

  /** a comes strictly before b. */
  predicate Before(a: Bytes, b: Bytes) {
    b != [] && (a == [] || a[0] < b[0] || (a[0] == b[0] && Before(a[1..], b[1..])))
  }

  predicate InRange(k: Bytes, from: Bytes, to: Bytes) {
    !Before(k, from) && Before(k, to)
  }

  predicate HasPrefix(k: Bytes, p: Bytes) {
    |p| <= |k| && k[..|p|] == p
  }

  /** Two keys, neither before the other, are one. */
  lemma {:induction false} OrderTotal(a: Bytes, b: Bytes)
    ensures a == b || Before(a, b) || Before(b, a)
    ensures !(Before(a, b) && Before(b, a)) && (a == b ==> !Before(a, b))
    decreases |a|
  {
    if a != [] && b != [] {
      OrderTotal(a[1..], b[1..]);
      if a[0] == b[0] && a[1..] == b[1..] { assert a == [a[0]] + a[1..] && b == [b[0]] + b[1..]; }
    }
  }

  lemma {:induction false} BeforeBehindPrefix(p: Bytes, a: Bytes, b: Bytes)
    ensures Before(p + a, p + b) <==> Before(a, b)
  {
    if p == [] {
      assert p + a == a && p + b == b;
    } else {
      assert (p + a)[1..] == p[1..] + a && (p + b)[1..] == p[1..] + b;
      BeforeBehindPrefix(p[1..], a, b);
    }
  }

  // ---- Numbers ----

  function Pow256(n: nat): nat {
    if n == 0 then 1 else 256 * Pow256(n - 1)
  }

  /** v in n bytes, the highest first. */
  function Be(v: nat, n: nat): (s: Bytes)
    ensures |s| == n
  {
    if n == 0 then [] else Be(v / 256, n - 1) + [v % 256]
  }

  function FromBe(s: Bytes): nat {
    if s == [] then 0 else FromBe(s[..|s| - 1]) * 256 + s[|s| - 1]
  }

  lemma {:induction false} ReadsBack(v: nat, n: nat)
    requires v < Pow256(n)
    ensures FromBe(Be(v, n)) == v
    decreases n
  {
    if n > 0 {
      ReadsBack(v / 256, n - 1);
      assert Be(v, n)[..n - 1] == Be(v / 256, n - 1);
    }
  }

  lemma {:induction false} BeforeAppended(a: Bytes, b: Bytes, x: Byte, y: Byte)
    requires |a| == |b|
    ensures Before(a + [x], b + [y]) <==> Before(a, b) || (a == b && x < y)
    decreases |a|
  {
    if a != [] {
      assert (a + [x])[1..] == a[1..] + [x] && (b + [y])[1..] == b[1..] + [y];
      BeforeAppended(a[1..], b[1..], x, y);
      assert a == [a[0]] + a[1..] && b == [b[0]] + b[1..];
    } else {
      assert b == [] && a + [x] == [x] && b + [y] == [y];
    }
  }

  /** The order of the keys is the order of the numbers. */
  lemma {:induction false} OrderOfNumbers(v: nat, w: nat, n: nat)
    requires v < Pow256(n) && w < Pow256(n)
    ensures Before(Be(v, n), Be(w, n)) <==> v < w
    decreases n
  {
    if n > 0 {
      OrderOfNumbers(v / 256, w / 256, n - 1);
      BeforeAppended(Be(v / 256, n - 1), Be(w / 256, n - 1), v % 256, w % 256);
      if Be(v / 256, n - 1) == Be(w / 256, n - 1) {
        ReadsBack(v / 256, n - 1);
        ReadsBack(w / 256, n - 1);
      }
    }
  }

  /** Byte i of n is the number shifted down past the n - 1 - i bytes below it. */
  lemma {:induction false} ByteOf(v: nat, n: nat, i: nat)
    requires i < n
    ensures Pow256(n - 1 - i) > 0 && Be(v, n)[i] == v / Pow256(n - 1 - i) % 256
    decreases n
  {
    if i < n - 1 {
      ByteOf(v / 256, n - 1, i);
      DivDiv(v, Pow256(n - 2 - i));
    }
  }

  lemma DivDiv(v: nat, d: nat)
    requires d > 0
    ensures v / 256 / d == v / (256 * d)
  {
    var q, r, s := v / 256 / d, v / 256 % d, v % 256;
    assert v / 256 == q * d + r;
    assert v == q * (256 * d) + (256 * r + s);
    Quotient(v, 256 * d, q, 256 * r + s);
  }

  lemma Quotient(v: nat, d: nat, q: nat, r: nat)
    requires d > 0 && v == q * d + r && r < d
    ensures v / d == q
  {
    var p := v / d;
    assert v == p * d + v % d;
    if p < q { MulMono(p + 1, q, d); }
    if q < p { MulMono(q + 1, p, d); }
  }

  lemma MulMono(a: nat, b: nat, d: nat)
    requires a <= b
    ensures a * d <= b * d
  {
  }

  /** put_be32 and put_be64: the bytes go into the caller's buffer, and nowhere else. */
  method PutBe(out: array<Byte>, at: nat, v: nat, n: nat)
    requires at + n <= out.Length
    modifies out
    ensures out[..] == old(out[..at]) + Be(v, n) + old(out[at + n..])
  {
    ghost var was := out[..];
    var i := 0;
    while i < n
      invariant 0 <= i <= n && out.Length == |was|
      invariant forall j :: 0 <= j < |was| && !(at <= j < at + i) ==> out[j] == was[j]
      invariant forall j :: 0 <= j < i ==> out[at + j] == Be(v, n)[j]
    {
      ByteOf(v, n, i);
      out[at + i] := v / Pow256(n - 1 - i) % 256;
      i := i + 1;
    }
    assert out[at..at + n] == Be(v, n);
    assert out[..] == out[..at] + out[at..at + n] + out[at + n..];
  }

  /** get_be64 */
  method GetBe64(s: array<Byte>, at: nat) returns (v: nat)
    requires at + 8 <= s.Length
    ensures v == FromBe(s[at..at + 8])
  {
    v := 0;
    var i := 0;
    while i < 8
      invariant 0 <= i <= 8 && v == FromBe(s[at..at + i])
    {
      assert s[at..at + i + 1][..i] == s[at..at + i];
      v := v * 256 + s[at + i];
      i := i + 1;
    }
  }

  // ---- The bound after a prefix ----

  predicate AllFF(p: Bytes) { forall i :: 0 <= i < |p| ==> p[i] == 255 }

  /** The prefix without its trailing 0xFF bytes, its last byte one higher; nothing if there is no other byte. */
  function KeyAfter(p: Bytes): (r: Bytes)
    ensures r == [] <==> AllFF(p)
  {
    if p == [] then []
    else if p[|p| - 1] == 255 then KeyAfter(p[..|p| - 1])
    else p[..|p| - 1] + [p[|p| - 1] + 1]
  }

  /** key_after, in the buffer that holds the prefix. */
  method KeyAfterInPlace(out: array<Byte>, plen: nat) returns (n: nat)
    requires plen <= out.Length
    modifies out
    ensures n <= plen && out[..n] == KeyAfter(old(out[..plen])) && out[plen..] == old(out[plen..])
  {
    ghost var p := out[..plen];
    n := plen;
    while n > 0 && out[n - 1] == 255
      invariant n <= plen && KeyAfter(out[..n]) == KeyAfter(p) && out[..] == old(out[..])
    {
      assert out[..n][..n - 1] == out[..n - 1];
      n := n - 1;
    }
    if n > 0 {
      assert out[..n][..n - 1] == out[..n - 1];
      out[n - 1] := out[n - 1] + 1;
      assert out[..n] == out[..n - 1] + [out[n - 1]];
    }
  }

  lemma {:induction false} NotBeforePrefix(k: Bytes, p: Bytes)
    requires HasPrefix(k, p)
    ensures !Before(k, p)
  {
    if p != [] {
      assert k[1..][..|p| - 1] == k[..|p|][1..] == p[1..];
      NotBeforePrefix(k[1..], p[1..]);
    }
  }

  /** The range from a prefix to the key after it holds exactly the keys under the prefix. */
  lemma {:induction false} RangeIsPrefix(k: Bytes, p: Bytes)
    requires !AllFF(p)
    ensures InRange(k, p, KeyAfter(p)) <==> HasPrefix(k, p)
    decreases |p|
  {
    if |p| == 1 {
      assert p == [p[0]] && p[..0] == [] && p[0] != 255;
      assert KeyAfter(p) == [p[0] + 1];
      var q := KeyAfter(p);
      assert p[1..] == [] && q[1..] == [];
      if k != [] {
        PrefixTail(k, p);
        assert !Before(k[1..], p[1..]) && !Before(k[1..], q[1..]);
        assert Before(k, q) <==> k[0] <= p[0];
        assert Before(k, p) <==> k[0] < p[0];
      }
    } else if AllFF(p[1..]) {
      KeyAfterHead(p);
      var q := KeyAfter(p);
      assert q[1..] == [];
      if k != [] {
        FFIsLast(k[1..], p[1..]);
        PrefixTail(k, p);
        assert !Before(k[1..], q[1..]);
        assert Before(k, q) <==> k[0] <= p[0];
      }
    } else {
      KeyAfterTail(p);
      if k != [] { RangeIsPrefix(k[1..], p[1..]); PrefixTail(k, p); }
      var q := KeyAfter(p);
      assert q[0] == p[0] && q[1..] == KeyAfter(p[1..]);
    }
  }

  lemma PrefixTail(k: Bytes, p: Bytes)
    requires k != [] && p != []
    ensures HasPrefix(k, p) <==> k[0] == p[0] && HasPrefix(k[1..], p[1..])
  {
    if k[0] == p[0] && HasPrefix(k[1..], p[1..]) {
      assert k[..|p|] == [k[0]] + k[1..][..|p| - 1] && p == [p[0]] + p[1..];
    }
    if HasPrefix(k, p) { assert k[1..][..|p| - 1] == k[..|p|][1..]; }
  }

  /** Nothing after a run of 0xFF but what starts with it. */
  lemma {:induction false} FFIsLast(k: Bytes, p: Bytes)
    requires AllFF(p)
    ensures !Before(k, p) <==> HasPrefix(k, p)
  {
    if p != [] && k != [] {
      FFIsLast(k[1..], p[1..]);
      PrefixTail(k, p);
    }
  }

  lemma {:induction false} KeyAfterHead(p: Bytes)
    requires |p| > 1 && p[0] < 255 && AllFF(p[1..])
    ensures KeyAfter(p) == [p[0] + 1]
    decreases |p|
  {
    var init := p[..|p| - 1];
    assert p[|p| - 1] == p[1..][|p| - 2] == 255;
    if |init| > 1 {
      assert AllFF(init[1..]) by { assert forall i :: 0 <= i < |init| - 1 ==> init[1..][i] == p[1..][i]; }
      KeyAfterHead(init);
    } else {
      assert init == [p[0]] && init[..0] == [];
    }
  }

  lemma {:induction false} KeyAfterTail(p: Bytes)
    requires |p| > 1 && !AllFF(p[1..])
    ensures KeyAfter(p) == [p[0]] + KeyAfter(p[1..])
    decreases |p|
  {
    var init := p[..|p| - 1];
    assert p[1..][..|p| - 2] == init[1..] && p[1..][|p| - 2] == p[|p| - 1];
    if p[|p| - 1] == 255 {
      assert |init| > 1 && !AllFF(init[1..]) by {
        var i :| 0 <= i < |p| - 1 && p[1..][i] != 255;
        assert i < |p| - 2 && init[1..][i] == p[1..][i];
      }
      KeyAfterTail(init);
    } else {
      assert init == [p[0]] + init[1..];
    }
  }

  /** A prefix of nothing but 0xFF has no key after it: the range is empty. */
  lemma RangeOfAllFFIsEmpty(k: Bytes, p: Bytes)
    requires AllFF(p)
    ensures !InRange(k, p, KeyAfter(p))
  {
  }

  // ---- The layout ----

  /** Every key the store plane builds. */
  datatype Key =
    | Meta(name: Bytes, what: What)
    | Pidx(name: Bytes, pgno: nat)
    | Delta(name: Bytes, txid: nat, pgno: nat)
    | Shard(name: Bytes, asOf: nat, pgno: nat)
    | ShardN(name: Bytes, asOf: nat)
    | TxnStatus(txnid: nat)
    | TxnPart(txnid: nat, name: Bytes)

  datatype What = HEAD | SIZE | FENCE | LOGN

  function Ascii(s: string): Bytes
    requires forall i :: 0 <= i < |s| ==> s[i] < 128 as char
  {
    seq(|s|, i requires 0 <= i < |s| => s[i] as int)
  }

  function DbRoot(): (r: Bytes) ensures |r| == 8 && r[5] == 100 { Ascii("weft/db/") }
  function TxnRoot(): (r: Bytes) ensures |r| == 9 && r[5] == 116 { Ascii("weft/txn/") }

  /** What follows the name of a database, its slash included. */
  function WhatText(w: What): (r: Bytes)
    ensures |r| >= 3 && r[0] == SLASH && r[1] in {72, 83, 70, 76} && (r[1] == 83 ==> r[2] == 73)
  {
    match w
    case HEAD => Ascii("/HEAD")
    case SIZE => Ascii("/SIZE")
    case FENCE => Ascii("/FENCE")
    case LOGN => Ascii("/LOGN")
  }

  function PidxText(): (r: Bytes) ensures |r| == 6 && r[0] == SLASH && r[1] == 80 { Ascii("/PIDX/") }
  function DeltaText(): (r: Bytes) ensures |r| == 7 && r[0] == SLASH && r[1] == 68 && r[6] == SLASH { Ascii("/DELTA/") }

  function ShardText(): (r: Bytes)
    ensures |r| == 7 && r[0] == SLASH && r[1] == 83 && r[2] == 72 && r[6] == SLASH
  {
    Ascii("/SHARD/")
  }

  function ShardNText(): (r: Bytes)
    ensures |r| == 8 && r[0] == SLASH && r[1] == 83 && r[2] == 72 && r[6] == 78
  {
    Ascii("/SHARDN/")
  }

  /** The bytes after the name. */
  function Tail(k: Key): Bytes
    requires !k.TxnStatus? && !k.TxnPart?
  {
    match k
    case Meta(_, what) => WhatText(what)
    case Pidx(_, pgno) => PidxText() + Be(pgno, 4)
    case Delta(_, txid, pgno) => DeltaText() + (Be(txid, 8) + Be(pgno, 4))
    case Shard(_, asOf, pgno) => ShardText() + (Be(asOf, 8) + Be(pgno, 4))
    case ShardN(_, asOf) => ShardNText() + Be(asOf, 8)
  }

  function BytesOf(k: Key): Bytes {
    match k
    case TxnStatus(id) => TxnRoot() + (Be(id, 8) + Ascii("/STATUS"))
    case TxnPart(id, name) => TxnRoot() + (Be(id, 8) + Ascii("/PART/") + name)
    case _ => DbRoot() + (k.name + Tail(k))
  }

  predicate Fits(k: Key) {
    match k
    case Meta(_, _) => true
    case Pidx(_, p) => p < Pow256(4)
    case Delta(_, t, p) => t < Pow256(8) && p < Pow256(4)
    case Shard(_, t, p) => t < Pow256(8) && p < Pow256(4)
    case ShardN(_, t) => t < Pow256(8)
    case TxnStatus(t) => t < Pow256(8)
    case TxnPart(t, _) => t < Pow256(8)
  }

  /** A database name without a slash. */
  predicate Plain(k: Key) { !k.TxnStatus? && !k.TxnPart? ==> SLASH !in k.name }

  /** Up to its first slash a text is its name. */
  lemma {:induction false} NameEndsAtSlash(a: Bytes, x: Bytes, b: Bytes, y: Bytes)
    requires SLASH !in a && SLASH !in b && x != [] && y != [] && x[0] == SLASH && y[0] == SLASH
    ensures HasPrefix(a + x, b + y) <==> a == b && HasPrefix(x, y)
    decreases |a|
  {
    var k, p := a + x, b + y;
    PrefixTail(k, p);
    if a == [] {
      assert k == x;
      if b == [] { assert p == y; } else { assert p[0] == b[0] && b[0] in b; }
    } else {
      assert k[0] == a[0] && a[0] in a;
      if b == [] {
        assert p == y;
      } else {
        assert p[0] == b[0];
        assert k[1..] == a[1..] + x && p[1..] == b[1..] + y;
        NameEndsAtSlash(a[1..], x, b[1..], y);
        assert a == [a[0]] + a[1..] && b == [b[0]] + b[1..];
      }
    }
  }

  lemma {:induction false} PrefixBehind(r: Bytes, a: Bytes, b: Bytes)
    ensures HasPrefix(r + a, r + b) <==> HasPrefix(a, b)
  {
    if HasPrefix(a, b) { assert (r + a)[..|r + b|] == r + a[..|b|]; }
    if HasPrefix(r + a, r + b) { assert a[..|b|] == (r + a)[..|r + b|][|r|..] == (r + b)[|r|..] == b; }
  }

  /** The rows under a database's prefix of one kind: text is the kind's, slashes included. */
  lemma UnderPrefix(k: Key, name: Bytes, text: Bytes)
    requires Plain(k) && SLASH !in name && text != [] && text[0] == SLASH
    ensures HasPrefix(BytesOf(k), DbRoot() + (name + text)) <==>
            !k.TxnStatus? && !k.TxnPart? && k.name == name && HasPrefix(Tail(k), text)
  {
    hide Tail, DbRoot, TxnRoot, Ascii, Be;
    var p := DbRoot() + (name + text);
    if k.TxnStatus? || k.TxnPart? {
      assert BytesOf(k)[5] == 116 && p[5] == 100;
      DifferAt(BytesOf(k), p, 5);
    } else {
      PrefixBehind(DbRoot(), k.name + Tail(k), name + text);
      TailStarts(k);
      NameEndsAtSlash(k.name, Tail(k), name, text);
    }
  }

  lemma DifferAt(k: Bytes, p: Bytes, i: nat)
    requires i < |k| && i < |p| && k[i] != p[i]
    ensures !HasPrefix(k, p)
  {
    assert i < |p| <= |k| ==> k[..|p|][i] == k[i];
  }

  lemma TailStarts(k: Key)
    requires !k.TxnStatus? && !k.TxnPart?
    ensures Tail(k) != [] && Tail(k)[0] == SLASH
  {
  }

  lemma DeltaRows(k: Key)
    requires !k.TxnStatus? && !k.TxnPart?
    ensures HasPrefix(Tail(k), DeltaText()) <==> k.Delta?
  {
    hide Ascii, DeltaText, PidxText, ShardText, ShardNText, WhatText, Be;
    if HasPrefix(Tail(k), DeltaText()) { assert Tail(k)[1] == Tail(k)[..7][1] == 68; }
  }

  lemma ShardNRows(k: Key)
    requires !k.TxnStatus? && !k.TxnPart?
    ensures HasPrefix(Tail(k), ShardNText()) <==> k.ShardN?
  {
    hide Ascii, DeltaText, PidxText, ShardText, ShardNText, WhatText, Be;
    if HasPrefix(Tail(k), ShardNText()) {
      assert Tail(k)[..8][1] == 83 && Tail(k)[..8][2] == 72 && Tail(k)[..8][6] == 78;
    }
  }

  // ---- What the ranges hold ----

  function Prefix(name: Bytes, text: Bytes): Bytes { DbRoot() + (name + text) }

  lemma NotAllFF(name: Bytes, text: Bytes)
    requires text != [] && text[|text| - 1] == SLASH
    ensures !AllFF(Prefix(name, text))
  {
    var p := Prefix(name, text);
    assert p[|p| - 1] == SLASH;
  }

  /** Between a prefix and a longer key there is nothing without the prefix. */
  lemma {:induction false} BetweenHasPrefix(k: Bytes, p: Bytes, x: Bytes)
    requires !Before(k, p) && Before(k, p + x)
    ensures HasPrefix(k, p)
    decreases |p|
  {
    if p != [] {
      assert (p + x)[0] == p[0] && (p + x)[1..] == p[1..] + x;
      BetweenHasPrefix(k[1..], p[1..], x);
      PrefixTail(k, p);
    }
  }

  /** Under a prefix, from a bound on: the bound is compared with what follows the prefix. */
  lemma RangeFromBound(k: Bytes, p: Bytes, x: Bytes)
    requires !AllFF(p)
    ensures InRange(k, p + x, KeyAfter(p)) <==> HasPrefix(k, p) && !Before(k[|p|..], x)
  {
    RangeIsPrefix(k, p);
    if HasPrefix(k, p) {
      assert k == p + k[|p|..];
      BeforeBehindPrefix(p, k[|p|..], x);
    } else {
      StartsPast(k, p, x);
    }
  }

  /** Under a prefix, below a bound. */
  lemma RangeToBound(k: Bytes, p: Bytes, x: Bytes)
    ensures InRange(k, p, p + x) <==> HasPrefix(k, p) && Before(k[|p|..], x)
  {
    if InRange(k, p, p + x) { BetweenHasPrefix(k, p, x); }
    if HasPrefix(k, p) {
      assert k == p + k[|p|..];
      BeforeBehindPrefix(p, k[|p|..], x);
      NotBeforePrefix(k, p);
    }
  }

  /**
   drop_unfinished_commit, for every name and every row. Of its own log it clears exactly the pages
   of commits above the head. Of any other row it clears exactly those whose key goes on from
   name/DELTA/ with bytes not before the number of head + 1; and there are none of those as long
   as no name holds a slash.
  */
  lemma ClearsExactlyUnreachable(k: Key, name: Bytes, head: nat)
    requires Fits(k) && head + 1 < Pow256(8)
    ensures var p, from := Prefix(name, DeltaText()), Be(head + 1, 8);
      var cleared := InRange(BytesOf(k), p + from, KeyAfter(p));
      && (cleared <==> HasPrefix(BytesOf(k), p) && !Before(BytesOf(k)[|p|..], from))
      && (k.Delta? && k.name == name ==> (cleared <==> k.txid > head))
      && (Plain(k) && SLASH !in name && cleared ==> k.Delta? && k.name == name)
  {
    hide Tail, DbRoot, TxnRoot, Ascii, Be, DeltaText, Pow256;
    var p, from := Prefix(name, DeltaText()), Be(head + 1, 8);
    NotAllFF(name, DeltaText());
    RangeFromBound(BytesOf(k), p, from);
    if k.Delta? && k.name == name {
      DeltaBytes(k);
      var rest := Be(k.txid, 8) + Be(k.pgno, 4);
      assert (p + rest)[|p|..] == rest && (p + rest)[..|p|] == p;
      LongerNotBefore(k.txid, head + 1, Be(k.pgno, 4));
    }
    if Plain(k) && SLASH !in name {
      UnderPrefix(k, name, DeltaText());
      if !k.TxnStatus? && !k.TxnPart? { DeltaRows(k); }
    }
  }

  /** Past the prefix and the number, and before the key after the prefix, means under the prefix. */
  lemma StartsPast(k: Bytes, p: Bytes, x: Bytes)
    requires !AllFF(p) && (InRange(k, p, KeyAfter(p)) <==> HasPrefix(k, p)) && !HasPrefix(k, p)
    ensures !InRange(k, p + x, KeyAfter(p))
  {
    if Before(k, p) { BeforeLonger(k, p, x); }
  }

  lemma {:induction false} BeforeLonger(k: Bytes, p: Bytes, x: Bytes)
    requires Before(k, p)
    ensures Before(k, p + x)
    decreases |p|
  {
    assert (p + x)[0] == p[0] && (p + x)[1..] == p[1..] + x;
    if k != [] && k[0] == p[0] { BeforeLonger(k[1..], p[1..], x); }
  }

  lemma DeltaBytes(k: Key)
    requires k.Delta?
    ensures BytesOf(k) == Prefix(k.name, DeltaText()) + (Be(k.txid, 8) + Be(k.pgno, 4))
  {
    hide DbRoot, TxnRoot, Ascii, Be, DeltaText;
    var rest := Be(k.txid, 8) + Be(k.pgno, 4);
    assert DbRoot() + (k.name + (DeltaText() + rest)) == DbRoot() + (k.name + DeltaText()) + rest;
  }

  lemma LongerNotBefore(v: nat, w: nat, rest: Bytes)
    requires v < Pow256(8) && w < Pow256(8)
    ensures Before(Be(v, 8) + rest, Be(w, 8)) <==> v < w
  {
    hide Be, Pow256;
    OrderOfNumbers(v, w, 8);
    OrderOfNumbers(w, v, 8);
    var a, b := Be(v, 8), Be(w, 8);
    SameLength(a, b, rest);
  }

  lemma {:induction false} SameLength(a: Bytes, b: Bytes, rest: Bytes)
    requires |a| == |b|
    ensures Before(a + rest, b) <==> Before(a, b)
    decreases |a|
  {
    if a != [] {
      assert (a + rest)[0] == a[0] && (a + rest)[1..] == a[1..] + rest;
      SameLength(a[1..], b[1..], rest);
    }
  }

  /**
   The range load_newest_shard looks in, for every name and every row. Of the database's own markers
   it holds exactly those not above the head. Of any other row it holds exactly those whose key goes
   on from name/SHARDN/ with bytes before the number of head + 1; none as long as no name holds a
   slash.
  */
  lemma MarkersBelow(k: Key, name: Bytes, head: nat)
    requires Fits(k) && head + 1 < Pow256(8)
    ensures var p, to := Prefix(name, ShardNText()), Be(head + 1, 8);
      var seen := InRange(BytesOf(k), p, p + to);
      && (seen <==> HasPrefix(BytesOf(k), p) && Before(BytesOf(k)[|p|..], to))
      && (k.ShardN? && k.name == name ==> (seen <==> k.asOf <= head))
      && (Plain(k) && SLASH !in name && seen ==> k.ShardN? && k.name == name)
  {
    hide Tail, DbRoot, TxnRoot, Ascii, Be, ShardNText, Pow256;
    var p, to := Prefix(name, ShardNText()), Be(head + 1, 8);
    RangeToBound(BytesOf(k), p, to);
    if k.ShardN? && k.name == name {
      ShardNBytes(k);
      var rest := Be(k.asOf, 8);
      assert (p + rest)[|p|..] == rest && (p + rest)[..|p|] == p;
      OrderOfNumbers(k.asOf, head + 1, 8);
    }
    if Plain(k) && SLASH !in name {
      UnderPrefix(k, name, ShardNText());
      if !k.TxnStatus? && !k.TxnPart? { ShardNRows(k); }
    }
  }

  lemma ShardNBytes(k: Key)
    requires k.ShardN?
    ensures BytesOf(k) == Prefix(k.name, ShardNText()) + Be(k.asOf, 8)
  {
    hide DbRoot, TxnRoot, Ascii, Be, ShardNText;
    assert DbRoot() + (k.name + (ShardNText() + Be(k.asOf, 8))) == DbRoot() + (k.name + ShardNText()) + Be(k.asOf, 8);
  }

  /** Of two markers of one database, the later key is the larger version. */
  lemma LaterMarkerIsNewer(a: Key, b: Key)
    requires a.ShardN? && b.ShardN? && a.name == b.name && Fits(a) && Fits(b)
    ensures Before(BytesOf(a), BytesOf(b)) <==> a.asOf < b.asOf
  {
    hide DbRoot, TxnRoot, Ascii, Be, ShardNText, Pow256;
    ShardNBytes(a);
    ShardNBytes(b);
    BeforeBehindPrefix(Prefix(a.name, ShardNText()), Be(a.asOf, 8), Be(b.asOf, 8));
    OrderOfNumbers(a.asOf, b.asOf, 8);
  }

  ghost predicate AllFit(rows: set<Key>) {
    forall k <- rows :: Fits(k)
  }

  ghost predicate InMarkers(k: Key, name: Bytes, head: nat) {
    InRange(BytesOf(k), Prefix(name, ShardNText()), Prefix(name, ShardNText()) + Be(head + 1, 8))
  }

  /** Nothing under name/SHARDN/ but the database's own markers: what no slash in any name ensures. */
  ghost predicate OnlyMarkers(rows: set<Key>, name: Bytes) {
    forall k <- rows :: HasPrefix(BytesOf(k), Prefix(name, ShardNText())) ==> k.ShardN? && k.name == name
  }

  lemma PlainNamesOnlyMarkers(rows: set<Key>, name: Bytes)
    requires SLASH !in name && forall k <- rows :: Plain(k)
    ensures OnlyMarkers(rows, name)
  {
    hide BytesOf, ShardNText, DbRoot, Tail;
    forall k <- rows | HasPrefix(BytesOf(k), Prefix(name, ShardNText()))
      ensures k.ShardN? && k.name == name
    {
      UnderPrefix(k, name, ShardNText());
      ShardNRows(k);
    }
  }

  /**
   Whatever rows the store holds, as long as only its own markers lie under the prefix: the last row
   of the range carries, in its last eight bytes, the newest base version not above the head.
  */
  lemma LastRowIsNewest(rows: set<Key>, last: Key, name: Bytes, head: nat)
    requires AllFit(rows) && OnlyMarkers(rows, name) && head + 1 < Pow256(8)
    requires last in rows && InMarkers(last, name, head)
    requires forall k <- rows :: InMarkers(k, name, head) ==> !Before(BytesOf(last), BytesOf(k))
    ensures last.ShardN? && last.name == name && last.asOf <= head
    ensures |BytesOf(last)| >= 8 && FromBe(BytesOf(last)[|BytesOf(last)| - 8..]) == last.asOf
    ensures forall k <- rows :: k.ShardN? && k.name == name && k.asOf <= head ==> k.asOf <= last.asOf
  {
    hide BytesOf, Be, Pow256, Prefix, ShardNText, InRange, HasPrefix;
    MarkersBelow(last, name, head);
    ShardNBytes(last);
    ReadsBack(last.asOf, 8);
    var p := Prefix(name, ShardNText());
    assert (p + Be(last.asOf, 8))[|p|..] == Be(last.asOf, 8);
    forall k <- rows | k.ShardN? && k.name == name && k.asOf <= head
      ensures k.asOf <= last.asOf
    {
      MarkersBelow(k, name, head);
      LaterMarkerIsNewer(last, k);
    }
  }

  /** And an empty range means there is no such version, whatever the names are. */
  lemma NoRowNoVersion(rows: set<Key>, name: Bytes, head: nat)
    requires AllFit(rows) && head + 1 < Pow256(8)
    requires forall k <- rows :: !InMarkers(k, name, head)
    ensures forall k <- rows :: !(k.ShardN? && k.name == name && k.asOf <= head)
  {
    hide BytesOf, Be, Pow256, Prefix, ShardNText, InRange, HasPrefix;
    forall k <- rows ensures !(k.ShardN? && k.name == name && k.asOf <= head) { MarkersBelow(k, name, head); }
  }

  /**
   The rows of a database called name/DELTA/z: cleared with the log of `name` exactly when z and what
   follows it do not come before the number of head + 1.
  */
  lemma SlashedNamesAreCleared(k: Key, name: Bytes, z: Bytes, head: nat)
    requires !k.TxnStatus? && !k.TxnPart? && k.name == name + DeltaText() + z
    ensures InRange(BytesOf(k), Prefix(name, DeltaText()) + Be(head + 1, 8), KeyAfter(Prefix(name, DeltaText())))
            <==> !Before(z + Tail(k), Be(head + 1, 8))
  {
    hide DbRoot, DeltaText, Tail, Be, KeyAfter, AllFF;
    var p, rest := Prefix(name, DeltaText()), z + Tail(k);
    assert BytesOf(k) == p + rest;
    assert (p + rest)[|p|..] == rest && (p + rest)[..|p|] == p;
    NotAllFF(name, DeltaText());
    RangeFromBound(BytesOf(k), p, Be(head + 1, 8));
  }

  /** A database whose name only shares a slash, like "b/c" beside "a", is left alone. */
  lemma OtherNamesAreLeftAlone(k: Key, name: Bytes, head: nat)
    requires Fits(k) && head + 1 < Pow256(8) && !HasPrefix(BytesOf(k), Prefix(name, []))
    ensures !InRange(BytesOf(k), Prefix(name, DeltaText()) + Be(head + 1, 8), KeyAfter(Prefix(name, DeltaText())))
    ensures !InMarkers(k, name, head)
  {
    hide BytesOf, Be, Pow256, DbRoot, DeltaText, ShardNText, InRange, KeyAfter;
    ClearsExactlyUnreachable(k, name, head);
    MarkersBelow(k, name, head);
    if HasPrefix(BytesOf(k), Prefix(name, DeltaText())) { ShorterPrefix(BytesOf(k), name, DeltaText()); }
    if HasPrefix(BytesOf(k), Prefix(name, ShardNText())) { ShorterPrefix(BytesOf(k), name, ShardNText()); }
  }

  lemma ShorterPrefix(k: Bytes, name: Bytes, text: Bytes)
    requires HasPrefix(k, Prefix(name, text))
    ensures HasPrefix(k, Prefix(name, []))
  {
    hide DbRoot;
    var p, q := Prefix(name, text), Prefix(name, []);
    assert p == q + text;
    assert k[..|q|] == k[..|p|][..|q|] == p[..|q|] == q;
  }

  /** For one, the database "a/DELTA/z" loses its HEAD to the first open of "a". */
  lemma SlashedNameIsCleared()
    ensures InRange(BytesOf(Meta(Ascii("a") + DeltaText() + Ascii("z"), HEAD)),
                    Prefix(Ascii("a"), DeltaText()) + Be(1, 8), KeyAfter(Prefix(Ascii("a"), DeltaText())))
  {
    hide DbRoot, DeltaText, KeyAfter, Prefix, BytesOf;
    SlashedNamesAreCleared(Meta(Ascii("a") + DeltaText() + Ascii("z"), HEAD), Ascii("a"), Ascii("z"), 0);
    ByteOf(1, 8, 0);
    assert Ascii("z")[0] == 122;
  }
}
