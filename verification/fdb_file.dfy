/**
 The open file (thirdparty/store-plane/fdb_vfs.c): the dirty buffer, the
 read-ahead window, reads and writes of bytes, the flush and the fold. A write
 transaction may be the one the process dies before.
*/
module OpenFile {
  import opened Wrappers
  import opened StoreRows
  import opened HandleSteps

  const RA_GAP := 8
  const RA_SCORE_STEP := 2
  const RA_SCORE_CAP := 12
  const RA_DECAY_SCANNING := 1
  const RA_DECAY_RANDOM := 4
  const RA_ESCALATE := 6
  const RA_FULL := 10
  const RA_MAX_PAGES: nat := 256
  const RA_STEP_PAGES: nat := 32

  datatype DirtyPage = DirtyPage(pgno: nat, bytes: Page)
  datatype Fetched = Unfetched | Present | Absent
  datatype Outcome = Ok | Refused | Died | NoRoom

  // ---- Sorted dirty pages and the map they stand for ----

  ghost predicate Sorted(s: seq<DirtyPage>) {
    forall i, j :: 0 <= i < j < |s| ==> s[i].pgno < s[j].pgno
  }

  /** The map a run of buffered pages stands for: put_delta_pages sets one row after another. */
  function Buffered(s: seq<DirtyPage>): Pages {
    if s == [] then map[]
    else Buffered(s[..|s| - 1])[s[|s| - 1].pgno := s[|s| - 1].bytes]
  }

  lemma {:induction false} BufferedAt(s: seq<DirtyPage>, i: nat)
    requires Sorted(s) && i < |s|
    ensures s[i].pgno in Buffered(s) && Buffered(s)[s[i].pgno] == s[i].bytes
  {
    if i < |s| - 1 {
      BufferedAt(s[..|s| - 1], i);
    }
  }

  lemma {:induction false} BufferedOnly(s: seq<DirtyPage>, p: nat) returns (i: nat)
    requires Sorted(s) && p in Buffered(s)
    ensures i < |s| && s[i].pgno == p && s[i].bytes == Buffered(s)[p]
  {
    if p == s[|s| - 1].pgno {
      i := |s| - 1;
    } else {
      i := BufferedOnly(s[..|s| - 1], p);
    }
  }

  /** A page is buffered once, so the buffer is as long as it has pages. */
  lemma {:induction false} BufferedCount(s: seq<DirtyPage>)
    requires Sorted(s)
    ensures |Buffered(s).Keys| == |s|
  {
    if s != [] {
      var init, last := s[..|s| - 1], s[|s| - 1];
      BufferedCount(init);
      if last.pgno in Buffered(init) {
        var i := BufferedOnly(init, last.pgno);
      }
      assert Buffered(s).Keys == Buffered(init).Keys + {last.pgno};
    }
  }

  /** Inserting a page at its place adds exactly that page. */
  lemma BufferedInsert(s: seq<DirtyPage>, slot: nat, d: DirtyPage)
    requires Sorted(s) && slot <= |s|
    requires (forall i :: 0 <= i < slot ==> s[i].pgno < d.pgno) && (forall i :: slot <= i < |s| ==> d.pgno < s[i].pgno)
    ensures var t := s[..slot] + [d] + s[slot..];
            Sorted(t) && Buffered(t) == Buffered(s)[d.pgno := d.bytes]
  {
    var t := s[..slot] + [d] + s[slot..];
    IsInserted(s, slot, d);
    InsertedSorted(s, slot, d, t);
    hide Buffered, Inserted, Sorted;
    InsertedPages(s, slot, d, t);
  }

  lemma InsertedPages(s: seq<DirtyPage>, slot: nat, d: DirtyPage, t: seq<DirtyPage>)
    requires Sorted(s) && Sorted(t) && Inserted(s, slot, d, t)
    ensures Buffered(t) == Buffered(s)[d.pgno := d.bytes]
  {
    hide Buffered, Inserted, Sorted;
    forall p: nat
      ensures p in Buffered(t) <==> p in Buffered(s)[d.pgno := d.bytes]
      ensures p in Buffered(t) ==> Buffered(t)[p] == Buffered(s)[d.pgno := d.bytes][p]
    {
      InsertedPage(s, slot, d, t, p);
    }
  }

  ghost predicate Inserted(s: seq<DirtyPage>, slot: nat, d: DirtyPage, t: seq<DirtyPage>) {
    && slot <= |s| && |t| == |s| + 1 && t[slot] == d
    && (forall i :: 0 <= i < slot ==> t[i] == s[i])
    && (forall i :: slot < i < |t| ==> t[i] == s[i - 1])
  }

  lemma IsInserted(s: seq<DirtyPage>, slot: nat, d: DirtyPage)
    requires slot <= |s|
    ensures Inserted(s, slot, d, s[..slot] + [d] + s[slot..])
  {
  }

  lemma InsertedSorted(s: seq<DirtyPage>, slot: nat, d: DirtyPage, t: seq<DirtyPage>)
    requires Sorted(s) && Inserted(s, slot, d, t)
    requires (forall i :: 0 <= i < slot ==> s[i].pgno < d.pgno) && (forall i :: slot <= i < |s| ==> d.pgno < s[i].pgno)
    ensures Sorted(t)
  {
    forall i, j | 0 <= i < j < |t|
      ensures t[i].pgno < t[j].pgno
    {
      var a := if i < slot then i else i - 1;
      var b := if j < slot then j else j - 1;
      assert i != slot ==> t[i] == s[a];
      assert j != slot ==> t[j] == s[b];
    }
  }

  lemma InsertedPage(s: seq<DirtyPage>, slot: nat, d: DirtyPage, t: seq<DirtyPage>, p: nat)
    requires Sorted(s) && Sorted(t) && Inserted(s, slot, d, t)
    ensures p in Buffered(t) <==> p == d.pgno || p in Buffered(s)
    ensures p in Buffered(t) ==> Buffered(t)[p] == if p == d.pgno then d.bytes else Buffered(s)[p]
  {
    hide Buffered;
    BufferedAt(t, slot);
    if p in Buffered(t) {
      var i := BufferedOnly(t, p);
      if i < slot { BufferedAt(s, i); } else if i > slot { BufferedAt(s, i - 1); }
    }
    if p in Buffered(s) {
      var i := BufferedOnly(s, p);
      var at := if i < slot then i else i + 1;
      assert t[at] == s[i];
      BufferedAt(t, at);
    }
  }

  lemma BufferedUpdate(s: seq<DirtyPage>, slot: nat, bytes: Page)
    requires Sorted(s) && slot < |s|
    ensures var t := s[slot := s[slot].(bytes := bytes)];
            Sorted(t) && Buffered(t) == Buffered(s)[s[slot].pgno := bytes]
  {
    hide Buffered;
    var t := s[slot := s[slot].(bytes := bytes)];
    forall p: nat
      ensures p in Buffered(t) <==> p in Buffered(s)[s[slot].pgno := bytes]
      ensures p in Buffered(t) ==> Buffered(t)[p] == Buffered(s)[s[slot].pgno := bytes][p]
    {
      if p in Buffered(t) {
        var i := BufferedOnly(t, p);
        BufferedAt(s, i);
      }
      if p in Buffered(s) {
        var i := BufferedOnly(s, p);
        BufferedAt(t, i);
      }
      BufferedAt(t, slot);
    }
  }

  // ---- Range reads that may stop early ----

  /** The rows come in key order, each one the store's own. */
  ghost predicate InOrder<T>(kv: seq<(nat, T)>, rows: map<nat, T>, lo: nat, hi: nat) {
    && (forall i :: 0 <= i < |kv| ==> lo <= kv[i].0 < hi && kv[i].0 in rows && rows[kv[i].0] == kv[i].1)
    && (forall i, j :: 0 <= i < j < |kv| ==> kv[i].0 < kv[j].0)
  }

  /** Every row below `upto` came back. */
  ghost predicate Reaches<T>(kv: seq<(nat, T)>, rows: map<nat, T>, lo: nat, upto: nat) {
    forall p: nat :: lo <= p < upto && p in rows ==> exists i :: 0 <= i < |kv| && kv[i].0 == p
  }

  /** How far a reply is known to reach: its end when nothing was cut, else its last row. */
  function Reached<T>(kv: seq<(nat, T)>, more: bool, lo: nat, hi: nat): nat {
    if !more then hi else if kv == [] then lo else kv[|kv| - 1].0 + 1
  }

  /** One range read. The reply stops after `limit` rows and says so with `more`. */
  method RangeRead<T>(rows: map<nat, T>, lo: nat, hi: nat, limit: nat) returns (kv: seq<(nat, T)>, more: bool)
    requires lo <= hi
    ensures InOrder(kv, rows, lo, hi)
    ensures Reaches(kv, rows, lo, Reached(kv, more, lo, hi)) && Reached(kv, more, lo, hi) <= hi
  {
    hide InOrder, Reaches;
    kv, more := [], false;
    var p := lo;
    NoRows<T>(rows, lo);
    while p < hi
      invariant lo <= p <= hi && !more
      invariant InOrder(kv, rows, lo, p) && Reaches(kv, rows, lo, p)
    {
      if |kv| == limit {
        more := true;
        CutShort(kv, rows, lo, p, hi);
        return;
      }
      NextRow(kv, rows, lo, p);
      if p in rows { kv := kv + [(p, rows[p])]; }
      p := p + 1;
    }
  }

  lemma NoRows<T>(rows: map<nat, T>, lo: nat)
    ensures InOrder<T>([], rows, lo, lo) && Reaches<T>([], rows, lo, lo)
  {
  }

  lemma NextRow<T>(kv: seq<(nat, T)>, rows: map<nat, T>, lo: nat, p: nat)
    requires lo <= p && InOrder(kv, rows, lo, p) && Reaches(kv, rows, lo, p)
    ensures var kv' := if p in rows then kv + [(p, rows[p])] else kv;
            InOrder(kv', rows, lo, p + 1) && Reaches(kv', rows, lo, p + 1)
  {
    var kv' := if p in rows then kv + [(p, rows[p])] else kv;
    forall q: nat | lo <= q < p + 1 && q in rows
      ensures exists i :: 0 <= i < |kv'| && kv'[i].0 == q
    {
      if q == p {
        assert kv'[|kv|].0 == p;
      } else {
        var i :| 0 <= i < |kv| && kv[i].0 == q;
        assert kv'[i].0 == q;
      }
    }
  }

  lemma CutShort<T>(kv: seq<(nat, T)>, rows: map<nat, T>, lo: nat, p: nat, hi: nat)
    requires lo <= p <= hi && InOrder(kv, rows, lo, p) && Reaches(kv, rows, lo, p)
    ensures InOrder(kv, rows, lo, hi) && Reached(kv, true, lo, hi) <= p
    ensures Reaches(kv, rows, lo, Reached(kv, true, lo, hi))
  {
  }

  /** The index rows of a run of pages: zero where no row came back. */
  method OwnersOf(kv: seq<(nat, nat)>, ghost rows: map<nat, nat>, first: nat, count: nat)
    returns (owner: seq<nat>, reached: nat)
    requires InOrder(kv, rows, first, first + count)
    ensures |owner| == count && reached == Reached(kv, true, first, first + count)
    ensures forall i :: 0 <= i < |kv| ==> owner[kv[i].0 - first] == kv[i].1
    ensures forall j :: 0 <= j < count ==> owner[j] == 0 || (first + j in rows && owner[j] == rows[first + j])
  {
    owner, reached := seq(count, _ => 0), first;
    var i := 0;
    while i < |kv|
      invariant 0 <= i <= |kv| && |owner| == count
      invariant reached == Reached(kv[..i], true, first, first + count)
      invariant forall k :: 0 <= k < i ==> owner[kv[k].0 - first] == kv[k].1
      invariant forall j :: 0 <= j < count ==> owner[j] == 0 || (first + j in rows && owner[j] == rows[first + j])
    {
      var page := kv[i].0;
      owner := owner[page - first := kv[i].1];
      if page + 1 > reached { reached := page + 1; }
      i := i + 1;
    }
    assert kv[..i] == kv;
  }

  /** This place of the window holds the base's own page, and the log owns no newer one. */
  ghost predicate Placed(rows: Pages, owner: seq<nat>, first: nat, window: seq<Page>, state: seq<Fetched>, j: nat)
    requires j < |owner| == |window| == |state|
  {
    state[j] == Present && owner[j] == 0 && first + j in rows && window[j] == rows[first + j]
  }

  /** The base pages of the run that the log does not own. */
  method PlacePages(kv: seq<(nat, Page)>, ghost rows: Pages, owner: seq<nat>, first: nat)
    returns (window: seq<Page>, state: seq<Fetched>, reached: nat)
    requires InOrder(kv, rows, first, first + |owner|)
    ensures |window| == |state| == |owner| && reached <= Reached(kv, true, first, first + |owner|)
    ensures forall i :: 0 <= i < |kv| && owner[kv[i].0 - first] == 0 ==> state[kv[i].0 - first] == Present
    ensures forall j :: 0 <= j < |owner| ==>
              state[j] == Unfetched || Placed(rows, owner, first, window, state, j)
  {
    var zero: Page := ZeroPage();
    window, state, reached := seq(|owner|, _ => zero), seq(|owner|, _ => Unfetched), first;
    var i := 0;
    while i < |kv|
      invariant 0 <= i <= |kv| && |window| == |state| == |owner|
      invariant reached <= Reached(kv[..i], true, first, first + |owner|)
      invariant forall k :: 0 <= k < i && owner[kv[k].0 - first] == 0 ==> state[kv[k].0 - first] == Present
      invariant forall j :: 0 <= j < |owner| ==>
                  state[j] == Unfetched || Placed(rows, owner, first, window, state, j)
    {
      var j := kv[i].0 - first;
      if owner[j] == 0 {
        window := window[j := kv[i].1];
        state := state[j := Present];
        if kv[i].0 + 1 > reached { reached := kv[i].0 + 1; }
      }
      i := i + 1;
    }
    assert kv[..i] == kv;
  }

  /** A window that never says anything the two-row lookup would not. */
  ghost predicate WindowTrue(db: Db, base: Option<nat>, first: nat, count: nat, window: seq<Page>,
                             state: seq<Fetched>) {
    && count <= |window| == |state|
    && forall j :: 0 <= j < count ==>
         && (state[j] == Present ==> Lookup(db, base, first + j) == Some(window[j]))
         && (state[j] == Absent ==> Lookup(db, base, first + j) == None)
  }

  /** Which pages of the run the log owns, and how far that is known. */
  method ReadOwners(db: Db, first: nat, n: nat, cut: nat) returns (owner: seq<nat>, coveredTo: nat)
    requires forall p <- db.pidx :: 1 <= db.pidx[p]
    ensures |owner| == n && coveredTo <= first + n
    ensures forall j :: 0 <= j < coveredTo - first ==> (owner[j] == 0 <==> first + j !in db.pidx)
  {
    var index, more := RangeRead(db.pidx, first, first + n, cut);
    var reached;
    owner, reached := OwnersOf(index, db.pidx, first, n);
    coveredTo := first + n;
    if more && reached < coveredTo { coveredTo := reached; }
    forall j | 0 <= j < coveredTo - first && first + j in db.pidx
      ensures owner[j] != 0
    {
      var i :| 0 <= i < |index| && index[i].0 == first + j;
    }
  }

  /** What the base holds of the run, and how far that is known. */
  method ReadBase(rows: Pages, owner: seq<nat>, first: nat, covered: nat, cut: nat)
    returns (window: seq<Page>, state: seq<Fetched>, coveredTo: nat)
    requires covered <= first + |owner|
    ensures |window| == |state| == |owner| && coveredTo <= covered
    ensures forall j :: 0 <= j < |owner| ==> state[j] == Unfetched || Placed(rows, owner, first, window, state, j)
    ensures forall j :: 0 <= j < coveredTo - first && owner[j] == 0 && first + j in rows ==> state[j] == Present
  {
    var kv, more := RangeRead(rows, first, first + |owner|, cut);
    var reached;
    window, state, reached := PlacePages(kv, rows, owner, first);
    coveredTo := covered;
    if more && reached < coveredTo { coveredTo := reached; }
    forall j | 0 <= j < coveredTo - first && owner[j] == 0 && first + j in rows
      ensures state[j] == Present
    {
      var i :| 0 <= i < |kv| && kv[i].0 == first + j;
    }
  }

  function SettledState(owner: nat, placed: Fetched, hasShard: bool): Fetched {
    if owner != 0 then Unfetched
    else if placed == Present then Present
    else if hasShard then Absent else Unfetched
  }

  /** ra_fill: fetch a run of pages in two range reads, each cut short anywhere. */
  method Fill(db: Db, base: Option<nat>, first: nat, depth: nat, cutIndex: nat, cutBase: nat)
    returns (count: nat, window: seq<Page>, state: seq<Fetched>)
    requires forall p <- db.pidx :: 1 <= db.pidx[p]
    ensures WindowTrue(db, base, first, count, window, state)
    ensures count <= |window| == |state| <= RA_MAX_PAGES
  {
    var n := if depth > RA_MAX_PAGES then RA_MAX_PAGES else depth;
    var owner, coveredTo := ReadOwners(db, first, n, cutIndex);
    var zero: Page := ZeroPage();
    window, state := seq(n, _ => zero), seq(n, _ => Unfetched);
    if base.Some? {
      window, state, coveredTo := ReadBase(Rows(db.shard, base.value), owner, first, coveredTo, cutBase);
    }
    var k := 0;
    ghost var placed := state;
    while k < n
      invariant 0 <= k <= n && |state| == n
      invariant forall j :: k <= j < n ==> state[j] == placed[j]
      invariant forall j :: 0 <= j < k ==> state[j] == SettledState(owner[j], placed[j], base.Some?)
    {
      state := state[k := SettledState(owner[k], state[k], base.Some?)];
      k := k + 1;
    }
    count := if coveredTo > first then coveredTo - first else 0;
  }

  /** A page of the file, with the buffered pages over the stored ones and zeros for holes. */
  function FilePage(db: Db, buffer: Pages, p: nat): Page {
    if p in buffer then buffer[p] else if View(db, p).Some? then View(db, p).value else ZeroPage()
  }

  /** The flat byte array the file stands for. */
  function FileByte(db: Db, buffer: Pages, i: nat): byte {
    FilePage(db, buffer, i / PAGE)[i % PAGE]
  }

  /** Splicing a chunk into its page lays exactly those bytes over the array. */
  lemma ChunkLands(db: Db, buffer: Pages, after: Pages, at: nat, chunk: seq<byte>, i: nat)
    requires at % PAGE + |chunk| <= PAGE
    requires after == buffer[at / PAGE := Splice(FilePage(db, buffer, at / PAGE), at % PAGE, chunk)]
    ensures FileByte(db, after, i) == if at <= i < at + |chunk| then chunk[i - at] else FileByte(db, buffer, i)
  {
    InChunk(at, |chunk|, i);
    SplicedByte(FilePage(db, buffer, at / PAGE), at % PAGE, chunk, i % PAGE);
  }

  lemma InChunk(at: nat, want: nat, i: nat)
    requires at % PAGE + want <= PAGE
    ensures i / PAGE == at / PAGE && at % PAGE <= i % PAGE < at % PAGE + want <==> at <= i < at + want
    ensures i / PAGE == at / PAGE && at <= i ==> i % PAGE - at % PAGE == i - at
  {
  }

  lemma SplicedByte(page: Page, within: nat, chunk: seq<byte>, k: nat)
    requires within + |chunk| <= PAGE && k < PAGE
    ensures Splice(page, within, chunk)[k] == if within <= k < within + |chunk| then chunk[k - within] else page[k]
  {
  }

  // ---- How much of a write fits the buffer ----

  /** Do n bytes at `off` touch this page? */
  predicate Touched(off: nat, n: nat, p: nat) {
    n > 0 && off / PAGE <= p <= (off + n - 1) / PAGE
  }

  function PagesOf(off: nat, n: nat): set<nat> {
    set p: nat | off / PAGE <= p <= (off + n - 1) / PAGE && Touched(off, n, p)
  }

  /** With these pages buffered, the whole write fits one commit. */
  predicate Room(pages: set<nat>, off: nat, n: nat) {
    |pages + PagesOf(off, n)| <= MAX_TXN_PIDX
  }

  /** The bytes of a write that fall in its first page. */
  function Chunk(off: nat, n: nat): (want: nat)
    requires n > 0
    ensures 0 < want <= n && off % PAGE + want <= PAGE
  {
    if n > PAGE - off % PAGE then PAGE - off % PAGE else n
  }

  /** How many bytes of a write get into the buffer before a page is refused. */
  function Landing(pages: set<nat>, off: nat, n: nat): (r: nat)
    ensures r <= n
    decreases n
  {
    if n == 0 then 0
    else
      var want := Chunk(off, n);
      if off / PAGE in pages || |pages| < MAX_TXN_PIDX
      then want + Landing(pages + {off / PAGE}, off + want, n - want) else 0
  }

  lemma FirstPage(off: nat, n: nat)
    requires n > 0
    ensures PagesOf(off, n) == {off / PAGE} + PagesOf(off + Chunk(off, n), n - Chunk(off, n))
  {
    var want := Chunk(off, n);
    var rest := PagesOf(off + want, n - want);
    forall p: nat
      ensures Touched(off, n, p) <==> p == off / PAGE || Touched(off + want, n - want, p)
    {
      if want == n {
        assert (off + n - 1) / PAGE == off / PAGE;
      } else {
        assert (off + want) / PAGE == off / PAGE + 1;
      }
    }
    assert off / PAGE in PagesOf(off, n);
  }

  /** The whole write gets in exactly when there is room for it. */
  lemma {:induction false} LandsWhole(pages: set<nat>, off: nat, n: nat)
    requires |pages| <= MAX_TXN_PIDX
    ensures Landing(pages, off, n) == n <==> Room(pages, off, n)
    decreases n
  {
    hide PagesOf, Chunk;
    if n == 0 {
      NoBytes(off);
      assert pages + {} == pages;
    } else {
      var p, want := off / PAGE, Chunk(off, n);
      FirstPage(off, n);
      OnePageMore(pages, p, PagesOf(off + want, n - want));
      if p in pages || |pages| < MAX_TXN_PIDX {
        LandsWhole(pages + {p}, off + want, n - want);
      }
    }
  }

  lemma OnePageMore(pages: set<nat>, p: nat, rest: set<nat>)
    ensures pages + ({p} + rest) == pages + {p} + rest
    ensures |pages + {p}| == (if p in pages then |pages| else |pages| + 1) <= |pages + {p} + rest|
  {
    if p in pages { assert pages + {p} == pages; }
    FewerPages(pages + {p}, pages + {p} + rest);
  }

  lemma NoBytes(off: nat)
    ensures PagesOf(off, 0) == {}
  {
  }

  lemma {:induction false} FewerPages(a: set<nat>, b: set<nat>)
    requires a <= b
    ensures |a| <= |b|
  {
    if p :| p in a { FewerPages(a - {p}, b - {p}); }
  }

  /** The next chunk touches one page, and those before it the others. */
  lemma NextPage(off: nat, done: nat, want: nat)
    requires want > 0 && (done == 0 || (off + done) % PAGE == 0) && (off + done) % PAGE + want <= PAGE
    ensures PagesOf(off, done + want) == PagesOf(off, done) + {(off + done) / PAGE}
  {
    var p := (off + done) / PAGE;
    assert (off + done + want - 1) / PAGE == p;
    if done > 0 { assert (off + done - 1) / PAGE == p - 1; }
    forall q: nat
      ensures Touched(off, done + want, q) <==> Touched(off, done, q) || q == p
    {
    }
    assert p in PagesOf(off, done + want);
  }

  /** Where a write of n bytes stands once `done` of them are laid and `now` is buffered. */
  ghost predicate LaidTo(pages: set<nat>, off: nat, n: nat, done: nat, now: set<nat>) {
    && done <= n && (done == 0 || done == n || (off + done) % PAGE == 0)
    && now == pages + PagesOf(off, done)
    && Landing(pages, off, n) == done + Landing(now, off + done, n - done)
  }

  lemma LaidNothing(pages: set<nat>, off: nat, n: nat)
    ensures LaidTo(pages, off, n, 0, pages)
  {
    NoBytes(off);
    assert pages + {} == pages;
  }

  lemma LaidAll(pages: set<nat>, off: nat, n: nat, now: set<nat>)
    requires LaidTo(pages, off, n, n, now)
    ensures Landing(pages, off, n) == n && now == pages + PagesOf(off, n)
  {
  }

  /** One more chunk: the page it needs, and where the write then stands. */
  lemma LaidNext(pages: set<nat>, off: nat, n: nat, done: nat, now: set<nat>)
    requires LaidTo(pages, off, n, done, now) && done < n
    ensures var want, p := Chunk(off + done, n - done), (off + done) / PAGE;
      if p in now || |now| < MAX_TXN_PIDX then LaidTo(pages, off, n, done + want, now + {p})
      else Landing(pages, off, n) == done && now == pages + PagesOf(off, done)
  {
    hide PagesOf, Landing, Chunk;
    var want, p := Chunk(off + done, n - done), (off + done) / PAGE;
    NextPage(off, done, want);
    assert pages + PagesOf(off, done) + {p} == pages + (PagesOf(off, done) + {p});
    LandingStep(now, off + done, n - done);
    NextStart(off, done, want, n);
  }

  lemma LandingStep(pages: set<nat>, off: nat, n: nat)
    requires n > 0
    ensures var want, p := Chunk(off, n), off / PAGE;
      Landing(pages, off, n) ==
        if p in pages || |pages| < MAX_TXN_PIDX then want + Landing(pages + {p}, off + want, n - want) else 0
  {
  }

  /** The next chunk starts a page, or there is none. */
  lemma NextStart(off: nat, done: nat, want: nat, n: nat)
    requires done < n && want == Chunk(off + done, n - done)
    ensures done + want == n || (off + (done + want)) % PAGE == 0
    ensures off + (done + want) == off + done + want && n - (done + want) == n - done - want
  {
  }

  /** The first `done` bytes of a write are laid over what was there before. */
  ghost predicate BytesLaid(db: Db, was: Pages, now: Pages, off: nat, data: seq<byte>, done: nat)
    requires done <= |data|
  {
    forall i: nat :: FileByte(db, now, i) == if off <= i < off + done then data[i - off] else FileByte(db, was, i)
  }

  lemma NoBytesLaid(db: Db, was: Pages, off: nat, data: seq<byte>)
    ensures BytesLaid(db, was, was, off, data, 0)
  {
    hide FileByte;
  }

  lemma BytesLaidNext(db: Db, was: Pages, mid: Pages, now: Pages, off: nat, data: seq<byte>, done: nat, want: nat)
    requires done + want <= |data| && BytesLaid(db, was, mid, off, data, done)
    requires BytesLaid(db, mid, now, off + done, data[done..done + want], want)
    ensures BytesLaid(db, was, now, off, data, done + want)
  {
    hide FileByte;
  }

  /** The page of a byte is buffered besides those that were. */
  ghost predicate Gained(was: Pages, now: Pages, at: nat) { now.Keys == was.Keys + {at / PAGE} }

  /** A longer file asks no more of the handle. */
  lemma GrowOwns(db: Db, h: Handle, size: nat)
    requires OwnsRows(db, h) && h.work.Idle? && h.size <= size
    ensures OwnsRows(db, h.(size := size))
  {
  }

  lemma RunWithin(s: seq<DirtyPage>, lo: nat, hi: nat)
    requires Sorted(s) && lo <= hi <= |s|
    ensures Sorted(s[lo..hi]) && Buffered(s[lo..hi]).Keys <= Buffered(s).Keys
    ensures forall k :: lo <= k < hi ==> Get(Buffered(s[lo..hi]), s[k].pgno) == Some(s[k].bytes)
    ensures forall k :: 0 <= k < |s| && s[k].pgno in Buffered(s[lo..hi]) ==> lo <= k < hi
  {
    hide Buffered, Sorted;
    RunSorted(s, lo, hi);
    forall k | lo <= k < hi
      ensures Get(Buffered(s[lo..hi]), s[k].pgno) == Some(s[k].bytes)
    {
      BufferedAt(s[lo..hi], k - lo);
    }
    forall p <- Buffered(s[lo..hi])
      ensures p in Buffered(s)
    {
      var i := RunPage(s, lo, hi, p);
    }
    forall k | 0 <= k < |s| && s[k].pgno in Buffered(s[lo..hi])
      ensures lo <= k < hi
    {
      var i := RunPage(s, lo, hi, s[k].pgno);
      SamePlace(s, i, k);
    }
  }

  lemma RunSorted(s: seq<DirtyPage>, lo: nat, hi: nat)
    requires Sorted(s) && lo <= hi <= |s|
    ensures Sorted(s[lo..hi])
  {
  }

  lemma SamePlace(s: seq<DirtyPage>, i: nat, k: nat)
    requires Sorted(s) && i < |s| && k < |s| && s[i].pgno == s[k].pgno
    ensures i == k
  {
  }

  /** A page of the run is one of the buffer, at its place in the run. */
  lemma RunPage(s: seq<DirtyPage>, lo: nat, hi: nat, p: nat) returns (k: nat)
    requires Sorted(s) && lo <= hi <= |s| && p in Buffered(s[lo..hi])
    ensures lo <= k < hi && s[k].pgno == p && p in Buffered(s)
  {
    RunSorted(s, lo, hi);
    hide Buffered, Sorted;
    var i := BufferedOnly(s[lo..hi], p);
    k := lo + i;
    BufferedAt(s, k);
  }

  /** A window stays true across a change no reader sees. */
  lemma WindowKept(db: Db, d: Db, base: Option<nat>, first: nat, count: nat, window: seq<Page>, state: seq<Fetched>)
    requires WindowTrue(db, base, first, count, window, state) && base == NewestShard(db) == NewestShard(d)
    requires forall p: nat :: View(d, p) == View(db, p)
    ensures WindowTrue(d, base, first, count, window, state)
  {
    forall p: nat
      ensures Lookup(d, base, p) == Lookup(db, base, p)
    {
      assert View(d, p) == View(db, p);
    }
    hide Lookup;
  }

  lemma NoPages()
    ensures Buffered([]) == map[]
  {
  }

  /** Either way of landing the buffered pages, whole or staged before, shows them and only them. */
  lemma Lands(db: Db, h: Handle, staged: bool, d: Db)
    requires RowsInv(db) && OwnsRows(db, h) && h.work.Idle?
    requires staged ==> forall p <- h.dirty :: Get(Rows(db.delta, h.head + 1), p) == Some(h.dirty[p])
    requires d == PutHead(if staged then db else PutDelta(db, h.head + 1, h.dirty), h.head + 1, h.dirty.Keys, h.size,
      h.logPages + h.ndirty)
    ensures RowsInv(d) && OwnsRows(d, Landed(h)) && Rows(d.shard, d.head) == map[]
    ensures forall p: nat :: View(d, p) == Laid(db, h.dirty, p)
  {
    hide RowsInv, OwnsRows, View;
    HeadsAgree(db, h);
    if staged {
      HeadOwns(db, h, d);
    } else {
      var m := PutDelta(db, h.head + 1, h.dirty);
      StageOwns(db, h, h.dirty, m);
      HeadOwns(m, h, d);
    }
  }

  lemma LandFence(db: Db, d: Db, h: Handle, staged: bool)
    requires d == PutHead(if staged then db else PutDelta(db, h.head + 1, h.dirty), h.head + 1, h.dirty.Keys, h.size,
      h.logPages + h.ndirty)
    ensures d.fence == db.fence
  {
  }

  /** An empty window is true, and the owner's base is the newest one. */
  lemma LandedBase(db: Db, h: Handle, first: nat, window: seq<Page>, state: seq<Fetched>)
    requires OwnsRows(db, h) && |window| == |state|
    ensures h.base == NewestShard(db) && h.head == db.head && h.sentSize == db.size
    ensures WindowTrue(db, h.base, first, 0, window, state)
  {
  }

  lemma AllPagesStaged(s: seq<DirtyPage>, rows: Pages)
    requires Sorted(s) && forall k :: 0 <= k < |s| ==> Get(rows, s[k].pgno) == Some(s[k].bytes)
    ensures forall p <- Buffered(s) :: Get(rows, p) == Some(Buffered(s)[p])
  {
    forall p <- Buffered(s)
      ensures Get(rows, p) == Some(Buffered(s)[p])
    {
      var i := BufferedOnly(s, p);
    }
  }

  /** One more run staged: everything up to its end lies under the txid. */
  lemma StagedSoFar(db: Db, d: Db, txid: nat, s: seq<DirtyPage>, lo: nat, hi: nat)
    requires Sorted(s) && lo <= hi <= |s| && d == PutDelta(db, txid, Buffered(s[lo..hi]))
    requires forall k :: 0 <= k < lo ==> Get(Rows(db.delta, txid), s[k].pgno) == Some(s[k].bytes)
    ensures forall k :: 0 <= k < hi ==> Get(Rows(d.delta, txid), s[k].pgno) == Some(s[k].bytes)
  {
    hide Buffered;
    RunWithin(s, lo, hi);
  }

  lemma SameBytes(db: Db, d: Db)
    requires forall p: nat :: View(d, p) == View(db, p)
    ensures forall i: nat :: FileByte(d, map[], i) == FileByte(db, map[], i)
  {
    forall i: nat
      ensures FileByte(d, map[], i) == FileByte(db, map[], i)
    {
      assert View(d, i / PAGE) == View(db, i / PAGE);
    }
  }

  /** Once the buffered pages are laid, the stored bytes are the bytes of the file. */
  lemma LandedBytes(db: Db, d: Db, buffer: Pages)
    requires forall p: nat :: View(d, p) == Laid(db, buffer, p)
    ensures forall i: nat :: FileByte(d, map[], i) == FileByte(db, buffer, i)
  {
    forall i: nat
      ensures FileByte(d, map[], i) == FileByte(db, buffer, i)
    {
      assert View(d, i / PAGE) == Laid(db, buffer, i / PAGE);
    }
  }

  lemma NothingLaid(db: Db, s: seq<DirtyPage>)
    requires s == []
    ensures forall p: nat :: Laid(db, Buffered(s), p) == View(db, p)
  {
    hide View;
  }

  lemma LaidAgain(db: Db, d: Db, pages: Pages)
    requires forall p: nat :: View(d, p) == View(db, p)
    ensures forall p: nat :: Laid(d, pages, p) == Laid(db, pages, p)
  {
    hide View;
  }

  /** `seen` are the pages a reader sees below `lo`. */
  ghost predicate SeenBelow(db: Db, lo: nat, seen: set<nat>) {
    forall p: nat :: p in seen <==> p < lo && View(db, p).Some?
  }

  /** `n` is the number of pages a reader sees below `lo`. */
  ghost predicate VisibleCount(db: Db, lo: nat, n: nat) {
    exists seen: set<nat> :: |seen| == n && SeenBelow(db, lo, seen)
  }

  /** The head is where it was, and so are all the bases. */
  predicate SameBase(was: Db, db: Db) {
    db.head == was.head && db.shard == was.shard
  }

  /** The base at the head has gained exactly the pages a reader saw below `lo`. */
  ghost predicate BaseTo(was: Db, db: Db, lo: nat) {
    && db.head == was.head
    && forall p: nat :: p in Rows(db.shard, db.head) <==>
         p in Rows(was.shard, was.head) || (p < lo && View(was, p).Some?)
  }

  /** What a finished fold of `n` pages leaves: the base at the head, and nothing else. */
  ghost predicate FoldedOver(was: Db, db: Db, n: nat) {
    && BaseTo(was, db, n)
    && forall p: nat :: View(db, p) == if p in Rows(db.shard, db.head) then View(was, p) else None
  }

  lemma BaseStarts(was: Db)
    ensures BaseTo(was, was, 0) && SeenBelow(was, 0, {})
  {
  }

  /** One more window of the fold. */
  lemma BaseGrows(was: Db, db: Db, d: Db, lo: nat, hi: nat, found: Pages)
    requires BaseTo(was, db, lo) && Seen(db, lo, hi, found) && lo <= hi && d.head == db.head
    requires Rows(d.shard, d.head) == Rows(db.shard, db.head) + found
    requires forall p: nat :: View(db, p) == View(was, p)
    ensures BaseTo(was, d, hi)
  {
    hide View, Rows;
  }

  lemma SeenGrows(was: Db, db: Db, lo: nat, hi: nat, seen: set<nat>, found: Pages)
    requires SeenBelow(was, lo, seen) && Seen(db, lo, hi, found) && lo <= hi
    requires forall p: nat :: View(db, p) == View(was, p)
    ensures SeenBelow(was, hi, seen + found.Keys) && |seen + found.Keys| == |seen| + |found|
  {
    hide View;
    assert seen !! found.Keys;
  }

  /** The last transaction of a fold, once the base holds every page below `n`. */
  lemma FoldEnds(was: Db, db: Db, d: Db, n: nat)
    requires BaseTo(was, db, n) && RowsInv(db) && SameRows(db, d)
    requires forall p: nat :: View(db, p) == View(was, p)
    requires forall p: nat :: View(d, p) == Get(Rows(db.shard, db.head), p)
    ensures FoldedOver(was, d, n)
  {
    forall p: nat
      ensures View(d, p) == if p in Rows(d.shard, d.head) then View(was, p) else None
    {
      assert View(db, p) == View(was, p);
    }
    hide View, Rows;
  }

  /** The base at the head holds the same pages. */
  predicate SameRows(was: Db, db: Db) {
    db.head == was.head && Rows(db.shard, db.head) == Rows(was.shard, was.head)
  }

  /** A finished fold keeps every page it went over, so its count is still right. */
  lemma CountStands(was: Db, d: Db, n: nat, seen: set<nat>)
    requires FoldedOver(was, d, n) && SeenBelow(was, n, seen)
    ensures VisibleCount(d, n, |seen|)
  {
    hide View, Rows;
    assert SeenBelow(d, n, seen);
  }

  /** memcpy of a chunk into a page. */
  function Splice(page: Page, within: nat, chunk: seq<byte>): Page
    requires within + |chunk| <= PAGE
  {
    page[..within] + chunk + page[within + |chunk|..]
  }

  /** The shared store, and the write transactions left before the process dies. */
  class Store {
    var db: Db
    var untilCrash: Option<nat>

    constructor (db: Db, untilCrash: Option<nat>)
      ensures this.db == db && this.untilCrash == untilCrash
    {
      this.db, this.untilCrash := db, untilCrash;
    }

    /** crash_point: the process may die just before this transaction commits. */
    method CrashPoint() returns (died: bool)
      modifies this`untilCrash
      ensures old(untilCrash).None? ==> !died && untilCrash == old(untilCrash)
      ensures old(untilCrash).Some? ==> (died <==> old(untilCrash).value == 0)
      ensures old(untilCrash).Some? && !died ==> untilCrash == Some(old(untilCrash).value - 1)
    {
      died := false;
      if untilCrash.Some? {
        if untilCrash.value == 0 {
          died := true;
        } else {
          untilCrash := Some(untilCrash.value - 1);
        }
      }
    }
  }

  class FdbFile {
    const store: Store
    const cut: nat -> nat   // where each range reply stops; any stream will do
    var asked: nat
    var fence: nat
    var head: nat
    var base: Option<nat>
    var basePages: nat
    var logPages: nat
    var size: nat
    var sentSize: nat
    var dirty: seq<DirtyPage>
    var compactDue: bool
    var raScore: int
    var raLast: nat
    var raFirst: nat
    var raCount: nat
    var raWindow: seq<Page>
    var raState: seq<Fetched>

    /** What this object is as a handle of the step model. */
    ghost function H(): Handle
      reads this
    {
      Handle(fence, head, base, basePages, logPages, size, sentSize, Buffered(dirty), |dirty|, map[], Idle)
    }

    predicate Owner()
      reads this, store
    {
      store.db.fence == fence
    }

    /** All that reading a page relies on. */
    ghost predicate Readable()
      reads this, store
    {
      && RowsInv(store.db) && raCount <= |raWindow| == |raState|
      && (Owner() ==> base == NewestShard(store.db) && WindowTrue(store.db, base, raFirst, raCount, raWindow, raState))
    }

    ghost predicate Valid()
      reads this, store
    {
      Readable() && Sorted(dirty) && |dirty| <= MAX_TXN_PIDX && (Owner() ==> OwnsRows(store.db, H()))
    }

    /** The file as SQLite sees it: the buffered page, else the stored one, else zeros. */
    ghost function PageAt(p: nat): Page
      reads this, store
    {
      FilePage(store.db, Buffered(dirty), p)
    }

    ghost function ByteAt(i: nat): byte
      reads this, store
    {
      FileByte(store.db, Buffered(dirty), i)
    }

    /** vfs_open after recovery: open_body. */
    constructor Open(store: Store, cut: nat -> nat)
      requires RowsInv(store.db)
      modifies store`db
      ensures this.store == store && Valid() && Owner() && dirty == [] && size == old(store.db.size)
      ensures forall p: nat :: View(store.db, p) == old(View(store.db, p))
      ensures forall i: nat :: ByteAt(i) == old(FileByte(store.db, map[], i))
      ensures store.db == OpenBody(old(store.db))
    {
      this.store, this.cut, asked := store, cut, 0;
      fence, head, base := store.db.fence + 1, store.db.head, NewestShard(store.db);
      basePages, logPages := BasePages(store.db), store.db.logn;
      size, sentSize, dirty, compactDue := store.db.size, store.db.size, [], false;
      raScore, raLast, raFirst, raCount, raWindow, raState := 0, 0, 0, 0, [], [];
      new;
      ghost var was := store.db;
      store.db := OpenBody(store.db);
      OpenKeepsView(was, store.db);
      OpenedOwns(was, store.db);
      SameBytes(was, store.db);
      NoPages();
      assert H() == Opened(was);
    }

    /** find_dirty: binary search in the sorted buffer. */
    method FindDirty(pgno: nat) returns (found: bool, slot: nat)
      requires Sorted(dirty)
      ensures slot <= |dirty|
      ensures forall i :: 0 <= i < slot ==> dirty[i].pgno < pgno
      ensures forall i :: slot <= i < |dirty| ==> pgno <= dirty[i].pgno
      ensures found <==> slot < |dirty| && dirty[slot].pgno == pgno
      ensures found <==> pgno in Buffered(dirty)
      ensures found ==> Buffered(dirty)[pgno] == dirty[slot].bytes
    {
      var lo, hi := 0, |dirty|;
      while lo < hi
        invariant 0 <= lo <= hi <= |dirty|
        invariant forall i :: 0 <= i < lo ==> dirty[i].pgno < pgno
        invariant forall i :: hi <= i < |dirty| ==> pgno <= dirty[i].pgno
      {
        var mid := lo + (hi - lo) / 2;
        if dirty[mid].pgno < pgno { lo := mid + 1; } else { hi := mid; }
      }
      slot, found := lo, lo < |dirty| && dirty[lo].pgno == pgno;
      if found { BufferedAt(dirty, slot); }
      if pgno in Buffered(dirty) {
        var i := BufferedOnly(dirty, pgno);
      }
    }

    /** ra_hit: what the window says of a page, if it says anything. */
    method Hit(pgno: nat) returns (hit: bool, page: Option<Page>)
      requires raCount <= |raWindow| == |raState|
      ensures WindowTrue(store.db, base, raFirst, raCount, raWindow, raState) && hit ==>
        page == Lookup(store.db, base, pgno)
    {
      hit, page := false, None;
      if raFirst <= pgno < raFirst + raCount {
        var i := pgno - raFirst;
        if raState[i] == Absent {
          hit := true;
        } else if raState[i] == Present {
          hit, page := true, Some(raWindow[i]);
        }
      }
    }

    /** A short step forward raises the score; anything else lowers it, and less while scanning. */
    static function Rescored(score: int, gap: int): int {
      if 0 < gap <= RA_GAP then if score + RA_SCORE_STEP > RA_SCORE_CAP then RA_SCORE_CAP else score + RA_SCORE_STEP
      else if score >= RA_ESCALATE then score - RA_DECAY_SCANNING
      else if score < RA_DECAY_RANDOM then 0 else score - RA_DECAY_RANDOM
    }

    /** ra_depth: score the access pattern and answer how far ahead to fetch. */
    method Depth(pgno: nat) returns (depth: nat)
      modifies this`raScore, this`raLast
      ensures raLast == pgno && raScore == Rescored(old(raScore), pgno - old(raLast))
      ensures 0 <= old(raScore) <= RA_SCORE_CAP ==> 0 <= raScore <= RA_SCORE_CAP
      ensures depth == if raScore >= RA_FULL then RA_MAX_PAGES else if raScore >= RA_ESCALATE then RA_STEP_PAGES else 0
    {
      var gap := pgno as int - raLast as int;
      if 0 < gap <= RA_GAP {
        raScore := raScore + RA_SCORE_STEP;
        if raScore > RA_SCORE_CAP { raScore := RA_SCORE_CAP; }
      } else if raScore >= RA_ESCALATE {
        raScore := raScore - RA_DECAY_SCANNING;
      } else {
        raScore := raScore - RA_DECAY_RANDOM;
        if raScore < 0 { raScore := 0; }
      }
      raLast := pgno;
      depth := if raScore >= RA_FULL then RA_MAX_PAGES else if raScore >= RA_ESCALATE then RA_STEP_PAGES else 0;
    }

    /** page_from_store: whatever the window holds, the owner gets the two-row lookup's answer. */
    method PageFromStore(pgno: nat) returns (page: Option<Page>)
      requires Readable()
      modifies this`asked, this`raScore, this`raLast, this`raFirst, this`raCount, this`raWindow, this`raState
      ensures Readable()
      ensures Owner() ==> page == View(store.db, pgno)
    {
      assert forall p <- store.db.pidx :: 1 <= store.db.pidx[p];
      hide RowsInv, WindowTrue, Lookup, NewestShard;
      var hit;
      hit, page := Hit(pgno);
      if hit { return; }
      var depth := Depth(pgno);
      if depth > 0 {
        raFirst := pgno;
        raCount, raWindow, raState := Fill(store.db, base, pgno, depth, cut(asked), cut(asked + 1));
        asked := asked + 2;
        hit, page := Hit(pgno);
        if hit { return; }
      }
      page := Lookup(store.db, base, pgno);
    }

    /** read_body: the bytes of the file, zeros where nothing is stored. */
    method Read(off: nat, amt: nat) returns (out: seq<byte>, short: bool)
      requires Valid()
      modifies this`asked, this`raScore, this`raLast, this`raFirst, this`raCount, this`raWindow, this`raState
      ensures Valid() && |out| == amt
      ensures Owner() ==> forall i :: 0 <= i < amt ==> out[i] == ByteAt(off + i)
      ensures Owner() ==> (short <==> exists p: nat :: Touched(off, amt, p) && Hole(p))
    {
      hide RowsInv, OwnsRows, WindowTrue, Buffered, View, FileByte, FilePage;
      out, short := [], false;
      ghost var h := H();
      while |out| < amt
        invariant Readable() && H() == h && |out| <= amt
        invariant Owner() ==> forall i :: 0 <= i < |out| ==> out[i] == ByteAt(off + i)
        invariant Owner() ==> (short <==> exists p: nat :: Touched(off, |out|, p) && Hole(p))
        decreases amt - |out|
      {
        var at := off + |out|;
        var pgno, within := at / PAGE, at % PAGE;
        var want := if amt - |out| > PAGE - within then PAGE - within else amt - |out|;
        var page, hole := ReadPage(pgno);
        ghost var was := out;
        out := out + page[within..within + want];
        short := short || hole;
        if Owner() {
          ChunkBytes(off, was, out, pgno, within, want);
          TouchedGrows(off, |was|, |out|, pgno);
        }
      }
    }

    lemma TouchedGrows(off: nat, n: nat, m: nat, pgno: nat)
      requires n < m && (off + n) / PAGE == pgno && (off + m - 1) / PAGE == pgno
      ensures forall p: nat :: Touched(off, m, p) <==> Touched(off, n, p) || p == pgno
    {
    }

    /** No commit, no base and no buffer holds the page. */
    ghost predicate Hole(p: nat)
      reads this, store
    {
      p !in Buffered(dirty) && View(store.db, p).None?
    }

    /** One page as a reader of this handle sees it. */
    method ReadPage(pgno: nat) returns (page: Page, hole: bool)
      requires Readable() && Sorted(dirty)
      modifies this`asked, this`raScore, this`raLast, this`raFirst, this`raCount, this`raWindow, this`raState
      ensures Readable()
      ensures Owner() ==> page == PageAt(pgno) && (hole <==> Hole(pgno))
    {
      var found, slot := FindDirty(pgno);
      if found {
        return dirty[slot].bytes, false;
      }
      var stored := PageFromStore(pgno);
      page, hole := if stored.Some? then stored.value else ZeroPage(), stored.None?;
    }

    /** The bytes of one page, in place in the file. */
    lemma ChunkBytes(off: nat, was: seq<byte>, out: seq<byte>, pgno: nat, within: nat, want: nat)
      requires off + |was| == pgno * PAGE + within && within + want <= PAGE && want > 0
      requires out == was + PageAt(pgno)[within..within + want]
      ensures forall i :: |was| <= i < |out| ==> out[i] == ByteAt(off + i) && (off + i) / PAGE == pgno
      ensures forall i :: 0 <= i < |was| ==> out[i] == was[i]
    {
      forall i | |was| <= i < |out|
        ensures out[i] == ByteAt(off + i) && (off + i) / PAGE == pgno
      {
        assert (off + i) == pgno * PAGE + (within + i - |was|);
        assert (off + i) / PAGE == pgno && (off + i) % PAGE == within + i - |was|;
      }
    }

    /** buffer_page and the memcpy into it. */
    method PutChunk(pgno: nat, within: nat, chunk: seq<byte>) returns (ok: bool)
      requires Valid() && within + |chunk| <= PAGE && chunk != []
      modifies this`dirty, this`asked, this`raScore, this`raLast, this`raFirst, this`raCount, this`raWindow,
               this`raState
      ensures ok <==> pgno in Buffered(old(dirty)) || |old(dirty)| < MAX_TXN_PIDX
      ensures Valid() && (!ok ==> dirty == old(dirty))
      ensures ok ==> Buffered(dirty).Keys == Buffered(old(dirty)).Keys + {pgno}
      ensures ok && Owner() ==>
        Buffered(dirty) == Buffered(old(dirty))[pgno := Splice(old(PageAt(pgno)), within, chunk)]
    {
      hide RowsInv, OwnsRows, WindowTrue, View, Buffered, Splice;
      ghost var h, was := H(), PageAt(pgno);
      ghost var page: Page := was;
      var found, slot := FindDirty(pgno);
      if found {
        ok := true;
        page := Splice(dirty[slot].bytes, within, chunk);
        BufferedUpdate(dirty, slot, page);
        dirty := dirty[slot := dirty[slot].(bytes := Splice(dirty[slot].bytes, within, chunk))];
      } else if |dirty| >= MAX_TXN_PIDX {
        ok := false;
        return;
      } else {
        ok := true;
        var stored: Page := ZeroPage();
        if within != 0 || |chunk| != PAGE {
          var hole;
          stored, hole := ReadPage(pgno);
        } else {
          SpliceWhole(stored, was, chunk);
        }
        var d := DirtyPage(pgno, Splice(stored, within, chunk));
        page := d.bytes;
        BufferedInsert(dirty, slot, d);
        dirty := dirty[..slot] + [d] + dirty[slot..];
      }
      if Owner() {
        BufferOwns(store.db, h, pgno, page, |dirty|);
        assert H() == h.(dirty := h.dirty[pgno := page], ndirty := |dirty|);
      }
    }

    /** A whole-page write does not depend on what was there. */
    static lemma SpliceWhole(a: Page, b: Page, chunk: seq<byte>)
      requires |chunk| == PAGE
      ensures Splice(a, 0, chunk) == Splice(b, 0, chunk)
    {
    }

    /**
     fdb_write: the bytes are laid over the file, all of them exactly when their pages and the
     buffered ones fit one commit. A refused write leaves the pages before the one that did not
     fit in the buffer, and the size as it was.
    */
    method Write(off: nat, data: seq<byte>) returns (ok: bool)
      requires Valid()
      modifies this`dirty, this`size, this`asked, this`raScore, this`raLast, this`raFirst, this`raCount, this`raWindow,
               this`raState
      ensures Valid()
      ensures ok <==> Room(Buffered(old(dirty)).Keys, off, |data|)
      ensures size == if ok && old(size) < off + |data| then off + |data| else old(size)
      ensures var n := Landing(Buffered(old(dirty)).Keys, off, |data|);
        && (ok <==> n == |data|)
        && Buffered(dirty).Keys == Buffered(old(dirty)).Keys + PagesOf(off, n)
        && (Owner() ==> forall i: nat :: ByteAt(i) == if off <= i < off + n then data[i - off] else old(ByteAt(i)))
    {
      hide RowsInv, OwnsRows, WindowTrue, Buffered, FileByte, Landing, Room, PagesOf;
      BufferedCount(dirty);
      LandsWhole(Buffered(dirty).Keys, off, |data|);
      ok := LayBytes(off, data);
      label laid:
      if ok && off + |data| > size {
        if Owner() {
          GrowOwns(store.db, H(), off + |data|);
          assert H().(size := off + |data|) == Handle(fence, head, base, basePages, logPages, off + |data|, sentSize,
              Buffered(dirty), |dirty|, map[], Idle);
        }
        size := off + |data|;
      }
      if Owner() {
        forall i: nat ensures ByteAt(i) == old@laid(ByteAt(i)) { }
      }
    }

    lemma BufferedOnce()
      requires Valid()
      ensures |Buffered(dirty).Keys| == |dirty| <= MAX_TXN_PIDX
    {
      BufferedCount(dirty);
    }

    /** The loop of fdb_write: page by page, until the end or the first page refused. */
    method LayBytes(off: nat, data: seq<byte>) returns (ok: bool)
      requires Valid()
      modifies this`dirty, this`asked, this`raScore, this`raLast, this`raFirst, this`raCount, this`raWindow,
               this`raState
      ensures Valid()
      ensures var n := Landing(Buffered(old(dirty)).Keys, off, |data|);
        && (ok <==> n == |data|)
        && Buffered(dirty).Keys == Buffered(old(dirty)).Keys + PagesOf(off, n)
        && (Owner() ==> BytesLaid(store.db, Buffered(old(dirty)), Buffered(dirty), off, data, n))
    {
      hide Standing, Buffered, BytesLaid, Landing, PagesOf, Valid;
      ghost var was := Buffered(dirty);
      NothingStands(off, data);
      var done := 0;
      ok := true;
      while ok && done < |data|
        invariant 0 <= done <= |data|
        invariant ok ==> Standing(off, data, done, was)
        invariant !ok ==> done < |data| && StoppedAt(off, data, done, was)
        decreases ok, |data| - done
      {
        ok, done := LayNext(off, data, done, was);
      }
      if ok { AllStands(off, data, was); }
    }

    /** Where a write stands: `done` of its bytes are in the buffer, over what was there. */
    ghost predicate Standing(off: nat, data: seq<byte>, done: nat, was: Pages)
      reads this, store
    {
      && Valid() && LaidTo(was.Keys, off, |data|, done, Buffered(dirty).Keys)
      && (Owner() ==> BytesLaid(store.db, was, Buffered(dirty), off, data, done))
    }

    /** Where a write stops that was refused its next page. */
    ghost predicate StoppedAt(off: nat, data: seq<byte>, done: nat, was: Pages)
      requires done <= |data|
      reads this, store
    {
      && Valid() && Landing(was.Keys, off, |data|) == done && Buffered(dirty).Keys == was.Keys + PagesOf(off, done)
      && (Owner() ==> BytesLaid(store.db, was, Buffered(dirty), off, data, done))
    }

    lemma NothingStands(off: nat, data: seq<byte>)
      requires Valid()
      ensures Standing(off, data, 0, Buffered(dirty))
    {
      hide Buffered, BytesLaid, LaidTo, Valid;
      LaidNothing(Buffered(dirty).Keys, off, |data|);
      NoBytesLaid(store.db, Buffered(dirty), off, data);
    }

    lemma AllStands(off: nat, data: seq<byte>, was: Pages)
      requires Standing(off, data, |data|, was)
      ensures StoppedAt(off, data, |data|, was)
    {
      hide Buffered, BytesLaid, LaidTo, Valid;
      LaidAll(was.Keys, off, |data|, Buffered(dirty).Keys);
    }

    /** The next page of a write. */
    method LayNext(off: nat, data: seq<byte>, done: nat, ghost was: Pages) returns (ok: bool, next: nat)
      requires done < |data| && Standing(off, data, done, was)
      modifies this`dirty, this`asked, this`raScore, this`raLast, this`raFirst, this`raCount, this`raWindow,
               this`raState
      ensures ok ==> done < next <= |data| && Standing(off, data, next, was)
      ensures !ok ==> next == done && StoppedAt(off, data, done, was)
    {
      hide Buffered, BytesLaid, FileByte, Landing, PagesOf, Valid, Chunk, LaidTo, Gained;
      var want := Chunk(off + done, |data| - done);
      var chunk := data[done..done + want];
      BufferedOnce();
      ghost var mid := Buffered(dirty);
      ok := LayChunk(off + done, chunk);
      next := done;
      if ok {
        ChunkStands(off, data, done, want, was, mid);
        next := done + want;
      } else {
        StopsHere(off, data, done, was);
      }
    }

    lemma StopsHere(off: nat, data: seq<byte>, done: nat, was: Pages)
      requires Standing(off, data, done, was) && done < |data|
      requires (off + done) / PAGE !in Buffered(dirty) && |Buffered(dirty).Keys| >= MAX_TXN_PIDX
      ensures StoppedAt(off, data, done, was)
    {
      hide Buffered, BytesLaid, LaidTo, Valid, Chunk, PagesOf;
      LaidNext(was.Keys, off, |data|, done, Buffered(dirty).Keys);
    }

    lemma ChunkStands(off: nat, data: seq<byte>, done: nat, want: nat, was: Pages, mid: Pages)
      requires Valid() && done < |data| && want == Chunk(off + done, |data| - done)
      requires Gained(mid, Buffered(dirty), off + done)
      requires LaidTo(was.Keys, off, |data|, done, mid.Keys) && |mid.Keys| <= MAX_TXN_PIDX
      requires (off + done) / PAGE in mid.Keys || |mid.Keys| < MAX_TXN_PIDX
      requires Owner() ==>
        && BytesLaid(store.db, was, mid, off, data, done)
        && BytesLaid(store.db, mid, Buffered(dirty), off + done, data[done..done + want], want)
      ensures Standing(off, data, done + want, was)
    {
      hide Buffered, BytesLaid, LaidTo, Valid, Chunk;
      LaidNext(was.Keys, off, |data|, done, mid.Keys);
      if Owner() { BytesLaidNext(store.db, was, mid, Buffered(dirty), off, data, done, want); }
    }

    /** One chunk, within one page. */
    method LayChunk(at: nat, chunk: seq<byte>) returns (ok: bool)
      requires Valid() && chunk != [] && at % PAGE + |chunk| <= PAGE
      modifies this`dirty, this`asked, this`raScore, this`raLast, this`raFirst, this`raCount, this`raWindow,
               this`raState
      ensures Valid()
      ensures ok <==> at / PAGE in Buffered(old(dirty)) || |old(dirty)| < MAX_TXN_PIDX
      ensures !ok ==> dirty == old(dirty)
      ensures ok ==> Gained(Buffered(old(dirty)), Buffered(dirty), at)
      ensures ok && Owner() ==> BytesLaid(store.db, Buffered(old(dirty)), Buffered(dirty), at, chunk, |chunk|)
    {
      hide OwnsRows, Buffered, FileByte, Readable, Valid, Splice;
      ok := PutChunk(at / PAGE, at % PAGE, chunk);
      if ok && Owner() {
        forall i: nat
          ensures FileByte(store.db, Buffered(dirty), i)
            == if at <= i < at + |chunk| then chunk[i - at] else FileByte(store.db, Buffered(old(dirty)), i)
        {
          ChunkLands(store.db, old(Buffered(dirty)), Buffered(dirty), at, chunk, i);
        }
      }
    }

    /** One staging transaction: delta_body over dirty[lo..hi]. */
    method StageRun(lo: nat, hi: nat) returns (o: Outcome)
      requires Valid() && lo <= hi <= |dirty|
      modifies store
      ensures o == Ok || o == Refused || o == Died
      ensures Valid() && store.db.fence == old(store.db.fence)
      ensures old(store.untilCrash).None? ==> o != Died && store.untilCrash.None?
      ensures store.db.size == old(store.db.size)
      ensures o == Refused <==> !Owner()
      ensures o != Ok ==> store.db == old(store.db)
      ensures forall p: nat :: View(store.db, p) == old(View(store.db, p))
      ensures SameBase(old(store.db), store.db)
      ensures o == Ok ==> store.db == PutDelta(old(store.db), head + 1, Buffered(dirty[lo..hi]))
    {
      hide RowsInv, OwnsRows, WindowTrue, View, Buffered;
      if !Owner() { return Refused; }
      var died := store.CrashPoint();
      if died { return Died; }
      ghost var was := store.db;
      store.db := PutDelta(store.db, head + 1, Buffered(dirty[lo..hi]));
      RunWithin(dirty, lo, hi);
      StageOwns(was, H(), Buffered(dirty[lo..hi]), store.db);
      WindowKept(was, store.db, base, raFirst, raCount, raWindow, raState);
      o := Ok;
    }

    /** Every buffered page lies under the next txid already. */
    ghost predicate AllStaged(upto: nat)
      reads this, store
      requires upto <= |dirty|
    {
      forall k :: 0 <= k < upto ==> Get(Rows(store.db.delta, head + 1), dirty[k].pgno) == Some(dirty[k].bytes)
    }

    /** The transaction that makes the commit visible: commit_body, or head_body over staged pages. */
    method Land(staged: bool) returns (o: Outcome)
      requires Valid() && (staged && Owner() ==> AllStaged(|dirty|))
      modifies store, this`head, this`sentSize, this`logPages, this`dirty, this`raCount
      ensures o == Ok || o == Refused || o == Died
      ensures Valid() && store.db.fence == old(store.db.fence)
      ensures old(store.untilCrash).None? ==> o != Died && store.untilCrash.None?
      ensures o == Refused <==> !Owner()
      ensures o != Ok ==> store.db == old(store.db) && dirty == old(dirty)
      ensures o == Ok ==> dirty == [] && sentSize == size == store.db.size
      ensures o == Ok ==> Rows(store.db.shard, store.db.head) == map[]
      ensures o == Ok ==> forall p: nat :: View(store.db, p) == old(Laid(store.db, Buffered(dirty), p))
    {
      hide RowsInv, OwnsRows, WindowTrue, View, Buffered, Get, Rows, PutHead, PutDelta, NewestShard;
      if !Owner() { return Refused; }
      var died := store.CrashPoint();
      if died { return Died; }
      ghost var was, h := store.db, H();
      var pages := Buffered(dirty);
      if staged {
        AllPagesStaged(dirty, Rows(store.db.delta, head + 1));
      }
      var rows := if staged then store.db else PutDelta(store.db, head + 1, pages);
      store.db := PutHead(rows, head + 1, pages.Keys, size, logPages + |dirty|);
      Lands(was, h, staged, store.db);
      LandFence(was, store.db, h, staged);
      AfterLanding(h);
      o := Ok;
    }

    /** What flush does to the handle once its commit has landed. */
    method AfterLanding(ghost h: Handle)
      requires RowsInv(store.db) && OwnsRows(store.db, Landed(h)) && h == H() && Owner() && |raWindow| == |raState|
      modifies this`head, this`sentSize, this`logPages, this`dirty, this`raCount
      ensures Valid() && dirty == [] && sentSize == size == store.db.size && Owner()
    {
      hide RowsInv, OwnsRows, WindowTrue, Buffered, NewestShard;
      head, sentSize, logPages, dirty, raCount := head + 1, size, logPages + |dirty|, [], 0;
      NoPages();
      assert H() == Landed(h);
      LandedBase(store.db, H(), raFirst, raWindow, raState);
    }

    /** should_compact: fold when the log is as large as the base. */
    predicate ShouldCompact()
      reads this
    {
      logPages > 0 && basePages <= logPages
    }

    /**
     flush: everything SQLite wrote becomes one commit, in one transaction or staged.
     A crash before any of its transactions leaves what readers saw before.
    */
    method Flush() returns (o: Outcome)
      requires Valid()
      modifies store, this`head, this`sentSize, this`logPages, this`dirty, this`raCount, this`compactDue
      ensures o == Ok || o == Refused || o == Died
      ensures Valid() && store.db.fence == old(store.db.fence)
      ensures old(store.untilCrash).None? ==> o != Died && store.untilCrash.None?
      ensures o != Ok ==> store.db.size == old(store.db.size) && SameBase(old(store.db), store.db)
      ensures o == Refused ==> !Owner() && store.db == old(store.db)
      ensures o != Ok ==> forall p: nat :: View(store.db, p) == old(View(store.db, p))
      ensures o == Ok ==> dirty == [] && sentSize == size
      ensures o == Ok && Owner() ==> store.db.size == size
      ensures o == Ok && Owner() ==>
        if old(dirty == [] && size == sentSize) then store.db == old(store.db)
        else Rows(store.db.shard, store.db.head) == map[]
      ensures o == Ok && Owner() ==> forall p: nat :: View(store.db, p) == old(Laid(store.db, Buffered(dirty), p))
      ensures o == Ok && !Owner() ==> store.db == old(store.db)
      ensures o == Ok && Owner() ==> forall i: nat :: ByteAt(i) == old(ByteAt(i))
      ensures o != Ok ==> forall i: nat :: FileByte(store.db, map[], i) == old(FileByte(store.db, map[], i))
    {
      hide RowsInv, OwnsRows, WindowTrue, View, Buffered, Get, Rows, PutDelta, NewestShard, Laid, FileByte;
      if |dirty| == 0 && size == sentSize {
        NothingLaid(store.db, dirty);
        if Owner() { SentIsStored(); }
        return Ok;
      }
      var staged := |dirty| > ONE_TXN_PAGES;
      if staged {
        o := StageAll();
        SameBytes(old(store.db), store.db);
        if o != Ok { return; }
        LaidAgain(old(store.db), store.db, Buffered(dirty));
      }
      ghost var buffer := Buffered(dirty);
      o := Land(staged);
      if o != Ok { return; }
      if Owner() {
        NoPages();
        LandedBytes(old(store.db), store.db, buffer);
      }
      if ShouldCompact() { compactDue := true; }
    }

    lemma SentIsStored()
      requires Valid() && Owner()
      ensures sentSize == store.db.size
    {
    }

    /** The staging transactions of a large flush, one run of pages after another. */
    method StageAll() returns (o: Outcome)
      requires Valid()
      modifies store
      ensures o == Ok || o == Refused || o == Died
      ensures Valid() && store.db.fence == old(store.db.fence)
      ensures old(store.untilCrash).None? ==> o != Died && store.untilCrash.None?
      ensures store.db.size == old(store.db.size)
      ensures forall p: nat :: View(store.db, p) == old(View(store.db, p))
      ensures !Owner() ==> store.db == old(store.db)
      ensures o == Refused ==> !Owner()
      ensures SameBase(old(store.db), store.db)
      ensures o == Ok && Owner() ==> AllStaged(|dirty|)
    {
      hide RowsInv, OwnsRows, WindowTrue, View, Buffered, Get, Rows, PutDelta, NewestShard;
      o := Ok;
      var lo := 0;
      while lo < |dirty|
        invariant 0 <= lo && o == Ok && Valid() && store.db.fence == old(store.db.fence)
        invariant store.db.size == old(store.db.size) && SameBase(old(store.db), store.db)
        invariant old(store.untilCrash).None? ==> store.untilCrash.None?
        invariant forall p: nat :: View(store.db, p) == old(View(store.db, p))
        invariant !Owner() ==> store.db == old(store.db)
        invariant Owner() ==> AllStaged(if lo < |dirty| then lo else |dirty|)
      {
        var hi := if lo + STAGE_TXN_PAGES > |dirty| then |dirty| else lo + STAGE_TXN_PAGES;
        ghost var before := store.db;
        o := StageRun(lo, hi);
        if o != Ok { return; }
        StagedSoFar(before, store.db, head + 1, dirty, lo, hi);
        lo := lo + STAGE_TXN_PAGES;
      }
    }

    /** fold_read_body: the pages a reader sees in [lo, hi). */
    method ReadWindow(lo: nat, hi: nat) returns (found: Pages)
      requires Readable() && lo <= hi
      modifies this`asked, this`raScore, this`raLast, this`raFirst, this`raCount, this`raWindow, this`raState
      ensures Readable()
      ensures Owner() ==> Seen(store.db, lo, hi, found)
    {
      hide RowsInv, WindowTrue, View, NewestShard;
      found := map[];
      var p := lo;
      while p < hi
        invariant lo <= p <= hi && Readable()
        invariant Owner() ==> Seen(store.db, lo, p, found)
      {
        var page := PageFromStore(p);
        if page.Some? { found := found[p := page.value]; }
        p := p + 1;
      }
    }

    /** fold_write_body */
    method FoldRun(found: Pages) returns (o: Outcome)
      requires Valid() && (Owner() ==> forall p <- found :: View(store.db, p) == Some(found[p]))
      modifies store
      ensures o == Ok || o == Refused || o == Died
      ensures Valid() && store.db.fence == old(store.db.fence)
      ensures old(store.untilCrash).None? ==> o != Died && store.untilCrash.None?
      ensures store.db.size == old(store.db.size)
      ensures forall p: nat :: View(store.db, p) == old(View(store.db, p))
      ensures o == Refused <==> !Owner()
      ensures o != Ok ==> store.db == old(store.db)
      ensures store.db.head == old(store.db.head)
      ensures o == Ok ==>
        Rows(store.db.shard, store.db.head) == Rows(old(store.db.shard), old(store.db.head)) + found
    {
      hide RowsInv, OwnsRows, WindowTrue, View, Buffered, NewestShard, Rows;
      if !Owner() { return Refused; }
      var died := store.CrashPoint();
      if died { return Died; }
      ghost var was := store.db;
      store.db := FoldWrite(store.db, head, found);
      FoldWriteOwns(was, H(), found, store.db);
      WindowKept(was, store.db, base, raFirst, raCount, raWindow, raState);
      o := Ok;
    }

    /** finish_body, and what compact does once it has landed. */
    method FinishRun(kept: nat) returns (o: Outcome)
      requires Valid()
      modifies store, this`base, this`basePages, this`logPages, this`raCount
      ensures o == Ok || o == Refused || o == Died
      ensures Valid() && store.db.fence == old(store.db.fence)
      ensures old(store.untilCrash).None? ==> o != Died && store.untilCrash.None?
      ensures store.db.size == old(store.db.size)
      ensures o == Refused <==> !Owner()
      ensures o != Ok ==> store.db == old(store.db) && base == old(base)
      ensures o == Ok ==> base == Some(head) && basePages == kept && logPages == 0 && store.db.pidx == map[]
      ensures o == Ok ==> SameRows(old(store.db), store.db)
      ensures o == Ok ==>
        forall p: nat :: View(store.db, p) == Get(Rows(old(store.db.shard), old(store.db.head)), p)
    {
      hide RowsInv, OwnsRows, WindowTrue, View, Buffered, NewestShard, Rows, Get;
      if !Owner() { return Refused; }
      var died := store.CrashPoint();
      if died { return Died; }
      ghost var was, h := store.db, H();
      HeadIsStored();
      store.db := Finish(store.db, head, kept);
      FinishOwns(was, h, kept, store.db);
      base, basePages, logPages, raCount := Some(head), kept, 0, 0;
      assert H() == Folded(h, kept);
      LandedBase(store.db, H(), raFirst, raWindow, raState);
      o := Ok;
    }

    /** One window of the fold: what is seen in it goes into the base at the head. */
    method FoldNext(lo: nat, hi: nat, ghost was: Db, ghost seen: set<nat>) returns (o: Outcome, more: nat,
                    ghost seen': set<nat>)
      requires Valid() && lo <= hi && forall p: nat :: View(store.db, p) == View(was, p)
      requires Owner() ==> SeenBelow(was, lo, seen) && BaseTo(was, store.db, lo)
      modifies store, this`asked, this`raScore, this`raLast, this`raFirst, this`raCount, this`raWindow, this`raState
      ensures o == Ok || o == Refused || o == Died
      ensures Valid() && store.db.fence == old(store.db.fence) && store.db.size == old(store.db.size)
      ensures old(store.untilCrash).None? ==> o != Died && store.untilCrash.None?
      ensures forall p: nat :: View(store.db, p) == View(was, p)
      ensures o == Refused <==> !Owner()
      ensures o != Ok ==> store.db == old(store.db)
      ensures o == Ok ==> SeenBelow(was, hi, seen') && BaseTo(was, store.db, hi) && |seen'| == |seen| + more
    {
      hide RowsInv, OwnsRows, WindowTrue, View, Buffered, NewestShard, Rows, BaseTo, SeenBelow;
      var found := ReadWindow(lo, hi);
      ghost var before := store.db;
      o := FoldRun(found);
      more, seen' := |found|, seen + found.Keys;
      if o == Ok {
        BaseGrows(was, before, store.db, lo, hi, found);
        SeenGrows(was, before, lo, hi, seen, found);
      }
    }

    lemma HeadIsStored()
      requires Valid() && Owner()
      ensures head == store.db.head
    {
    }

    /**
     compact: fold the log into a new base, window by window. Refused, or cut by a crash before
     any of its transactions, it changes no read. Finished, it keeps every page of the file; a
     page past the end, left there by a refused write, stays exactly if the base at the head
     held it already.
    */
    method Compact() returns (o: Outcome)
      requires Valid()
      modifies store, this`base, this`basePages, this`logPages, this`asked, this`raScore, this`raLast, this`raFirst,
               this`raCount, this`raWindow, this`raState
      ensures o == Ok || o == Refused || o == Died
      ensures Valid() && store.db.fence == old(store.db.fence)
      ensures old(store.untilCrash).None? ==> o != Died && store.untilCrash.None?
      ensures store.db.size == old(store.db.size)
      ensures !Owner() || PageCount(size) == 0 ==> store.db == old(store.db)
      ensures o == Refused ==> !Owner()
      ensures o != Ok ==> forall p: nat :: View(store.db, p) == old(View(store.db, p))
      ensures o != Ok && Owner() ==> exists lo: nat :: lo <= PageCount(size) && BaseTo(old(store.db), store.db, lo)
      ensures o == Ok && Owner() && PageCount(size) > 0 ==>
        && FoldedOver(old(store.db), store.db, PageCount(size))
        && base == Some(head) && logPages == 0 && store.db.pidx == map[]
        && VisibleCount(store.db, PageCount(size), basePages)
    {
      hide RowsInv, OwnsRows, WindowTrue, View, Buffered, NewestShard, Rows, PageCount, BaseTo, FoldedOver, SeenBelow,
           VisibleCount;
      var npages := PageCount(size);
      if npages == 0 { return Ok; }
      var window := if STAGE_TXN_PAGES > npages then npages else STAGE_TXN_PAGES;
      var kept: nat, lo: nat := 0, 0;
      ghost var seen: set<nat>, was := {}, store.db;
      ghost var h := H();
      BaseStarts(was);
      while lo < npages
        invariant window > 0 && lo <= npages && Valid() && H() == h && store.db.fence == old(store.db.fence)
        invariant store.db.size == old(store.db.size) && (old(store.untilCrash).None? ==> store.untilCrash.None?)
        invariant forall p: nat :: View(store.db, p) == View(was, p)
        invariant !Owner() ==> store.db == was
        invariant Owner() ==> kept == |seen| && SeenBelow(was, lo, seen) && BaseTo(was, store.db, lo)
      {
        var hi := if lo + window > npages then npages else lo + window;
        var more: nat;
        o, more, seen := FoldNext(lo, hi, was, seen);
        assert H() == h;
        if o != Ok { return; }
        kept, lo := kept + more, hi;
      }
      ghost var folded := store.db;
      o := FinishRun(kept);
      if o == Ok {
        FoldEnds(was, folded, store.db, npages);
        CountStands(was, store.db, npages, seen);
      }
    }
  }
}
