/**
 The rows one database keeps in the ordered store, and the transaction bodies
 that change them (thirdparty/store-plane/fdb_vfs.c).

 An absent HEAD, SIZE, FENCE or LOGN row reads as zero in every body that reads
 it, so each is a number here. A transaction body is one function from rows to
 rows: it happens whole or not at all.
*/
module StoreRows {
  import opened Wrappers

  newtype byte = b: int | 0 <= b < 256

  const PAGE: nat := 4096
  const KEYMAX: nat := 640
  const FDB_TXN_LIMIT: nat := 10_000_000
  const DELTA_ROW: nat := PAGE + KEYMAX
  const PIDX_ROW: nat := KEYMAX + 8
  const ONE_TXN_PAGES: nat := FDB_TXN_LIMIT / (DELTA_ROW + PIDX_ROW)
  const STAGE_TXN_PAGES: nat := FDB_TXN_LIMIT / DELTA_ROW
  const MAX_TXN_PIDX: nat := FDB_TXN_LIMIT / PIDX_ROW

  function ZeroPage(): seq<byte> {
    seq(PAGE, _ => 0)
  }

  type Page = p: seq<byte> | |p| == PAGE witness ZeroPage()
  type Pages = map<nat, Page>

  datatype Db = Db(
    head: nat,                // HEAD: the newest commit
    size: nat,                // SIZE: the file size
    fence: nat,               // FENCE: the newest owner
    pidx: map<nat, nat>,      // PIDX/<pgno>: the commit that owns a page
    delta: map<nat, Pages>,   // DELTA/<txid>/<pgno>
    shard: map<nat, Pages>,   // SHARD/<as_of>/<pgno>
    shardn: map<nat, nat>,    // SHARDN/<as_of>: the page count of a usable base
    logn: nat)                // LOGN: pages committed since the last fold

  const EmptyDb: Db := Db(0, 0, 0, map[], map[], map[], map[], 0)

  /** The rows under one version number; a version with no rows is empty. */
  function Rows(m: map<nat, Pages>, v: nat): Pages {
    if v in m then m[v] else map[]
  }

  /** The largest marked base version not above `n`: one reverse range read. */
  function NewestBelow(shardn: map<nat, nat>, n: nat): Option<nat> {
    if n in shardn then Some(n)
    else if n == 0 then None
    else NewestBelow(shardn, n - 1)
  }

  function NewestShard(db: Db): Option<nat> {
    NewestBelow(db.shardn, db.head)
  }

  /** The two-row lookup: the index, then the log or one base version. */
  function Lookup(db: Db, base: Option<nat>, pgno: nat): Option<Page> {
    if pgno in db.pidx then Get(Rows(db.delta, db.pidx[pgno]), pgno)
    else if base.Some? then Get(Rows(db.shard, base.value), pgno)
    else None
  }

  /** What a reader at the head sees of a page. */
  function View(db: Db, pgno: nat): Option<Page> {
    Lookup(db, NewestShard(db), pgno)
  }

  /** The number of pages a file of `size` bytes spans. */
  function PageCount(size: nat): nat {
    (size + PAGE - 1) / PAGE
  }

  // ---- The write transaction bodies ----

  /** open_body: drop every unfinished commit and raise the fence. */
  function OpenBody(db: Db): Db {
    db.(delta := map t | t in db.delta && t <= db.head :: db.delta[t],
        fence := db.fence + 1)
  }

  /** put_delta_pages: the pages of a commit, under a txid no index row names. */
  function PutDelta(db: Db, txid: nat, pages: Pages): Db {
    db.(delta := db.delta[txid := Rows(db.delta, txid) + pages])
  }

  /** put_head with no truncate pending: index, size, log count and head together. */
  function PutHead(db: Db, txid: nat, pgnos: set<nat>, size: nat, logn: nat): Db {
    db.(pidx := db.pidx + (map p | p in pgnos :: txid), size := size, logn := logn, head := txid)
  }

  /** fold_write_body: one window of the new base version. */
  function FoldWrite(db: Db, asOf: nat, pages: Pages): Db {
    db.(shard := db.shard[asOf := Rows(db.shard, asOf) + pages])
  }

  /** finish_body: mark the new base, drop the index, the log and every older base. */
  function Finish(db: Db, asOf: nat, kept: nat): Db {
    db.(shardn := (map v | v in db.shardn && asOf <= v :: db.shardn[v])[asOf := kept],
        pidx := map[],
        delta := map[],
        shard := map v | v in db.shard && asOf <= v :: db.shard[v],
        logn := 0)
  }

  // ---- The invariant of one database ----

  /** Every index row names a commit at or below the head that holds the page. */
  ghost predicate IndexInv(db: Db) {
    forall p <- db.pidx :: 1 <= db.pidx[p] <= db.head && p in Rows(db.delta, db.pidx[p])
  }

  /** No base version lies above the head, marked or not. */
  ghost predicate BaseInv(db: Db) {
    && (forall v <- db.shardn :: v <= db.head)
    && (forall v <- db.shard :: v <= db.head)
  }

  /** Base rows at the head, even orphans of an unfinished fold, say what a reader sees. */
  ghost predicate OrphanInv(db: Db) {
    forall p <- Rows(db.shard, db.head) :: View(db, p) == Some(Rows(db.shard, db.head)[p])
  }

  /** The rows are in order, wherever the pages lie. */
  ghost predicate RowsInv(db: Db) {
    IndexInv(db) && BaseInv(db) && OrphanInv(db)
  }

  /** No page lies wholly beyond the file size, as when no write was ever refused half way. */
  ghost predicate SizeInv(db: Db) {
    forall p: nat :: View(db, p).Some? ==> p * PAGE < db.size
  }

  ghost predicate DbInv(db: Db) {
    RowsInv(db) && SizeInv(db)
  }

  // ---- What each body does to what a reader sees ----

  /** The range read for the newest base finds exactly the largest marked version in range. */
  lemma {:induction false} NewestIsLargest(shardn: map<nat, nat>, n: nat)
    ensures var r := NewestBelow(shardn, n);
            match r
            case Some(v) => v in shardn && v <= n && forall w <- shardn :: w <= n ==> w <= v
            case None => forall w <- shardn :: w > n
  {
    if n !in shardn && n != 0 {
      NewestIsLargest(shardn, n - 1);
    }
  }

  /** With no marker above `n`, raising the bound finds the same base. */
  lemma {:induction false} NewestStable(shardn: map<nat, nat>, n: nat, m: nat)
    requires n <= m && forall v <- shardn :: v <= n
    ensures NewestBelow(shardn, m) == NewestBelow(shardn, n)
  {
    if n < m {
      NewestStable(shardn, n, m - 1);
    }
  }

  /** Opening changes no read: what it clears is above the head and unindexed. */
  lemma OpenKeepsView(db: Db, d: Db)
    requires RowsInv(db) && d == OpenBody(db)
    ensures RowsInv(d) && (SizeInv(db) ==> SizeInv(d))
    ensures forall p: nat :: View(d, p) == View(db, p)
    ensures Rows(d.delta, db.head + 1) == map[]
  {
    forall p: nat
      ensures View(d, p) == View(db, p)
    {
      if p in db.pidx {
        assert Rows(d.delta, db.pidx[p]) == Rows(db.delta, db.pidx[p]);
      }
    }
  }

  /** Staging above the head changes no read. */
  lemma StageKeepsView(db: Db, txid: nat, pages: Pages, d: Db)
    requires RowsInv(db) && db.head < txid && d == PutDelta(db, txid, pages)
    ensures RowsInv(d) && (SizeInv(db) ==> SizeInv(d))
    ensures forall p: nat :: View(d, p) == View(db, p)
    ensures Rows(d.delta, txid) == Rows(db.delta, txid) + pages
  {
    forall p: nat
      ensures View(d, p) == View(db, p)
    {
      if p in db.pidx {
        assert Rows(d.delta, db.pidx[p]) == Rows(db.delta, db.pidx[p]);
      }
    }
  }

  /** What a reader sees once `pages` are laid over it. */
  function Laid(db: Db, pages: Pages, pgno: nat): Option<Page> {
    if pgno in pages then Some(pages[pgno]) else View(db, pgno)
  }

  /** The file does not shrink, and these pages lie inside it. */
  ghost predicate Inside(pages: Pages, was: nat, size: nat) {
    was <= size && forall p <- pages :: p * PAGE < size
  }

  /** Moving the head over fully staged pages lays exactly those pages over the old reads. */
  lemma HeadLaysPages(db: Db, pages: Pages, size: nat, logn: nat, d: Db)
    requires RowsInv(db) && d == PutHead(db, db.head + 1, pages.Keys, size, logn)
    requires forall p <- pages :: Get(Rows(db.delta, db.head + 1), p) == Some(pages[p])
    ensures RowsInv(d)
    ensures SizeInv(db) && Inside(pages, db.size, size) ==> SizeInv(d)
    ensures forall p: nat :: View(d, p) == Laid(db, pages, p)
  {
    NewestStable(db.shardn, db.head, db.head + 1);
    assert NewestShard(d) == NewestShard(db);
    forall p: nat
      ensures View(d, p) == Laid(db, pages, p)
    {
    }
  }

  /** The one-transaction commit shows the same pages as staging and then moving the head. */
  lemma PutDeltaRows(db: Db, pages: Pages, m: Db)
    requires m == PutDelta(db, db.head + 1, pages)
    ensures m.head == db.head && m.size == db.size
    ensures Rows(m.delta, db.head + 1) == Rows(db.delta, db.head + 1) + pages
  {
  }

  lemma CommitLaysPages(db: Db, pages: Pages, size: nat, logn: nat, d: Db)
    requires RowsInv(db) && d == PutHead(PutDelta(db, db.head + 1, pages), db.head + 1, pages.Keys, size, logn)
    ensures RowsInv(d)
    ensures SizeInv(db) && Inside(pages, db.size, size) ==> SizeInv(d)
    ensures forall p: nat :: View(d, p) == Laid(db, pages, p)
  {
    var m := PutDelta(db, db.head + 1, pages);
    hide RowsInv, SizeInv, View, PutHead, PutDelta, Rows;
    PutDeltaRows(db, pages, m);
    StageKeepsView(db, db.head + 1, pages, m);
    HeadLaysPages(m, pages, size, logn, d);
    forall p: nat
      ensures View(d, p) == Laid(db, pages, p)
    {
      assert View(m, p) == View(db, p);
    }
  }

  /** Writing what a reader sees into the unfinished base at the head changes no read. */
  lemma FoldWriteKeepsView(db: Db, pages: Pages, d: Db)
    requires RowsInv(db) && d == FoldWrite(db, db.head, pages)
    requires forall p <- pages :: View(db, p) == Some(pages[p])
    ensures RowsInv(d) && (SizeInv(db) ==> SizeInv(d))
    ensures forall p: nat :: View(d, p) == View(db, p)
    ensures Rows(d.shard, db.head) == Rows(db.shard, db.head) + pages
  {
    assert NewestShard(d) == NewestShard(db);
    forall p: nat
      ensures View(d, p) == View(db, p)
    {
      var base := NewestShard(db);
      if p !in db.pidx && base.Some? && base.value != db.head {
        assert Rows(d.shard, base.value) == Rows(db.shard, base.value);
      }
    }
  }

  /** Once a fold has finished, a reader sees exactly the rows of the new base. */
  lemma FinishShowsBase(db: Db, kept: nat, d: Db)
    requires RowsInv(db) && d == Finish(db, db.head, kept)
    ensures RowsInv(d) && (SizeInv(db) ==> SizeInv(d))
    ensures forall p: nat :: View(d, p) == Get(Rows(db.shard, db.head), p)
    ensures NewestShard(d) == Some(db.head) && d.shardn == map[db.head := kept]
    ensures Rows(d.shard, d.head) == Rows(db.shard, db.head)
  {
    assert Rows(d.shard, db.head) == Rows(db.shard, db.head);
    assert db.head in d.shardn;
    forall p: nat
      ensures View(d, p) == Get(Rows(db.shard, db.head), p)
      ensures View(d, p).Some? ==> View(db, p) == View(d, p)
    {
    }
  }

  /** Finishing a fold that covered every visible page changes no read. */
  lemma FinishKeepsView(db: Db, kept: nat, d: Db)
    requires RowsInv(db) && d == Finish(db, db.head, kept)
    requires forall p: nat :: View(db, p).Some? ==> p in Rows(db.shard, db.head)
    ensures RowsInv(d) && (SizeInv(db) ==> SizeInv(d))
    ensures forall p: nat :: View(d, p) == View(db, p)
    ensures NewestShard(d) == Some(db.head) && d.shardn == map[db.head := kept]
  {
    FinishShowsBase(db, kept, d);
    forall p: nat
      ensures View(d, p) == View(db, p)
    {
      assert View(d, p) == Get(Rows(db.shard, db.head), p);
    }
  }

  /** A commit keeps every page inside the file exactly when none of its own lies past the new end. */
  lemma HeadKeepsPagesInsideExactly(db: Db, pages: Pages, size: nat, logn: nat, d: Db)
    requires DbInv(db) && db.size <= size && Rows(db.delta, db.head + 1) == pages
    requires d == PutHead(db, db.head + 1, pages.Keys, size, logn)
    requires db.head + 1 !in db.shardn
    ensures SizeInv(d) <==> forall p <- pages :: p * PAGE < size
  {
    NewestStable(db.shardn, db.head, db.head + 1);
    forall p: nat
      ensures View(d, p) == if p in pages then Some(pages[p]) else View(db, p)
    {
    }
  }

  /**
   A fold works through the pages of the file. Finished, it keeps every read exactly when each page
   past the end, where a write refused half way can leave one, was in the base at the head before.
  */
  lemma FoldKeepsReadsExactly(db: Db, npages: nat, kept: nat, d: Db)
    requires RowsInv(db) && d == Finish(db, db.head, kept)
    requires forall p: nat :: p < npages && View(db, p).Some? ==> p in Rows(db.shard, db.head)
    ensures (forall p: nat :: View(d, p) == View(db, p)) <==>
            (forall p: nat :: npages <= p && View(db, p).Some? ==> p in Rows(db.shard, db.head))
  {
    FinishShowsBase(db, kept, d);
    forall p: nat
      ensures View(d, p) == View(db, p) <==> View(db, p).None? || p in Rows(db.shard, db.head)
    {
      assert View(d, p) == Get(Rows(db.shard, db.head), p);
    }
  }
}
