/**
 One open handle as a value: what `FdbFile` caches, and where it stands inside
 a flush or a fold (thirdparty/store-plane/fdb_vfs.c). Every transition below is
 one transaction, or one change to the handle alone.
*/
module HandleSteps {
  import opened Wrappers
  import opened StoreRows

  /** Where a handle stands between two transactions of one call. */
  datatype Work =
    | Idle
    | Staging(staged: set<nat>)
    | Folding(npages: nat, lo: nat, window: Option<Window>)

  /** The pages `fold_read_body` found in [lo, hi). */
  datatype Window = Window(hi: nat, found: Pages)

  datatype Handle = Handle(
    fence: nat,
    head: nat,
    base: Option<nat>,                // has_shard and shard_as_of
    basePages: nat,
    logPages: nat,
    size: nat,
    sentSize: nat,
    dirty: Pages,
    ndirty: nat,
    ahead: map<nat, Option<Page>>,    // what the read-ahead window answers
    work: Work)

  datatype Step =
    | Write(pgno: nat, page: Page, end: nat)
    | Prefetch(pgnos: set<nat>)
    | Commit
    | Stage(pgnos: set<nat>)
    | MoveHead
    | FoldStart
    | FoldRead(hi: nat)
    | FoldPut
    | FoldFinish(kept: nat)
    | Fail

  /** open_body: what a new handle learns. */
  function Opened(db: Db): Handle {
    var base := NewestShard(db);
    Handle(db.fence + 1, db.head, base, BasePages(db), db.logn, db.size, db.size, map[], 0, map[], Idle)
  }

  function BasePages(db: Db): nat {
    var base := NewestShard(db);
    if base.Some? && base.value in db.shardn then db.shardn[base.value] else 0
  }

  /** page_from_store: the window if it knows the page, else the two-row lookup. */
  function Answer(db: Db, h: Handle, pgno: nat): Option<Page> {
    if pgno in h.ahead then h.ahead[pgno] else Lookup(db, h.base, pgno)
  }

  function Present(db: Db, h: Handle, lo: nat, hi: nat): Pages {
    map p | lo <= p < hi && Answer(db, h, p).Some? :: Answer(db, h, p).value
  }

  /** check_fence: a write transaction of a handle that lost ownership is refused. */
  predicate Owns(db: Db, h: Handle) {
    db.fence == h.fence
  }

  /** What the handle becomes once its head transaction lands. */
  function Landed(h: Handle): Handle {
    h.(head := h.head + 1, sentSize := h.size, logPages := h.logPages + h.ndirty,
       dirty := map[], ndirty := 0, ahead := map[], work := Idle)
  }

  function Folded(h: Handle, kept: nat): Handle {
    h.(base := Some(h.head), basePages := kept, logPages := 0, ahead := map[], work := Idle)
  }

  /** The guard each step has inside the code's control flow. */
  predicate Enabled(h: Handle, s: Step) {
    match s
    case Write(pgno, page, end) => h.work.Idle? && pgno * PAGE < end <= (pgno + 1) * PAGE
    case Prefetch(_) => true
    case Commit => h.work.Idle?
    case Stage(pgnos) => !h.work.Folding? && pgnos <= h.dirty.Keys
    case MoveHead => h.work.Staging? && h.work.staged == h.dirty.Keys
    case FoldStart => h.work.Idle?
    case FoldRead(hi) => h.work.Folding? && h.work.window.None? && h.work.lo < hi <= h.work.npages
    case FoldPut => h.work.Folding? && h.work.window.Some?
    case FoldFinish(_) => h.work.Folding? && h.work.window.None? && h.work.lo == h.work.npages
    case Fail => true
  }

  /** The rows after a step. A refused, local or disabled step leaves them alone. */
  function DbAfter(db: Db, h: Handle, s: Step): Db {
    if !Enabled(h, s) || !Owns(db, h) then db
    else match s
      case Commit => PutHead(PutDelta(db, h.head + 1, h.dirty), h.head + 1, h.dirty.Keys, h.size, h.logPages + h.ndirty)
      case Stage(pgnos) => PutDelta(db, h.head + 1, map p | p in pgnos && p in h.dirty :: h.dirty[p])
      case MoveHead => PutHead(db, h.head + 1, h.dirty.Keys, h.size, h.logPages + h.ndirty)
      case FoldPut => FoldWrite(db, h.head, h.work.window.value.found)
      case FoldFinish(kept) => Finish(db, h.head, kept)
      case _ => db
  }

  /** The handle after a step. A refused write ends the call and changes nothing else. */
  function HandleAfter(db: Db, h: Handle, s: Step): Handle {
    if !Enabled(h, s) then h
    else match s
    case Write(pgno, page, end) =>
      h.(dirty := h.dirty[pgno := page], ndirty := if pgno in h.dirty then h.ndirty else h.ndirty + 1,
         size := if h.size < end then end else h.size)
    case Prefetch(pgnos) => h.(ahead := map p | p in pgnos :: Answer(db, h, p))
    case FoldStart => h.(work := Folding(PageCount(h.size), 0, None))
    case FoldRead(hi) => h.(work := h.work.(window := Some(Window(hi, Present(db, h, h.work.lo, hi)))))
    case Fail => h.(work := Idle)
    case Commit => if Owns(db, h) then Landed(h) else h.(work := Idle)
    case MoveHead => if Owns(db, h) then Landed(h) else h.(work := Idle)
    case FoldFinish(kept) => if Owns(db, h) then Folded(h, kept) else h.(work := Idle)
    case FoldPut =>
      if Owns(db, h) then h.(work := h.work.(lo := h.work.window.value.hi, window := None))
      else h.(work := Idle)
    case Stage(pgnos) =>
      if Owns(db, h) then h.(work := Staging(Staged(h) + pgnos)) else h.(work := Idle)
  }

  function Staged(h: Handle): set<nat> {
    if h.work.Staging? then h.work.staged else {}
  }

  // ---- What the owner may rely on ----

  /** The owner's cached numbers equal the store's. */
  ghost predicate CachesAgree(db: Db, h: Handle) {
    && h.head == db.head && h.base == NewestShard(db) && h.basePages == BasePages(db)
    && h.logPages == db.logn && h.sentSize == db.size <= h.size
  }

  ghost predicate AheadAgrees(db: Db, h: Handle) {
    forall p <- h.ahead :: h.ahead[p] == View(db, p)
  }

  /** Rows staged above the head are this handle's own, and only for pages it still holds dirty. */
  ghost predicate StagedAgrees(db: Db, h: Handle) {
    && (forall t <- db.delta :: t <= db.head + 1)
    && Rows(db.delta, db.head + 1).Keys <= h.dirty.Keys
    && (h.work.Staging? ==>
          && h.work.staged <= h.dirty.Keys
          && forall p <- h.work.staged :: Get(Rows(db.delta, db.head + 1), p) == Some(h.dirty[p]))
  }

  ghost predicate FoldAgrees(db: Db, h: Handle) {
    h.work.Folding? ==>
      && h.work.npages == PageCount(h.size)
      && h.work.lo <= h.work.npages
      && (forall p: nat :: p < h.work.lo && View(db, p).Some? ==> p in Rows(db.shard, db.head))
      && (h.work.window.Some? ==>
            && h.work.lo < h.work.window.value.hi <= h.work.npages
            && Seen(db, h.work.lo, h.work.window.value.hi, h.work.window.value.found))
  }

  /** A window holds exactly the pages a reader sees in [lo, hi). */
  ghost predicate Seen(db: Db, lo: nat, hi: nat, found: Pages) {
    && (forall p: nat :: p in found <==> lo <= p < hi && View(db, p).Some?)
    && (forall p <- found :: View(db, p) == Some(found[p]))
  }

  /** No buffered page lies wholly beyond the file, as when no write was refused half way. */
  ghost predicate DirtyInside(h: Handle) {
    forall p <- h.dirty :: p * PAGE < h.size
  }

  /** What the owner relies on, wherever its pages lie. */
  ghost predicate OwnsRows(db: Db, h: Handle) {
    CachesAgree(db, h) && AheadAgrees(db, h) && StagedAgrees(db, h) && FoldAgrees(db, h)
  }

  ghost predicate OwnerInv(db: Db, h: Handle) {
    OwnsRows(db, h) && DirtyInside(h)
  }

  // ---- Every step of the owner keeps the invariant ----

  /** Does this step, taken now, make the buffered pages visible? */
  predicate Commits(db: Db, h: Handle, s: Step) {
    Enabled(h, s) && Owns(db, h) && (s.Commit? || s.MoveHead?)
  }

  lemma OpenedOwns(db: Db, d: Db)
    requires RowsInv(db) && d == OpenBody(db)
    ensures OwnerInv(d, Opened(db))
  {
    OpenKeepsView(db, d);
    assert NewestShard(d) == NewestShard(db);
  }

  /** Once the head has moved, the handle's own bookkeeping agrees with the store again. */
  lemma LandedOwns(db: Db, h: Handle, d: Db)
    requires CachesAgree(db, h) && BaseInv(db)
    requires d.head == db.head + 1 && d.shardn == db.shardn && d.size == h.size && d.logn == h.logPages + h.ndirty
    requires forall t <- d.delta :: t <= d.head
    ensures OwnerInv(d, Landed(h))
  {
    NewestStable(db.shardn, db.head, d.head);
  }

  lemma CommitStep(db: Db, h: Handle, d: Db)
    requires DbInv(db) && CachesAgree(db, h) && DirtyInside(h) && Owns(db, h) && Enabled(h, Commit)
    requires StagedAgrees(db, h) && d == DbAfter(db, h, Commit)
    ensures DbInv(d) && OwnerInv(d, Landed(h))
    ensures forall p: nat :: View(d, p) == Laid(db, h.dirty, p)
  {
    CommitLaysPages(db, h.dirty, h.size, h.logPages + h.ndirty, d);
    LandedOwns(db, h, d);
  }

  lemma StageStep(db: Db, h: Handle, pgnos: set<nat>, d: Db, h': Handle)
    requires DbInv(db) && OwnerInv(db, h) && Owns(db, h) && Enabled(h, Stage(pgnos))
    requires d == DbAfter(db, h, Stage(pgnos)) && h' == HandleAfter(db, h, Stage(pgnos))
    ensures DbInv(d) && OwnerInv(d, h')
    ensures forall p: nat :: View(d, p) == View(db, p)
  {
    var pages := map p | p in pgnos && p in h.dirty :: h.dirty[p];
    StageKeepsView(db, h.head + 1, pages, d);
    assert NewestShard(d) == NewestShard(db);
    StageKeepsStaged(db, h, pgnos, d, h');
  }

  lemma StageKeepsStaged(db: Db, h: Handle, pgnos: set<nat>, d: Db, h': Handle)
    requires h.head == db.head && StagedAgrees(db, h) && Owns(db, h) && Enabled(h, Stage(pgnos))
    requires d == DbAfter(db, h, Stage(pgnos)) && h' == HandleAfter(db, h, Stage(pgnos))
    ensures StagedAgrees(d, h')
  {
    var pages := map p | p in pgnos && p in h.dirty :: h.dirty[p];
    assert Rows(d.delta, db.head + 1) == Rows(db.delta, db.head + 1) + pages;
  }

  lemma MoveHeadStep(db: Db, h: Handle, d: Db)
    requires DbInv(db) && CachesAgree(db, h) && DirtyInside(h) && Owns(db, h) && Enabled(h, MoveHead)
    requires StagedAgrees(db, h) && d == DbAfter(db, h, MoveHead)
    ensures DbInv(d) && OwnerInv(d, Landed(h))
    ensures forall p: nat :: View(d, p) == Laid(db, h.dirty, p)
  {
    HeadLaysPages(db, h.dirty, h.size, h.logPages + h.ndirty, d);
    LandedOwns(db, h, d);
  }

  /** Writing one window of the fold keeps what is known of the windows before it. */
  lemma FoldPutStep(db: Db, h: Handle, d: Db, h': Handle)
    requires DbInv(db) && OwnerInv(db, h) && Owns(db, h) && Enabled(h, FoldPut)
    requires d == DbAfter(db, h, FoldPut) && h' == HandleAfter(db, h, FoldPut)
    ensures DbInv(d) && OwnerInv(d, h')
    ensures forall p: nat :: View(d, p) == View(db, p)
  {
    FoldWriteKeepsView(db, h.work.window.value.found, d);
    assert NewestShard(d) == NewestShard(db);
  }

  lemma FoldFinishStep(db: Db, h: Handle, kept: nat, d: Db)
    requires DbInv(db) && OwnerInv(db, h) && Owns(db, h) && Enabled(h, FoldFinish(kept))
    requires d == DbAfter(db, h, FoldFinish(kept))
    ensures DbInv(d) && OwnerInv(d, Folded(h, kept))
    ensures forall p: nat :: View(d, p) == View(db, p)
  {
    forall p: nat | View(db, p).Some?
      ensures p in Rows(db.shard, db.head)
    {
      assert p * PAGE < db.size <= h.size;
      assert p < PageCount(h.size);
    }
    FinishKeepsView(db, kept, d);
  }

  /** The owner reads what a reader at the head sees, through the window or not. */
  lemma HeadsAgree(db: Db, h: Handle)
    requires OwnsRows(db, h)
    ensures h.head == db.head
  {
  }

  lemma OwnerReads(db: Db, h: Handle)
    requires h.base == NewestShard(db) && AheadAgrees(db, h)
    ensures forall p: nat :: Answer(db, h, p) == View(db, p)
  {
  }

  predicate Local(s: Step) {
    s.Write? || s.Prefetch? || s.FoldStart? || s.FoldRead? || s.Fail?
  }

  lemma LocalStep(db: Db, h: Handle, s: Step, h': Handle)
    requires OwnerInv(db, h) && Enabled(h, s) && Local(s) && h' == HandleAfter(db, h, s)
    ensures OwnerInv(db, h')
  {
    OwnerReads(db, h);
  }

  // ---- The same for the open file, whose pages may lie past its end ----

  /** Staging some of the buffered pages above the head is invisible and keeps the owner in order. */
  lemma StageOwns(db: Db, h: Handle, pages: Pages, d: Db)
    requires RowsInv(db) && OwnsRows(db, h) && h.work.Idle? && pages.Keys <= h.dirty.Keys
    requires d == PutDelta(db, h.head + 1, pages)
    ensures RowsInv(d) && OwnsRows(d, h)
    ensures forall p: nat :: View(d, p) == View(db, p)
    ensures h.head == db.head == d.head && Rows(d.delta, db.head + 1) == Rows(db.delta, db.head + 1) + pages
  {
    hide RowsInv, SizeInv, View;
    StageKeepsView(db, h.head + 1, pages, d);
    assert NewestShard(d) == NewestShard(db);
  }

  /** Moving the head once every buffered page is staged. */
  lemma HeadOwns(db: Db, h: Handle, d: Db)
    requires RowsInv(db) && OwnsRows(db, h) && d == PutHead(db, h.head + 1, h.dirty.Keys, h.size, h.logPages + h.ndirty)
    requires forall p <- h.dirty :: Get(Rows(db.delta, db.head + 1), p) == Some(h.dirty[p])
    ensures RowsInv(d) && OwnsRows(d, Landed(h))
    ensures forall p: nat :: View(d, p) == Laid(db, h.dirty, p)
    ensures Rows(d.shard, d.head) == map[]
  {
    HeadLaysPages(db, h.dirty, h.size, h.logPages + h.ndirty, d);
    LandedOwns(db, h, d);
  }

  /** One window of the fold, written by an idle owner. */
  lemma FoldWriteOwns(db: Db, h: Handle, found: Pages, d: Db)
    requires RowsInv(db) && OwnsRows(db, h) && h.work.Idle? && d == FoldWrite(db, h.head, found)
    requires forall p <- found :: View(db, p) == Some(found[p])
    ensures RowsInv(d) && OwnsRows(d, h) && NewestShard(d) == NewestShard(db)
    ensures forall p: nat :: View(d, p) == View(db, p)
    ensures d.head == h.head && Rows(d.shard, h.head) == Rows(db.shard, h.head) + found
  {
    FoldWriteKeepsView(db, found, d);
    assert NewestShard(d) == NewestShard(db);
  }

  /** The end of the fold: a reader sees the rows of the new base, and only those. */
  lemma FinishOwns(db: Db, h: Handle, kept: nat, d: Db)
    requires RowsInv(db) && OwnsRows(db, h) && h.work.Idle? && d == Finish(db, h.head, kept)
    ensures RowsInv(d) && OwnsRows(d, Folded(h, kept)) && NewestShard(d) == Some(h.head)
    ensures forall p: nat :: View(d, p) == Get(Rows(db.shard, h.head), p)
    ensures d.head == h.head && Rows(d.shard, h.head) == Rows(db.shard, h.head)
  {
    FinishShowsBase(db, kept, d);
  }

  /** Buffering a page changes nothing else the owner relies on. */
  lemma BufferOwns(db: Db, h: Handle, pgno: nat, page: Page, n: nat)
    requires OwnsRows(db, h) && h.work.Idle?
    ensures OwnsRows(db, h.(dirty := h.dirty[pgno := page], ndirty := n))
  {
  }

  /** Every step of the owner keeps both invariants and changes reads only by committing. */
  lemma OwnerStep(db: Db, h: Handle, s: Step, d: Db, h': Handle)
    requires DbInv(db) && OwnerInv(db, h) && Owns(db, h)
    requires d == DbAfter(db, h, s) && h' == HandleAfter(db, h, s)
    ensures DbInv(d) && OwnerInv(d, h')
    ensures d.fence == db.fence && h'.fence == h.fence
    ensures d.size == if Commits(db, h, s) then h.size else db.size
    ensures forall p: nat :: View(d, p) == if Commits(db, h, s) then Laid(db, h.dirty, p) else View(db, p)
  {
    if Enabled(h, s) {
      match s
      case Commit => CommitStep(db, h, d);
      case Stage(pgnos) => StageStep(db, h, pgnos, d, h');
      case MoveHead => MoveHeadStep(db, h, d);
      case FoldPut => FoldPutStep(db, h, d, h');
      case FoldFinish(kept) => FoldFinishStep(db, h, kept, d);
      case _ => LocalStep(db, h, s, h');
    }
  }
}
