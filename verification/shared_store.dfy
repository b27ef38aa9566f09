/**
 Any number of handles on one database, interleaved transaction by transaction,
 crashing anywhere (thirdparty/store-plane/fdb_vfs.c). The rows are compared with
 a reference file that only ever changes when a commit of the current owner lands.
*/
module SharedStore {
  import opened Wrappers
  import opened StoreRows
  import opened HandleSteps

  /** The reference: the committed pages and the committed size. */
  datatype Flat = Flat(pages: Pages, size: nat)

  /** A handle is known by the fence it raised, which no other handle ever holds. */
  datatype Sys = Sys(db: Db, handles: map<nat, Handle>, flat: Flat)

  datatype Act = Open | By(fence: nat, step: Step) | Crash(fence: nat)

  const Init: Sys := Sys(EmptyDb, map[], Flat(map[], 0))

  function Next(s: Sys, a: Act): Sys {
    match a
    case Open => s.(db := OpenBody(s.db), handles := s.handles[s.db.fence + 1 := Opened(s.db)])
    case Crash(f) => s.(handles := s.handles - {f})
    case By(f, step) =>
      if f !in s.handles then s
      else
        var h := s.handles[f];
        Sys(DbAfter(s.db, h, step), s.handles[f := HandleAfter(s.db, h, step)],
            if Commits(s.db, h, step) then Flat(s.flat.pages + h.dirty, h.size) else s.flat)
  }

  function Run(acts: seq<Act>): Sys {
    if acts == [] then Init else Next(Run(acts[..|acts| - 1]), acts[|acts| - 1])
  }

  /** Readers at the head see the reference file, page for page. */
  ghost predicate Shows(db: Db, flat: Flat) {
    db.size == flat.size && forall p: nat :: View(db, p) == Get(flat.pages, p)
  }

  ghost predicate SysInv(s: Sys) {
    && DbInv(s.db)
    && (forall f <- s.handles :: s.handles[f].fence == f <= s.db.fence)
    && (s.db.fence in s.handles ==> OwnerInv(s.db, s.handles[s.db.fence]))
    && Shows(s.db, s.flat)
  }

  /** A handle that is not the latest opener changes no row at all. */
  lemma StaleChangesNothing(s: Sys, f: nat, step: Step)
    requires SysInv(s) && f != s.db.fence
    ensures Next(s, By(f, step)).db == s.db && Next(s, By(f, step)).flat == s.flat
  {
    if f in s.handles {
      assert !Owns(s.db, s.handles[f]);
    }
  }

  /** One step of the owner moves the rows and the reference file together. */
  lemma StepShows(db: Db, h: Handle, step: Step, flat: Flat, d: Db, h': Handle)
    requires DbInv(db) && OwnerInv(db, h) && Owns(db, h) && Shows(db, flat)
    requires d == DbAfter(db, h, step) && h' == HandleAfter(db, h, step)
    ensures DbInv(d) && OwnerInv(d, h') && Owns(d, h')
    ensures d.fence == db.fence
    ensures Shows(d, if Commits(db, h, step) then Flat(flat.pages + h.dirty, h.size) else flat)
  {
    hide DbInv, OwnerInv, DbAfter, HandleAfter, View;
    OwnerStep(db, h, step, d, h');
    forall p: nat
      ensures View(d, p) == Get(if Commits(db, h, step) then flat.pages + h.dirty else flat.pages, p)
    {
      assert View(db, p) == Get(flat.pages, p);
    }
  }

  lemma NextKeeps(s: Sys, a: Act, t: Sys)
    requires SysInv(s) && t == Next(s, a)
    ensures SysInv(t)
  {
    match a
    case Open =>
      OpenKeepsView(s.db, t.db);
      OpenedOwns(s.db, t.db);
    case Crash(f) =>
    case By(f, step) =>
      if f != s.db.fence {
        StaleChangesNothing(s, f, step);
      } else if f in s.handles {
        StepShows(s.db, s.handles[f], step, s.flat, t.db, t.handles[f]);
      }
  }

  /**
   Over every interleaving of every number of handles, with crashes anywhere, the
   store shows exactly the commits that landed, and the owner's caches are true.
  */
  lemma {:induction false} RunsRefineFlat(acts: seq<Act>)
    ensures SysInv(Run(acts))
  {
    if acts == [] {
      assert forall p: nat :: View(EmptyDb, p) == None;
    } else {
      RunsRefineFlat(acts[..|acts| - 1]);
      NextKeeps(Run(acts[..|acts| - 1]), acts[|acts| - 1], Run(acts));
    }
  }

  /** The latest opener reads the committed file, and its cached numbers are the store's. */
  lemma OwnerSeesCommitted(acts: seq<Act>)
    ensures var s := Run(acts);
            s.db.fence in s.handles ==>
              var h := s.handles[s.db.fence];
              && CachesAgree(s.db, h)
              && forall p: nat :: Answer(s.db, h, p) == Get(s.flat.pages, p)
  {
    RunsRefineFlat(acts);
    var s := Run(acts);
    if s.db.fence in s.handles {
      OwnerReads(s.db, s.handles[s.db.fence]);
    }
  }

  /**
   Whatever a crash cut short, a reopen reads the file as of the last whole commit:
   the pages of an unfinished flush or fold are never mixed in.
  */
  lemma ReopenReadsLastCommit(acts: seq<Act>)
    ensures var s := Run(acts + [Open]);
            && s.flat == Run(acts).flat
            && s.db.fence in s.handles
            && s.handles[s.db.fence].size == Run(acts).flat.size
            && forall p: nat :: Answer(s.db, s.handles[s.db.fence], p) == Get(Run(acts).flat.pages, p)
  {
    assert (acts + [Open])[..|acts + [Open]| - 1] == acts;
    RunsRefineFlat(acts);
    OwnerSeesCommitted(acts + [Open]);
  }

  // ---- What a commit makes visible, told from the actions alone ----

  /** Does this handle take this step, when these actions have been taken? */
  predicate Takes(acts: seq<Act>, f: nat, step: Step) {
    f in Run(acts).handles && Enabled(Run(acts).handles[f], step)
  }

  /** Does this step of this handle then make a commit land? */
  predicate Lands(acts: seq<Act>, f: nat, step: Step) {
    f in Run(acts).handles && Commits(Run(acts).db, Run(acts).handles[f], step)
  }

  /** The last write of this handle to page p since its last commit that landed, as a place in the actions. */
  function LastWrite(acts: seq<Act>, f: nat, p: nat): (r: Option<nat>)
    ensures r.Some? ==> r.value < |acts| && acts[r.value].By?
    ensures r.Some? ==> acts[r.value].step.Write? && acts[r.value].step.pgno == p
  {
    if acts == [] then None
    else
      var pre, a := acts[..|acts| - 1], acts[|acts| - 1];
      if a.By? && a.fence == f && a.step.Write? && a.step.pgno == p && Takes(pre, f, a.step) then Some(|acts| - 1)
      else if a.By? && a.fence == f && Lands(pre, f, a.step) then None
      else LastWrite(pre, f, p)
  }

  /** How far the writes of this handle have reached since then. */
  function Reached(acts: seq<Act>, f: nat): nat {
    if acts == [] then 0
    else
      var pre, a := acts[..|acts| - 1], acts[|acts| - 1];
      if a.By? && a.fence == f && a.step.Write? && Takes(pre, f, a.step) then Larger(Reached(pre, f), a.step.end)
      else if a.By? && a.fence == f && Lands(pre, f, a.step) then 0
      else Reached(pre, f)
  }

  function Larger(a: nat, b: nat): nat { if a < b then b else a }

  /** What this handle is about to commit is what it last wrote, page by page. */
  ghost predicate Buffers(acts: seq<Act>, f: nat, h: Handle, size: nat) {
    && (forall p: nat :: p in h.dirty <==> LastWrite(acts, f, p).Some?)
    && (forall p <- h.dirty :: h.dirty[p] == acts[LastWrite(acts, f, p).value].step.page)
    && h.size == Larger(size, Reached(acts, f)) && h.ndirty == |h.dirty|
  }

  /** A handle that has yet to be opened has written nothing. */
  lemma {:induction false} NotYetOpened(acts: seq<Act>, f: nat)
    requires f > Run(acts).db.fence
    ensures Reached(acts, f) == 0 && forall p: nat :: LastWrite(acts, f, p) == None
  {
    if acts != [] {
      var pre := acts[..|acts| - 1];
      RunsRefineFlat(pre);
      FenceRises(pre, acts[|acts| - 1]);
      NotYetOpened(pre, f);
      assert f !in Run(pre).handles;
    }
  }

  lemma FenceRises(acts: seq<Act>, a: Act)
    requires SysInv(Run(acts))
    ensures Run(acts).db.fence <= Next(Run(acts), a).db.fence
  {
    hide Run, SysInv;
    var s := Run(acts);
    if a.By? && a.fence in s.handles {
      match a.step
      case _ =>
    }
  }

  /** What a step of the owner does to its buffer. */
  lemma StepBuffers(db: Db, h: Handle, step: Step, d: Db, h': Handle)
    requires DbInv(db) && OwnerInv(db, h) && Owns(db, h)
    requires d == DbAfter(db, h, step) && h' == HandleAfter(db, h, step)
    ensures d.fence == db.fence
    ensures Commits(db, h, step) ==> h'.dirty == map[] && h'.ndirty == 0 && h'.size == h.size == d.size
    ensures !Commits(db, h, step) ==> d.size == db.size
    ensures step.Write? && Enabled(h, step) ==>
      && h'.dirty == h.dirty[step.pgno := step.page] && h'.size == Larger(h.size, step.end)
      && h'.ndirty == h.ndirty + (if step.pgno in h.dirty then 0 else 1)
    ensures !Commits(db, h, step) && !(step.Write? && Enabled(h, step)) ==>
      h'.dirty == h.dirty && h'.ndirty == h.ndirty && h'.size == h.size
  {
    OwnerStep(db, h, step, d, h');
    hide OwnerInv, DbInv, View;
  }

  /** The buffer of a handle that did nothing stays what it was. */
  lemma BuffersFrame(acts: seq<Act>, a: Act, f: nat, h: Handle, size: nat)
    requires Buffers(acts, f, h, size) && !(a.By? && a.fence == f)
    ensures Buffers(acts + [a], f, h, size)
  {
    assert (acts + [a])[..|acts|] == acts;
  }

  /** The owner's own step. */
  lemma BuffersStep(acts: seq<Act>, step: Step, f: nat, h: Handle, size: nat, h': Handle, size': nat)
    requires Buffers(acts, f, h, size)
    requires f in Run(acts).handles && Run(acts).handles[f] == h
    requires Lands(acts, f, step) ==> h'.dirty == map[] && h'.ndirty == 0 && h'.size == size'
    requires !Lands(acts, f, step) ==> size' == size
    requires step.Write? && Takes(acts, f, step) ==>
      && h'.dirty == h.dirty[step.pgno := step.page] && h'.size == Larger(h.size, step.end)
      && h'.ndirty == h.ndirty + (if step.pgno in h.dirty then 0 else 1)
    requires !Lands(acts, f, step) && !(step.Write? && Takes(acts, f, step)) ==>
      h'.dirty == h.dirty && h'.ndirty == h.ndirty && h'.size == h.size
    requires step.Write? ==> !Lands(acts, f, step)
    ensures Buffers(acts + [By(f, step)], f, h', size')
  {
    hide Run, Takes, Lands, LastWrite, Reached;
    var more := acts + [By(f, step)];
    ReachedNext(acts, f, step);
    forall p: nat
      ensures p in h'.dirty <==> LastWrite(more, f, p).Some?
      ensures p in h'.dirty ==> h'.dirty[p] == more[LastWrite(more, f, p).value].step.page
    {
      LastWriteNext(acts, f, step, p);
    }
    if step.Write? { OnePageCount(h.dirty, step.pgno, step.page); }
  }

  lemma OnePageCount(m: Pages, p: nat, page: Page)
    ensures |m[p := page]| == |m| + if p in m then 0 else 1
  {
    assert m[p := page].Keys == m.Keys + {p};
    assert |m| == |m.Keys| && |m[p := page]| == |m[p := page].Keys|;
    if p in m { assert m.Keys + {p} == m.Keys; }
  }

  lemma LastWriteNext(acts: seq<Act>, f: nat, step: Step, p: nat)
    ensures LastWrite(acts + [By(f, step)], f, p) ==
      if step.Write? && step.pgno == p && Takes(acts, f, step) then Some(|acts|)
      else if Lands(acts, f, step) then None else LastWrite(acts, f, p)
  {
    hide Run, Takes, Lands;
    assert (acts + [By(f, step)])[..|acts|] == acts;
  }

  lemma ReachedNext(acts: seq<Act>, f: nat, step: Step)
    ensures Reached(acts + [By(f, step)], f) ==
      if step.Write? && Takes(acts, f, step) then Larger(Reached(acts, f), step.end)
      else if Lands(acts, f, step) then 0 else Reached(acts, f)
  {
    hide Run, Takes, Lands;
    assert (acts + [By(f, step)])[..|acts|] == acts;
  }

  lemma OpenBuffers(acts: seq<Act>, s: Sys)
    requires s == Run(acts) && SysInv(s)
    ensures Buffers(acts + [Open], s.db.fence + 1, Opened(s.db), s.db.size)
  {
    NotYetOpened(acts, s.db.fence + 1);
    BuffersFrame(acts, Open, s.db.fence + 1, Opened(s.db), s.db.size);
  }

  lemma OwnStepBuffers(acts: seq<Act>, step: Step, s: Sys, t: Sys)
    requires s == Run(acts) && t == Next(s, By(s.db.fence, step)) && SysInv(s) && s.db.fence in s.handles
    requires Buffers(acts, s.db.fence, s.handles[s.db.fence], s.db.size)
    ensures t.db.fence == s.db.fence && t.db.fence in t.handles
    ensures Buffers(acts + [By(s.db.fence, step)], s.db.fence, t.handles[s.db.fence], t.db.size)
  {
    var f := s.db.fence;
    StepBuffers(s.db, s.handles[f], step, t.db, t.handles[f]);
    assert Takes(acts, f, step) <==> Enabled(s.handles[f], step);
    assert Lands(acts, f, step) <==> Commits(s.db, s.handles[f], step);
    assert step.Write? ==> !Commits(s.db, s.handles[f], step);
    hide Run, Buffers, LastWrite, Reached, DbInv, OwnerInv, DbAfter, HandleAfter, Takes, Lands, Commits, Enabled,
         SysInv;
    BuffersStep(acts, step, f, s.handles[f], s.db.size, t.handles[f], t.db.size);
  }

  lemma OwnerBuffersNext(acts: seq<Act>, a: Act, s: Sys, t: Sys)
    requires s == Run(acts) && t == Next(s, a) && SysInv(s)
    requires s.db.fence in s.handles ==> Buffers(acts, s.db.fence, s.handles[s.db.fence], s.db.size)
    ensures t.db.fence in t.handles ==> Buffers(acts + [a], t.db.fence, t.handles[t.db.fence], t.db.size)
  {
    hide Run, Buffers, SysInv, DbAfter, HandleAfter;
    var f := s.db.fence;
    match a
    case Open => OpenBuffers(acts, s);
    case Crash(c) =>
      if c != f && f in s.handles { BuffersFrame(acts, a, f, s.handles[f], s.db.size); }
    case By(c, step) =>
      if c != f {
        StaleChangesNothing(s, c, step);
        if f in s.handles { BuffersFrame(acts, a, f, s.handles[f], s.db.size); }
      } else if f in s.handles {
        OwnStepBuffers(acts, step, s, t);
      }
  }

  lemma {:induction false} OwnerBuffers(acts: seq<Act>)
    ensures var s := Run(acts);
      s.db.fence in s.handles ==> Buffers(acts, s.db.fence, s.handles[s.db.fence], s.db.size)
  {
    hide Buffers, LastWrite, Reached, SysInv, Next;
    if acts != [] {
      var pre, a := acts[..|acts| - 1], acts[|acts| - 1];
      RunsRefineFlat(pre);
      OwnerBuffers(pre);
      assert pre + [a] == acts && Run(acts) == Next(Run(pre), a);
      OwnerBuffersNext(pre, a, Run(pre), Run(acts));
    }
  }

  /** The page this handle last wrote there, and what there was already where it wrote nothing. */
  function Overwritten(acts: seq<Act>, f: nat, was: Db, p: nat): Option<Page> {
    match LastWrite(acts, f, p)
    case Some(i) => Some(acts[i].step.page)
    case None => View(was, p)
  }

  /** These are the pages the handle has written. */
  ghost predicate PagesWritten(acts: seq<Act>, f: nat, pages: set<nat>) {
    forall p: nat :: p in pages <==> LastWrite(acts, f, p).Some?
  }

  /**
   The next commit that lands, whoever makes it, shows on every page what its handle last wrote
   there since the commit before, and what was there already where it wrote nothing; the file is as
   long as the longest of those writes, if not longer; and LOGN has grown by the pages written.
  */
  lemma CommitShowsLastWrites(acts: seq<Act>, f: nat, step: Step)
    requires Lands(acts, f, step)
    ensures var was, now := Run(acts).db, Run(acts + [By(f, step)]).db;
      && (forall p: nat :: View(now, p) == Overwritten(acts, f, was, p))
      && now.size == Larger(was.size, Reached(acts, f))
      && exists pages: set<nat> :: PagesWritten(acts, f, pages) && now.logn == was.logn + |pages|
  {
    var s := Run(acts);
    RunStep(acts, By(f, step));
    RunsRefineFlat(acts);
    OwnerBuffers(acts);
    OnlyOwnersLand(s, f, step);
    CommitShowsBuffer(s, f, step);
    var h, d := s.handles[f], Next(s, By(f, step)).db;
    hide Run, LastWrite, Reached, Next, SysInv, Commits, Enabled, View, Laid, Overwritten, PagesWritten, Buffers, Lands;
    BuffersLaid(acts, f, h, s.db);
    assert PagesWritten(acts, f, h.dirty.Keys) && d.logn == s.db.logn + |h.dirty.Keys|;
  }

  lemma RunStep(acts: seq<Act>, a: Act)
    ensures Run(acts + [a]) == Next(Run(acts), a)
  {
    assert (acts + [a])[..|acts|] == acts;
  }

  lemma OnlyOwnersLand(s: Sys, f: nat, step: Step)
    requires SysInv(s) && f in s.handles && Commits(s.db, s.handles[f], step)
    ensures f == s.db.fence
  {
  }

  lemma BuffersLaid(acts: seq<Act>, f: nat, h: Handle, db: Db)
    requires Buffers(acts, f, h, db.size)
    ensures forall p: nat :: Laid(db, h.dirty, p) == Overwritten(acts, f, db, p)
    ensures PagesWritten(acts, f, h.dirty.Keys) && h.ndirty == |h.dirty.Keys|
    ensures h.size == Larger(db.size, Reached(acts, f))
  {
    hide LastWrite, Reached, View;
    assert |h.dirty| == |h.dirty.Keys|;
  }

  lemma CommitShowsBuffer(s: Sys, f: nat, step: Step)
    requires SysInv(s) && f == s.db.fence && f in s.handles && Commits(s.db, s.handles[f], step)
    ensures var d, h := Next(s, By(f, step)).db, s.handles[f];
      && (forall p: nat :: View(d, p) == Laid(s.db, h.dirty, p)) && d.size == h.size && d.logn == s.db.logn + h.ndirty
  {
    OwnerStep(s.db, s.handles[f], step, Next(s, By(f, step)).db, Next(s, By(f, step)).handles[f]);
  }

  // ---- The owner is never stuck ----

  /**
   Whatever happened before, the latest opener can write any page and commit it: once the call in hand is
   given up, the write is taken, the commit lands, and readers see the page.
  */
  lemma OwnerCanCommit(acts: seq<Act>, p: nat, page: Page)
    requires Run(acts).db.fence in Run(acts).handles
    ensures var f := Run(acts).db.fence;
      var after := acts + [By(f, Fail)] + [By(f, Write(p, page, (p + 1) * PAGE))];
      && Lands(after, f, Commit) && View(Run(after + [By(f, Commit)]).db, p) == Some(page)
      && Run(after + [By(f, Commit)]).db.size >= (p + 1) * PAGE
  {
    var f := Run(acts).db.fence;
    var failed := acts + [By(f, Fail)];
    var write := Write(p, page, (p + 1) * PAGE);
    var after := failed + [By(f, write)];
    RunsRefineFlat(acts);
    OwnerWrites(acts, failed, after, f, p, page);
    CommitShowsLastWrites(after, f, Commit);
    hide Run, View, SysInv;
    assert after[|after| - 1] == By(f, write) && after[..|after| - 1] == failed;
    assert Overwritten(after, f, Run(after).db, p) == Some(page);
  }

  lemma OwnerWrites(acts: seq<Act>, failed: seq<Act>, after: seq<Act>, f: nat, p: nat, page: Page)
    requires SysInv(Run(acts)) && f == Run(acts).db.fence && f in Run(acts).handles
    requires failed == acts + [By(f, Fail)] && after == failed + [By(f, Write(p, page, (p + 1) * PAGE))]
    ensures Takes(failed, f, Write(p, page, (p + 1) * PAGE)) && Lands(after, f, Commit)
    ensures LastWrite(after, f, p) == Some(|failed|) && Reached(after, f) >= (p + 1) * PAGE
  {
    var s, write := Run(acts), Write(p, page, (p + 1) * PAGE);
    FenceIsName(s, f);
    hide Run, SysInv;
    var t := TakeStep(acts, s, f, Fail);
    var u := TakeStep(failed, t, f, write);
    assert after[..|failed|] == failed && after[|after| - 1] == By(f, write);
    hide DbAfter, HandleAfter;
    LastWriteNext(failed, f, write, p);
    ReachedNext(failed, f, write);
  }

  lemma FenceIsName(s: Sys, f: nat)
    requires SysInv(s) && f in s.handles
    ensures s.handles[f].fence == f
  {
  }

  /** Only this handle has stepped since. */
  ghost predicate StepsOf(f: nat, acts: seq<Act>, after: seq<Act>) {
    acts <= after && forall k :: |acts| <= k < |after| ==> after[k].By? && after[k].fence == f
  }

  lemma StepsOn(f: nat, acts: seq<Act>, after: seq<Act>, step: Step)
    requires StepsOf(f, acts, after)
    ensures StepsOf(f, acts, after + [By(f, step)])
  {
  }

  /** And it can fold: the log is gone into a marked base at the head, and every page reads as it did. */
  lemma OwnerCanFold(acts: seq<Act>, kept: nat) returns (after: seq<Act>)
    requires Run(acts).db.fence in Run(acts).handles
    ensures StepsOf(Run(acts).db.fence, acts, after)
    ensures var was, now := Run(acts).db, Run(after).db;
      && now.head == was.head && now.head in now.shardn && now.pidx == map[] && now.delta == map[] && now.logn == 0
      && forall p: nat :: View(now, p) == View(was, p)
  {
    var s := Run(acts);
    var f := s.db.fence;
    RunsRefineFlat(acts);
    FenceIsName(s, f);
    OwnersHead(s);
    hide Run, SysInv, View, DbAfter, HandleAfter, Commits, StepsOf;
    var ready := FoldReady(acts, s, f);
    var u := Run(ready);
    FoldDone(u.db, u.handles[f], kept);
    var t := TakeStep(ready, u, f, FoldFinish(kept));
    StepsOn(f, acts, ready, FoldFinish(kept));
    after := ready + [By(f, FoldFinish(kept))];
    RunsRefineFlat(after);
    SameFileSameView(s, t);
  }

  /** The owner's windows up to the end of the file, one after the other. */
  lemma FoldReady(acts: seq<Act>, s: Sys, f: nat) returns (after: seq<Act>)
    requires s == Run(acts) && f in s.handles && Owns(s.db, s.handles[f])
    ensures StepsOf(f, acts, after) && f in Run(after).handles
    ensures var t := Run(after);
      && t.flat == s.flat && t.db.head == s.db.head && Owns(t.db, t.handles[f])
      && t.handles[f].head == s.handles[f].head
      && t.handles[f].work.Folding? && t.handles[f].work.window.None?
      && t.handles[f].work.lo == t.handles[f].work.npages
  {
    hide Run, PageCount, DbAfter, HandleAfter, Commits, Present, StepsOf;
    NoStepsYet(f, acts);
    Freed(s.db, s.handles[f]);
    var s0 := TakeStep(acts, s, f, Fail);
    StepsOn(f, acts, acts, Fail);
    after := acts + [By(f, Fail)];
    Begun(s0.db, s0.handles[f]);
    var s1 := TakeStep(after, s0, f, FoldStart);
    StepsOn(f, acts, after, FoldStart);
    after := after + [By(f, FoldStart)];
    var n := PageCount(s.handles[f].size);
    if n > 0 {
      WindowRead(s1.db, s1.handles[f], n);
      var s2 := TakeStep(after, s1, f, FoldRead(n));
      StepsOn(f, acts, after, FoldRead(n));
      after := after + [By(f, FoldRead(n))];
      WindowPut(s2.db, s2.handles[f], n);
      s1 := TakeStep(after, s2, f, FoldPut);
      StepsOn(f, acts, after, FoldPut);
      after := after + [By(f, FoldPut)];
    }
  }

  lemma NoStepsYet(f: nat, acts: seq<Act>)
    ensures StepsOf(f, acts, acts)
  {
  }

  lemma OwnersHead(s: Sys)
    requires SysInv(s) && s.db.fence in s.handles
    ensures s.handles[s.db.fence].head == s.db.head
  {
    hide DbInv, AheadAgrees, StagedAgrees, FoldAgrees, DirtyInside, Shows, NewestShard, BasePages;
  }

  lemma Freed(db: Db, h: Handle)
    ensures DbAfter(db, h, Fail) == db && HandleAfter(db, h, Fail) == h.(work := Idle) && !Commits(db, h, Fail)
  {
  }

  lemma Begun(db: Db, h: Handle)
    requires h.work.Idle?
    ensures DbAfter(db, h, FoldStart) == db && !Commits(db, h, FoldStart)
    ensures HandleAfter(db, h, FoldStart) == h.(work := Folding(PageCount(h.size), 0, None))
  {
  }

  lemma WindowRead(db: Db, h: Handle, n: nat)
    requires n > 0 && h.work == Folding(n, 0, None)
    ensures DbAfter(db, h, FoldRead(n)) == db && !Commits(db, h, FoldRead(n))
    ensures HandleAfter(db, h, FoldRead(n)) == h.(work := Folding(n, 0, Some(Window(n, Present(db, h, 0, n)))))
  {
  }

  lemma WindowPut(db: Db, h: Handle, n: nat)
    requires Owns(db, h) && h.work.Folding? && h.work.npages == n && h.work.window.Some? && h.work.window.value.hi == n
    ensures HandleAfter(db, h, FoldPut) == h.(work := Folding(n, n, None)) && !Commits(db, h, FoldPut)
    ensures DbAfter(db, h, FoldPut).head == db.head && Owns(DbAfter(db, h, FoldPut), h)
  {
  }

  lemma FoldDone(db: Db, h: Handle, kept: nat)
    requires Owns(db, h) && h.work.Folding? && h.work.window.None? && h.work.lo == h.work.npages
    ensures !Commits(db, h, FoldFinish(kept)) && DbAfter(db, h, FoldFinish(kept)) == Finish(db, h.head, kept)
  {
  }

  lemma TakeStep(acts: seq<Act>, s: Sys, f: nat, step: Step) returns (t: Sys)
    requires s == Run(acts) && f in s.handles
    ensures t == Run(acts + [By(f, step)]) && f in t.handles && t.db == DbAfter(s.db, s.handles[f], step)
    ensures t.handles[f] == HandleAfter(s.db, s.handles[f], step)
    ensures !Commits(s.db, s.handles[f], step) ==> t.flat == s.flat
  {
    hide DbAfter, HandleAfter, Commits, Run;
    RunStep(acts, By(f, step));
    t := Next(s, By(f, step));
  }

  lemma SameFileSameView(s: Sys, t: Sys)
    requires SysInv(s) && SysInv(t) && s.flat == t.flat
    ensures forall p: nat :: View(t.db, p) == View(s.db, p)
  {
  }
}
