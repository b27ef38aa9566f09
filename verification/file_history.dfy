/**
 A file through any history of reads, writes, syncs, folds and crashes
 (thirdparty/store-plane/fdb_vfs.c), against a flat array of bytes.
*/
module FileHistory {
  import opened Wrappers
  import opened StoreRows
  import opened HandleSteps
  import opened OpenFile

  /** What is asked of a file. `arm` is how many write transactions the process has left to live, if it is to die. */
  datatype Op =
    | WriteAt(off: nat, data: seq<byte>)
    | ReadAt(off: nat, amt: nat)
    | Sync(arm: Option<nat>)
    | Fold(arm: Option<nat>)
    | Kill

  /**
   The reference: the bytes and the size now, and as of the last whole commit; the pages written
   since then; the pages that commits have stored; and those among them that the base at the head
   holds, which a fold keeps wherever they lie.
  */
  datatype Ref = Ref(now: nat -> byte, size: nat, kept: nat -> byte, keptSize: nat, pages: set<nat>,
                     stored: set<nat>, lasting: set<nat>)

  function Overlaid(f: nat -> byte, off: nat, data: seq<byte>): nat -> byte {
    (i: nat) => if off <= i < off + |data| then data[i - off] else f(i)
  }

  /** The process died: what was not committed is gone. */
  function Reborn(r: Ref): Ref { r.(now := r.kept, size := r.keptSize, pages := {}) }

  /** A write: as much of it as the buffer has room for, and the new size only if that is all of it. */
  function Written(r: Ref, off: nat, data: seq<byte>): Ref {
    var n, end := Landing(r.pages, off, |data|), off + |data|;
    r.(now := Overlaid(r.now, off, data[..n]),
       pages := r.pages + PagesOf(off, n),
       size := if Room(r.pages, off, |data|) && r.size < end then end else r.size)
  }

  /** A sync that landed: all of it is committed, in a log over no base rows of its own. */
  function Synced(r: Ref): Ref {
    if r.pages == {} && r.size == r.keptSize then r
    else r.(kept := r.now, keptSize := r.size, pages := {}, stored := r.stored + r.pages, lasting := {})
  }

  /** The pages a fold keeps when it stops before page `lo`: those it went over, and those of the base. */
  function Based(r: Ref, lo: nat): set<nat> {
    r.lasting + set p: nat | p in r.stored && p < lo
  }

  /** A page of zeros in place of each page that is not in `pages`. */
  function Only(f: nat -> byte, pages: set<nat>): nat -> byte {
    (i: nat) => if i / PAGE in pages then f(i) else 0
  }

  /** A fold that finished: only the pages of the file, and of a base already there, are stored now. */
  function FoldDone(r: Ref): Ref {
    var based := Based(r, PageCount(r.size));
    if PageCount(r.size) == 0 then r
    else r.(now := Only(r.now, based + r.pages), kept := Only(r.kept, based), stored := based, lasting := based)
  }

  /** What one operation may do to the reference. Only one that was armed may be cut short. */
  ghost predicate Follows(r: Ref, op: Op, t: Ref) {
    match op
    case WriteAt(off, data) => t == Written(r, off, data)
    case ReadAt(_, _) => t == r
    case Sync(arm) => t == Synced(r) || (arm.Some? && t == Reborn(r))
    case Fold(arm) => t == FoldDone(r) || (arm.Some? && FoldCut(r, t))
    case Kill => t == Reborn(r)
  }

  /** A fold cut short keeps every byte. It leaves base rows at the head, as far as it got. */
  ghost predicate FoldCut(r: Ref, t: Ref) {
    exists lo: nat :: lo <= PageCount(r.size) && t == Reborn(r).(lasting := Based(r, lo))
  }

  /** The open file is the reference, byte for byte, and so is what a crash would leave of it. */
  ghost predicate Agrees(f: FdbFile, r: Ref)
    reads f, f.store
  {
    && f.Valid() && f.Owner()
    && Buffered(f.dirty).Keys == r.pages
    && (forall i: nat :: f.ByteAt(i) == r.now(i))
    && f.size == r.size
    && StoreAgrees(f.store.db, r)
  }

  /** What a crash would leave. */
  ghost predicate StoreAgrees(db: Db, r: Ref) {
    && (forall i: nat :: FileByte(db, map[], i) == r.kept(i))
    && (forall p: nat :: p in r.stored <==> View(db, p).Some?)
    && Rows(db.shard, db.head).Keys == r.lasting
    && db.size == r.keptSize
  }

  method Reopen(store: Store, cut: nat -> nat, ghost r: Ref) returns (f: FdbFile)
    requires RowsInv(store.db) && StoreAgrees(store.db, r)
    modifies store
    ensures f.store == store && fresh(f) && Agrees(f, Reborn(r))
  {
    hide RowsInv, FileByte, View;
    ghost var was := store.db;
    f := new FdbFile.Open(store, cut);
    hide FdbFile.Valid;
    NoPages();
    OpenedAgrees(was, store.db, r);
    forall i: nat ensures f.ByteAt(i) == r.kept(i) { Clean(f, i); }
  }

  lemma OpenedAgrees(was: Db, db: Db, r: Ref)
    requires StoreAgrees(was, r) && db == OpenBody(was) && forall p: nat :: View(db, p) == View(was, p)
    ensures StoreAgrees(db, r)
  {
    SameBytes(was, db);
    hide View, FileByte;
  }

  /** With nothing buffered, the file is what is stored. */
  lemma Clean(f: FdbFile, i: nat)
    requires f.dirty == []
    ensures f.ByteAt(i) == FileByte(f.store.db, map[], i)
  {
    NoPages();
  }

  /** One operation. A process that dies inside it comes back as a newly opened file. */
  method Step(f: FdbFile, cut: nat -> nat, op: Op, ghost r: Ref) returns (g: FdbFile, out: seq<byte>, ghost t: Ref)
    requires Agrees(f, r)
    modifies f, f.store
    ensures g.store == f.store && (g == f || fresh(g))
    ensures Agrees(g, t) && Follows(r, op, t)
    ensures op.ReadAt? ==> IsRead(out, r, op.off, op.amt)
  {
    hide RowsInv, FileByte, View, FdbFile.Valid, StoreAgrees;
    g, out, t := f, [], r;
    match op {
      case WriteAt(off, data) =>
        t := StepWrite(f, off, data, r);
      case ReadAt(off, amt) =>
        out := StepRead(f, off, amt, r);
      case Sync(arm) =>
        g, t := StepSync(f, cut, arm, r);
      case Fold(arm) =>
        g, t := StepFold(f, cut, arm, r);
      case Kill =>
        KeepsRows(f);
        g := Reopen(f.store, cut, r);
        t := Reborn(r);
    }
  }

  lemma KeepsRows(f: FdbFile)
    requires f.Valid()
    ensures RowsInv(f.store.db)
  {
  }

  /** Whether all of the bytes got in or not, the file is what the reference says. */
  method StepWrite(f: FdbFile, off: nat, data: seq<byte>, ghost r: Ref) returns (ghost t: Ref)
    requires Agrees(f, r)
    modifies f
    ensures t == Written(r, off, data) && Agrees(f, t)
  {
    hide RowsInv, FileByte, View, FdbFile.Valid, Landing, Room, PagesOf, Buffered;
    t := Written(r, off, data);
    var _ := f.Write(off, data);
  }

  method StepRead(f: FdbFile, off: nat, amt: nat, ghost r: Ref) returns (out: seq<byte>)
    requires Agrees(f, r)
    modifies f
    ensures Agrees(f, r) && IsRead(out, r, off, amt)
  {
    hide RowsInv, FileByte, View, FdbFile.Valid, Buffered, StoreAgrees;
    var short;
    out, short := f.Read(off, amt);
  }

  /** How long the process has to live is nothing the file depends on. */
  method Arm(f: FdbFile, arm: Option<nat>, ghost r: Ref)
    requires Agrees(f, r)
    modifies f.store`untilCrash
    ensures Agrees(f, r) && f.store.untilCrash == arm && f.store.db == old(f.store.db)
  {
    hide RowsInv, FileByte, View, OwnsRows, WindowTrue, Buffered, StoreAgrees;
    f.store.untilCrash := arm;
  }

  /** Nothing buffered: no pages, and nothing of them in a sync. */
  lemma NothingToSend(f: FdbFile, r: Ref)
    requires Agrees(f, r)
    ensures (f.dirty == [] && f.size == f.sentSize) <==> (r.pages == {} && r.size == r.keptSize)
  {
    f.BufferedOnce();
    f.SentIsStored();
  }

  method StepSync(f: FdbFile, cut: nat -> nat, arm: Option<nat>, ghost r: Ref) returns (g: FdbFile, ghost t: Ref)
    requires Agrees(f, r)
    modifies f, f.store
    ensures g.store == f.store && (g == f || fresh(g))
    ensures Agrees(g, t) && Follows(r, Sync(arm), t)
  {
    hide RowsInv, FileByte, View, FdbFile.Valid, Laid, Buffered, StoreAgrees;
    g, t := f, Synced(r);
    Arm(f, arm, r);
    NothingToSend(f, r);
    ghost var was, buffer := f.store.db, Buffered(f.dirty);
    var o := f.Flush();
    if o != Ok {
      KeepsRows(f);
      SyncCutAgrees(was, f.store.db, r);
      g := Reopen(f.store, cut, r);
      t := Reborn(r);
    } else {
      NoPages();
      forall i: nat ensures FileByte(f.store.db, map[], i) == r.now(i) { Clean(f, i); }
      SyncedAgrees(was, f.store.db, buffer, r);
    }
  }

  lemma SyncCutAgrees(was: Db, db: Db, r: Ref)
    requires StoreAgrees(was, r) && SameBase(was, db) && db.size == was.size
    requires forall p: nat :: View(db, p) == View(was, p)
    ensures StoreAgrees(db, r)
  {
    SameBytes(was, db);
    hide View, FileByte;
  }

  lemma SyncedAgrees(was: Db, db: Db, buffer: Pages, r: Ref)
    requires StoreAgrees(was, r) && buffer.Keys == r.pages && db.size == r.size
    requires forall p: nat :: View(db, p) == Laid(was, buffer, p)
    requires forall i: nat :: FileByte(db, map[], i) == r.now(i)
    requires if r.pages == {} && r.size == r.keptSize then db == was else Rows(db.shard, db.head) == map[]
    ensures StoreAgrees(db, Synced(r))
  {
    hide View, FileByte;
  }

  method StepFold(f: FdbFile, cut: nat -> nat, arm: Option<nat>, ghost r: Ref) returns (g: FdbFile, ghost t: Ref)
    requires Agrees(f, r)
    modifies f, f.store
    ensures g.store == f.store && (g == f || fresh(g))
    ensures Agrees(g, t) && Follows(r, Fold(arm), t)
  {
    hide RowsInv, FileByte, View, FdbFile.Valid, Buffered, PageCount, VisibleCount, StoreAgrees, BaseTo, FoldedOver;
    g, t := f, FoldDone(r);
    Arm(f, arm, r);
    ghost var was := f.store.db;
    var o := f.Compact();
    if o != Ok {
      KeepsRows(f);
      ghost var lo: nat :| lo <= PageCount(f.size) && BaseTo(was, f.store.db, lo);
      CutFoldAgrees(was, f.store.db, lo, r);
      t := r.(lasting := Based(r, lo));
      g := Reopen(f.store, cut, t);
      t := Reborn(t);
    } else if PageCount(f.size) > 0 {
      KeepsRows(f);
      FoldedAgrees(was, f.store.db, Buffered(f.dirty), r);
    }
  }

  lemma CutFoldAgrees(was: Db, db: Db, lo: nat, r: Ref)
    requires StoreAgrees(was, r) && BaseTo(was, db, lo) && db.size == was.size
    requires forall p: nat :: View(db, p) == View(was, p)
    ensures StoreAgrees(db, r.(lasting := Based(r, lo)))
  {
    SameBytes(was, db);
    hide View, FileByte, Rows;
  }

  /** A finished fold, page by page: what is kept reads as before, and the rest as zeros. */
  lemma FoldedAgrees(was: Db, db: Db, buffer: Pages, r: Ref)
    requires StoreAgrees(was, r) && FoldedOver(was, db, PageCount(r.size)) && db.size == was.size
    requires PageCount(r.size) > 0 && buffer.Keys == r.pages && RowsInv(db)
    requires forall i: nat :: FileByte(was, buffer, i) == r.now(i)
    ensures StoreAgrees(db, FoldDone(r))
    ensures forall i: nat :: FileByte(db, buffer, i) == FoldDone(r).now(i)
  {
    BaseShown(db);
    hide View, Rows, PageCount, RowsInv;
    var based := Based(r, PageCount(r.size));
    assert forall p: nat :: p in based <==> p in Rows(db.shard, db.head);
    forall i: nat
      ensures FileByte(db, buffer, i) == Only(r.now, based + r.pages)(i)
      ensures FileByte(db, map[], i) == Only(r.kept, based)(i)
    {
      FoldedByte(was, db, buffer, PageCount(r.size), i);
      FoldedByte(was, db, map[], PageCount(r.size), i);
    }
  }

  lemma BaseShown(db: Db)
    requires RowsInv(db)
    ensures forall p: nat :: p in Rows(db.shard, db.head) ==> View(db, p).Some?
  {
  }

  lemma FoldedByte(was: Db, db: Db, buffer: Pages, n: nat, i: nat)
    requires FoldedOver(was, db, n)
    ensures FileByte(db, buffer, i) ==
      if i / PAGE in buffer || i / PAGE in Rows(db.shard, db.head) then FileByte(was, buffer, i) else 0
  {
    hide View, Rows;
    assert View(db, i / PAGE) == if i / PAGE in Rows(db.shard, db.head) then View(was, i / PAGE) else None;
  }

  /**
   Any history at all, with crashes before any write transaction of any sync or fold and with
   writes refused for want of room: every read returns the bytes of the flat array, and what a
   crash leaves is always the array as of the last whole commit.
  */
  method Replay(f: FdbFile, cut: nat -> nat, ops: seq<Op>, ghost r: Ref)
    returns (g: FdbFile, outs: seq<seq<byte>>, ghost refs: seq<Ref>)
    requires Agrees(f, r)
    modifies f, f.store
    ensures |outs| == |ops| && |refs| == |ops| + 1 && refs[0] == r && Agrees(g, refs[|ops|])
    ensures History(ops, refs) && Reads(ops, refs, outs)
  {
    hide Agrees, Follows;
    g, outs, refs := f, [], [r];
    var done := 0;
    while done < |ops|
      invariant done <= |ops| && |outs| == done && |refs| == done + 1 && refs[0] == r
      invariant g.store == f.store && (g == f || fresh(g)) && Agrees(g, refs[done])
      invariant forall k :: 0 <= k < done ==> Follows(refs[k], ops[k], refs[k + 1])
      invariant forall k :: 0 <= k < done && ops[k].ReadAt? ==> IsRead(outs[k], refs[k], ops[k].off, ops[k].amt)
    {
      var out;
      ghost var t;
      g, out, t := Step(g, cut, ops[done], refs[done]);
      outs, refs, done := outs + [out], refs + [t], done + 1;
    }
  }

  /** These references follow each other through the operations. */
  ghost predicate History(ops: seq<Op>, refs: seq<Ref>) {
    |refs| == |ops| + 1 && forall k :: 0 <= k < |ops| ==> Follows(refs[k], ops[k], refs[k + 1])
  }

  /** Every read of the history returned the bytes of its reference. */
  ghost predicate Reads(ops: seq<Op>, refs: seq<Ref>, outs: seq<seq<byte>>)
    requires |refs| == |ops| + 1
  {
    && |outs| == |ops|
    && forall k :: 0 <= k < |ops| && ops[k].ReadAt? ==> IsRead(outs[k], refs[k], ops[k].off, ops[k].amt)
  }

  /** The bytes of the flat array. */
  ghost predicate IsRead(out: seq<byte>, r: Ref, off: nat, amt: nat) {
    |out| == amt && forall i :: 0 <= i < amt ==> out[i] == r.now(off + i)
  }

  // ---- With room for every write, the plain array ----

  /** What a reader of the documentation expects: a fold changes nothing, and a write is whole. */
  ghost predicate PlainFollows(r: Ref, op: Op, t: Ref) {
    match op
    case WriteAt(off, data) =>
      && (forall i: nat :: t.now(i) == Overlaid(r.now, off, data)(i)) && SameBytesAs(t.kept, r.kept)
      && t.size == (if r.size < off + |data| then off + |data| else r.size) && t.keptSize == r.keptSize
    case ReadAt(_, _) => t == r
    case Sync(arm) =>
      || (SameBytesAs(t.now, r.now) && SameBytesAs(t.kept, r.now) && t.size == t.keptSize == r.size)
      || (arm.Some? && Back(r, t))
    case Fold(arm) =>
      || (SameBytesAs(t.now, r.now) && SameBytesAs(t.kept, r.kept) && t.size == r.size && t.keptSize == r.keptSize)
      || (arm.Some? && Back(r, t))
    case Kill => Back(r, t)
  }

  ghost predicate SameBytesAs(f: nat -> byte, g: nat -> byte) {
    forall i: nat :: f(i) == g(i)
  }

  /** Back at the last whole commit. */
  ghost predicate Back(r: Ref, t: Ref) {
    SameBytesAs(t.now, r.kept) && SameBytesAs(t.kept, r.kept) && t.size == t.keptSize == r.keptSize
  }

  /** No page lies past the end, and what no page holds is zero. */
  ghost predicate Tight(r: Ref) {
    && r.keptSize <= r.size && |r.pages| <= MAX_TXN_PIDX && r.lasting <= r.stored
    && (forall p <- r.pages :: p * PAGE < r.size)
    && (forall p <- r.stored :: p * PAGE < r.keptSize)
    && (forall i: nat :: i / PAGE !in r.pages ==> r.now(i) == r.kept(i))
    && (forall i: nat :: i / PAGE !in r.stored ==> r.kept(i) == 0)
  }

  /** There was room for this operation, if it is a write. */
  predicate Roomy(r: Ref, op: Op) {
    op.WriteAt? ==> Room(r.pages, op.off, |op.data|)
  }

  lemma TightStep(r: Ref, op: Op, t: Ref)
    requires Tight(r) && Follows(r, op, t) && Roomy(r, op)
    ensures Tight(t) && PlainFollows(r, op, t)
  {
    hide Tight, Written, Synced, FoldDone, Reborn, Based, Back, Overlaid, SameBytesAs, PageCount;
    match op
    case WriteAt(off, data) => TightWrite(r, off, data);
    case ReadAt(_, _) =>
    case Sync(_) =>
      TightSync(r);
      TightBack(r);
    case Fold(_) =>
      TightFold(r);
      if lo: nat :| lo <= PageCount(r.size) && t == Reborn(r).(lasting := Based(r, lo)) { TightCut(r, lo); }
    case Kill => TightBack(r);
  }

  lemma TightBack(r: Ref)
    requires Tight(r)
    ensures Tight(Reborn(r)) && Back(r, Reborn(r))
  {
  }

  lemma TightCut(r: Ref, lo: nat)
    requires Tight(r)
    ensures Tight(Reborn(r).(lasting := Based(r, lo))) && Back(r, Reborn(r).(lasting := Based(r, lo)))
  {
    assert Based(r, lo) <= r.stored;
  }

  lemma TightSync(r: Ref)
    requires Tight(r)
    ensures Tight(Synced(r)) && PlainFollows(r, Sync(None), Synced(r))
  {
  }

  lemma TightWrite(r: Ref, off: nat, data: seq<byte>)
    requires Tight(r) && Room(r.pages, off, |data|)
    ensures Tight(Written(r, off, data)) && PlainFollows(r, WriteAt(off, data), Written(r, off, data))
  {
    var n := |data|;
    FewerPages(r.pages, r.pages + PagesOf(off, n));
    LandsWhole(r.pages, off, n);
    InItsPages(off, n);
    assert data[..n] == data && |r.pages + PagesOf(off, n)| <= MAX_TXN_PIDX;
    hide Landing, PagesOf, Room;
  }

  /** The bytes of a write lie in the pages it touches, and these begin before its end. */
  lemma InItsPages(off: nat, n: nat)
    ensures forall i: nat :: off <= i < off + n ==> i / PAGE in PagesOf(off, n)
    ensures forall p <- PagesOf(off, n) :: p * PAGE < off + n
  {
    forall i: nat | off <= i < off + n
      ensures i / PAGE in PagesOf(off, n)
    {
      assert Touched(off, n, i / PAGE);
    }
  }

  lemma TightFold(r: Ref)
    requires Tight(r)
    ensures Tight(FoldDone(r)) && PlainFollows(r, Fold(None), FoldDone(r))
  {
    AllBased(r);
    ZerosElsewhere(r);
    OnlyThese(r.now, r.stored + r.pages);
    OnlyThese(r.kept, r.stored);
    hide Based, PageCount, Only;
  }

  lemma ZerosElsewhere(r: Ref)
    requires Tight(r)
    ensures forall i: nat :: i / PAGE !in r.stored + r.pages ==> r.now(i) == 0
    ensures forall i: nat :: i / PAGE !in r.stored ==> r.kept(i) == 0
  {
    forall i: nat | i / PAGE !in r.stored + r.pages
      ensures r.now(i) == 0
    {
      assert r.now(i) == r.kept(i);
    }
  }

  /** What is zero elsewhere is all there. */
  lemma OnlyThese(f: nat -> byte, pages: set<nat>)
    requires forall i: nat :: i / PAGE !in pages ==> f(i) == 0
    ensures SameBytesAs(Only(f, pages), f)
  {
  }

  /** A fold of the whole file goes over every stored page. */
  lemma AllBased(r: Ref)
    requires Tight(r)
    ensures Based(r, PageCount(r.size)) == r.stored
  {
    forall p <- r.stored
      ensures p < PageCount(r.size)
    {
      assert p * PAGE < r.size;
    }
  }

  /**
   While every write had room, the file is the plain array of its writes: a sync commits it, a
   fold changes no byte, and a crash takes it back to the last whole commit.
  */
  lemma {:induction false} WithRoomThePlainArray(ops: seq<Op>, refs: seq<Ref>, n: nat)
    requires History(ops, refs) && Tight(refs[0]) && n <= |ops|
    requires forall k :: 0 <= k < n ==> Roomy(refs[k], ops[k])
    ensures Tight(refs[n]) && forall k :: 0 <= k < n ==> PlainFollows(refs[k], ops[k], refs[k + 1])
  {
    hide Tight, Follows, PlainFollows, Roomy;
    if n > 0 {
      WithRoomThePlainArray(ops, refs, n - 1);
      TightStep(refs[n - 1], ops[n - 1], refs[n]);
    }
  }

  // ---- Without room, a byte that was committed and lost ----

  const NewFile: Ref := Ref(_ => 0, 0, _ => 0, 0, {}, {}, {})

  lemma NewFileAgrees()
    ensures RowsInv(EmptyDb) && StoreAgrees(EmptyDb, NewFile) && Tight(NewFile)
  {
    assert forall p: nat :: View(EmptyDb, p) == None;
  }

  method OpenNew(cut: nat -> nat) returns (f: FdbFile)
    ensures fresh(f) && fresh(f.store) && Agrees(f, NewFile)
  {
    hide RowsInv, StoreAgrees, Agrees, Tight;
    NewFileAgrees();
    var store := new Store(EmptyDb, None);
    f := Reopen(store, cut, NewFile);
    assert Reborn(NewFile) == NewFile;
  }

  /** The last page for which a commit has room. */
  const LAST: nat := MAX_TXN_PIDX - 1

  function Ones(n: nat): seq<byte> { seq(n, _ => 1) }

  /** The second write is refused at its second page, and leaves its first one past the end. */
  const Losing: seq<Op> := [
    WriteAt(0, Ones(LAST * PAGE)), WriteAt(LAST * PAGE, Ones(2 * PAGE)), ReadAt(LAST * PAGE, 1),
    Sync(None), ReadAt(LAST * PAGE, 1), Fold(None), ReadAt(LAST * PAGE, 1)]

  /** A run of whole pages from the start touches exactly the first `n` pages. */
  lemma {:induction false} FirstPages(n: nat)
    ensures |PagesOf(0, n * PAGE)| == n && forall p <- PagesOf(0, n * PAGE) :: p < n
  {
    if n == 0 {
      NoBytes(0);
    } else {
      FirstPages(n - 1);
      NextPage(0, (n - 1) * PAGE, PAGE);
    }
  }

  lemma FirstWrite(t: Ref)
    requires t == Written(NewFile, 0, Ones(LAST * PAGE))
    ensures |t.pages| == LAST && (forall p <- t.pages :: p < LAST) && t.size == LAST * PAGE && t.lasting == {}
  {
    FirstPages(LAST);
    hide PagesOf, Landing;
    assert {} + PagesOf(0, LAST * PAGE) == PagesOf(0, LAST * PAGE);
    LandsWhole({}, 0, LAST * PAGE);
  }

  /** The last page gets in, and the next one does not. */
  lemma SecondLands(pages: set<nat>)
    requires |pages| == LAST && forall p <- pages :: p < LAST
    ensures Landing(pages, LAST * PAGE, 2 * PAGE) == PAGE
  {
    var off, n, now := LAST * PAGE, 2 * PAGE, pages + {LAST};
    assert |now| == MAX_TXN_PIDX && Chunk(off, n) == PAGE && off / PAGE == LAST && (off + PAGE) / PAGE == LAST + 1;
    assert Landing(now, off + PAGE, PAGE) == 0;
  }

  lemma SecondWrite(r: Ref, t: Ref)
    requires |r.pages| == LAST && (forall p <- r.pages :: p < LAST) && r.size == LAST * PAGE
    requires t == Written(r, LAST * PAGE, Ones(2 * PAGE))
    ensures LAST in t.pages && t.size == r.size && t.now(LAST * PAGE) == 1
    ensures t.lasting == r.lasting
  {
    var off := LAST * PAGE;
    SecondLands(r.pages);
    NoRoom(r.pages, off, 2 * PAGE);
    LastTouched();
    FirstByteLaid(r.now, off, PAGE, 2 * PAGE);
    hide Landing, Room, PagesOf, Overlaid, Ones;
  }

  lemma FirstByteLaid(f: nat -> byte, off: nat, n: nat, k: nat)
    requires 0 < n <= k
    ensures Overlaid(f, off, Ones(k)[..n])(off) == 1
  {
  }

  lemma LastTouched()
    ensures LAST in PagesOf(LAST * PAGE, PAGE)
  {
    assert LAST * PAGE / PAGE == LAST && Touched(LAST * PAGE, PAGE, LAST);
  }

  lemma NoRoom(pages: set<nat>, off: nat, n: nat)
    requires |pages| <= MAX_TXN_PIDX && Landing(pages, off, n) < n
    ensures !Room(pages, off, n)
  {
    hide Landing, Room;
    LandsWhole(pages, off, n);
  }

  /** A page past the end is committed with the next sync, and the fold after it drops it. */
  lemma FoldLosesIt(r: Ref, p: nat)
    requires p in r.pages && p !in r.lasting && PageCount(r.size) > 0 && PageCount(r.size) <= p
    ensures Synced(r).now(p * PAGE) == r.now(p * PAGE) && FoldDone(Synced(r)).now(p * PAGE) == 0
  {
    assert p * PAGE / PAGE == p;
  }

  lemma WholePages(n: nat)
    ensures PageCount(n * PAGE) == n
  {
  }

  /** What `Replay` reports of one history from a new file: a byte written, committed and then lost to a fold. */
  lemma RefusedWriteLosesAByte(refs: seq<Ref>, outs: seq<seq<byte>>)
    requires History(Losing, refs) && refs[0] == NewFile && Reads(Losing, refs, outs)
    ensures outs[2] == [1] == outs[4] && outs[6] == [0]
  {
    hide Written, Synced, FoldDone, PageCount;
    assert Follows(refs[0], Losing[0], refs[1]) && Follows(refs[1], Losing[1], refs[2]);
    FirstWrite(refs[1]);
    SecondWrite(refs[1], refs[2]);
    assert Follows(refs[2], Losing[2], refs[3]) && Follows(refs[3], Losing[3], refs[4]);
    assert Follows(refs[4], Losing[4], refs[5]) && Follows(refs[5], Losing[5], refs[6]);
    WholePages(LAST);
    FoldLosesIt(refs[2], LAST);
    assert Losing[2].ReadAt? && Losing[4].ReadAt? && Losing[6].ReadAt?;
  }
}
