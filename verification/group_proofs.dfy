/**
 Every run of the group protocol, with crashes and recoveries anywhere, shows the
 reference files: a group lands in all of its databases or in none of them, and it
 lands exactly when its record was written.
*/
module GroupProofs {
  import opened Wrappers
  import opened StoreRows
  import opened HandleSteps
  import opened SharedStore
  import opened GroupCommit

  // ---- The invariant ----

  /** The record of a committed group is the only unresolved one, and ids are fresh. */
  ghost predicate RecsInv(s: GSys) {
    && (forall t <- s.recs :: (s.recs[t].status.Pending? && s.recs[t].parts != map[]) <==> s.pending == Some(t))
    && (s.pending.Some? ==> s.pending.value in s.recs)
    && (forall t <- s.recs :: t <= s.counter)
  }

  /** The participant row a committed group still owes this database. */
  ghost function Owed(s: GSys, n: Name): Option<Part> {
    if s.pending.Some? && s.pending.value in s.recs && n in s.recs[s.pending.value].parts
       && s.recs[s.pending.value].parts[n].txid > DbOf(s, n).head
    then Some(s.recs[s.pending.value].parts[n]) else None
  }

  /** The staged rows are whole, and laying them makes the reference file. */
  ghost predicate Promised(db: Db, part: Part, flat: Flat) {
    var rows := Rows(db.delta, part.txid);
    && part.txid == db.head + 1
    && rows != map[] && Fits(rows)
    && db.size <= part.size == flat.size
    && (forall p <- rows :: p * PAGE < part.size)
    && (forall p: nat :: Get(flat.pages, p) == Laid(db, rows, p))
  }

  ghost predicate DbHolds(s: GSys, n: Name) {
    && DbInv(DbOf(s, n))
    && (match Owed(s, n)
        case None => Shows(DbOf(s, n), FlatOf(s, n))
        case Some(part) => Promised(DbOf(s, n), part, FlatOf(s, n)))
  }

  ghost predicate FileHolds(s: GSys, n: Name) {
    s.proc.Live? && n in s.proc.files ==>
      Owns(DbOf(s, n), s.proc.files[n]) && OwnerInv(DbOf(s, n), s.proc.files[n])
  }

  /** A member is between calls, and once synced its staged rows are its dirty pages. */
  ghost predicate MemberHolds(s: GSys, n: Name)
    requires Member(s.proc, n)
  {
    var g := s.proc.group.value;
    && n in s.proc.files
    && s.proc.files[n].work.Idle?
    && (s.proc.files[n].dirty == map[] ==> g.txids[n] <= s.proc.files[n].head)
    && (n in g.synced && s.proc.files[n].dirty != map[] ==> Staged1(DbOf(s, n), s.proc.files[n], g.txids[n]))
  }

  ghost predicate Staged1(db: Db, h: Handle, txid: nat) {
    txid == db.head + 1 && Rows(db.delta, txid) == h.dirty && Fits(h.dirty)
  }

  /** A group that has not written its record yet. */
  ghost predicate GroupHolds(s: GSys) {
    s.proc.Live? && s.proc.group.Some? ==>
      && s.proc.group.value.txn <= s.counter && s.proc.group.value.synced <= s.proc.group.value.txids.Keys
      && (!Deciding(s.proc.pc) ==> s.proc.group.value.txn !in s.recs)
      && forall n <- s.proc.group.value.txids :: MemberHolds(s, n)
  }

  /** Is the committer past its record? */
  predicate Deciding(pc: Pc) {
    pc.Resolving? || (pc.Marking? && !pc.sweeping) || (pc.Dropping? && !pc.sweeping)
  }

  ghost predicate AllDone(s: GSys, txn: nat, left: set<Name>) {
    && txn in s.recs
    && forall n <- s.recs[txn].parts :: n in left || s.recs[txn].parts[n].txid <= DbOf(s, n).head
  }

  /** What the committer knows of a member it has still to resolve. */
  ghost predicate Unresolved(s: GSys, n: Name)
    requires s.proc.Live? && s.proc.group.Some? && s.pending.Some? && s.pending.value in s.recs
  {
    var g := s.proc.group.value;
    && n in g.txids && n in s.proc.files && n in s.recs[s.pending.value].parts
    && s.recs[s.pending.value].parts[n].txid == g.txids[n]
    && (g.txids[n] > DbOf(s, n).head ==>
          && s.recs[s.pending.value].parts[n].size == s.proc.files[n].size
          && Rows(DbOf(s, n).delta, g.txids[n]) == s.proc.files[n].dirty)
  }

  /** What recovery saw of a participant is still so. */
  ghost predicate SeenHolds(db: Db, part: Part, intent: Intent) {
    && intent.present && intent.head == db.head
    && (part.txid > db.head ==> intent.pgnos == Rows(db.delta, part.txid).Keys)
  }

  ghost predicate RecoveringOne(s: GSys, txn: nat, left: set<Name>, seen: map<Name, Intent>, ask: set<Name>) {
    && s.proc.Live? && s.proc.files == map[]
    && s.pending == Some(txn) && txn in s.recs
    && left <= s.recs[txn].parts.Keys && ask <= seen.Keys && ask <= s.recs[txn].parts.Keys
    && forall n <- ask :: SeenHolds(DbOf(s, n), s.recs[txn].parts[n], seen[n])
  }

  ghost predicate PcHolds(s: GSys) {
    s.proc.Live? ==>
      match s.proc.pc
      case Running => true
      case Sweeping => true
      case Opening(_) => s.pending.None?
      case Resolving(txn, left) =>
        && s.proc.group.Some? && s.proc.group.value.txn == txn && s.pending == Some(txn)
        && AllDone(s, txn, left) && (forall n <- left :: Unresolved(s, n))
      case Querying(txn, left, seen) =>
        && RecoveringOne(s, txn, left, seen, seen.Keys) && left + seen.Keys == s.recs[txn].parts.Keys
      case Completing(txn, left, seen) =>
        && RecoveringOne(s, txn, left, seen, left) && AllDone(s, txn, left)
      case Preventing(_, _, _) => false
      case Marking(txn, status, sweeping) =>
        && status.Committed? && AllDone(s, txn, {}) && (sweeping ==> s.proc.files == map[])
      case Dropping(txn, sweeping) => txn in s.recs && s.pending != Some(txn)
  }

  /** A process that has opened anything has no unresolved group but the one it is resolving. */
  ghost predicate CleanHolds(s: GSys) {
    s.proc.Live? ==>
      && (s.proc.files != map[] && s.pending.Some? ==>
            s.proc.pc.Resolving? || (s.proc.pc.Marking? && !s.proc.pc.sweeping && s.pending == Some(s.proc.pc.txn)))
      && (s.proc.opening.Some? && !s.proc.pc.Running? && !Deciding(s.proc.pc) ==> s.proc.opening.value !in s.proc.files)
      && (s.proc.pc.Opening? ==> s.proc.opening == Some(s.proc.pc.name))
  }

  ghost predicate GInv(s: GSys) {
    RowsHold(s) && Control(s)
  }

  // ---- Frames ----

  ghost predicate SameDb(s: GSys, t: GSys, n: Name) {
    DbOf(t, n) == DbOf(s, n) && FlatOf(t, n) == FlatOf(s, n) && Owed(t, n) == Owed(s, n)
  }

  ghost predicate SameFile(s: GSys, t: GSys, n: Name) {
    && DbOf(t, n) == DbOf(s, n)
    && (t.proc.Live? && n in t.proc.files ==>
          s.proc.Live? && n in s.proc.files && t.proc.files[n] == s.proc.files[n])
  }

  lemma DbFrame(s: GSys, t: GSys, n: Name)
    requires DbHolds(s, n) && SameDb(s, t, n)
    ensures DbHolds(t, n)
  {
  }

  lemma FileFrame(s: GSys, t: GSys, n: Name)
    requires FileHolds(s, n) && SameFile(s, t, n)
    ensures FileHolds(t, n)
  {
  }

  /** An action that touches one database leaves the others as they were. */
  lemma RowsKeep(s: GSys, t: GSys, n: Name)
    requires RowsHold(s)
    requires forall m: Name :: m != n ==> SameDb(s, t, m) && SameFile(s, t, m)
    requires DbHolds(t, n) && FileHolds(t, n)
    ensures RowsHold(t)
  {
    forall m: Name
      ensures DbHolds(t, m) && FileHolds(t, m)
    {
      if m != n {
        DbFrame(s, t, m);
        FileFrame(s, t, m);
      }
    }
  }

  /** The part of the invariant that speaks of the process and the records. */
  ghost predicate Control(s: GSys) {
    RecsInv(s) && GroupHolds(s) && PcHolds(s) && CleanHolds(s)
  }

  ghost predicate RowsHold(s: GSys) {
    (forall m: Name :: DbHolds(s, m)) && (forall m: Name :: FileHolds(s, m))
  }

  // ---- Actions that leave every row alone ----

  ghost predicate Quiet(s: GSys, t: GSys) {
    && t.dbs == s.dbs && t.flats == s.flats && t.recs == s.recs && t.pending == s.pending
    && (t.proc.Live? && t.proc.files != map[] ==> s.proc.Live? && t.proc.files == s.proc.files)
  }

  lemma QuietRows(s: GSys, t: GSys)
    requires RowsHold(s) && Quiet(s, t)
    ensures RowsHold(t)
  {
    forall m: Name
      ensures DbHolds(t, m) && FileHolds(t, m)
    {
      DbFrame(s, t, m);
      FileFrame(s, t, m);
    }
  }

  lemma StartControl(s: GSys, a: GAct, t: GSys)
    requires Control(s) && t == GNext(s, a) && (a.Start? || a.Die? || a.OpenFile? || a.Recover?)
    ensures Control(t) && Quiet(s, t)
  {
    hide Staged1, Unresolved, RecoveringOne, AllDone, Fits;
  }

  lemma SweepFoundControl(s: GSys, txn: nat, t: GSys)
    requires Control(s) && CanSweepFound(s, txn) && t == DoSweepFound(s, txn)
    ensures Control(t) && Quiet(s, t)
  {
  }

  lemma SweepEmptyControl(s: GSys, t: GSys)
    requires Control(s) && CanSweepEmpty(s) && t == DoSweepEmpty(s)
    ensures Control(t) && Quiet(s, t) && t.pending.None?
  {
  }

  lemma BeginControl(s: GSys, t: GSys)
    requires Control(s) && CanBegin(s) && t == DoBegin(s)
    ensures Control(t) && Quiet(s, t)
  {
    hide Staged1, Unresolved, RecoveringOne, AllDone, Fits;
  }

  lemma AbandonControl(s: GSys, t: GSys)
    requires Control(s) && CanAbandon(s) && t == DoAbandon(s)
    ensures Control(t) && Quiet(s, t)
  {
    hide Staged1, Unresolved, RecoveringOne, AllDone, Fits;
  }

  lemma JoinControl(s: GSys, n: Name, t: GSys)
    requires Control(s) && CanJoin(s, n) && t == DoJoin(s, n)
    ensures Control(t) && Quiet(s, t)
  {
    assert forall m <- t.proc.group.value.txids :: m != n ==> MemberHolds(s, m);
  }

  // ---- Opening a file ----

  lemma OpenNowRows(s: GSys, t: GSys)
    requires RowsHold(s) && Control(s) && CanOpenNow(s) && t == DoOpenNow(s)
    ensures RowsHold(t)
  {
    hide DbHolds, FileHolds;
    var n := s.proc.pc.name;
    assert DbHolds(s, n);
    OpenNowHere(s, n, t);
    RowsKeep(s, t, n);
  }

  lemma OpenNowHere(s: GSys, n: Name, t: GSys)
    requires DbHolds(s, n) && PcHolds(s) && CanOpenNow(s) && n == s.proc.pc.name && t == DoOpenNow(s)
    ensures DbHolds(t, n) && FileHolds(t, n)
  {
    hide RowsInv, SizeInv, OwnerInv, Fits;
    OpenKeepsView(DbOf(s, n), DbOf(t, n));
    OpenedOwns(DbOf(s, n), DbOf(t, n));
  }

  lemma OpenNowControl(s: GSys, t: GSys)
    requires Control(s) && CanOpenNow(s) && t == DoOpenNow(s)
    ensures Control(t)
  {
    if s.proc.group.Some? {
      assert forall m <- t.proc.group.value.txids :: MemberHolds(s, m) && DbOf(t, m) == DbOf(s, m);
    }
  }

  // ---- A step of one file ----

  lemma FileStepRows(s: GSys, n: Name, step: Step, t: GSys)
    requires RowsHold(s) && Control(s) && CanFileStep(s, n, step) && t == DoFileStep(s, n, step)
    ensures RowsHold(t)
  {
    hide DbInv, OwnerInv, Shows, Fits;
    var h := s.proc.files[n];
    assert DbHolds(s, n) && FileHolds(s, n);
    StepShows(DbOf(s, n), h, step, FlatOf(s, n), DbOf(t, n), t.proc.files[n]);
    RowsKeep(s, t, n);
  }

  lemma FileStepControl(s: GSys, n: Name, step: Step, t: GSys)
    requires Control(s) && CanFileStep(s, n, step) && t == DoFileStep(s, n, step)
    ensures Control(t)
  {
    if s.proc.group.Some? {
      forall m <- t.proc.group.value.txids
        ensures MemberHolds(t, m)
      {
        assert MemberHolds(s, m);
        if m == n {
          assert DbOf(t, n) == DbOf(s, n);
        }
      }
    }
  }

  // ---- Staging one member ----

  /** Staging every dirty page at once makes the staged rows the dirty pages. */
  lemma StageWhole(db: Db, h: Handle, d: Db, flat: Flat)
    requires DbInv(db) && OwnerInv(db, h) && Owns(db, h) && h.work.Idle? && Shows(db, flat)
    requires d == PutDelta(db, h.head + 1, h.dirty)
    ensures DbInv(d) && OwnerInv(d, h) && Shows(d, flat)
    ensures h.head == db.head == d.head && Rows(d.delta, db.head + 1) == h.dirty
  {
    StageKeepsView(db, h.head + 1, h.dirty, d);
    assert NewestShard(d) == NewestShard(db);
  }

  /** With no group unresolved, a running process's file shows its reference. */
  lemma Settled(s: GSys, n: Name)
    requires DbHolds(s, n) && FileHolds(s, n) && CleanHolds(s)
    requires s.proc.Live? && s.proc.pc.Running? && n in s.proc.files
    ensures s.pending.None? && DbInv(DbOf(s, n)) && Shows(DbOf(s, n), FlatOf(s, n))
    ensures OwnerInv(DbOf(s, n), s.proc.files[n]) && Owns(DbOf(s, n), s.proc.files[n])
  {
  }

  lemma MemberIsIdle(s: GSys, n: Name)
    requires GroupHolds(s) && Member(s.proc, n)
    ensures n in s.proc.files && s.proc.files[n].work.Idle?
  {
    assert MemberHolds(s, n);
  }

  lemma StageMemberHere(s: GSys, n: Name, t: GSys)
    requires s.pending.None? && DbInv(DbOf(s, n)) && Shows(DbOf(s, n), FlatOf(s, n)) && CanStageMember(s, n)
    requires OwnerInv(DbOf(s, n), s.proc.files[n]) && s.proc.files[n].work.Idle? && t == DoStageMember(s, n)
    ensures DbHolds(t, n) && FileHolds(t, n)
    ensures s.proc.files[n].head == DbOf(t, n).head
    ensures s.proc.files[n].dirty != map[] ==> Rows(DbOf(t, n).delta, DbOf(t, n).head + 1) == s.proc.files[n].dirty
  {
    hide DbInv, OwnerInv, Shows, Fits;
    var db, h := DbOf(s, n), s.proc.files[n];
    StageWhole(db, h, PutDelta(db, h.head + 1, h.dirty), FlatOf(s, n));
  }

  lemma StageMemberKeeps(s: GSys, n: Name, t: GSys)
    requires GInv(s) && CanStageMember(s, n) && t == DoStageMember(s, n)
    ensures GInv(t)
  {
    hide DbHolds, FileHolds, MemberHolds, GroupHolds, PcHolds, Fits, RecsInv, CleanHolds, DbInv, OwnerInv, Shows;
    assert DbHolds(s, n) && FileHolds(s, n);
    Settled(s, n);
    MemberIsIdle(s, n);
    StageMemberHere(s, n, t);
    StageMemberControl(s, n, t);
    RowsKeep(s, t, n);
  }

  lemma StageMemberControl(s: GSys, n: Name, t: GSys)
    requires Control(s) && CanStageMember(s, n) && t == DoStageMember(s, n)
    requires s.proc.files[n].head == DbOf(t, n).head
    requires s.proc.files[n].dirty != map[] ==> Rows(DbOf(t, n).delta, DbOf(t, n).head + 1) == s.proc.files[n].dirty
    ensures Control(t)
  {
    hide MemberHolds, PcHolds, CleanHolds, RecsInv, Fits, DbOf;
    StageElsewhere(s, n, t);
    forall m <- t.proc.group.value.txids
      ensures MemberHolds(t, m)
    {
      if m == n { StagedMember(s, n, t); } else { UnstagedMember(s, n, t, m); }
    }
  }

  lemma StageElsewhere(s: GSys, n: Name, t: GSys)
    requires RecsInv(s) && PcHolds(s) && CleanHolds(s) && CanStageMember(s, n) && t == DoStageMember(s, n)
    ensures RecsInv(t) && PcHolds(t) && CleanHolds(t)
  {
    hide DbOf, Fits, PutDelta;
  }

  lemma UnstagedMember(s: GSys, n: Name, t: GSys, m: Name)
    requires Member(s.proc, m) && MemberHolds(s, m) && m != n && CanStageMember(s, n) && t == DoStageMember(s, n)
    ensures MemberHolds(t, m)
  {
    hide Fits, PutDelta;
  }

  lemma StagedMember(s: GSys, n: Name, t: GSys)
    requires CanStageMember(s, n) && MemberHolds(s, n) && t == DoStageMember(s, n)
    requires s.proc.files[n].head == DbOf(t, n).head
    requires s.proc.files[n].dirty != map[] ==> Rows(DbOf(t, n).delta, DbOf(t, n).head + 1) == s.proc.files[n].dirty
    ensures MemberHolds(t, n)
  {
    hide PutDelta, Rows;
  }

  // ---- Writing the record ----

  /** A synced member's staged rows and its new reference file are each other's promise. */
  lemma MemberPromised(db: Db, h: Handle, txid: nat, flat: Flat)
    requires OwnerInv(db, h) && Shows(db, flat) && Staged1(db, h, txid) && h.dirty != map[]
    ensures Promised(db, Part(txid, h.size), Flat(flat.pages + h.dirty, h.size))
  {
    hide Fits;
    forall p: nat
      ensures Get(flat.pages + h.dirty, p) == Laid(db, h.dirty, p)
    {
      assert View(db, p) == Get(flat.pages, p);
    }
  }

  lemma RecordHere(s: GSys, n: Name, t: GSys)
    requires DbHolds(s, n) && FileHolds(s, n) && CleanHolds(s) && GroupHolds(s) && Member(s.proc, n)
    requires CanWriteRecord(s) && t == DoWriteRecord(s)
    ensures DbHolds(t, n) && FileHolds(t, n)
  {
    hide DbInv, OwnerInv, Shows, Fits, Promised, Staged1;
    MemberIsIdle(s, n);
    Settled(s, n);
    var db, h, g := DbOf(s, n), s.proc.files[n], s.proc.group.value;
    assert MemberHolds(s, n);
    RecordedMember(s, n, t);
    HeadsAgree(db, h);
    hide Owed, FlatOf, DbOf, MemberHolds, CanWriteRecord, DoWriteRecord;
    if h.dirty != map[] {
      StagedAbove(db, h, g.txids[n]);
      MemberPromised(db, h, g.txids[n], FlatOf(s, n));
    }
  }

  /** What the record says of a member, and its reference file once it is written. */
  lemma RecordedMember(s: GSys, n: Name, t: GSys)
    requires Member(s.proc, n) && CanWriteRecord(s) && t == DoWriteRecord(s)
    ensures n in s.proc.files && DbOf(t, n) == DbOf(s, n) && t.proc.Live? && t.proc.files == s.proc.files
    ensures var h, txid := s.proc.files[n], s.proc.group.value.txids[n];
      && Owed(t, n) == (if txid > DbOf(s, n).head then Some(Part(txid, h.size)) else None)
      && FlatOf(t, n) ==
         if h.dirty == map[] then FlatOf(s, n) else Flat(FlatOf(s, n).pages + h.dirty, h.size)
  {
    assert t.recs[s.proc.group.value.txn].parts[n] == Part(s.proc.group.value.txids[n], s.proc.files[n].size);
  }

  lemma StagedAbove(db: Db, h: Handle, txid: nat)
    requires Staged1(db, h, txid)
    ensures txid > db.head
  {
  }

  lemma RecordRows(s: GSys, t: GSys)
    requires RowsHold(s) && Control(s) && CanWriteRecord(s) && t == DoWriteRecord(s)
    ensures RowsHold(t)
  {
    hide DbHolds, FileHolds, MemberHolds, Fits;
    forall m: Name
      ensures DbHolds(t, m) && FileHolds(t, m)
    {
      if Member(s.proc, m) {
        RecordHere(s, m, t);
      } else {
        assert FlatOf(t, m) == FlatOf(s, m) && Owed(t, m) == Owed(s, m);
        DbFrame(s, t, m);
        FileFrame(s, t, m);
      }
    }
  }

  lemma RecordMember(s: GSys, n: Name, t: GSys)
    requires FileHolds(s, n) && GroupHolds(s) && Member(s.proc, n) && CanWriteRecord(s) && t == DoWriteRecord(s)
    ensures t.pending.Some? && t.pending.value in t.recs && Unresolved(t, n)
    ensures MemberHolds(t, n)
  {
    assert MemberHolds(s, n);
    hide DbInv, Shows, Fits, OwnerInv;
    HeadsAgree(DbOf(s, n), s.proc.files[n]);
  }

  lemma RecordRecs(s: GSys, t: GSys)
    requires RecsInv(s) && CleanHolds(s) && GroupHolds(s) && CanWriteRecord(s) && t == DoWriteRecord(s)
    ensures RecsInv(t) && CleanHolds(t)
  {
    hide MemberHolds, FencesHold, RecordFlats, RecordParts, DbOf;
    var g := s.proc.group.value;
    RecordPartsKeys(s.proc);
    assert s.pending != Some(g.txn);
    forall r <- t.recs
      ensures (t.recs[r].status.Pending? && t.recs[r].parts != map[]) <==> t.pending == Some(r)
      ensures r <= t.counter
    {
      if r != g.txn { assert r in s.recs && t.recs[r] == s.recs[r]; }
    }
  }

  lemma RecordPartsKeys(p: Proc)
    requires p.Live? && p.group.Some? && Synced(p)
    ensures RecordParts(p) == map[] <==> p.group.value.txids == map[]
  {
  }

  lemma RecordPc(s: GSys, t: GSys)
    requires CanWriteRecord(s) && t == DoWriteRecord(s)
    requires forall m <- s.proc.group.value.txids ::
      t.pending.Some? && t.pending.value in t.recs && Unresolved(t, m)
    ensures PcHolds(t)
  {
    hide Unresolved, DbOf;
    assert AllDone(t, s.proc.group.value.txn, s.proc.group.value.txids.Keys);
  }

  lemma RecordControl(s: GSys, t: GSys)
    requires RowsHold(s) && Control(s) && CanWriteRecord(s) && t == DoWriteRecord(s)
    ensures Control(t)
  {
    hide DbHolds, FileHolds, MemberHolds, Unresolved, RecsInv, CleanHolds, DbOf, PcHolds;
    RecordRecs(s, t);
    forall m <- s.proc.group.value.txids
      ensures MemberHolds(t, m) && t.pending.Some? && t.pending.value in t.recs && Unresolved(t, m)
    {
      RecordMember(s, m, t);
    }
    RecordPc(s, t);
  }

  // ---- The committer moves one head ----

  /** Moving a promised head shows the reference file. */
  lemma PromiseKept(db: Db, part: Part, flat: Flat, logn: nat, d: Db)
    requires DbInv(db) && Promised(db, part, flat)
    requires d == PutHead(db, part.txid, Rows(db.delta, part.txid).Keys, part.size, logn)
    ensures DbInv(d) && Shows(d, flat) && d.head == part.txid
  {
    hide Fits;
    HeadLaysPages(db, Rows(db.delta, part.txid), part.size, logn, d);
  }

  lemma LandedHolds(db: Db, h: Handle, d: Db)
    requires DbInv(db) && OwnerInv(db, h)
    requires d == PutHead(db, db.head + 1, h.dirty.Keys, h.size, h.logPages + h.ndirty)
    ensures OwnerInv(d, Landed(h))
  {
    LandedOwns(db, h, d);
  }

  lemma ResolveHere(s: GSys, n: Name, t: GSys)
    requires DbHolds(s, n) && FileHolds(s, n) && PcHolds(s) && CanResolve(s, n) && t == DoResolve(s, n)
    ensures DbHolds(t, n) && FileHolds(t, n)
    ensures s.proc.group.value.txids[n] <= DbOf(t, n).head
    ensures s.proc.group.value.txids[n] <= s.proc.files[n].head + 1
  {
    hide DbInv, OwnsRows, DirtyInside, Shows, Promised;
    var db, h, part := DbOf(s, n), s.proc.files[n], s.recs[s.pending.value].parts[n];
    assert Unresolved(s, n);
    HeadsAgree(db, h);
    if part.txid > db.head {
      PromisedAbove(db, part, FlatOf(s, n));
      PromiseKept(db, part, FlatOf(s, n), h.logPages + h.ndirty, DbOf(t, n));
      LandedHolds(db, h, DbOf(t, n));
    }
  }

  lemma PromisedAbove(db: Db, part: Part, flat: Flat)
    requires Promised(db, part, flat)
    ensures part.txid == db.head + 1 && Rows(db.delta, part.txid) != map[] && Fits(Rows(db.delta, part.txid))
  {
  }

  lemma ResolveMembers(s: GSys, n: Name, t: GSys)
    requires GroupHolds(s) && CanResolve(s, n) && t == DoResolve(s, n)
    requires s.proc.group.value.txids[n] <= DbOf(t, n).head && s.proc.group.value.txids[n] <= s.proc.files[n].head + 1
    ensures GroupHolds(t)
  {
    hide Fits, PutHead, Rows;
    forall m <- s.proc.group.value.txids
      ensures MemberHolds(t, m)
    {
      assert MemberHolds(s, m);
      assert m != n ==> DbOf(t, m) == DbOf(s, m) && t.proc.files[m] == s.proc.files[m];
    }
  }

  lemma ResolvePc(s: GSys, n: Name, t: GSys)
    requires PcHolds(s) && CanResolve(s, n) && t == DoResolve(s, n)
    requires s.proc.group.value.txids[n] <= DbOf(t, n).head
    ensures PcHolds(t)
  {
    hide PutHead, Rows, Fits;
    var txn, left := s.proc.pc.txn, s.proc.pc.left;
    assert Unresolved(s, n);
    forall m <- s.recs[txn].parts
      ensures m in left - {n} || s.recs[txn].parts[m].txid <= DbOf(t, m).head
    {
    }
    forall m <- left - {n}
      ensures Unresolved(t, m)
    {
      assert Unresolved(s, m);
    }
    hide Unresolved, DbOf;
    assert AllDone(t, txn, left - {n});
  }

  lemma ResolveControl(s: GSys, n: Name, t: GSys)
    requires Control(s) && CanResolve(s, n) && t == DoResolve(s, n)
    requires s.proc.group.value.txids[n] <= DbOf(t, n).head && s.proc.group.value.txids[n] <= s.proc.files[n].head + 1
    ensures Control(t)
  {
    hide GroupHolds, DbOf, MemberHolds, Unresolved, AllDone, PutHead, Rows;
    ResolveMembers(s, n, t);
    ResolvePc(s, n, t);
    assert s.pending == Some(s.proc.pc.txn);
    hide PcHolds;
  }

  lemma ResolveKeeps(s: GSys, n: Name, t: GSys)
    requires GInv(s) && CanResolve(s, n) && t == DoResolve(s, n)
    ensures GInv(t)
  {
    hide DbHolds, FileHolds, MemberHolds, GroupHolds, PcHolds, RecsInv, CleanHolds;
    assert DbHolds(s, n) && FileHolds(s, n);
    ResolveHere(s, n, t);
    ResolveControl(s, n, t);
    RowsKeep(s, t, n);
  }

  // ---- Recovery ----

  /** A process that recovers has opened nothing, so its group has no members. */
  lemma NoMembers(s: GSys, t: GSys)
    requires GroupHolds(s) && s.proc.Live? && s.proc.files == map[] && t.proc.Live? && t.recs == s.recs
    requires t.counter == s.counter && t.proc.group == s.proc.group && !Deciding(s.proc.pc) && !Deciding(t.proc.pc)
    ensures GroupHolds(t)
  {
    if s.proc.group.Some? {
      assert forall m <- s.proc.group.value.txids :: !MemberHolds(s, m);
    }
  }

  lemma QuerySees(s: GSys, n: Name, pgnos: set<nat>, t: GSys)
    requires DbHolds(s, n) && PcHolds(s) && CanQuery(s, n, pgnos) && t == DoQuery(s, n, pgnos)
    ensures SeenHolds(DbOf(s, n), s.recs[s.proc.pc.txn].parts[n],
                      QueryIntent(DbOf(s, n), s.recs[s.proc.pc.txn].parts[n], pgnos))
  {
    hide DbInv, Shows, Promised;
    var db, part := DbOf(s, n), s.recs[s.proc.pc.txn].parts[n];
    if part.txid > db.head {
      PromisedAbove(db, part, FlatOf(s, n));
      assert Fits(Rows(db.delta, part.txid));
    }
  }

  lemma QueryControl(s: GSys, n: Name, pgnos: set<nat>, t: GSys)
    requires Control(s) && CanQuery(s, n, pgnos) && t == DoQuery(s, n, pgnos)
    requires SeenHolds(DbOf(s, n), s.recs[s.proc.pc.txn].parts[n],
                       QueryIntent(DbOf(s, n), s.recs[s.proc.pc.txn].parts[n], pgnos))
    ensures Control(t) && Quiet(s, t)
  {
    NoMembers(s, t);
    hide GroupHolds, QueryReads;
    var seen := s.proc.pc.seen[n := QueryIntent(DbOf(s, n), s.recs[s.proc.pc.txn].parts[n], pgnos)];
    assert s.proc.pc.left - {n} + seen.Keys == s.recs[s.proc.pc.txn].parts.Keys;
    assert forall m <- seen :: seen[m].present;
  }

  lemma CompleteHere(s: GSys, n: Name, t: GSys)
    requires DbHolds(s, n) && PcHolds(s) && CanComplete(s, n) && t == DoComplete(s, n)
    ensures DbHolds(t, n) && FileHolds(t, n)
    ensures s.recs[s.proc.pc.txn].parts[n].txid <= DbOf(t, n).head
  {
    hide DbInv, OwnerInv, Shows, Promised;
    var db, part, intent := DbOf(s, n), s.recs[s.proc.pc.txn].parts[n], s.proc.pc.seen[n];
    assert SeenHolds(db, part, intent);
    if part.txid > db.head {
      PromisedAbove(db, part, FlatOf(s, n));
      PromiseKept(db, part, FlatOf(s, n), db.logn + |intent.pgnos|, DbOf(t, n));
    }
  }

  lemma CompleteControl(s: GSys, n: Name, t: GSys)
    requires Control(s) && CanComplete(s, n) && t == DoComplete(s, n)
    requires s.recs[s.proc.pc.txn].parts[n].txid <= DbOf(t, n).head
    ensures Control(t)
  {
    NoMembers(s, t);
    hide GroupHolds, ResolveBody, PcHolds;
    CompletePc(s, n, t);
  }

  lemma CompletePc(s: GSys, n: Name, t: GSys)
    requires PcHolds(s) && CanComplete(s, n) && t == DoComplete(s, n)
    requires s.recs[s.proc.pc.txn].parts[n].txid <= DbOf(t, n).head
    ensures PcHolds(t)
  {
    hide ResolveBody;
    assert forall m: Name :: m != n ==> DbOf(t, m) == DbOf(s, m);
  }

  lemma CompleteKeeps(s: GSys, n: Name, t: GSys)
    requires GInv(s) && CanComplete(s, n) && t == DoComplete(s, n)
    ensures GInv(t)
  {
    hide DbHolds, FileHolds, MemberHolds, GroupHolds, PcHolds, RecsInv, CleanHolds, ResolveBody;
    assert DbHolds(s, n);
    CompleteHere(s, n, t);
    CompleteControl(s, n, t);
    RowsKeep(s, t, n);
  }

  lemma MarkKeeps(s: GSys, t: GSys)
    requires GInv(s) && CanMark(s) && t == DoMark(s)
    ensures GInv(t)
  {
    hide DbHolds, FileHolds;
    forall m: Name
      ensures DbHolds(t, m) && FileHolds(t, m)
    {
      assert Owed(t, m) == Owed(s, m);
      DbFrame(s, t, m);
      FileFrame(s, t, m);
    }
    MarkControl(s, t);
  }

  lemma MarkControl(s: GSys, t: GSys)
    requires Control(s) && CanMark(s) && t == DoMark(s)
    ensures Control(t)
  {
    if s.proc.group.Some? {
      assert forall m <- s.proc.group.value.txids :: MemberHolds(s, m) ==> MemberHolds(t, m);
    }
  }

  lemma DropKeeps(s: GSys, t: GSys)
    requires GInv(s) && CanDrop(s) && t == DoDrop(s)
    ensures GInv(t)
  {
    hide DbHolds, FileHolds;
    forall m: Name
      ensures DbHolds(t, m) && FileHolds(t, m)
    {
      assert Owed(t, m) == Owed(s, m);
      DbFrame(s, t, m);
      FileFrame(s, t, m);
    }
    DropControl(s, t);
  }

  lemma DropControl(s: GSys, t: GSys)
    requires Control(s) && CanDrop(s) && t == DoDrop(s)
    ensures Control(t)
  {
  }

  // ---- Every action, every run ----

  lemma GNextKeeps(s: GSys, a: GAct, t: GSys)
    requires GInv(s) && t == GNext(s, a)
    ensures GInv(t)
  {
    if Gathers(a) {
      GatherKeeps(s, a, t);
    } else if Recovers(a) {
      RecoverKeeps(s, a, t);
    } else {
      hide RowsHold, Control;
      match a
      case FileStep(n, step) =>
        if CanFileStep(s, n, step) { FileStepRows(s, n, step, t); FileStepControl(s, n, step, t); }
      case OpenNow => if CanOpenNow(s) { OpenNowRows(s, t); OpenNowControl(s, t); }
      case _ => StartControl(s, a, t); QuietRows(s, t);
    }
  }

  /** The actions of a group, from its first member to its record and the heads it moves. */
  predicate Gathers(a: GAct) {
    a.Begin? || a.Join? || a.StageMember? || a.Abandon? || a.WriteRecord? || a.Resolve?
  }

  lemma GatherKeeps(s: GSys, a: GAct, t: GSys)
    requires GInv(s) && t == GNext(s, a) && Gathers(a)
    ensures GInv(t)
  {
    hide RowsHold, Control, Quiet, CanStageMember, DoStageMember, CanWriteRecord, DoWriteRecord, CanResolve, DoResolve,
         CanJoin, DoJoin, CanBegin, DoBegin, CanAbandon, DoAbandon;
    match a
    case StageMember(n) => if CanStageMember(s, n) { StageMemberKeeps(s, n, t); }
    case WriteRecord => if CanWriteRecord(s) { RecordRows(s, t); RecordControl(s, t); }
    case Resolve(n) => if CanResolve(s, n) { ResolveKeeps(s, n, t); }
    case Join(n) => if CanJoin(s, n) { JoinControl(s, n, t); QuietRows(s, t); }
    case Begin => if CanBegin(s) { BeginControl(s, t); QuietRows(s, t); }
    case Abandon => if CanAbandon(s) { AbandonControl(s, t); QuietRows(s, t); }
  }

  /** The actions that settle a record. */
  predicate Recovers(a: GAct) {
    a.SweepFound? || a.SweepEmpty? || a.Query? || a.Complete? || a.Prevent? || a.Mark? || a.Drop?
  }

  lemma RecoverKeeps(s: GSys, a: GAct, t: GSys)
    requires GInv(s) && t == GNext(s, a) && Recovers(a)
    ensures GInv(t)
  {
    hide RowsHold, Quiet, CanComplete, DoComplete, CanMark, DoMark, CanDrop, DoDrop, CanQuery, DoQuery, CanSweepFound,
         DoSweepFound, CanSweepEmpty, DoSweepEmpty, Control;
    match a
    case Complete(n) => if CanComplete(s, n) { CompleteKeeps(s, n, t); }
    case Mark => if CanMark(s) { MarkKeeps(s, t); }
    case Drop => if CanDrop(s) { DropKeeps(s, t); }
    case Query(n, pgnos) => if CanQuery(s, n, pgnos) { QueryKeeps(s, n, pgnos, t); }
    case Prevent(n) => NeverPrevents(s);
    case SweepFound(txn) => if CanSweepFound(s, txn) { SweepFoundControl(s, txn, t); QuietRows(s, t); }
    case SweepEmpty => if CanSweepEmpty(s) { SweepEmptyControl(s, t); QuietRows(s, t); }
  }

  lemma NeverPrevents(s: GSys)
    requires Control(s)
    ensures s.proc.Live? ==> !s.proc.pc.Preventing?
  {
  }

  lemma QueryKeeps(s: GSys, n: Name, pgnos: set<nat>, t: GSys)
    requires GInv(s) && CanQuery(s, n, pgnos) && t == DoQuery(s, n, pgnos)
    ensures GInv(t)
  {
    assert DbHolds(s, n);
    hide DbHolds, FileHolds, MemberHolds, GroupHolds, RecsInv, CleanHolds, QueryReads;
    QuerySees(s, n, pgnos, t);
    hide PcHolds;
    QueryControl(s, n, pgnos, t);
    QuietRows(s, t);
  }

  lemma {:induction false} GRunsHold(acts: seq<GAct>)
    ensures GInv(GRun(acts))
  {
    if acts == [] {
      assert forall p: nat :: View(EmptyDb, p) == None;
    } else {
      GRunsHold(acts[..|acts| - 1]);
      GNextKeeps(GRun(acts[..|acts| - 1]), acts[|acts| - 1], GRun(acts));
    }
  }

  // ---- What the protocol promises ----

  /**
   All or nothing. Whenever no committed group is left unresolved, every database
   shows its reference file, and the reference files of a group's members move
   together, in the one step that writes the record.
  */
  lemma ResolvedShowsReference(acts: seq<GAct>)
    ensures var s := GRun(acts);
            s.pending.None? ==> forall n: Name :: Shows(DbOf(s, n), FlatOf(s, n))
  {
    GRunsHold(acts);
    var s := GRun(acts);
    if s.pending.None? {
      forall n: Name
        ensures Shows(DbOf(s, n), FlatOf(s, n))
      {
        assert DbHolds(s, n);
      }
    }
  }

  /** A recovery that runs to its end leaves no committed group unresolved. */
  lemma RecoveryEndsResolved(acts: seq<GAct>)
    requires CanSweepEmpty(GRun(acts))
    ensures GRun(acts + [SweepEmpty]).pending.None?
    ensures forall n: Name :: Shows(DbOf(GRun(acts + [SweepEmpty]), n), FlatOf(GRun(acts), n))
  {
    assert (acts + [SweepEmpty])[..|acts + [SweepEmpty]| - 1] == acts;
    GRunsHold(acts);
    SweepEmptyControl(GRun(acts), GRun(acts + [SweepEmpty]));
    ResolvedShowsReference(acts + [SweepEmpty]);
  }

  /** A record that record_body wrote is never aborted, by its committer or by anyone after it. */
  lemma RecordsNeverAbort(acts: seq<GAct>)
    ensures var s := GRun(acts);
            && (s.proc.Live? ==> !s.proc.pc.Preventing?)
            && (s.proc.Live? && s.proc.pc.Marking? ==> s.proc.pc.status.Committed?)
  {
    GRunsHold(acts);
  }

  /** Before its record is written, nothing of a group is visible to anyone. */
  lemma UnrecordedStaysHidden(acts: seq<GAct>)
    ensures var s := GRun(acts);
            s.proc.Live? && s.proc.group.Some? && s.proc.pc.Running? ==>
              forall n: Name :: n in s.proc.group.value.txids ==> Shows(DbOf(s, n), FlatOf(s, n))
  {
    GRunsHold(acts);
    var s := GRun(acts);
    if s.proc.Live? && s.proc.group.Some? && s.proc.pc.Running? {
      forall n: Name | n in s.proc.group.value.txids
        ensures Shows(DbOf(s, n), FlatOf(s, n))
      {
        assert DbHolds(s, n) && FileHolds(s, n);
        MemberIsIdle(s, n);
        Settled(s, n);
      }
    }
  }
}
