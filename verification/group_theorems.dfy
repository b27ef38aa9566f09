/**
 The promises of the group protocol in terms of what readers see, for every run.
*/
module GroupTheorems {
  import opened Wrappers
  import opened StoreRows
  import opened HandleSteps
  import opened SharedStore
  import opened GroupCommit
  import opened GroupProofs

  /** Run some more actions from a state. */
  function GMore(s: GSys, acts: seq<GAct>): GSys
    decreases |acts|
  {
    if acts == [] then s else GMore(GNext(s, acts[0]), acts[1..])
  }

  lemma {:induction false} MoreIsRun(acts: seq<GAct>, more: seq<GAct>)
    ensures GRun(acts + more) == GMore(GRun(acts), more)
    decreases |more|
  {
    if more == [] {
      assert acts + more == acts;
    } else {
      var first := acts + [more[0]];
      assert acts + more == first + more[1..];
      assert first[..|first| - 1] == acts;
      MoreIsRun(first, more[1..]);
    }
  }

  lemma {:induction false} MoreHolds(s: GSys, more: seq<GAct>)
    requires GInv(s)
    ensures GInv(GMore(s, more))
    decreases |more|
  {
    hide GInv;
    if more != [] {
      GNextKeeps(s, more[0], GNext(s, more[0]));
      MoreHolds(GNext(s, more[0]), more[1..]);
    }
  }

  /** The caller commits nothing new: crashes, restarts, resolving and recovery only. */
  predicate Settling(acts: seq<GAct>) {
    forall i :: 0 <= i < |acts| ==> !acts[i].FileStep? && !acts[i].WriteRecord?
  }

  lemma SettlingStep(s: GSys, a: GAct)
    requires !a.FileStep? && !a.WriteRecord?
    ensures GNext(s, a).flats == s.flats && (s.pending.None? ==> GNext(s, a).pending.None?)
  {
    hide DbOf, View;
  }

  lemma {:induction false} SettlingKeepsReference(s: GSys, more: seq<GAct>)
    requires Settling(more)
    ensures GMore(s, more).flats == s.flats
    ensures s.pending.None? ==> GMore(s, more).pending.None?
    decreases |more|
  {
    hide GNext;
    if more != [] {
      SettlingStep(s, more[0]);
      SettlingKeepsReference(GNext(s, more[0]), more[1..]);
    }
  }

  /** What the record's reference file holds for one member. */
  lemma RecordLays(s: GSys, n: Name, t: GSys)
    requires CanWriteRecord(s) && n in s.proc.group.value.txids && Shows(DbOf(s, n), FlatOf(s, n))
    requires t.flats == DoWriteRecord(s).flats && Shows(DbOf(t, n), FlatOf(t, n))
    ensures HoldsGroup(s, n, DbOf(t, n))
  {
    hide View, FencesHold;
    var h := s.proc.files[n];
    assert FlatOf(t, n) ==
      if h.dirty == map[] then FlatOf(s, n) else Flat(FlatOf(s, n).pages + h.dirty, h.size);
    hide DbOf, FlatOf, DoWriteRecord, RecordFlats;
    forall p: nat
      ensures View(DbOf(t, n), p) == Laid(DbOf(s, n), h.dirty, p)
    {
      assert View(DbOf(s, n), p) == Get(FlatOf(s, n).pages, p);
    }
  }

  /** The database is what it was in s, with the member's pages laid over it and the member's size. */
  ghost predicate HoldsGroup(s: GSys, n: Name, db: Db)
    requires Member(s.proc, n) && n in s.proc.files
  {
    var h := s.proc.files[n];
    && (forall p: nat :: View(db, p) == Laid(DbOf(s, n), h.dirty, p))
    && db.size == if h.dirty == map[] then DbOf(s, n).size else h.size
  }

  /** The database reads as it did, and is as long. */
  ghost predicate Unchanged(was: Db, now: Db) {
    now.size == was.size && forall p: nat :: View(now, p) == View(was, p)
  }

  /** A group is open, its record not yet written: any number of its members may be staged. */
  predicate Gathering(s: GSys, n: Name) {
    Member(s.proc, n) && s.proc.pc.Running?
  }

  lemma SettledMember(s: GSys, n: Name)
    requires GInv(s) && Gathering(s, n)
    ensures n in s.proc.files && s.pending.None?
  {
    hide DbInv, OwnerInv, RecsInv;
    assert DbHolds(s, n) && FileHolds(s, n);
    MemberIsIdle(s, n);
    Settled(s, n);
  }

  lemma ShowsWhenSettled(s: GSys, n: Name)
    requires GInv(s) && s.pending.None?
    ensures Shows(DbOf(s, n), FlatOf(s, n))
  {
    hide DbInv, OwnerInv, RecsInv, MemberHolds, PcHolds, Shows;
    assert DbHolds(s, n);
  }

  /**
   All: a group whose record landed is in every member once nothing is owed, pages and size,
   through any crashes and recoveries.
  */
  lemma GroupInAll(acts: seq<GAct>, more: seq<GAct>, n: Name)
    requires CanWriteRecord(GRun(acts)) && Settling(more) && Gathering(GRun(acts), n)
    ensures n in GRun(acts).proc.files
    ensures var s, t := GRun(acts), GRun(acts + [WriteRecord] + more);
            t.pending.None? ==> HoldsGroup(s, n, DbOf(t, n))
  {
    RecordIsRun(acts);
    var s, u, t := GRun(acts), GRun(acts + [WriteRecord]), GRun(acts + [WriteRecord] + more);
    hide *;
    GRunsHold(acts);
    SettledMember(s, n);
    ShowsWhenSettled(s, n);
    GRunsHold(acts + [WriteRecord] + more);
    MoreIsRun(acts + [WriteRecord], more);
    SettlingKeepsReference(u, more);
    if t.pending.None? {
      ShowsWhenSettled(t, n);
      MemberOf(s, n);
      RecordLays(s, n, t);
    }
  }

  lemma MemberOf(s: GSys, n: Name)
    requires Gathering(s, n)
    ensures s.proc.group.Some? && n in s.proc.group.value.txids
  {
  }

  /**
   Nothing: whatever a group has staged, in some of its members or in all, as long as its record is
   not written no member changes, pages or size, through any crashes and recoveries.
  */
  lemma GroupInNone(acts: seq<GAct>, more: seq<GAct>, n: Name)
    requires Gathering(GRun(acts), n) && Settling(more)
    ensures Unchanged(DbOf(GRun(acts), n), DbOf(GRun(acts + more), n))
  {
    hide *;
    GRunsHold(acts);
    SettledMember(GRun(acts), n);
    NothingOwedNothingMoves(acts, more, n);
  }

  /** With no record owed, crashes, restarts and recoveries change no database. */
  lemma NothingOwedNothingMoves(acts: seq<GAct>, more: seq<GAct>, n: Name)
    requires GRun(acts).pending.None? && Settling(more)
    ensures Unchanged(DbOf(GRun(acts), n), DbOf(GRun(acts + more), n))
  {
    var s, t := GRun(acts), GRun(acts + more);
    hide *;
    GRunsHold(acts);
    GRunsHold(acts + more);
    ShowsWhenSettled(s, n);
    MoreIsRun(acts, more);
    SettlingKeepsReference(s, more);
    ShowsWhenSettled(t, n);
    SameReference(s, n, t);
  }

  lemma SameReference(s: GSys, n: Name, t: GSys)
    requires Shows(DbOf(s, n), FlatOf(s, n)) && Shows(DbOf(t, n), FlatOf(t, n)) && t.flats == s.flats
    ensures Unchanged(DbOf(s, n), DbOf(t, n))
  {
    hide View, DbOf;
    assert FlatOf(t, n) == FlatOf(s, n);
  }

  /**
   All or nothing, as readers see it: the same run, with the record and without it. With it, every
   member holds the group once nothing is owed; without it, no member has changed.
  */
  lemma GroupAllOrNothing(acts: seq<GAct>, more: seq<GAct>)
    requires GRun(acts).proc.Live? && GRun(acts).proc.group.Some? && GRun(acts).proc.pc.Running? && Settling(more)
    ensures forall n <- GRun(acts).proc.group.value.txids :: Unchanged(DbOf(GRun(acts), n), DbOf(GRun(acts + more), n))
    ensures CanWriteRecord(GRun(acts)) && GRun(acts + [WriteRecord] + more).pending.None? ==>
      forall n <- GRun(acts).proc.group.value.txids ::
        n in GRun(acts).proc.files && HoldsGroup(GRun(acts), n, DbOf(GRun(acts + [WriteRecord] + more), n))
  {
    hide GRun, CanWriteRecord, DbOf, HoldsGroup, Unchanged, Settling;
    var s := GRun(acts);
    forall n <- s.proc.group.value.txids
      ensures Unchanged(DbOf(s, n), DbOf(GRun(acts + more), n))
      ensures CanWriteRecord(s) && GRun(acts + [WriteRecord] + more).pending.None? ==>
        n in s.proc.files && HoldsGroup(s, n, DbOf(GRun(acts + [WriteRecord] + more), n))
    {
      GroupInNone(acts, more, n);
      if CanWriteRecord(s) { GroupInAll(acts, more, n); }
    }
  }

  lemma RunSnoc(acts: seq<GAct>, a: GAct)
    ensures GRun(acts + [a]) == GNext(GRun(acts), a)
  {
    hide GNext;
    var all := acts + [a];
    assert all[..|all| - 1] == acts && all[|all| - 1] == a;
  }

  lemma RecordIsRun(acts: seq<GAct>)
    requires CanWriteRecord(GRun(acts))
    ensures GRun(acts + [WriteRecord]) == DoWriteRecord(GRun(acts))
  {
    hide GRun, CanWriteRecord, DoWriteRecord;
    RunSnoc(acts, WriteRecord);
  }

  // ---- Recovery always reaches its end ----

  /** A step of a recovery that has begun. */
  predicate RecoveryStep(a: GAct) { a.SweepFound? || a.Query? || a.Complete? || a.Mark? }

  predicate Recovering(acts: seq<GAct>) { forall i :: 0 <= i < |acts| ==> RecoveryStep(acts[i]) }

  /** A crash, a restart, and then nothing but the steps of one recovery. */
  predicate OneRecovery(acts: seq<GAct>) {
    |acts| >= 3 && acts[..3] == [Die, Start, Recover] && Recovering(acts[3..])
  }

  /** Ask about every participant still to be asked; recovery then goes on to complete. */
  lemma {:induction false} QueriesFinish(s: GSys) returns (more: seq<GAct>, t: GSys)
    requires GInv(s) && s.proc.Live? && s.proc.pc.Querying? && s.proc.pc.left != {}
    ensures Settling(more) && t == GMore(s, more) && GInv(t) && Recovering(more)
    ensures t.proc.Live? && t.proc.pc.Completing? && t.proc.pc.left != {} && t.proc.pc.txn == s.proc.pc.txn
    ensures t.pending == s.pending
    decreases |s.proc.pc.left|
  {
    var n :| n in s.proc.pc.left;
    var pgnos, u := QueryOne(s, n);
    assert RecoveryStep(Query(n, pgnos)) && Recovering([]) && Settling([]);
    hide *;
    if u.proc.pc.Completing? {
      more, t := [Query(n, pgnos)], u;
      MoreOne(s, Query(n, pgnos), []);
    } else {
      var rest;
      rest, t := QueriesFinish(u);
      more := [Query(n, pgnos)] + rest;
      MoreOne(s, Query(n, pgnos), rest);
    }
  }

  lemma MoreOne(s: GSys, a: GAct, rest: seq<GAct>)
    ensures GMore(s, [a] + rest) == GMore(GNext(s, a), rest) && GMore(s, [a]) == GNext(s, a)
    ensures !a.FileStep? && !a.WriteRecord? && Settling(rest) ==> Settling([a] + rest) && Settling([a])
    ensures RecoveryStep(a) && Recovering(rest) ==> Recovering([a] + rest) && Recovering([a])
  {
    assert ([a] + rest)[1..] == rest;
    assert GMore(GNext(s, a), [a][1..]) == GNext(s, a);
  }

  /** There is always an answer to the next query. */
  lemma QueryOne(s: GSys, n: Name) returns (pgnos: set<nat>, u: GSys)
    requires GInv(s) && s.proc.Live? && s.proc.pc.Querying? && n in s.proc.pc.left
    ensures u == GNext(s, Query(n, pgnos)) && GInv(u) && u.pending == s.pending && u.proc.Live?
    ensures var left := s.proc.pc.left - {n};
            if left == {} then u.proc.pc.Completing? && u.proc.pc.left != {} && u.proc.pc.txn == s.proc.pc.txn
            else u.proc.pc.Querying? && u.proc.pc.left == left && u.proc.pc.txn == s.proc.pc.txn
  {
    assert RecoveringOne(s, s.proc.pc.txn, s.proc.pc.left, s.proc.pc.seen, s.proc.pc.seen.Keys);
    var part := s.recs[s.proc.pc.txn].parts[n];
    pgnos := if part.txid <= DbOf(s, n).head then {} else Rows(DbOf(s, n).delta, part.txid).Keys;
    u := GNext(s, Query(n, pgnos));
    assert u == DoQuery(s, n, pgnos);
    hide GInv;
    GNextKeeps(s, Query(n, pgnos), u);
    NotPreventing(u);
  }

  lemma NotPreventing(s: GSys)
    requires GInv(s)
    ensures s.proc.Live? ==> !s.proc.pc.Preventing?
  {
  }

  lemma {:induction false} CompletesFinish(s: GSys) returns (more: seq<GAct>, t: GSys)
    requires GInv(s) && s.proc.Live? && s.proc.pc.Completing? && s.proc.pc.left != {}
    ensures Settling(more) && t == GMore(s, more) && GInv(t) && Recovering(more)
    ensures t.proc.Live? && t.proc.pc.Marking? && t.proc.pc.txn == s.proc.pc.txn && t.pending == s.pending
    decreases |s.proc.pc.left|
  {
    var n :| n in s.proc.pc.left;
    var u := CompleteOne(s, n);
    assert RecoveryStep(Complete(n)) && Recovering([]) && Settling([]);
    hide *;
    if s.proc.pc.left == {n} {
      more, t := [Complete(n)], u;
      MoreOne(s, Complete(n), []);
    } else {
      var rest;
      rest, t := CompletesFinish(u);
      more := [Complete(n)] + rest;
      MoreOne(s, Complete(n), rest);
    }
  }

  lemma CompleteOne(s: GSys, n: Name) returns (u: GSys)
    requires GInv(s) && s.proc.Live? && s.proc.pc.Completing? && n in s.proc.pc.left
    ensures u == GNext(s, Complete(n)) && GInv(u) && u.pending == s.pending && u.proc.Live?
    ensures var left := s.proc.pc.left - {n};
            if left == {} then u.proc.pc.Marking? && u.proc.pc.txn == s.proc.pc.txn
            else u.proc.pc.Completing? && u.proc.pc.left == left && u.proc.pc.txn == s.proc.pc.txn
  {
    assert RecoveringOne(s, s.proc.pc.txn, s.proc.pc.left, s.proc.pc.seen, s.proc.pc.left);
    u := GNext(s, Complete(n));
    assert u == DoComplete(s, n);
    hide GInv, ResolveBody;
    GNextKeeps(s, Complete(n), u);
  }

  /** From every reachable state a crash, a restart and one recovery settle everything. */
  lemma RecoveryReachesItsEnd(s: GSys) returns (more: seq<GAct>)
    requires GInv(s)
    ensures OneRecovery(more) && Settling(more) && GMore(s, more).pending.None?
  {
    var begun, found := StartRecovery(s);
    assert Recovering([Mark]) && Settling([]);
    hide *;
    more := begun;
    if found.pending.Some? {
      var asked, a := QueriesFinish(found);
      var done, b := CompletesFinish(a);
      MarkSettles(b);
      MoreOne(b, Mark, []);
      JoinMore(s, begun, asked);
      JoinMore(s, begun + asked, done);
      JoinMore(s, begun + asked + done, [Mark]);
      RecoverOn(begun, asked);
      RecoverOn(begun + asked, done);
      RecoverOn(begun + asked + done, [Mark]);
      more := begun + asked + done + [Mark];
    }
  }

  lemma RecoverOn(xs: seq<GAct>, ys: seq<GAct>)
    requires Recovering(ys)
    ensures Recovering(xs) ==> Recovering(xs + ys)
    ensures OneRecovery(xs) ==> OneRecovery(xs + ys)
  {
    if OneRecovery(xs) {
      assert (xs + ys)[..3] == xs[..3] && (xs + ys)[3..] == xs[3..] + ys;
    }
  }

  lemma {:induction false} JoinMore(s: GSys, xs: seq<GAct>, ys: seq<GAct>)
    ensures GMore(s, xs + ys) == GMore(GMore(s, xs), ys)
    ensures Settling(xs) && Settling(ys) ==> Settling(xs + ys)
    decreases |xs|
  {
    if xs == [] {
      assert xs + ys == ys;
    } else {
      assert (xs + ys)[1..] == xs[1..] + ys;
      JoinMore(GNext(s, xs[0]), xs[1..], ys);
    }
  }

  lemma MarkSettles(s: GSys)
    requires GInv(s) && s.proc.Live? && s.proc.pc.Marking? && s.pending == Some(s.proc.pc.txn)
    ensures GNext(s, Mark).pending.None?
  {
    assert CanMark(s);
  }

  lemma StartRecovery(s: GSys) returns (begun: seq<GAct>, found: GSys)
    requires GInv(s)
    ensures OneRecovery(begun) && Settling(begun) && found == GMore(s, begun) && GInv(found)
    ensures found.pending.None? ||
            (found.proc.Live? && found.proc.pc.Querying? && found.proc.pc.left != {}
              && found.pending == Some(found.proc.pc.txn))
  {
    var idle := s.(proc := Live(map[], None, None, Sweeping));
    assert GNext(GNext(GNext(s, Die), Start), Recover) == idle;
    assert GMore(s, [Die, Start, Recover]) == idle by {
      MoreOne(s, Die, [Start, Recover]);
      MoreOne(GNext(s, Die), Start, [Recover]);
      MoreOne(GNext(GNext(s, Die), Start), Recover, []);
    }
    MoreHolds(s, [Die, Start, Recover]);
    if s.pending.None? {
      begun, found := [Die, Start, Recover], idle;
    } else {
      var sweep := SweepFound(s.pending.value);
      begun, found := [Die, Start, Recover, sweep], GNext(idle, sweep);
      assert begun == [Die, Start, Recover] + [sweep];
      JoinMore(s, [Die, Start, Recover], [sweep]);
      MoreOne(idle, sweep, []);
      assert found == DoSweepFound(idle, s.pending.value);
      hide GInv;
      GNextKeeps(idle, sweep, found);
    }
  }

  // ---- And a group does get there ----

  lemma Go(acts: seq<GAct>, s: GSys, a: GAct) returns (more: seq<GAct>, t: GSys)
    requires s == GRun(acts)
    ensures more == acts + [a] && t == GRun(more) == GNext(s, a)
  {
    hide GNext;
    RunSnoc(acts, a);
    more, t := acts + [a], GNext(s, a);
  }

  /** A new file, opened and owned. */
  lemma OpenNew(acts: seq<GAct>, s: GSys, n: Name) returns (more: seq<GAct>, t: GSys)
    requires s == GRun(acts) && s.proc.Live? && s.proc.pc.Running? && n !in s.proc.files && s.recs == map[]
    ensures t == GRun(more) && t.recs == map[] && t.flats == s.flats && t.pending == s.pending && t.counter == s.counter
    ensures t.proc.Live? && t.proc.pc.Running? && t.proc.group == s.proc.group
    ensures t.proc.files == s.proc.files[n := Opened(DbOf(s, n))] && t.dbs == s.dbs[n := OpenBody(DbOf(s, n))]
  {
    hide GRun, Opened, OpenBody;
    more, t := Go(acts, s, OpenFile(n));
    more, t := Go(more, t, SweepEmpty);
    more, t := Go(more, t, OpenNow);
  }

  /** Nothing is committed, recorded or owed, and the process runs. */
  predicate Quiet(s: GSys) {
    s.recs == map[] && s.flats == map[] && s.pending.None? && s.proc.Live? && s.proc.pc.Running?
  }

  /** There are these two databases, each with this handle open on it. */
  predicate TwoFiles(s: GSys, a: Name, b: Name, da: Db, db: Db, ha: Handle, hb: Handle) {
    s.dbs == map[a := da, b := db] && s.proc.Live? && s.proc.files == map[a := ha, b := hb]
  }

  /** A group of both is open, each under this txid. */
  predicate TwoMembers(s: GSys, a: Name, b: Name, txid: nat, synced: set<Name>) {
    s.proc.Live? && s.proc.group == Some(Group(1, map[a := txid, b := txid], synced))
  }

  /** The handle of a new file with one page written to it. */
  function OnePage(page: Page): Handle {
    Opened(EmptyDb).(dirty := map[0 := page], ndirty := 1, size := PAGE)
  }

  lemma WriteOne(acts: seq<GAct>, s: GSys, n: Name, page: Page) returns (more: seq<GAct>, t: GSys)
    requires s == GRun(acts) && s.proc.Live? && s.proc.pc.Running? && Member(s.proc, n) && n in s.proc.files
    requires s.proc.files[n] == Opened(EmptyDb)
    ensures var g := s.proc.group.value;
      && t == GRun(more) && t.recs == s.recs && t.flats == s.flats && t.pending == s.pending
      && t.dbs == s.dbs[n := DbOf(s, n)]
      && t.proc == s.proc.(files := s.proc.files[n := OnePage(page)],
                           group := Some(Group(g.txn, g.txids, g.synced - {n})))
  {
    hide GRun, DbOf, Owns;
    var write := Write(0, page, PAGE);
    var h := Opened(EmptyDb);
    assert h.work.Idle? && h.size == 0 && h.dirty == map[];
    assert HandleAfter(DbOf(s, n), h, write) == OnePage(page) && DbAfter(DbOf(s, n), h, write) == DbOf(s, n);
    more, t := Go(acts, s, FileStep(n, write));
  }

  lemma StageOne(acts: seq<GAct>, s: GSys, n: Name, page: Page) returns (more: seq<GAct>, t: GSys)
    requires s == GRun(acts) && s.proc.Live? && s.proc.pc.Running? && Member(s.proc, n) && n in s.proc.files
    requires s.proc.files[n] == OnePage(page) && Owns(DbOf(s, n), OnePage(page))
    ensures var g := s.proc.group.value;
      && t == GRun(more) && t.recs == s.recs && t.flats == s.flats && t.pending == s.pending
      && t.dbs == s.dbs[n := PutDelta(DbOf(s, n), 1, map[0 := page])]
      && t.proc == s.proc.(group := Some(Group(g.txn, g.txids[n := 1], g.synced + {n})))
  {
    OneFits(page);
    hide GRun, DbOf, Owns, Fits, PutDelta;
    assert OnePage(page).dirty != map[] && OnePage(page).head == 0 by { assert 0 in OnePage(page).dirty; }
    more, t := Go(acts, s, StageMember(n));
  }

  lemma OneFits(page: Page)
    ensures Fits(OnePage(page).dirty)
  {
    var m: Pages := map[0 := page];
    assert m.Keys == {0} && |m| == |m.Keys|;
  }

  /** A new database with one page staged, and with it committed. */
  function StagedDb(page: Page): Db {
    PutDelta(OpenBody(EmptyDb), 1, map[0 := page])
  }

  function CommittedDb(page: Page): Db {
    PutHead(StagedDb(page), 1, {0}, PAGE, 1)
  }

  lemma OneView(page: Page)
    ensures View(StagedDb(page), 0) == None && View(CommittedDb(page), 0) == Some(page)
    ensures CommittedDb(page).size == PAGE && Owns(StagedDb(page), OnePage(page))
  {
  }

  lemma BothOpen(a: Name, b: Name) returns (acts: seq<GAct>, s: GSys)
    requires a != b
    ensures s == GRun(acts) && s.counter == 0 && Quiet(s) && s.proc.group.None?
    ensures TwoFiles(s, a, b, OpenBody(EmptyDb), OpenBody(EmptyDb), Opened(EmptyDb), Opened(EmptyDb))
  {
    hide OpenBody, Opened;
    acts, s := Go([], GInit, Start);
    hide GRun;
    acts, s := OpenNew(acts, s, a);
    acts, s := OpenNew(acts, s, b);
  }

  lemma BothJoined(a: Name, b: Name) returns (acts: seq<GAct>, s: GSys)
    requires a != b
    ensures s == GRun(acts) && Quiet(s) && TwoMembers(s, a, b, 0, {})
    ensures TwoFiles(s, a, b, OpenBody(EmptyDb), OpenBody(EmptyDb), Opened(EmptyDb), Opened(EmptyDb))
  {
    acts, s := BothOpen(a, b);
    hide GRun, OpenBody, Opened, DbOf;
    OpenedIdle();
    acts, s := Go(acts, s, Begin);
    acts, s := JoinOne(acts, s, a, 0);
    assert s.proc.group == Some(Group(1, map[a := 0], {}));
    var one: map<Name, nat> := map[a := 0];
    assert one.Keys == {a} && |one| == |one.Keys| == 1;
    acts, s := JoinOne(acts, s, b, 1);
  }

  lemma OpenedIdle()
    ensures Opened(EmptyDb).work.Idle? && Opened(EmptyDb).head == 0
  {
  }

  lemma JoinOne(acts: seq<GAct>, s: GSys, n: Name, count: nat) returns (more: seq<GAct>, t: GSys)
    requires s == GRun(acts) && s.proc.Live? && s.proc.pc.Running? && s.proc.group.Some? && n in s.proc.files
    requires n !in s.proc.group.value.txids && |s.proc.group.value.txids| == count < TXN_MAX_PARTS
    requires s.proc.files[n].work.Idle?
    ensures var g := s.proc.group.value;
      && t == GRun(more) && t.recs == s.recs && t.flats == s.flats && t.pending == s.pending && t.dbs == s.dbs
      && t.proc == s.proc.(group := Some(Group(g.txn, g.txids[n := s.proc.files[n].head], g.synced)))
  {
    hide GRun;
    more, t := Go(acts, s, Join(n));
  }

  lemma BothWritten(a: Name, b: Name, x: Page, y: Page) returns (acts: seq<GAct>, s: GSys)
    requires a != b
    ensures s == GRun(acts) && Quiet(s) && TwoMembers(s, a, b, 0, {})
    ensures TwoFiles(s, a, b, OpenBody(EmptyDb), OpenBody(EmptyDb), OnePage(x), OnePage(y))
  {
    acts, s := BothJoined(a, b);
    hide GRun, OpenBody, Opened, OnePage;
    SameWhenPut(s.dbs, a);
    SameWhenPut(s.dbs, b);
    NoneLeft({a}, {b});
    TwoPuts(a, b, Opened(EmptyDb), Opened(EmptyDb), OnePage(x), OnePage(y));
    assert DbOf(s, a) == s.dbs[a] && DbOf(s, b) == s.dbs[b];
    acts, s := WriteOne(acts, s, a, x);
    assert s.proc.files == map[a := OnePage(x), b := Opened(EmptyDb)];
    acts, s := WriteOne(acts, s, b, y);
  }

  lemma BothStaged(a: Name, b: Name, x: Page, y: Page) returns (acts: seq<GAct>, s: GSys)
    requires a != b
    ensures s == GRun(acts) && Quiet(s) && TwoMembers(s, a, b, 1, {a, b})
    ensures TwoFiles(s, a, b, StagedDb(x), StagedDb(y), OnePage(x), OnePage(y))
  {
    acts, s := BothWritten(a, b, x, y);
    OneOwns(x);
    OneOwns(y);
    TwoPuts<nat>(a, b, 0, 0, 1, 1);
    BothAdded(a, b);
    TwoPuts(a, b, OpenBody(EmptyDb), OpenBody(EmptyDb), StagedDb(x), StagedDb(y));
    hide GRun, OpenBody, OnePage, PutDelta, Owns;
    acts, s := StageOne(acts, s, a, x);
    acts, s := StageOne(acts, s, b, y);
  }

  lemma TwoPuts<T>(a: Name, b: Name, x: T, y: T, x': T, y': T)
    requires a != b
    ensures map[a := x, b := y][a := x'] == map[a := x', b := y]
    ensures map[a := x', b := y][b := y'] == map[a := x', b := y']
  {
  }

  lemma SameWhenPut(dbs: map<Name, Db>, n: Name)
    requires n in dbs
    ensures dbs[n := dbs[n]] == dbs
  {
  }

  lemma BothAdded(a: Name, b: Name)
    ensures {} + {a} + {b} == {a, b}
  {
  }

  lemma NoneLeft(a: set<Name>, b: set<Name>)
    ensures {} - a == {} && {} - b == {}
  {
  }

  lemma OneOwns(page: Page)
    ensures Owns(OpenBody(EmptyDb), OnePage(page))
  {
  }

  /** The record is written, and these members have it to resolve. */
  predicate Owed(s: GSys, t: GSys, left: set<Name>) {
    && t.recs.Keys == {1} && t.pending == Some(1) && t.dbs == s.dbs
    && s.proc.Live? && t.proc == s.proc.(pc := Resolving(1, left))
  }

  lemma RecordOne(s: GSys, a: Name, b: Name, x: Page, y: Page)
    requires a != b && Quiet(s) && TwoMembers(s, a, b, 1, {a, b})
    requires TwoFiles(s, a, b, StagedDb(x), StagedDb(y), OnePage(x), OnePage(y))
    ensures Owed(s, GNext(s, WriteRecord), {a, b})
  {
    RecordAllowed(s, a, b, x, y);
    hide OnePage, StagedDb, CanWriteRecord, TwoFiles, GNext, DoWriteRecord;
    RecordTaken(s);
    RecordOwes(s, a, b);
  }

  lemma RecordTaken(s: GSys)
    requires CanWriteRecord(s)
    ensures GNext(s, WriteRecord) == DoWriteRecord(s)
  {
    hide CanWriteRecord, DoWriteRecord;
  }

  lemma RecordOwes(s: GSys, a: Name, b: Name)
    requires CanWriteRecord(s) && s.recs == map[] && TwoMembers(s, a, b, 1, {a, b})
    ensures Owed(s, DoWriteRecord(s), {a, b})
  {
    hide RecordFlats, RecordParts, FencesHold;
    assert s.proc.group.value.txids.Keys == {a, b} && a in s.proc.group.value.txids;
  }

  lemma RecordAllowed(s: GSys, a: Name, b: Name, x: Page, y: Page)
    requires a != b && Quiet(s) && TwoMembers(s, a, b, 1, {a, b})
    requires TwoFiles(s, a, b, StagedDb(x), StagedDb(y), OnePage(x), OnePage(y))
    ensures CanWriteRecord(s)
  {
    OneView(x);
    OneView(y);
    hide OnePage, StagedDb, CommittedDb, View, Owns;
    forall n <- s.proc.group.value.txids
      ensures n in s.proc.files && n in s.proc.group.value.synced && Owns(DbOf(s, n), s.proc.files[n])
    {
      assert n == a || n == b;
    }
    hide DbOf;
  }

  /** This member holds one staged page and is still to be resolved. */
  predicate ToResolve(s: GSys, n: Name, page: Page) {
    && s.proc.Live? && s.proc.pc.Resolving? && n in s.proc.pc.left && Member(s.proc, n)
    && n in s.proc.files && s.proc.files[n] == OnePage(page) && DbOf(s, n) == StagedDb(page)
    && s.proc.group.value.txids[n] == 1
  }

  /** It is resolved, and the others are left. */
  predicate Resolved(s: GSys, t: GSys, n: Name, page: Page) {
    && t.recs == s.recs && t.pending == s.pending && t.dbs == s.dbs[n := CommittedDb(page)]
    && s.proc.Live? && s.proc.pc.Resolving?
    && t.proc == s.proc.(files := s.proc.files[n := Landed(OnePage(page))],
                         pc := AfterResolving(s.proc.pc.txn, s.proc.pc.left - {n}))
  }

  lemma ResolveOne(s: GSys, n: Name, page: Page)
    requires ToResolve(s, n, page)
    ensures Resolved(s, GNext(s, Resolve(n)), n, page)
  {
    OneView(page);
    OneBuffer(page);
    hide OnePage, StagedDb, Owns, PutHead, Landed, AfterResolving;
  }

  lemma OneBuffer(page: Page)
    ensures var h := OnePage(page);
      h.dirty.Keys == {0} && h.head == 0 && h.size == PAGE && h.logPages + h.ndirty == 1
  {
  }

  /** Both are resolved, and the record is to be marked. */
  predicate BothCommitted(s: GSys, t: GSys, a: Name, b: Name, x: Page, y: Page) {
    && t.recs == s.recs && t.pending == s.pending && t.dbs == map[a := CommittedDb(x), b := CommittedDb(y)]
    && t.proc.Live? && t.proc.pc == Marking(1, Committed, false)
  }

  lemma FirstResolved(s: GSys, a: Name, b: Name, x: Page, y: Page)
    requires a != b && TwoFiles(s, a, b, StagedDb(x), StagedDb(y), OnePage(x), OnePage(y))
    requires TwoMembers(s, a, b, 1, {a, b}) && s.proc.pc == Resolving(1, {a, b})
    ensures var t := GNext(s, Resolve(a));
      && TwoFiles(t, a, b, CommittedDb(x), StagedDb(y), Landed(OnePage(x)), OnePage(y))
      && TwoMembers(t, a, b, 1, {a, b}) && t.proc.pc == Resolving(1, {b}) && t.recs == s.recs && t.pending == s.pending
  {
    TwoPuts(a, b, StagedDb(x), StagedDb(y), CommittedDb(x), CommittedDb(y));
    TwoPuts(a, b, OnePage(x), OnePage(y), Landed(OnePage(x)), OnePage(y));
    assert {a, b} - {a} == {b};
    hide GNext, OnePage, StagedDb, CommittedDb, View, Owns, Landed;
    ResolveOne(s, a, x);
  }

  lemma SecondResolved(s: GSys, a: Name, b: Name, x: Page, y: Page)
    requires a != b && TwoFiles(s, a, b, CommittedDb(x), StagedDb(y), Landed(OnePage(x)), OnePage(y))
    requires TwoMembers(s, a, b, 1, {a, b}) && s.proc.pc == Resolving(1, {b})
    ensures BothCommitted(s, GNext(s, Resolve(b)), a, b, x, y)
  {
    TwoPuts(a, b, StagedDb(x), StagedDb(y), CommittedDb(x), CommittedDb(y));
    assert {b} - {b} == {};
    hide GNext, OnePage, StagedDb, CommittedDb, View, Owns, Landed;
    ResolveOne(s, b, y);
  }

  lemma MarkAndDrop(s: GSys)
    requires s.proc.Live? && s.proc.pc == Marking(1, Committed, false) && s.recs.Keys == {1} && s.pending == Some(1)
    ensures var t := GNext(GNext(s, Mark), Drop); t.dbs == s.dbs && t.recs == map[] && t.pending.None?
  {
    assert GNext(s, Mark).recs.Keys == {1};
  }

  /** What remains to be done for a group of two whose members are staged. */
  function Finishing(a: Name, b: Name): seq<GAct> {
    [WriteRecord, Resolve(a), Resolve(b), Mark, Drop]
  }

  /** The first page of this database is this one, if any. */
  predicate FirstPage(s: GSys, n: Name, page: Option<Page>) {
    View(DbOf(s, n), 0) == page
  }

  /** Nothing is owed to either database, and both are one page long. */
  predicate BothWhole(s: GSys, a: Name, b: Name) {
    DbOf(s, a).size == DbOf(s, b).size == PAGE && s.recs == map[] && s.pending.None?
  }

  /**
   Two new files of which one page each is written inside a group: after their staging no reader sees
   either page, and after the record and its resolving everybody sees both and no record is left.
  */
  lemma TwoCommitTogether(a: Name, b: Name, x: Page, y: Page) returns (staged: seq<GAct>)
    requires a != b
    ensures FirstPage(GRun(staged), a, None) && FirstPage(GRun(staged), b, None)
    ensures var t := GRun(staged + Finishing(a, b));
      FirstPage(t, a, Some(x)) && FirstPage(t, b, Some(y)) && BothWhole(t, a, b)
  {
    var s: GSys;
    staged, s := BothStaged(a, b, x, y);
    OneView(x);
    OneView(y);
    hide GRun, OnePage, StagedDb, CommittedDb, View, Owns, Finished, BothCommitted, Quiet, TwoMembers;
    RunsToFinish(staged, s, a, b);
    FinishCommitsBoth(s, a, b, x, y);
  }

  /** The state after them. */
  function Finished(s: GSys, a: Name, b: Name): GSys {
    GNext(GNext(GNext(GNext(GNext(s, WriteRecord), Resolve(a)), Resolve(b)), Mark), Drop)
  }

  lemma RunsToFinish(acts: seq<GAct>, s: GSys, a: Name, b: Name)
    requires s == GRun(acts)
    ensures GRun(acts + Finishing(a, b)) == Finished(s, a, b)
  {
    hide GRun, GNext;
    var more, t := Go(acts, s, WriteRecord);
    more, t := Go(more, t, Resolve(a));
    more, t := Go(more, t, Resolve(b));
    more, t := Go(more, t, Mark);
    more, t := Go(more, t, Drop);
    assert more == acts + Finishing(a, b);
  }

  lemma FinishCommitsBoth(s: GSys, a: Name, b: Name, x: Page, y: Page)
    requires a != b && Quiet(s) && TwoMembers(s, a, b, 1, {a, b})
    requires TwoFiles(s, a, b, StagedDb(x), StagedDb(y), OnePage(x), OnePage(y))
    ensures var t := Finished(s, a, b);
      t.dbs == map[a := CommittedDb(x), b := CommittedDb(y)] && t.recs == map[] && t.pending.None?
  {
    hide GNext, OnePage, StagedDb, CommittedDb, Landed;
    RecordOne(s, a, b, x, y);
    var t := GNext(s, WriteRecord);
    FirstResolved(t, a, b, x, y);
    var u := GNext(t, Resolve(a));
    SecondResolved(u, a, b, x, y);
    MarkAndDrop(GNext(u, Resolve(b)));
  }
}
