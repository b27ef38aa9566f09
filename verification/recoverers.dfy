/**
 Any number of processes recovering one record at once, interleaved transaction
 by transaction, with no other writer on the participants
 (thirdparty/store-plane/fdb_vfs.c). A recoverer that stops anywhere is one that
 takes no more steps.
*/
module Recoverers {
  import opened Wrappers
  import opened StoreRows
  import opened HandleSteps
  import opened GroupCommit

  /** Where one recoverer stands. `Over(None)` found the record already gone. */
  datatype RPc =
    | Swept
    | Asking(left: set<Name>, seen: map<Name, Intent>)
    | Finishing(left: set<Name>, seen: map<Name, Intent>)
    | GivingUp(left: set<Name>, seen: map<Name, Intent>)
    | Noting(commit: bool)
    | Erasing(commit: bool)
    | Over(decided: Option<bool>)

  datatype RSys = RSys(dbs: map<Name, Db>, dropped: bool, pcs: map<nat, RPc>)

  datatype RAct =
    | ReadParts(who: nat)
    | Ask(who: nat, name: Name, pgnos: set<nat>)
    | Finish1(who: nat, name: Name)
    | Prevent1(who: nat, name: Name)
    | Note(who: nat)
    | Erase(who: nat)

  function PcOf(s: RSys, r: nat): RPc {
    if r in s.pcs then s.pcs[r] else Swept
  }

  function RDb(s: RSys, n: Name): Db {
    if n in s.dbs then s.dbs[n] else EmptyDb
  }

  function AfterAsking(left: set<Name>, seen: map<Name, Intent>): RPc {
    if left != {} then Asking(left, seen)
    else if forall n <- seen :: seen[n].present then Finishing(seen.Keys, seen)
    else GivingUp(seen.Keys, seen)
  }

  function AfterFinishing(left: set<Name>, seen: map<Name, Intent>): RPc {
    if left == {} then Noting(true) else Finishing(left, seen)
  }

  function AfterGivingUp(left: set<Name>, seen: map<Name, Intent>): RPc {
    if left == {} then Noting(false) else GivingUp(left, seen)
  }

  /** One transaction of one recoverer of the record with these participants. */
  function RNext(parts: map<Name, Part>, s: RSys, a: RAct): RSys {
    var pc := PcOf(s, a.who);
    match a
    case ReadParts(r) =>
      if !pc.Swept? then s
      else if s.dropped || parts == map[] then s.(dropped := true, pcs := s.pcs[r := Over(None)])
      else s.(pcs := s.pcs[r := Asking(parts.Keys, map[])])
    case Ask(r, n, pgnos) =>
      if pc.Asking? && n in pc.left && n in parts && QueryReads(RDb(s, n), parts[n], pgnos)
      then s.(pcs := s.pcs[r := AfterAsking(pc.left - {n}, pc.seen[n := QueryIntent(RDb(s, n), parts[n], pgnos)])])
      else s
    case Finish1(r, n) =>
      if pc.Finishing? && n in pc.left && n in pc.seen && n in parts
      then s.(dbs := s.dbs[n := ResolveBody(RDb(s, n), parts[n], pc.seen[n])],
              pcs := s.pcs[r := AfterFinishing(pc.left - {n}, pc.seen)])
      else s
    case Prevent1(r, n) =>
      if pc.GivingUp? && n in pc.left && n in pc.seen && n in parts
      then s.(dbs := s.dbs[n := PreventBody(RDb(s, n), parts[n], pc.seen[n])],
              pcs := s.pcs[r := AfterGivingUp(pc.left - {n}, pc.seen)])
      else s
    case Note(r) => if pc.Noting? then s.(pcs := s.pcs[r := Erasing(pc.commit)]) else s
    case Erase(r) => if pc.Erasing? then s.(dropped := true, pcs := s.pcs[r := Over(Some(pc.commit))]) else s
  }

  function RRun(parts: map<Name, Part>, dbs: map<Name, Db>, acts: seq<RAct>): RSys {
    if acts == [] then RSys(dbs, false, map[])
    else RNext(parts, RRun(parts, dbs, acts[..|acts| - 1]), acts[|acts| - 1])
  }

  /** Is this participant's intent there, or already resolved? */
  predicate IntentThere(db: Db, part: Part) {
    part.txid <= db.head || Rows(db.delta, part.txid) != map[]
  }

  /** The participants as some crash left them: no staged rows past one transaction's worth. */
  ghost predicate Found(parts: map<Name, Part>, dbs: map<Name, Db>) {
    parts.Keys <= dbs.Keys && forall n <- parts :: Fits(Rows(dbs[n].delta, parts[n].txid))
  }

  predicate AllThere(parts: map<Name, Part>, dbs: map<Name, Db>)
    requires parts.Keys <= dbs.Keys
  {
    forall n <- parts :: IntentThere(dbs[n], parts[n])
  }

  // ---- Every intent was there ----

  /** What the committer's own put_head would have made of a participant. */
  function Committed1(db: Db, part: Part): Db {
    if part.txid <= db.head then db
    else PutHead(db, part.txid, Rows(db.delta, part.txid).Keys, part.size, db.logn)
  }

  /** Equal rows, but for the page count of the log. */
  predicate SameButLog(a: Db, b: Db) {
    a.(logn := 0) == b.(logn := 0)
  }

  /** This participant already stands where the commit puts it. */
  ghost predicate Landed1(parts: map<Name, Part>, dbs: map<Name, Db>, s: RSys, n: Name) {
    n in parts && n in dbs && SameButLog(RDb(s, n), Committed1(dbs[n], parts[n]))
  }

  ghost predicate SawIntent(db0: Db, part: Part, intent: Intent) {
    && intent.present && db0.head <= intent.head
    && (part.txid > intent.head ==> intent.pgnos == Rows(db0.delta, part.txid).Keys)
  }

  ghost predicate Saw(parts: map<Name, Part>, dbs: map<Name, Db>, s: RSys, n: Name, intent: Intent) {
    && n in parts && n in dbs && SawIntent(dbs[n], parts[n], intent)
    && (parts[n].txid <= intent.head ==> Landed1(parts, dbs, s, n))
  }

  ghost predicate CommitPc(parts: map<Name, Part>, dbs: map<Name, Db>, s: RSys, pc: RPc) {
    match pc
    case Swept => true
    case Asking(left, seen) =>
      left + seen.Keys == parts.Keys && forall n <- seen :: Saw(parts, dbs, s, n, seen[n])
    case Finishing(left, seen) =>
      && left <= seen.Keys && seen.Keys == parts.Keys
      && (forall n <- seen :: Saw(parts, dbs, s, n, seen[n]))
      && (forall n <- parts :: n in left || Landed1(parts, dbs, s, n))
    case GivingUp(_, _) => false
    case Noting(commit) => commit && forall n <- parts :: Landed1(parts, dbs, s, n)
    case Erasing(commit) => commit && forall n <- parts :: Landed1(parts, dbs, s, n)
    case Over(decided) => decided.Some? ==> decided.value && forall n <- parts :: Landed1(parts, dbs, s, n)
  }

  ghost predicate CommitRows(parts: map<Name, Part>, dbs: map<Name, Db>, s: RSys) {
    forall n <- parts :: n in dbs && (SameButLog(RDb(s, n), dbs[n]) || Landed1(parts, dbs, s, n))
  }

  ghost predicate CommitInv(parts: map<Name, Part>, dbs: map<Name, Db>, s: RSys) {
    CommitRows(parts, dbs, s) && forall r: nat :: CommitPc(parts, dbs, s, PcOf(s, r))
  }

  lemma AskSaw(parts: map<Name, Part>, dbs: map<Name, Db>, s: RSys, n: Name, pgnos: set<nat>)
    requires Found(parts, dbs) && AllThere(parts, dbs) && CommitRows(parts, dbs, s)
    requires n in parts && QueryReads(RDb(s, n), parts[n], pgnos)
    ensures Saw(parts, dbs, s, n, QueryIntent(RDb(s, n), parts[n], pgnos))
  {
    assert Fits(Rows(dbs[n].delta, parts[n].txid)) && IntentThere(dbs[n], parts[n]);
    assert RDb(s, n).delta == dbs[n].delta;
  }

  /** Resolving from the record commits a participant, and commits it again just the same. */
  lemma FinishCommits(db0: Db, part: Part, db: Db, intent: Intent)
    requires SawIntent(db0, part, intent)
    requires SameButLog(db, db0) || SameButLog(db, Committed1(db0, part))
    requires part.txid <= intent.head ==> SameButLog(db, Committed1(db0, part))
    ensures SameButLog(ResolveBody(db, part, intent), Committed1(db0, part))
  {
    if part.txid > intent.head {
      var moved := map p | p in Rows(db0.delta, part.txid).Keys :: part.txid;
      LaidTwice(db0.pidx, moved);
    }
  }

  lemma LaidTwice(pidx: map<nat, nat>, moved: map<nat, nat>)
    ensures pidx + moved + moved == pidx + moved
  {
  }

  lemma PcKept(parts: map<Name, Part>, dbs: map<Name, Db>, s: RSys, t: RSys, pc: RPc)
    requires CommitPc(parts, dbs, s, pc)
    requires forall n: Name :: Landed1(parts, dbs, s, n) ==> Landed1(parts, dbs, t, n)
    ensures CommitPc(parts, dbs, t, pc)
  {
    hide Landed1, SawIntent;
  }

  lemma FinishMoves(parts: map<Name, Part>, dbs: map<Name, Db>, s: RSys, r: nat, n: Name, t: RSys)
    requires CommitInv(parts, dbs, s) && t == RNext(parts, s, Finish1(r, n)) && t != s
    ensures Landed1(parts, dbs, t, n)
    ensures forall m: Name :: m != n ==> RDb(t, m) == RDb(s, m)
  {
    var pc := PcOf(s, r);
    assert CommitPc(parts, dbs, s, pc);
    assert Saw(parts, dbs, s, n, pc.seen[n]);
    FinishCommits(dbs[n], parts[n], RDb(s, n), pc.seen[n]);
  }

  /** Rows only ever move toward the commit. */
  lemma RowsKept(parts: map<Name, Part>, dbs: map<Name, Db>, s: RSys, a: RAct, t: RSys)
    requires CommitInv(parts, dbs, s) && t == RNext(parts, s, a)
    ensures CommitRows(parts, dbs, t)
    ensures forall m: Name :: Landed1(parts, dbs, s, m) ==> Landed1(parts, dbs, t, m)
    ensures a.Finish1? && t != s ==> Landed1(parts, dbs, t, a.name)
  {
    assert CommitPc(parts, dbs, s, PcOf(s, a.who));
    if a.Finish1? && t != s {
      FinishMoves(parts, dbs, s, a.who, a.name, t);
      RowsFollow(parts, dbs, s, a.name, t);
    } else {
      NoRowMoves(parts, dbs, s, a, t);
    }
  }

  lemma RowsFollow(parts: map<Name, Part>, dbs: map<Name, Db>, s: RSys, n: Name, t: RSys)
    requires CommitRows(parts, dbs, s) && Landed1(parts, dbs, t, n) && forall m: Name :: m != n ==>
      RDb(t, m) == RDb(s, m)
    ensures CommitRows(parts, dbs, t) && forall m: Name :: Landed1(parts, dbs, s, m) ==> Landed1(parts, dbs, t, m)
  {
    hide SameButLog, Committed1, RDb;
    forall m: Name | Landed1(parts, dbs, s, m) ensures Landed1(parts, dbs, t, m) {
      if m != n { assert RDb(t, m) == RDb(s, m); }
    }
    forall m <- parts ensures m in dbs && (SameButLog(RDb(t, m), dbs[m]) || Landed1(parts, dbs, t, m)) {
      if m != n { assert RDb(t, m) == RDb(s, m); }
    }
  }

  /** As long as somebody is committing, only a resolve changes a database. */
  lemma NoRowMoves(parts: map<Name, Part>, dbs: map<Name, Db>, s: RSys, a: RAct, t: RSys)
    requires CommitInv(parts, dbs, s) && t == RNext(parts, s, a) && !(a.Finish1? && t != s)
    ensures CommitRows(parts, dbs, t)
    ensures forall m: Name :: Landed1(parts, dbs, s, m) ==> Landed1(parts, dbs, t, m)
  {
    assert CommitPc(parts, dbs, s, PcOf(s, a.who));
    assert t.dbs == s.dbs;
    hide SameButLog, Committed1, CommitPc, RNext;
    forall m: Name ensures RDb(t, m) == RDb(s, m) { }
  }

  lemma CommitKept(parts: map<Name, Part>, dbs: map<Name, Db>, s: RSys, a: RAct, t: RSys)
    requires Found(parts, dbs) && AllThere(parts, dbs) && CommitInv(parts, dbs, s) && t == RNext(parts, s, a)
    ensures CommitInv(parts, dbs, t)
  {
    RowsKept(parts, dbs, s, a, t);
    if a.Ask? && t != s {
      AskSaw(parts, dbs, s, a.name, a.pgnos);
    }
    hide Landed1, CommitRows, Found, AllThere, QueryReads, QueryIntent, ResolveBody, PreventBody, SawIntent, CommitPc,
         RNext;
    forall r: nat
      ensures CommitPc(parts, dbs, t, PcOf(t, r))
    {
      assert CommitPc(parts, dbs, s, PcOf(s, r));
      if r != a.who || t == s {
        OthersStay(parts, s, a, t, r);
        PcKept(parts, dbs, s, t, PcOf(s, r));
      } else {
        OwnPcKept(parts, dbs, s, a, t);
      }
    }
  }

  lemma OthersStay(parts: map<Name, Part>, s: RSys, a: RAct, t: RSys, r: nat)
    requires t == RNext(parts, s, a) && (r != a.who || t == s)
    ensures PcOf(t, r) == PcOf(s, r)
  {
    hide QueryReads, QueryIntent, ResolveBody, PreventBody;
  }

  /** The recoverer that just moved knows what it needs to know. */
  lemma OwnPcKept(parts: map<Name, Part>, dbs: map<Name, Db>, s: RSys, a: RAct, t: RSys)
    requires t == RNext(parts, s, a) && t != s && CommitPc(parts, dbs, s, PcOf(s, a.who))
    requires forall m: Name :: Landed1(parts, dbs, s, m) ==> Landed1(parts, dbs, t, m)
    requires a.Finish1? ==> Landed1(parts, dbs, t, a.name)
    requires a.Ask? ==>
      a.name in parts && Saw(parts, dbs, s, a.name, QueryIntent(RDb(s, a.name), parts[a.name], a.pgnos))
    ensures CommitPc(parts, dbs, t, PcOf(t, a.who))
  {
    hide Landed1, QueryReads, QueryIntent, ResolveBody, PreventBody;
    var pc := PcOf(s, a.who);
    PcKept(parts, dbs, s, t, pc);
    match a
    case Ask(r, n, pgnos) =>
      AskedPcKept(parts, dbs, t, pc, n, QueryIntent(RDb(s, n), parts[n], pgnos));
    case ReadParts(r) =>
      var none: map<Name, Intent> := map[];
      assert parts.Keys + none.Keys == parts.Keys;
    case Finish1(r, n) => FinishedPcKept(parts, dbs, t, pc, n);
    case Prevent1(r, n) =>
    case Note(r) => assert PcOf(t, r) == Erasing(pc.commit);
    case Erase(r) => assert PcOf(t, r) == Over(Some(pc.commit));
  }

  lemma FinishedPcKept(parts: map<Name, Part>, dbs: map<Name, Db>, t: RSys, pc: RPc, n: Name)
    requires pc.Finishing? && CommitPc(parts, dbs, t, pc) && n in pc.left && Landed1(parts, dbs, t, n)
    ensures CommitPc(parts, dbs, t, AfterFinishing(pc.left - {n}, pc.seen))
  {
    hide Landed1;
    assert forall m <- parts :: m in pc.left - {n} || Landed1(parts, dbs, t, m);
  }

  lemma AskedPcKept(parts: map<Name, Part>, dbs: map<Name, Db>, t: RSys, pc: RPc, n: Name, intent: Intent)
    requires pc.Asking? && CommitPc(parts, dbs, t, pc) && n in pc.left && Saw(parts, dbs, t, n, intent)
    ensures CommitPc(parts, dbs, t, AfterAsking(pc.left - {n}, pc.seen[n := intent]))
  {
    hide Landed1;
    var left, seen := pc.left - {n}, pc.seen[n := intent];
    assert left + seen.Keys == parts.Keys;
    assert forall m <- seen :: Saw(parts, dbs, t, m, seen[m]);
    assert forall m <- seen :: seen[m].present;
  }

  lemma {:induction false} CommitRuns(parts: map<Name, Part>, dbs: map<Name, Db>, acts: seq<RAct>)
    requires Found(parts, dbs) && AllThere(parts, dbs)
    ensures CommitInv(parts, dbs, RRun(parts, dbs, acts))
  {
    if acts != [] {
      var s := RRun(parts, dbs, acts[..|acts| - 1]);
      CommitRuns(parts, dbs, acts[..|acts| - 1]);
      hide CommitInv, Found, AllThere, RNext;
      CommitKept(parts, dbs, s, acts[|acts| - 1], RNext(parts, s, acts[|acts| - 1]));
    }
  }

  // ---- Some intent was missing ----

  /** Giving up changes only the fence and the staged rows. */
  ghost predicate GivenUp(db0: Db, part: Part, db: Db) {
    && db.(fence := 0, delta := map[]) == db0.(fence := 0, delta := map[])
    && db0.fence <= db.fence
    && (db.delta == db0.delta || db.delta == db0.delta - {part.txid})
  }

  ghost predicate Cleared(parts: map<Name, Part>, s: RSys, n: Name) {
    n in parts && Rows(RDb(s, n).delta, parts[n].txid) == map[]
  }

  /** The fence of the participant that was missing has gone up: nobody who owned it owns it now. */
  ghost predicate Fenced(was: Db, s: RSys, missing: Name) {
    RDb(s, missing).fence > was.fence
  }

  ghost predicate AbortPc(parts: map<Name, Part>, missing: Name, was: Db, s: RSys, pc: RPc) {
    match pc
    case Swept => true
    case Asking(left, seen) =>
      left + seen.Keys == parts.Keys && (missing in left || (missing in seen && !seen[missing].present))
    case Finishing(_, _) => false
    case GivingUp(left, seen) =>
      && left <= parts.Keys && missing in seen && !seen[missing].present
      && (missing in left || Fenced(was, s, missing))
      && forall n <- parts :: n in left || Cleared(parts, s, n)
    case Noting(commit) => !commit && Fenced(was, s, missing) && forall n <- parts :: Cleared(parts, s, n)
    case Erasing(commit) => !commit && Fenced(was, s, missing) && forall n <- parts :: Cleared(parts, s, n)
    case Over(decided) =>
      decided.Some? ==> !decided.value && Fenced(was, s, missing) && forall n <- parts :: Cleared(parts, s, n)
  }

  ghost predicate AbortInv(parts: map<Name, Part>, dbs: map<Name, Db>, missing: Name, s: RSys)
    requires missing in dbs
  {
    && (forall n <- parts :: n in dbs && GivenUp(dbs[n], parts[n], RDb(s, n)))
    && forall r: nat :: AbortPc(parts, missing, dbs[missing], s, PcOf(s, r))
  }

  /** Rows only ever move toward giving up, and fences only up. */
  lemma AbortRowsKept(parts: map<Name, Part>, dbs: map<Name, Db>, missing: Name, s: RSys, a: RAct, t: RSys)
    requires missing in dbs && AbortInv(parts, dbs, missing, s) && t == RNext(parts, s, a)
    ensures forall n <- parts :: n in dbs && GivenUp(dbs[n], parts[n], RDb(t, n))
    ensures forall n: Name :: Cleared(parts, s, n) ==> Cleared(parts, t, n)
    ensures forall n: Name :: RDb(s, n).fence <= RDb(t, n).fence
    ensures a.Prevent1? && t != s ==> Cleared(parts, t, a.name)
    ensures a.Prevent1? && t != s && a.name == missing ==> Fenced(dbs[missing], t, missing)
  {
    assert AbortPc(parts, missing, dbs[missing], s, PcOf(s, a.who));
    if a.Prevent1? && t != s {
      PreventMoves(parts, s, a.who, a.name, t);
      PreventGivesUp(dbs[a.name], parts[a.name], RDb(s, a.name), PcOf(s, a.who).seen[a.name]);
    } else {
      OnlyPreventMoves(parts, s, a, t);
    }
  }

  lemma PreventMoves(parts: map<Name, Part>, s: RSys, r: nat, n: Name, t: RSys)
    requires t == RNext(parts, s, Prevent1(r, n)) && t != s
    ensures PcOf(s, r).GivingUp? && n in PcOf(s, r).left && n in PcOf(s, r).seen && n in parts
    ensures RDb(t, n) == PreventBody(RDb(s, n), parts[n], PcOf(s, r).seen[n])
    ensures PcOf(t, r) == AfterGivingUp(PcOf(s, r).left - {n}, PcOf(s, r).seen)
    ensures forall m: Name :: m != n ==> RDb(t, m) == RDb(s, m)
  {
  }

  lemma OnlyPreventMoves(parts: map<Name, Part>, s: RSys, a: RAct, t: RSys)
    requires t == RNext(parts, s, a) && !PcOf(s, a.who).Finishing? && (a.Prevent1? ==> t == s)
    ensures forall m: Name :: RDb(t, m) == RDb(s, m)
  {
    hide QueryReads, QueryIntent;
  }

  lemma PreventGivesUp(db0: Db, part: Part, db: Db, intent: Intent)
    requires GivenUp(db0, part, db)
    ensures GivenUp(db0, part, PreventBody(db, part, intent)) && db.fence <= PreventBody(db, part, intent).fence
  {
    assert db0.delta - {part.txid} - {part.txid} == db0.delta - {part.txid};
  }

  lemma StaysMissing(db0: Db, part: Part, db: Db)
    requires !IntentThere(db0, part) && GivenUp(db0, part, db)
    ensures !IntentThere(db, part)
  {
  }

  lemma AbortPcFrame(parts: map<Name, Part>, missing: Name, was: Db, s: RSys, t: RSys, pc: RPc)
    requires AbortPc(parts, missing, was, s, pc)
    requires forall n: Name :: Cleared(parts, s, n) ==> Cleared(parts, t, n)
    requires Fenced(was, s, missing) ==> Fenced(was, t, missing)
    ensures AbortPc(parts, missing, was, t, pc)
  {
    hide Cleared, Fenced;
  }

  lemma AbortOwnPc(parts: map<Name, Part>, missing: Name, was: Db, s: RSys, a: RAct, t: RSys)
    requires missing in parts && !IntentThere(RDb(s, missing), parts[missing]) && t == RNext(parts, s, a) && t != s
    requires AbortPc(parts, missing, was, s, PcOf(s, a.who)) && AbortPc(parts, missing, was, t, PcOf(s, a.who))
    requires a.Prevent1? ==> Cleared(parts, t, a.name)
    requires a.Prevent1? && a.name == missing ==> Fenced(was, t, missing)
    ensures AbortPc(parts, missing, was, t, PcOf(t, a.who))
  {
    hide QueryReads, ResolveBody, PreventBody, Cleared, Fenced;
    var pc := PcOf(s, a.who);
    match a
    case Ask(_, n, pgnos) =>
      var seen := pc.seen[n := QueryIntent(RDb(s, n), parts[n], pgnos)];
      assert pc.left - {n} + seen.Keys == parts.Keys;
      assert missing in pc.left - {n} || (missing in seen && !seen[missing].present);
    case ReadParts(_) =>
      var none: map<Name, Intent> := map[];
      assert parts.Keys + none.Keys == parts.Keys;
    case Finish1(_, n) =>
    case Prevent1(_, n) => assert forall m <- parts :: m in pc.left - {n} || Cleared(parts, t, m);
    case Note(_) =>
    case Erase(_) =>
  }

  lemma AbortKept(parts: map<Name, Part>, dbs: map<Name, Db>, missing: Name, s: RSys, a: RAct, t: RSys)
    requires missing in parts && missing in dbs && !IntentThere(dbs[missing], parts[missing])
    requires AbortInv(parts, dbs, missing, s) && t == RNext(parts, s, a)
    ensures AbortInv(parts, dbs, missing, t)
  {
    AbortRowsKept(parts, dbs, missing, s, a, t);
    StaysMissing(dbs[missing], parts[missing], RDb(s, missing));
    assert Fenced(dbs[missing], s, missing) ==> Fenced(dbs[missing], t, missing);
    hide GivenUp, AbortPc, IntentThere, Cleared, RNext, Fenced;
    forall r: nat
      ensures AbortPc(parts, missing, dbs[missing], t, PcOf(t, r))
    {
      AbortPcFrame(parts, missing, dbs[missing], s, t, PcOf(s, r));
      if r == a.who && t != s {
        AbortOwnPc(parts, missing, dbs[missing], s, a, t);
      } else {
        OthersStay(parts, s, a, t, r);
      }
    }
  }

  lemma {:induction false} AbortRuns(parts: map<Name, Part>, dbs: map<Name, Db>, missing: Name, acts: seq<RAct>)
    requires parts.Keys <= dbs.Keys && missing in parts && !IntentThere(dbs[missing], parts[missing])
    ensures AbortInv(parts, dbs, missing, RRun(parts, dbs, acts))
  {
    if acts != [] {
      AbortRuns(parts, dbs, missing, acts[..|acts| - 1]);
      AbortKept(parts, dbs, missing, RRun(parts, dbs, acts[..|acts| - 1]), acts[|acts| - 1], RRun(parts, dbs, acts));
    }
  }

  // ---- One decision ----

  /** Has this recoverer taken a decision, and which? */
  function Decision(pc: RPc): Option<bool> {
    match pc
    case Swept => None
    case Asking(_, _) => None
    case Finishing(_, _) => Some(true)
    case GivingUp(_, _) => Some(false)
    case Noting(commit) => Some(commit)
    case Erasing(commit) => Some(commit)
    case Over(decided) => decided
  }

  /**
   Recoverers converge. Every recoverer that decides takes the same decision: commit
   exactly when every intent was there at the start. Once any of them is through, the
   participants stand exactly where the committer's own head transaction would have put
   them, LOGN excepted; or, when an intent was missing, no head, index, size or base row
   has moved, the staged rows are gone, and no handle that owned a participant whose intent
   was missing owns it any more, so the write that was not found can never land.
  */
  lemma RecoverersConverge(parts: map<Name, Part>, dbs: map<Name, Db>, acts: seq<RAct>, r: nat)
    requires Found(parts, dbs)
    ensures var s := RRun(parts, dbs, acts);
            var pc := PcOf(s, r);
            && (Decision(pc).Some? ==> Decision(pc).value == AllThere(parts, dbs))
            && (pc == Over(Some(true)) ==>
                  forall n <- parts :: SameButLog(RDb(s, n), Committed1(dbs[n], parts[n])))
            && (pc == Over(Some(false)) ==>
                  forall n <- parts ::
                    GivenUp(dbs[n], parts[n], RDb(s, n)) && Rows(RDb(s, n).delta, parts[n].txid) == map[])
            && (pc == Over(Some(false)) ==>
                  forall n <- parts, h: Handle ::
                    !IntentThere(dbs[n], parts[n]) && Owns(dbs[n], h) ==> !Owns(RDb(s, n), h))
  {
    hide RRun, SameButLog, Committed1, GivenUp, AllThere, IntentThere, RDb, CommitRows, CommitPc, AbortPc;
    var s := RRun(parts, dbs, acts);
    if AllThere(parts, dbs) {
      CommitRuns(parts, dbs, acts);
      CommitDecides(parts, dbs, s, PcOf(s, r));
    } else {
      var missing := SomeMissing(parts, dbs);
      AbortRuns(parts, dbs, missing, acts);
      AbortDecides(parts, missing, dbs[missing], s, PcOf(s, r));
      forall n <- parts | !IntentThere(dbs[n], parts[n])
        ensures PcOf(s, r) == Over(Some(false)) ==> Fenced(dbs[n], s, n)
      {
        AbortRuns(parts, dbs, n, acts);
        AbortDecides(parts, n, dbs[n], s, PcOf(s, r));
      }
    }
  }

  lemma SomeMissing(parts: map<Name, Part>, dbs: map<Name, Db>) returns (missing: Name)
    requires Found(parts, dbs) && !AllThere(parts, dbs)
    ensures missing in parts && missing in dbs && !IntentThere(dbs[missing], parts[missing])
  {
    missing :| missing in parts && !IntentThere(dbs[missing], parts[missing]);
  }

  lemma CommitDecides(parts: map<Name, Part>, dbs: map<Name, Db>, s: RSys, pc: RPc)
    requires CommitPc(parts, dbs, s, pc)
    ensures Decision(pc).Some? ==> Decision(pc).value
    ensures pc == Over(Some(true)) ==>
      forall n <- parts :: n in dbs && SameButLog(RDb(s, n), Committed1(dbs[n], parts[n]))
  {
    hide SameButLog, Committed1, SawIntent;
  }

  lemma AbortDecides(parts: map<Name, Part>, missing: Name, was: Db, s: RSys, pc: RPc)
    requires AbortPc(parts, missing, was, s, pc)
    ensures pc == Over(Some(false)) ==> Fenced(was, s, missing)
    ensures Decision(pc).Some? ==> !Decision(pc).value
    ensures pc == Over(Some(false)) ==> forall n <- parts :: Rows(RDb(s, n).delta, parts[n].txid) == map[]
  {
  }

  // ---- When the fence of a healthy participant moves ----

  /** Did action k do anything? */
  predicate Did(parts: map<Name, Part>, dbs: map<Name, Db>, acts: seq<RAct>, k: nat)
    requires k < |acts|
  {
    RRun(parts, dbs, acts[..k + 1]) != RRun(parts, dbs, acts[..k])
  }

  /** Somebody gave this participant up before action k. */
  ghost predicate GaveUp(parts: map<Name, Part>, dbs: map<Name, Db>, acts: seq<RAct>, n: Name, k: nat) {
    exists i: nat :: i < k && i < |acts| && acts[i].Prevent1? && acts[i].name == n && Did(parts, dbs, acts, i)
  }

  /** Before action k, recoverer r asked about this participant, and too late: it had been given up. */
  ghost predicate AskedLate(parts: map<Name, Part>, dbs: map<Name, Db>, acts: seq<RAct>, n: Name, r: nat, k: nat) {
    exists j: nat :: j < k && j < |acts| && acts[j].Ask? && acts[j].who == r && acts[j].name == n
      && Did(parts, dbs, acts, j) && GaveUp(parts, dbs, acts, n, j)
  }

  /** Before action k, a recoverer that had asked too late gave the participant up once more. */
  ghost predicate GaveUpLate(parts: map<Name, Part>, dbs: map<Name, Db>, acts: seq<RAct>, n: Name, k: nat) {
    exists i: nat :: i < k && i < |acts| && acts[i].Prevent1? && acts[i].name == n
      && Did(parts, dbs, acts, i) && AskedLate(parts, dbs, acts, n, acts[i].who, i)
  }

  lemma GaveUpNext(parts: map<Name, Part>, dbs: map<Name, Db>, acts: seq<RAct>, n: Name, k: nat)
    requires k < |acts|
    ensures GaveUp(parts, dbs, acts, n, k + 1) <==>
      GaveUp(parts, dbs, acts, n, k) || (acts[k].Prevent1? && acts[k].name == n && Did(parts, dbs, acts, k))
  {
    hide Did;
  }

  lemma AskedLateNext(parts: map<Name, Part>, dbs: map<Name, Db>, acts: seq<RAct>, n: Name, r: nat, k: nat)
    requires k < |acts|
    ensures AskedLate(parts, dbs, acts, n, r, k + 1) <==>
      || AskedLate(parts, dbs, acts, n, r, k)
      || (acts[k].Ask? && acts[k].who == r && acts[k].name == n && Did(parts, dbs, acts, k)
          && GaveUp(parts, dbs, acts, n, k))
  {
    hide Did, GaveUp;
  }

  lemma GaveUpLateNext(parts: map<Name, Part>, dbs: map<Name, Db>, acts: seq<RAct>, n: Name, k: nat)
    requires k < |acts|
    ensures GaveUpLate(parts, dbs, acts, n, k + 1) <==>
      || GaveUpLate(parts, dbs, acts, n, k)
      || (acts[k].Prevent1? && acts[k].name == n && Did(parts, dbs, acts, k)
          && AskedLate(parts, dbs, acts, n, acts[k].who, k))
  {
    hide Did, AskedLate;
  }

  /** A recoverer saw this participant missing exactly if it asked too late. */
  ghost predicate KnowsWhen(pc: RPc, n: Name, late: bool) {
    match pc
    case Swept => !late
    case Asking(left, seen) => if n in seen then seen[n].present <==> !late else !late
    case GivingUp(left, seen) => n in left ==> n in seen && (seen[n].present <==> !late)
    case _ => true
  }

  /** Where a participant stands whose staged rows were there at the start. */
  ghost predicate HealthyInv(parts: map<Name, Part>, dbs: map<Name, Db>, acts: seq<RAct>, n: Name, k: nat, s: RSys)
    requires n in parts && n in dbs
  {
    && (forall r: nat :: KnowsWhen(PcOf(s, r), n, AskedLate(parts, dbs, acts, n, r, k)))
    && (Rows(RDb(s, n).delta, parts[n].txid) == map[] <==> GaveUp(parts, dbs, acts, n, k))
    && (RDb(s, n).fence > dbs[n].fence <==> GaveUpLate(parts, dbs, acts, n, k))
  }

  lemma AskMoves(parts: map<Name, Part>, s: RSys, r: nat, n: Name, pgnos: set<nat>, t: RSys)
    requires t == RNext(parts, s, Ask(r, n, pgnos)) && t != s
    ensures PcOf(s, r).Asking? && n in PcOf(s, r).left && n in parts
    ensures PcOf(t, r) ==
      AfterAsking(PcOf(s, r).left - {n}, PcOf(s, r).seen[n := QueryIntent(RDb(s, n), parts[n], pgnos)])
  {
  }

  /** The recoverer that moved knows when it asked; every other knows what it knew. */
  lemma KnowsWhenKept(parts: map<Name, Part>, n: Name, s: RSys, a: RAct, t: RSys, was: bool, now: bool)
    requires t == RNext(parts, s, a) && t != s && n in parts && KnowsWhen(PcOf(s, a.who), n, was)
    requires !PcOf(s, a.who).Finishing? && !PcOf(t, a.who).Finishing?
    requires (PcOf(s, a.who).Asking? ==> PcOf(s, a.who).left !! PcOf(s, a.who).seen.Keys)
    requires if a.Ask? && a.name == n
             then now <==> was || Rows(RDb(s, n).delta, parts[n].txid) == map[]
             else now <==> was
    requires parts[n].txid > RDb(s, n).head
    ensures KnowsWhen(PcOf(t, a.who), n, now)
  {
    hide QueryReads, PreventBody, ResolveBody;
    match a
    case Ask(r, m, pgnos) => AskMoves(parts, s, r, m, pgnos, t);
    case Prevent1(r, m) => PreventMoves(parts, s, r, m, t);
    case _ =>
  }

  /** While it asks, a recoverer has not yet seen whom it has still to ask. */
  ghost predicate AsksOnce(s: RSys) {
    forall r: nat :: PcOf(s, r).Asking? ==> PcOf(s, r).left !! PcOf(s, r).seen.Keys
  }

  lemma {:induction false} EachAsksOnce(parts: map<Name, Part>, dbs: map<Name, Db>, acts: seq<RAct>)
    ensures AsksOnce(RRun(parts, dbs, acts))
  {
    if acts != [] {
      var pre, a := acts[..|acts| - 1], acts[|acts| - 1];
      EachAsksOnce(parts, dbs, pre);
      var s, t := RRun(parts, dbs, pre), RRun(parts, dbs, acts);
      hide RRun, QueryReads, QueryIntent;
      forall r: nat | PcOf(t, r).Asking?
        ensures PcOf(t, r).left !! PcOf(t, r).seen.Keys
      {
        assert PcOf(s, r).Asking? ==> PcOf(s, r).left !! PcOf(s, r).seen.Keys;
      }
    }
  }

  /** One more action, as far as the rows and the fence go. */
  lemma HealthyRowsKept(parts: map<Name, Part>, n: Name, s: RSys, a: RAct, t: RSys, gave: bool, late: bool, fence: nat,
                        asked: bool)
    requires n in parts && t == RNext(parts, s, a) && !PcOf(s, a.who).Finishing?
    requires KnowsWhen(PcOf(s, a.who), n, asked) && RDb(s, n).fence >= fence
    requires Rows(RDb(s, n).delta, parts[n].txid) == map[] <==> gave
    requires RDb(s, n).fence > fence <==> late
    ensures var prevented := a.Prevent1? && a.name == n && t != s;
      && (Rows(RDb(t, n).delta, parts[n].txid) == map[] <==> gave || prevented)
      && (RDb(t, n).fence > fence <==> late || (prevented && asked))
  {
    hide RNext, RDb;
    if a.Prevent1? && t != s {
      PreventMoves(parts, s, a.who, a.name, t);
    } else {
      OnlyPreventMoves(parts, s, a, t);
    }
  }

  /** What the recoverers know after one more action. */
  lemma HealthyPcsKept(parts: map<Name, Part>, dbs: map<Name, Db>, acts: seq<RAct>, n: Name, k: nat, s: RSys, t: RSys)
    requires n in parts && n in dbs && k < |acts| && t == RNext(parts, s, acts[k]) && AsksOnce(s)
    requires Did(parts, dbs, acts, k) <==> t != s
    requires !PcOf(s, acts[k].who).Finishing? && !PcOf(t, acts[k].who).Finishing?
    requires parts[n].txid > RDb(s, n).head && HealthyInv(parts, dbs, acts, n, k, s)
    ensures forall r: nat :: KnowsWhen(PcOf(t, r), n, AskedLate(parts, dbs, acts, n, r, k + 1))
  {
    var a := acts[k];
    assert PcOf(s, a.who).Asking? ==> PcOf(s, a.who).left !! PcOf(s, a.who).seen.Keys;
    hide Did, GaveUp, AskedLate, GaveUpLate, RNext, AsksOnce, KnowsWhen, PcOf, RDb, Rows;
    forall r: nat
      ensures KnowsWhen(PcOf(t, r), n, AskedLate(parts, dbs, acts, n, r, k + 1))
    {
      AskedLateNext(parts, dbs, acts, n, r, k);
      assert KnowsWhen(PcOf(s, r), n, AskedLate(parts, dbs, acts, n, r, k));
      if r == a.who && t != s {
        KnowsWhenKept(parts, n, s, a, t, AskedLate(parts, dbs, acts, n, r, k),
          AskedLate(parts, dbs, acts, n, r, k + 1));
      } else {
        OthersStay(parts, s, a, t, r);
      }
    }
  }

  /** What giving up elsewhere leaves of this participant. */
  lemma AbortLeaves(parts: map<Name, Part>, dbs: map<Name, Db>, missing: Name, s: RSys, n: Name, r: nat)
    requires missing in dbs && AbortInv(parts, dbs, missing, s) && n in parts
    ensures n in dbs && RDb(s, n).head == dbs[n].head && RDb(s, n).fence >= dbs[n].fence && !PcOf(s, r).Finishing?
  {
    assert AbortPc(parts, missing, dbs[missing], s, PcOf(s, r));
    assert GivenUp(dbs[n], parts[n], RDb(s, n));
    assert RDb(s, n).(fence := 0, delta := map[]).head == dbs[n].(fence := 0, delta := map[]).head;
  }

  /** One more action. */
  lemma HealthyKept(parts: map<Name, Part>, dbs: map<Name, Db>, missing: Name, acts: seq<RAct>, n: Name, k: nat,
                    s: RSys, t: RSys)
    requires n in parts && n in dbs && missing in dbs && k < |acts|
    requires s == RRun(parts, dbs, acts[..k]) && t == RRun(parts, dbs, acts[..k + 1]) && t == RNext(parts, s, acts[k])
    requires AbortInv(parts, dbs, missing, s) && AbortInv(parts, dbs, missing, t) && AsksOnce(s)
    requires parts[n].txid > dbs[n].head && HealthyInv(parts, dbs, acts, n, k, s)
    ensures HealthyInv(parts, dbs, acts, n, k + 1, t)
  {
    var a := acts[k];
    assert Did(parts, dbs, acts, k) <==> t != s;
    hide Did, GaveUp, AskedLate, GaveUpLate, AbortInv, RRun, RNext, AsksOnce, KnowsWhen, PcOf, RDb, Rows;
    AbortLeaves(parts, dbs, missing, s, n, a.who);
    AbortLeaves(parts, dbs, missing, t, n, a.who);
    HealthyPcsKept(parts, dbs, acts, n, k, s, t);
    assert KnowsWhen(PcOf(s, a.who), n, AskedLate(parts, dbs, acts, n, a.who, k));
    HealthyRowsKept(parts, n, s, a, t, GaveUp(parts, dbs, acts, n, k), GaveUpLate(parts, dbs, acts, n, k), dbs[n].fence,
      AskedLate(parts, dbs, acts, n, a.who, k));
    GaveUpNext(parts, dbs, acts, n, k);
    GaveUpLateNext(parts, dbs, acts, n, k);
  }

  lemma {:induction false} HealthyRuns(parts: map<Name, Part>, dbs: map<Name, Db>, missing: Name, acts: seq<RAct>,
                                       n: Name, k: nat)
    requires parts.Keys <= dbs.Keys && missing in parts && !IntentThere(dbs[missing], parts[missing])
    requires n in parts && IntentThere(dbs[n], parts[n]) && parts[n].txid > dbs[n].head && k <= |acts|
    ensures HealthyInv(parts, dbs, acts, n, k, RRun(parts, dbs, acts[..k]))
  {
    if k == 0 {
      assert acts[..0] == [];
    } else {
      HealthyRuns(parts, dbs, missing, acts, n, k - 1);
      AbortRuns(parts, dbs, missing, acts[..k - 1]);
      AbortRuns(parts, dbs, missing, acts[..k]);
      EachAsksOnce(parts, dbs, acts[..k - 1]);
      assert acts[..k][..k - 1] == acts[..k - 1] && acts[..k][k - 1] == acts[k - 1];
      var s, t := RRun(parts, dbs, acts[..k - 1]), RRun(parts, dbs, acts[..k]);
      assert t == RNext(parts, s, acts[k - 1]);
      hide HealthyInv, AbortInv, AsksOnce, RRun, RNext;
      HealthyKept(parts, dbs, missing, acts, n, k - 1, s, t);
    }
  }

  /** Where everything was there, nobody gives anything up. */
  lemma NobodyGivesUp(parts: map<Name, Part>, dbs: map<Name, Db>, acts: seq<RAct>, n: Name, k: nat)
    requires Found(parts, dbs) && AllThere(parts, dbs) && n in parts
    ensures RDb(RRun(parts, dbs, acts), n).fence == dbs[n].fence
    ensures !GaveUpLate(parts, dbs, acts, n, k)
  {
    CommitRuns(parts, dbs, acts);
    forall i: nat | i < |acts| && acts[i].Prevent1?
      ensures !Did(parts, dbs, acts, i)
    {
      CommitRuns(parts, dbs, acts[..i]);
      assert CommitPc(parts, dbs, RRun(parts, dbs, acts[..i]), PcOf(RRun(parts, dbs, acts[..i]), acts[i].who));
      assert acts[..i + 1][..i] == acts[..i];
    }
    FenceStands(parts, dbs, RRun(parts, dbs, acts), n);
    hide Did, AskedLate;
  }

  lemma FenceStands(parts: map<Name, Part>, dbs: map<Name, Db>, s: RSys, n: Name)
    requires CommitInv(parts, dbs, s) && n in parts && n in dbs
    ensures RDb(s, n).fence == dbs[n].fence
  {
    assert SameButLog(RDb(s, n), dbs[n]) || SameButLog(RDb(s, n), Committed1(dbs[n], parts[n]));
    assert RDb(s, n).(logn := 0).fence == RDb(s, n).fence;
  }

  /** Whoever asks about a participant that wrote nothing finds its intent there. */
  ghost predicate IdleInv(parts: map<Name, Part>, n: Name, fence: nat, s: RSys) {
    && RDb(s, n).fence == fence
    && forall r: nat :: (PcOf(s, r).Asking? || PcOf(s, r).GivingUp?) && n in PcOf(s, r).seen ==>
         PcOf(s, r).seen[n].present
  }

  lemma IdleKept(parts: map<Name, Part>, n: Name, fence: nat, s: RSys, a: RAct, t: RSys)
    requires n in parts && parts[n].txid <= RDb(s, n).head && IdleInv(parts, n, fence, s) && t == RNext(parts, s, a)
    requires !PcOf(s, a.who).Finishing?
    ensures IdleInv(parts, n, fence, t)
  {
    hide RDb, PcOf, RNext, QueryReads;
    if a.Prevent1? && t != s {
      PreventMoves(parts, s, a.who, a.name, t);
    } else {
      OnlyPreventMoves(parts, s, a, t);
    }
    forall r: nat | (PcOf(t, r).Asking? || PcOf(t, r).GivingUp?) && n in PcOf(t, r).seen
      ensures PcOf(t, r).seen[n].present
    {
      if r != a.who || t == s {
        OthersStay(parts, s, a, t, r);
      } else {
        IdleOwn(parts, n, s, a, t);
      }
    }
  }

  lemma IdleOwn(parts: map<Name, Part>, n: Name, s: RSys, a: RAct, t: RSys)
    requires n in parts && parts[n].txid <= RDb(s, n).head && t == RNext(parts, s, a) && t != s
    requires (PcOf(s, a.who).Asking? || PcOf(s, a.who).GivingUp?) && n in PcOf(s, a.who).seen ==>
      PcOf(s, a.who).seen[n].present
    ensures (PcOf(t, a.who).Asking? || PcOf(t, a.who).GivingUp?) && n in PcOf(t, a.who).seen ==>
      PcOf(t, a.who).seen[n].present
  {
    hide QueryReads, PreventBody, ResolveBody;
  }

  lemma {:induction false} IdleRuns(parts: map<Name, Part>, dbs: map<Name, Db>, missing: Name, acts: seq<RAct>,
                                    n: Name)
    requires parts.Keys <= dbs.Keys && missing in parts && !IntentThere(dbs[missing], parts[missing])
    requires n in parts && parts[n].txid <= dbs[n].head
    ensures IdleInv(parts, n, dbs[n].fence, RRun(parts, dbs, acts))
  {
    if acts != [] {
      var pre, a := acts[..|acts| - 1], acts[|acts| - 1];
      IdleRuns(parts, dbs, missing, pre, n);
      AbortRuns(parts, dbs, missing, pre);
      AbortLeaves(parts, dbs, missing, RRun(parts, dbs, pre), n, a.who);
      hide IdleInv, AbortInv, RNext;
      IdleKept(parts, n, dbs[n].fence, RRun(parts, dbs, pre), a, RRun(parts, dbs, acts));
    }
  }

  /**
   Only the write that must never land is fenced off. The fence of a participant whose intent was
   there stays where it was, unless some recoverer asked about it after another had given it up, and
   then gave it up again; a participant that wrote nothing keeps its fence whatever happens.
  */
  lemma HealthyFenceMovesExactlyWhenAskedLate(parts: map<Name, Part>, dbs: map<Name, Db>, acts: seq<RAct>, n: Name)
    requires Found(parts, dbs) && n in parts && IntentThere(dbs[n], parts[n])
    ensures var fence := RDb(RRun(parts, dbs, acts), n).fence;
      && fence >= dbs[n].fence
      && (fence > dbs[n].fence <==>
            parts[n].txid > dbs[n].head && GaveUpLate(parts, dbs, acts, n, |acts|))
  {
    hide RRun, GaveUpLate, RDb, AllThere, AbortInv, KnowsWhen, GaveUp, AskedLate, PcOf;
    if AllThere(parts, dbs) {
      NobodyGivesUp(parts, dbs, acts, n, |acts|);
    } else {
      var missing := SomeMissing(parts, dbs);
      AbortRuns(parts, dbs, missing, acts);
      AbortLeaves(parts, dbs, missing, RRun(parts, dbs, acts), n, 0);
      if parts[n].txid <= dbs[n].head {
        IdleRuns(parts, dbs, missing, acts, n);
      } else {
        HealthyRuns(parts, dbs, missing, acts, n, |acts|);
        assert acts[..|acts|] == acts;
      }
    }
  }

  // ---- Every recoverer can get to its end ----

  /** What a recoverer still has to ask, finish or give up is there to be. */
  predicate Ready(parts: map<Name, Part>, pc: RPc) {
    match pc
    case Asking(left, seen) => left != {} && left <= parts.Keys && seen.Keys <= parts.Keys
    case Finishing(left, seen) => left != {} && left <= seen.Keys <= parts.Keys
    case GivingUp(left, seen) => left != {} && left <= seen.Keys <= parts.Keys
    case _ => true
  }

  /** How far it still has to go: the phases left, and what is left of this one. */
  function Phase(pc: RPc): nat {
    match pc
    case Swept => 5
    case Asking(_, _) => 4
    case Finishing(_, _) => 3
    case GivingUp(_, _) => 3
    case Noting(_) => 2
    case Erasing(_) => 1
    case Over(_) => 0
  }

  function LeftOf(pc: RPc): set<Name> {
    if pc.Asking? || pc.Finishing? || pc.GivingUp? then pc.left else {}
  }

  lemma ReadyKept(parts: map<Name, Part>, s: RSys, a: RAct, t: RSys)
    requires t == RNext(parts, s, a) && Ready(parts, PcOf(s, a.who))
    ensures Ready(parts, PcOf(t, a.who))
  {
    hide QueryReads, QueryIntent, ResolveBody, PreventBody;
  }

  lemma {:induction false} ReadyRuns(parts: map<Name, Part>, dbs: map<Name, Db>, acts: seq<RAct>, r: nat)
    ensures Ready(parts, PcOf(RRun(parts, dbs, acts), r))
  {
    hide Ready, RNext;
    if acts == [] {
      assert Ready(parts, Swept) by { SweptReady(parts); }
    } else {
      var pre, a := acts[..|acts| - 1], acts[|acts| - 1];
      var s, t := RRun(parts, dbs, pre), RRun(parts, dbs, acts);
      ReadyRuns(parts, dbs, pre, r);
      if r == a.who { ReadyKept(parts, s, a, t); } else { OthersStay(parts, s, a, t, r); }
    }
  }

  lemma SweptReady(parts: map<Name, Part>)
    ensures Ready(parts, Swept)
  {
  }

  /** The next step of this recoverer takes it further. */
  lemma NextStep(parts: map<Name, Part>, s: RSys, r: nat) returns (a: RAct)
    requires Ready(parts, PcOf(s, r)) && !PcOf(s, r).Over?
    ensures a.who == r
    ensures var was, now := PcOf(s, r), PcOf(RNext(parts, s, a), r);
      Phase(now) < Phase(was) || (Phase(now) == Phase(was) && LeftOf(now) < LeftOf(was))
  {
    var pc := PcOf(s, r);
    match pc {
      case Swept => a := ReadParts(r);
      case Asking(left, seen) =>
        var n :| n in left;
        var pgnos := AllPages(RDb(s, n), parts[n]);
        hide QueryReads, QueryIntent;
        a := Ask(r, n, pgnos);
        assert n !in left - {n};
      case Finishing(left, seen) =>
        var n :| n in left;
        hide ResolveBody;
        a := Finish1(r, n);
        assert n !in left - {n};
      case GivingUp(left, seen) =>
        var n :| n in left;
        hide PreventBody;
        a := Prevent1(r, n);
        assert n !in left - {n};
      case Noting(_) => a := Note(r);
      case Erasing(_) => a := Erase(r);
    }
  }

  lemma AllPages(db: Db, part: Part) returns (pgnos: set<nat>)
    ensures QueryReads(db, part, pgnos)
  {
    pgnos := if part.txid <= db.head then {} else Rows(db.delta, part.txid).Keys;
  }

  /** Whatever the others have done and wherever it stands, a recoverer that goes on alone comes to its end. */
  lemma {:induction false} RecovererEnds(parts: map<Name, Part>, dbs: map<Name, Db>, acts: seq<RAct>, r: nat)
    returns (more: seq<RAct>)
    ensures PcOf(RRun(parts, dbs, acts + more), r).Over? && forall k :: 0 <= k < |more| ==> more[k].who == r
    decreases Phase(PcOf(RRun(parts, dbs, acts), r)), LeftOf(PcOf(RRun(parts, dbs, acts), r))
  {
    hide Ready, Phase, LeftOf, RNext, RRun, PcOf;
    var s := RRun(parts, dbs, acts);
    more := [];
    if PcOf(s, r).Over? {
      assert acts + [] == acts;
    } else {
      ReadyRuns(parts, dbs, acts, r);
      var a := NextStep(parts, s, r);
      var on := acts + [a];
      RunsOn(parts, dbs, acts, a);
      var rest := RecovererEnds(parts, dbs, on, r);
      more := [a] + rest;
      assert on + rest == acts + more;
    }
  }

  lemma RunsOn(parts: map<Name, Part>, dbs: map<Name, Db>, acts: seq<RAct>, a: RAct)
    ensures RRun(parts, dbs, acts + [a]) == RNext(parts, RRun(parts, dbs, acts), a)
  {
    hide RNext;
    assert (acts + [a])[..|acts|] == acts;
  }

  // ---- What giving up a participant does to its readers ----

  /**
   The abort path says the rows it clears are unreachable. That is so exactly when no
   index row names the recorded txid, as for every txid above the head.
  */
  lemma PreventKeepsReadsExactlyWhenUnindexed(db: Db, part: Part, intent: Intent)
    requires DbInv(db)
    ensures (forall p: nat :: View(PreventBody(db, part, intent), p) == View(db, p))
            <==> (forall p <- db.pidx :: db.pidx[p] != part.txid)
    ensures part.txid > db.head ==> forall p <- db.pidx :: db.pidx[p] != part.txid
  {
    var d := PreventBody(db, part, intent);
    assert NewestShard(d) == NewestShard(db);
    forall p <- db.pidx | db.pidx[p] == part.txid
      ensures View(d, p) == None && View(db, p).Some?
    {
    }
    if forall p <- db.pidx :: db.pidx[p] != part.txid {
      forall p: nat
        ensures View(d, p) == View(db, p)
      {
        if p in db.pidx {
          assert Rows(d.delta, db.pidx[p]) == Rows(db.delta, db.pidx[p]);
        }
      }
    }
  }

  /** A participant that wrote nothing is recorded at its head; giving it up loses its newest page. */
  lemma PreventLosesACommittedPage(page: Page)
    ensures var db := Db(1, PAGE, 1, map[0 := 1], map[1 := map[0 := page]], map[], map[], 1);
            && DbInv(db) && IntentThere(db, Part(1, PAGE))
            && View(db, 0) == Some(page)
            && View(PreventBody(db, Part(1, PAGE), Intent(1, {}, true)), 0) == None
  {
    var db := Db(1, PAGE, 1, map[0 := 1], map[1 := map[0 := page]], map[], map[], 1);
    assert forall p: nat :: p != 0 ==> View(db, p) == None;
  }
}
