/**
 The commit that spans several databases, and the recovery that decides what a
 crash left of it (thirdparty/store-plane/fdb_vfs.c). One process is live at a
 time and hands over by crashing; every action below is one transaction or one
 change inside the process. The reference files in `flats` change at two places
 only: a commit of one file, and the single transaction that writes the record.
*/
module GroupCommit {
  import opened Wrappers
  import opened StoreRows
  import opened HandleSteps
  import opened SharedStore

  type Name = string

  const TXN_MAX_PARTS: nat := 16
  const RECOVER_PAGES: nat := 4096

  /** A participant row: the txid it staged under and the size its commit ends with. */
  datatype Part = Part(txid: nat, size: nat)
  datatype Status = Pending | Committed | Aborted
  datatype Record = Record(status: Status, parts: map<Name, Part>)

  /** The group being built. `synced` are the members staged since their last write. */
  datatype Group = Group(txn: nat, txids: map<Name, nat>, synced: set<Name>)

  /** What query_intent_body brought back for one participant. */
  datatype Intent = Intent(head: nat, pgnos: set<nat>, present: bool)

  datatype Pc =
    | Running
    | Resolving(txn: nat, left: set<Name>)
    | Sweeping
    | Opening(name: Name)
    | Querying(txn: nat, left: set<Name>, seen: map<Name, Intent>)
    | Completing(txn: nat, left: set<Name>, seen: map<Name, Intent>)
    | Preventing(txn: nat, left: set<Name>, seen: map<Name, Intent>)
    | Marking(txn: nat, status: Status, sweeping: bool)
    | Dropping(txn: nat, sweeping: bool)

  datatype Proc =
    | Dead
    | Live(files: map<Name, Handle>, group: Option<Group>, opening: Option<Name>, pc: Pc)

  datatype GSys = GSys(
    dbs: map<Name, Db>,
    recs: map<nat, Record>,
    counter: nat,             // weft/txn/NEXT
    proc: Proc,
    flats: map<Name, Flat>,   // reference files
    pending: Option<nat>)     // reference: the group that is committed and not yet resolved

  datatype GAct =
    | Start | Die
    | OpenFile(name: Name) | Recover
    | SweepFound(txn: nat) | SweepEmpty | OpenNow
    | Query(name: Name, pgnos: set<nat>) | Complete(name: Name) | Prevent(name: Name)
    | Mark | Drop
    | FileStep(name: Name, step: Step)
    | Begin | Join(name: Name) | StageMember(name: Name) | Abandon
    | WriteRecord | Resolve(name: Name)

  const GInit: GSys := GSys(map[], map[], 0, Dead, map[], None)

  function DbOf(s: GSys, n: Name): Db {
    if n in s.dbs then s.dbs[n] else EmptyDb
  }

  function FlatOf(s: GSys, n: Name): Flat {
    if n in s.flats then s.flats[n] else Flat(map[], 0)
  }

  predicate Member(p: Proc, n: Name) {
    p.Live? && p.group.Some? && n in p.group.value.txids
  }

  /** What SQLite leaves a grouped file to do: write, read, and have its syncs staged. */
  predicate StepAllowed(p: Proc, n: Name, step: Step)
    requires p.Live? && n in p.files
  {
    Member(p, n) ==> step.Write? || step.Prefetch?
  }

  /** SQLite ends a statement with a sync, so nothing unsynced reaches the record. */
  predicate Synced(p: Proc)
    requires p.Live? && p.group.Some?
  {
    forall n <- p.group.value.txids :: n in p.files && (n in p.group.value.synced || p.files[n].dirty == map[])
  }

  function AfterResolving(txn: nat, left: set<Name>): Pc {
    if left == {} then Marking(txn, Committed, false) else Resolving(txn, left)
  }

  function AfterCompleting(txn: nat, left: set<Name>, seen: map<Name, Intent>): Pc {
    if left == {} then Marking(txn, Committed, true) else Completing(txn, left, seen)
  }

  function AfterPreventing(txn: nat, left: set<Name>, seen: map<Name, Intent>): Pc {
    if left == {} then Marking(txn, Aborted, true) else Preventing(txn, left, seen)
  }

  /** Every intent is queried before anything changes; one missing intent aborts. */
  function AfterQuerying(txn: nat, left: set<Name>, seen: map<Name, Intent>): Pc {
    if left != {} then Querying(txn, left, seen)
    else if forall n <- seen :: seen[n].present then Completing(txn, seen.Keys, seen)
    else Preventing(txn, seen.Keys, seen)
  }

  /** query_intent_body. The page list is cut at 4096; `pgnos` is what the cut left. */
  predicate QueryReads(db: Db, part: Part, pgnos: set<nat>) {
    var rows := Rows(db.delta, part.txid);
    if part.txid <= db.head then pgnos == {}
    else pgnos <= rows.Keys && (|rows| <= RECOVER_PAGES ==> pgnos == rows.Keys)
  }

  function QueryIntent(db: Db, part: Part, pgnos: set<nat>): Intent {
    Intent(db.head, pgnos, part.txid <= db.head || Rows(db.delta, part.txid) != map[])
  }

  /** resolve_body: put_head from the record alone, on the head an earlier read saw. */
  function ResolveBody(db: Db, part: Part, intent: Intent): Db {
    if part.txid <= intent.head then db
    else PutHead(db, part.txid, intent.pgnos, part.size, db.logn + |intent.pgnos|)
  }

  /** prevent_body: the staged pages go; a missing intent also raises the fence. */
  function PreventBody(db: Db, part: Part, intent: Intent): Db {
    db.(delta := db.delta - {part.txid}, fence := if intent.present then db.fence else db.fence + 1)
  }

  /** Everything the group's members have buffered, as the record makes it real. */
  function RecordParts(p: Proc): map<Name, Part>
    requires p.Live? && p.group.Some? && Synced(p)
  {
    map n | n in p.group.value.txids :: Part(p.group.value.txids[n], p.files[n].size)
  }

  function RecordFlats(s: GSys): map<Name, Flat>
    requires s.proc.Live? && s.proc.group.Some? && Synced(s.proc)
  {
    s.flats + map n | n in s.proc.group.value.txids ::
      if s.proc.files[n].dirty == map[] then FlatOf(s, n)
      else Flat(FlatOf(s, n).pages + s.proc.files[n].dirty, s.proc.files[n].size)
  }

  /** record_body reads every member's fence. */
  predicate FencesHold(s: GSys)
    requires s.proc.Live? && s.proc.group.Some? && Synced(s.proc)
  {
    forall n <- s.proc.group.value.txids :: Owns(DbOf(s, n), s.proc.files[n])
  }

  // ---- Process control ----

  predicate CanOpenFile(s: GSys, n: Name) {
    s.proc.Live? && s.proc.pc.Running? && n !in s.proc.files
  }

  /** vfs_open decides every staging group before it raises a fence. */
  function DoOpenFile(s: GSys, n: Name): GSys
    requires CanOpenFile(s, n)
  {
    s.(proc := s.proc.(opening := Some(n), pc := Sweeping))
  }

  predicate CanRecover(s: GSys) {
    s.proc.Live? && s.proc.pc.Running?
  }

  function DoRecover(s: GSys): GSys
    requires CanRecover(s)
  {
    s.(proc := s.proc.(opening := None, pc := Sweeping))
  }

  /** sweep_body finds a staging record; one with no participants is dropped at once. */
  predicate CanSweepFound(s: GSys, txn: nat) {
    s.proc.Live? && s.proc.pc.Sweeping? && txn in s.recs && s.recs[txn].status.Pending?
  }

  function DoSweepFound(s: GSys, txn: nat): GSys
    requires CanSweepFound(s, txn)
  {
    var parts := s.recs[txn].parts;
    s.(proc := s.proc.(pc := if parts == map[] then Dropping(txn, true) else Querying(txn, parts.Keys, map[])))
  }

  predicate CanSweepEmpty(s: GSys) {
    s.proc.Live? && s.proc.pc.Sweeping? && forall t <- s.recs :: !s.recs[t].status.Pending?
  }

  function DoSweepEmpty(s: GSys): GSys
    requires CanSweepEmpty(s)
  {
    s.(proc := s.proc.(pc := if s.proc.opening.Some? then Opening(s.proc.opening.value) else Running))
  }

  predicate CanOpenNow(s: GSys) {
    s.proc.Live? && s.proc.pc.Opening?
  }

  function DoOpenNow(s: GSys): GSys
    requires CanOpenNow(s)
  {
    var n := s.proc.pc.name;
    s.(dbs := s.dbs[n := OpenBody(DbOf(s, n))],
       proc := s.proc.(files := s.proc.files[n := Opened(DbOf(s, n))], pc := Running))
  }

  // ---- Recovery of one record ----

  predicate CanQuery(s: GSys, n: Name, pgnos: set<nat>) {
    && s.proc.Live? && s.proc.pc.Querying? && n in s.proc.pc.left
    && s.proc.pc.txn in s.recs && n in s.recs[s.proc.pc.txn].parts
    && QueryReads(DbOf(s, n), s.recs[s.proc.pc.txn].parts[n], pgnos)
  }

  function DoQuery(s: GSys, n: Name, pgnos: set<nat>): GSys
    requires CanQuery(s, n, pgnos)
  {
    var pc := s.proc.pc;
    var intent := QueryIntent(DbOf(s, n), s.recs[pc.txn].parts[n], pgnos);
    s.(proc := s.proc.(pc := AfterQuerying(pc.txn, pc.left - {n}, pc.seen[n := intent])))
  }

  predicate CanComplete(s: GSys, n: Name) {
    && s.proc.Live? && s.proc.pc.Completing? && n in s.proc.pc.left && n in s.proc.pc.seen
    && s.proc.pc.txn in s.recs && n in s.recs[s.proc.pc.txn].parts
  }

  function DoComplete(s: GSys, n: Name): GSys
    requires CanComplete(s, n)
  {
    var pc := s.proc.pc;
    s.(dbs := s.dbs[n := ResolveBody(DbOf(s, n), s.recs[pc.txn].parts[n], pc.seen[n])],
       proc := s.proc.(pc := AfterCompleting(pc.txn, pc.left - {n}, pc.seen)))
  }

  predicate CanPrevent(s: GSys, n: Name) {
    && s.proc.Live? && s.proc.pc.Preventing? && n in s.proc.pc.left && n in s.proc.pc.seen
    && s.proc.pc.txn in s.recs && n in s.recs[s.proc.pc.txn].parts
  }

  function DoPrevent(s: GSys, n: Name): GSys
    requires CanPrevent(s, n)
  {
    var pc := s.proc.pc;
    s.(dbs := s.dbs[n := PreventBody(DbOf(s, n), s.recs[pc.txn].parts[n], pc.seen[n])],
       proc := s.proc.(pc := AfterPreventing(pc.txn, pc.left - {n}, pc.seen)))
  }

  predicate CanMark(s: GSys) {
    s.proc.Live? && s.proc.pc.Marking? && s.proc.pc.txn in s.recs
  }

  function DoMark(s: GSys): GSys
    requires CanMark(s)
  {
    var pc := s.proc.pc;
    s.(recs := s.recs[pc.txn := s.recs[pc.txn].(status := pc.status)],
       proc := s.proc.(pc := Dropping(pc.txn, pc.sweeping)),
       pending := if s.pending == Some(pc.txn) then None else s.pending)
  }

  predicate CanDrop(s: GSys) {
    s.proc.Live? && s.proc.pc.Dropping?
  }

  function DoDrop(s: GSys): GSys
    requires CanDrop(s)
  {
    s.(recs := s.recs - {s.proc.pc.txn},
       proc := if s.proc.pc.sweeping then s.proc.(pc := Sweeping) else s.proc.(pc := Running, group := None))
  }

  // ---- The caller's own work ----

  predicate CanFileStep(s: GSys, n: Name, step: Step) {
    s.proc.Live? && s.proc.pc.Running? && n in s.proc.files && StepAllowed(s.proc, n, step)
  }

  function DoFileStep(s: GSys, n: Name, step: Step): GSys
    requires CanFileStep(s, n, step)
  {
    var p, db, h := s.proc, DbOf(s, n), s.proc.files[n];
    s.(dbs := s.dbs[n := DbAfter(db, h, step)],
       proc := p.(files := p.files[n := HandleAfter(db, h, step)],
                  group := if Member(p, n) && step.Write?
                    then Some(p.group.value.(synced := p.group.value.synced - {n})) else p.group),
       flats := if Commits(db, h, step)
         then s.flats[n := Flat(FlatOf(s, n).pages + h.dirty, h.size)] else s.flats)
  }

  predicate CanBegin(s: GSys) {
    s.proc.Live? && s.proc.pc.Running? && s.proc.group.None?
  }

  function DoBegin(s: GSys): GSys
    requires CanBegin(s)
  {
    s.(counter := s.counter + 1, proc := s.proc.(group := Some(Group(s.counter + 1, map[], {}))))
  }

  predicate CanJoin(s: GSys, n: Name) {
    && s.proc.Live? && s.proc.pc.Running? && s.proc.group.Some? && n in s.proc.files
    && n !in s.proc.group.value.txids && s.proc.files[n].work.Idle?
    && |s.proc.group.value.txids| < TXN_MAX_PARTS
  }

  function DoJoin(s: GSys, n: Name): GSys
    requires CanJoin(s, n)
  {
    var g := s.proc.group.value;
    s.(proc := s.proc.(group := Some(g.(txids := g.txids[n := s.proc.files[n].head]))))
  }

  /** An intent has to fit one transaction, so that it is all or nothing. */
  predicate Fits(pages: Pages) {
    |pages| <= ONE_TXN_PAGES
  }

  /** txn_stage_here: a member too large for one transaction is refused. */
  predicate CanStageMember(s: GSys, n: Name) {
    && s.proc.Live? && s.proc.pc.Running? && Member(s.proc, n) && n in s.proc.files
    && Fits(s.proc.files[n].dirty) && Owns(DbOf(s, n), s.proc.files[n])
  }

  function DoStageMember(s: GSys, n: Name): GSys
    requires CanStageMember(s, n)
  {
    var h, g := s.proc.files[n], s.proc.group.value;
    var txid := if h.dirty == map[] then h.head else h.head + 1;
    s.(dbs := if h.dirty == map[] then s.dbs else s.dbs[n := PutDelta(DbOf(s, n), h.head + 1, h.dirty)],
       proc := s.proc.(group := Some(g.(txids := g.txids[n := txid], synced := g.synced + {n}))))
  }

  /** weft_txn_abort, before any member staged. */
  predicate CanAbandon(s: GSys) {
    && s.proc.Live? && s.proc.pc.Running? && s.proc.group.Some?
    && forall n <- s.proc.group.value.txids :: n in s.proc.files && s.proc.group.value.txids[n] == s.proc.files[n].head
  }

  function DoAbandon(s: GSys): GSys
    requires CanAbandon(s)
  {
    s.(proc := s.proc.(group := None))
  }

  predicate CanWriteRecord(s: GSys) {
    s.proc.Live? && s.proc.pc.Running? && s.proc.group.Some? && Synced(s.proc) && FencesHold(s)
  }

  /** record_body: the one transaction that commits the whole group. */
  function DoWriteRecord(s: GSys): GSys
    requires CanWriteRecord(s)
  {
    var g := s.proc.group.value;
    s.(recs := s.recs[g.txn := Record(Pending, RecordParts(s.proc))],
       proc := s.proc.(pc := AfterResolving(g.txn, g.txids.Keys)),
       flats := RecordFlats(s),
       pending := if g.txids == map[] then s.pending else Some(g.txn))
  }

  predicate CanResolve(s: GSys, n: Name) {
    && s.proc.Live? && s.proc.pc.Resolving? && n in s.proc.pc.left && Member(s.proc, n) && n in s.proc.files
    && Owns(DbOf(s, n), s.proc.files[n])
  }

  /** txn_resolve_part */
  function DoResolve(s: GSys, n: Name): GSys
    requires CanResolve(s, n)
  {
    var h, txid := s.proc.files[n], s.proc.group.value.txids[n];
    var pc := AfterResolving(s.proc.pc.txn, s.proc.pc.left - {n});
    if txid <= h.head then s.(proc := s.proc.(pc := pc))
    else s.(dbs := s.dbs[n := PutHead(DbOf(s, n), txid, h.dirty.Keys, h.size, h.logPages + h.ndirty)],
            proc := s.proc.(files := s.proc.files[n := Landed(h)], pc := pc))
  }

  /** An action whose guard fails changes nothing. */
  function GNext(s: GSys, a: GAct): GSys {
    match a
    case Start => if s.proc.Dead? then s.(proc := Live(map[], None, None, Running)) else s
    case Die => s.(proc := Dead)
    case OpenFile(n) => if CanOpenFile(s, n) then DoOpenFile(s, n) else s
    case Recover => if CanRecover(s) then DoRecover(s) else s
    case SweepFound(txn) => if CanSweepFound(s, txn) then DoSweepFound(s, txn) else s
    case SweepEmpty => if CanSweepEmpty(s) then DoSweepEmpty(s) else s
    case OpenNow => if CanOpenNow(s) then DoOpenNow(s) else s
    case Query(n, pgnos) => if CanQuery(s, n, pgnos) then DoQuery(s, n, pgnos) else s
    case Complete(n) => if CanComplete(s, n) then DoComplete(s, n) else s
    case Prevent(n) => if CanPrevent(s, n) then DoPrevent(s, n) else s
    case Mark => if CanMark(s) then DoMark(s) else s
    case Drop => if CanDrop(s) then DoDrop(s) else s
    case FileStep(n, step) => if CanFileStep(s, n, step) then DoFileStep(s, n, step) else s
    case Begin => if CanBegin(s) then DoBegin(s) else s
    case Join(n) => if CanJoin(s, n) then DoJoin(s, n) else s
    case StageMember(n) => if CanStageMember(s, n) then DoStageMember(s, n) else s
    case Abandon => if CanAbandon(s) then DoAbandon(s) else s
    case WriteRecord => if CanWriteRecord(s) then DoWriteRecord(s) else s
    case Resolve(n) => if CanResolve(s, n) then DoResolve(s, n) else s
  }

  function GRun(acts: seq<GAct>): GSys {
    if acts == [] then GInit else GNext(GRun(acts[..|acts| - 1]), acts[|acts| - 1])
  }
}
