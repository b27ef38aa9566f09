/**
 A ward of the Gyre and its books (src/queen.c, src/ward.h): cycles, commissions,
 payments and migrations. A Spark's row in its own database is the `db` part of the
 Spark; the tables of the ward's database are `built`, `board` and `ledger`. Dice and
 salvage names are arbitrary.
*/
module Gyre {
  import opened Wrappers
  import opened Totals
  import QueenPlanner

  const TXN_MAX_PARTS := 16
  const BOARD_SIZE := 6
  const ARRIVAL_CYCLES := 12
  const NVENUES := 6
  const MAX_SPARKS := 1400
  const FIXED_ENTITIES := NVENUES + 1 + BOARD_SIZE + 3
  const SPARKS_PER_WARD := MAX_SPARKS - FIXED_ENTITIES
  const COSTS: seq<int> := [120, 200, 260, 340, 420, 500]
  const OPENING := 300

  datatype SparkDb = SparkDb(purse: int, wear: int, held: seq<string>)
  datatype Spark = Spark(id: int, purse: int, wear: int, db: SparkDb)
  datatype Outcome = Kept | Lost
  datatype Contract = Contract(payout: int, risk: int, taken: int, outcome: Option<Outcome>)
  datatype What = Salvage | Wages | CommissionPaid | DebtPaid | Departed | Arrived
  datatype Entry = Entry(cycle: int, what: What, amount: int, spark: int)

  /** Who has joined a group: the ward, or the Spark in this place. */
  datatype Party = TheWard | SparkAt(i: nat)

  /** How the commit of a group ends: it lands, a participant's own commit fails, or the record does. */
  datatype Fate = Lands | CommitFails(at: nat) | RecordFails

  /** How a cycle ends: done, given up before its commit, or not landed. */
  datatype Ending = Done | GaveUp | Unlanded

  /**
   group_commit: the participants commit one after another, then the record is written. These are
   the ones whose connections go on holding what the group wrote.
  */
  function KeptBy(grp: seq<Party>, fate: Fate): seq<Party> {
    if fate.CommitFails? && fate.at < |grp| then grp[..fate.at] else grp
  }

  predicate Landed(grp: seq<Party>, fate: Fate) {
    fate.Lands? || (fate.CommitFails? && fate.at >= |grp|)
  }

  // ---- What is summed ----

  function PurseOf(s: Spark): int { s.db.purse }
  function MindOf(s: Spark): int { s.purse }
  function ItemsOf(s: Spark): int { |s.db.held| }
  function PayIfKept(c: Contract): int { if c.outcome == Some(Kept) then c.payout else 0 }
  function OneIfKept(c: Contract): int { if c.outcome == Some(Kept) then 1 else 0 }
  function OneIfTaken(c: Contract): int { if c.taken != -1 then 1 else 0 }

  /** What an entry of the ledger did to the treasury; a migration never touches it. */
  function TillOf(e: Entry): int { if e.what in {Departed, Arrived} then 0 else e.amount }

  // ---- Who is here, by id ----

  /** The id a ward of this number gives to the Spark that finds this many there. */
  function IdOf(number: int, count: int): int { number * SPARKS_PER_WARD + count }

  function IdsOf(crew: seq<Spark>): (r: seq<int>)
    ensures |r| == |crew| && forall i :: 0 <= i < |crew| ==> r[i] == crew[i].id
  {
    seq(|crew|, i requires 0 <= i < |crew| => crew[i].id)
  }

  /** The ids of a crew, as often as each is borne. */
  function IdBag(crew: seq<Spark>): multiset<int> { multiset(IdsOf(crew)) }

  /** The same Sparks in the same places. */
  predicate SameSparks(a: seq<Spark>, b: seq<Spark>) {
    |a| == |b| && forall i :: 0 <= i < |a| ==> a[i].id == b[i].id
  }

  lemma IdsKept(a: seq<Spark>, b: seq<Spark>)
    requires SameSparks(a, b)
    ensures IdBag(a) == IdBag(b)
  {
    assert IdsOf(a) == IdsOf(b);
  }

  lemma IdsAppend(crew: seq<Spark>, s: Spark)
    ensures IdBag(crew + [s]) == IdBag(crew) + multiset{s.id}
  {
    assert IdsOf(crew + [s]) == IdsOf(crew) + [s.id];
  }

  lemma IdsRemoved(crew: seq<Spark>, i: nat)
    requires i < |crew|
    ensures IdBag(crew[..i] + crew[i + 1..]) + multiset{crew[i].id} == IdBag(crew)
  {
    var ids := IdsOf(crew);
    assert IdsOf(crew[..i] + crew[i + 1..]) == ids[..i] + ids[i + 1..];
    assert ids == ids[..i] + [ids[i]] + ids[i + 1..];
  }

  // ---- The books ----

  /** A Spark as the process remembers them is the Spark as their database has them. */
  predicate SparkOk(s: Spark) {
    s.id >= 0 && s.purse == s.db.purse && s.wear == s.db.wear && 0 <= s.wear <= 90
  }

  /** The ward's money: everything ever issued is in the treasury, a purse, the Clock or a venue. */
  datatype Money = Money(treasury: int, debt: int, issued: int, found: int, retired: int, spent: int)

  ghost predicate Balanced(m: Money, crew: seq<Spark>, ledger: seq<Entry>) {
    && m.treasury + Total(crew, PurseOf) + m.retired + m.spent == m.issued
    && m.treasury >= 0 && m.debt >= 0
    && Total(crew, ItemsOf) == m.found
    && m.treasury == OPENING + Total(ledger, TillOf)
    && forall s <- crew :: SparkOk(s)
  }

  /** No purse is larger in its database than in memory: the sums agree exactly when all purses do. */
  lemma {:induction false} SumsAgree(crew: seq<Spark>)
    requires forall s <- crew :: s.db.purse <= s.purse
    ensures Total(crew, PurseOf) <= Total(crew, MindOf)
    ensures Total(crew, PurseOf) == Total(crew, MindOf) <==> forall s <- crew :: s.db.purse == s.purse
  {
    if crew != [] {
      var init, last := crew[..|crew| - 1], crew[|crew| - 1];
      SumsAgree(init);
      assert crew == init + [last];
      assert forall s <- crew :: s in init || s == last;
    }
  }

  lemma OpeningBalances()
    ensures Balanced(Money(OPENING, 4000, OPENING, 0, 0, 0), [], [])
  {
  }

  lemma PayBalances(m: Money, crew: seq<Spark>, ledger: seq<Entry>, i: nat, s: Spark, m': Money, crew': seq<Spark>,
                    e: Entry)
    requires Balanced(m, crew, ledger) && i < |crew| && SparkOk(s) && e.what == Wages
    requires crew' == crew[i := s] && m' == m.(treasury := m.treasury + e.amount, found := m'.found)
    requires m.treasury + e.amount >= 0
    requires s.db.purse == crew[i].db.purse - e.amount && m'.found - m.found == |s.db.held| - |crew[i].db.held|
    ensures Balanced(m', crew', ledger + [e])
  {
    TotalUpdate(crew, i, s, PurseOf);
    TotalUpdate(crew, i, s, ItemsOf);
    TotalAppend(ledger, e, TillOf);
  }

  lemma SparkKeepsBalance(m: Money, crew: seq<Spark>, ledger: seq<Entry>, i: nat, s: Spark)
    requires Balanced(m, crew, ledger) && i < |crew| && SparkOk(s)
    requires s.db.purse == crew[i].db.purse && s.db.held == crew[i].db.held
    ensures Balanced(m, crew[i := s], ledger)
  {
    TotalUpdate(crew, i, s, PurseOf);
    TotalUpdate(crew, i, s, ItemsOf);
  }

  lemma EntryBalances(m: Money, crew: seq<Spark>, ledger: seq<Entry>, m': Money, e: Entry)
    requires Balanced(m, crew, ledger) && TillOf(e) == m'.treasury - m.treasury
    requires m'.treasury >= 0 && m'.debt >= 0 && m'.found == m.found
    requires m'.treasury - m.treasury + m'.retired - m.retired + m'.spent - m.spent == m'.issued - m.issued
    ensures Balanced(m', crew, ledger + [e])
  {
    TotalAppend(ledger, e, TillOf);
  }

  lemma ArrivalBalances(m: Money, crew: seq<Spark>, ledger: seq<Entry>, s: Spark)
    requires Balanced(m, crew, ledger) && SparkOk(s)
    ensures Balanced(m.(issued := m.issued + s.purse, found := m.found + |s.db.held|), crew + [s], ledger)
  {
    TotalAppend(crew, s, PurseOf);
    TotalAppend(crew, s, ItemsOf);
  }

  lemma DepartureBalances(m: Money, crew: seq<Spark>, ledger: seq<Entry>, i: nat)
    requires Balanced(m, crew, ledger) && i < |crew|
    ensures Balanced(m.(issued := m.issued - crew[i].purse, found := m.found - |crew[i].db.held|),
      crew[..i] + crew[i + 1..], ledger)
  {
    TotalRemove(crew, i, PurseOf);
    TotalRemove(crew, i, ItemsOf);
    assert SparkOk(crew[i]);
  }

  // ---- Choosing ----

  /** What a contract is worth to a Spark: a hundredth of its pay for each point of nerve, less its risk. */
  function Score(c: Contract, nerve: int): (r: int)
    ensures c.payout * nerve >= 0 ==> 100 * (r + c.risk) <= c.payout * nerve < 100 * (r + c.risk) + 100
    ensures c.payout * nerve < 0 ==> 100 * (r + c.risk) - 100 < c.payout * nerve <= 100 * (r + c.risk)
  {
    TruncDiv(c.payout * nerve, 100) - c.risk
  }

  /** C division, which rounds toward zero. */
  function TruncDiv(a: int, b: int): (q: int)
    requires b > 0
    ensures a >= 0 ==> q * b <= a < q * b + b
    ensures a < 0 ==> q * b - b < a <= q * b
  {
    if a >= 0 then a / b else -((-a) / b)
  }

  /** k is the first untaken contract of the highest score. */
  ghost predicate IsChoice(board: seq<Contract>, nerve: int, k: nat) {
    && k < |board| && board[k].taken == -1
    && (forall j :: 0 <= j < |board| && board[j].taken == -1 ==> Score(board[j], nerve) <= Score(board[k], nerve))
    && (forall j :: 0 <= j < k && board[j].taken == -1 ==> Score(board[j], nerve) < Score(board[k], nerve))
  }

  function MaxWear(crew: seq<Spark>): int {
    if crew == [] then 0
    else var m := MaxWear(crew[..|crew| - 1]);
         if crew[|crew| - 1].wear > m then crew[|crew| - 1].wear else m
  }

  /** No Spark is more worn, and one is as worn as that unless nobody is worn at all. */
  lemma {:induction false} MaxWearIsLargest(crew: seq<Spark>)
    ensures MaxWear(crew) >= 0 && forall s <- crew :: s.wear <= MaxWear(crew)
    ensures MaxWear(crew) == 0 || exists s <- crew :: s.wear == MaxWear(crew)
  {
    if crew != [] {
      var n := |crew| - 1;
      MaxWearIsLargest(crew[..n]);
      assert crew[n] in crew && forall s <- crew :: s in crew[..n] || s == crew[n];
      if s :| s in crew[..n] && s.wear == MaxWear(crew[..n]) { assert s in crew; }
    }
  }

  /** group_join: at most once each, and never past the last place. */
  method Join(grp: seq<Party>, p: Party) returns (ok: bool, joined: seq<Party>)
    ensures ok <==> p in grp || |grp| < TXN_MAX_PARTS
    ensures joined == if p !in grp && ok then grp + [p] else grp
  {
    var i := 0;
    while i < |grp|
      invariant 0 <= i <= |grp| && p !in grp[..i]
    {
      if grp[i] == p { return true, grp; }
      i := i + 1;
    }
    assert grp[..i] == grp;
    if |grp| >= TXN_MAX_PARTS { return false, grp; }
    return true, grp + [p];
  }

  /** A Frame after one contract: it wears, it rests, and the Den repairs. */
  function Worn(wear: int, won: bool, den: bool): (r: int)
    ensures 0 <= wear <= 90 && !den ==> r == if wear + (if won then 1 else 4) > 90 then 90
                                             else wear + (if won then 1 else 4)
    ensures 0 <= wear <= 90 && den ==> r == if !won then wear else if wear < 3 then 0 else wear - 3
  {
    var w := wear + (if won then 2 else 5) - 1;
    var d := if den && w > 0 then w - 4 else w;
    if d < 0 then 0 else if d > 90 then 90 else d
  }

  class Ward {
    const sparks: array<Spark>
    const dice: nat -> nat
    const names: (int, int, nat) -> string
    var nsparks: nat
    var drawn: nat
    var seq_: nat
    var wardNo: int
    var cycle: int
    var treasury: int
    var debt: int
    var issued: int
    var found: int
    var retired: int
    var spent: int
    var built: seq<int>
    var board: seq<Contract>
    var ledger: seq<Entry>
    ghost var given: multiset<int>   // every id this ward has given out, as often as it has

    ghost predicate Shaped()
      reads this
    {
      sparks.Length == MAX_SPARKS && nsparks <= MAX_SPARKS && |built| == NVENUES && wardNo >= 0 && cycle >= 0
    }

    ghost function Crew(): (r: seq<Spark>)
      requires Shaped()
      reads this, sparks
      ensures |r| == nsparks
    {
      sparks[..nsparks]
    }

    ghost function Held(): Money
      reads this
    {
      Money(treasury, debt, issued, found, retired, spent)
    }

    /** The books balance. */
    ghost predicate Books()
      reads this, sparks
    {
      Shaped() && Balanced(Held(), Crew(), ledger)
    }

    /** The sum that `honest` adds up, with the purses as the databases have them. */
    ghost predicate SumHolds()
      requires Shaped()
      reads this, sparks
    {
      treasury + Total(Crew(), PurseOf) + retired + spent == issued
    }

    /** The same sum with the purses as the process remembers them, and nothing below zero. */
    ghost predicate Remembered()
      reads this, sparks
    {
      Shaped() && treasury + Total(Crew(), MindOf) + retired + spent == issued && treasury >= 0 && debt >= 0
    }

    lemma BooksRemembered()
      requires Books()
      ensures Remembered() && SumHolds() && Total(Crew(), ItemsOf) == found
      ensures forall s <- Crew() :: SparkOk(s)
    {
      SumsAgree(Crew());
    }

    /** A ward before it is founded. */
    constructor (dice: nat -> nat, names: (int, int, nat) -> string)
      ensures sparks.Length == MAX_SPARKS && fresh(sparks) && this.dice == dice && this.names == names && nsparks == 0
    {
      sparks := new Spark[MAX_SPARKS](_ => Spark(0, 0, 0, SparkDb(0, 0, [])));
      this.dice, this.names := dice, names;
      nsparks, drawn, seq_, wardNo, cycle := 0, 0, 0, 0, 0;
      treasury, debt, issued, found, retired, spent := 0, 0, 0, 0, 0, 0;
      built, board, ledger := [], [], [];
      given := multiset{};
    }

    /** found_ward */
    method Found(count: nat, base: nat) returns (ok: bool)
      requires sparks.Length == MAX_SPARKS && nsparks == 0 && spent == 0
      modifies this, sparks
      ensures ok <==> count <= SPARKS_PER_WARD
      ensures ok ==> Books() && nsparks == count && issued == OPENING && found == 0
      ensures ok ==> forall i :: 0 <= i < count ==> Crew()[i] == Newcomer(base + i)
      ensures ok ==> wardNo == base / SPARKS_PER_WARD && given == IdBag(Crew())
    {
      hide Balanced;
      Reset(base / SPARKS_PER_WARD);
      var i := 0;
      while i < count
        invariant 0 <= i <= count && nsparks == i <= SPARKS_PER_WARD && Books() && issued == OPENING && found == 0
        invariant wardNo == base / SPARKS_PER_WARD && given == IdBag(Crew())
        invariant forall j :: 0 <= j < i ==> Crew()[j] == Newcomer(base + j)
      {
        var joined := JoinWard(base + i);
        if !joined { return false; }
        i := i + 1;
      }
      return true;
    }

    /** A Spark with nothing to their name. */
    static function Newcomer(id: int): Spark { Spark(id, 0, 0, SparkDb(0, 0, [])) }

    /** The tables and the books as a ward opens with them. */
    method Reset(number: nat)
      requires sparks.Length == MAX_SPARKS && nsparks == 0 && spent == 0
      modifies this
      ensures Books() && nsparks == 0 && issued == OPENING && found == 0
      ensures wardNo == number && given == IdBag(Crew())
    {
      hide Books, Balanced, Total, IdBag;
      wardNo, built, board, ledger, given := number, seq(NVENUES, _ => 0), [], [], multiset{};
      OpenBooks();
      NobodyHere();
    }

    method OpenBooks()
      requires spent == 0
      modifies this`treasury, this`debt, this`issued, this`retired, this`cycle, this`found, this`seq_
      ensures Held() == Money(OPENING, 4000, OPENING, 0, 0, 0) && cycle == 0
    {
      treasury, debt, issued, retired, cycle, found, seq_ := OPENING, 4000, OPENING, 0, 0, 0, 0;
    }

    lemma NobodyHere()
      requires Shaped() && nsparks == 0 && ledger == [] && Held() == Money(OPENING, 4000, OPENING, 0, 0, 0)
      ensures Books() && IdBag(Crew()) == multiset{}
    {
      OpeningBalances();
      assert Crew() == [] && IdsOf([]) == [];
    }

    /** join_ward: a Spark with an empty purse, if the zone can carry another. */
    method JoinWard(id: int) returns (ok: bool)
      requires Books() && id >= 0
      modifies this`nsparks, this`given, sparks
      ensures ok <==> old(nsparks) < SPARKS_PER_WARD
      ensures Books()
      ensures Crew() == if ok then old(Crew()) + [Newcomer(id)] else old(Crew())
      ensures ok ==> given == old(given) + multiset{id} && IdBag(Crew()) == old(IdBag(Crew())) + multiset{id}
      ensures !ok ==> given == old(given)
    {
      if nsparks >= MAX_SPARKS || nsparks >= SPARKS_PER_WARD { return false; }
      var s := Newcomer(id);
      ArrivalBalances(Held(), Crew(), ledger, s);
      IdsAppend(Crew(), s);
      sparks[nsparks] := s;
      nsparks := nsparks + 1;
      given := given + multiset{id};
      assert Crew() == old(Crew()) + [s];
      return true;
    }

    /** build_venue: refused unless it exists, is affordable and is unbuilt. */
    method BuildVenue(i: int) returns (ok: bool)
      requires Books()
      modifies this`treasury, this`spent, this`built, this`ledger
      ensures ok <==> 0 <= i < NVENUES && old(treasury) >= COSTS[i] && old(built)[i] == 0
      ensures Books()
      ensures ok ==>
        treasury == old(treasury) - COSTS[i] && spent == old(spent) + COSTS[i] && built == old(built)[i := cycle]
      ensures !ok ==> treasury == old(treasury) && spent == old(spent) && built == old(built) && ledger == old(ledger)
    {
      if i < 0 || i >= NVENUES { return false; }
      if treasury < COSTS[i] { return false; }
      if built[i] != 0 { return false; }
      var e := Entry(cycle, CommissionPaid, -COSTS[i], -1);
      EntryBalances(Held(), Crew(), ledger, Held().(treasury := treasury - COSTS[i], spent := spent + COSTS[i]), e);
      treasury := treasury - COSTS[i];
      spent := spent + COSTS[i];
      built := built[i := cycle];
      ledger := ledger + [e];
      return true;
    }

    function Room(): nat
      reads this
    {
      if nsparks < SPARKS_PER_WARD then SPARKS_PER_WARD - nsparks else 0
    }

    /** What the Queen is shown when she decides. */
    ghost function View(): QueenPlanner.Ward
      requires Shaped()
      reads this, sparks
    {
      QueenPlanner.View(built, COSTS, treasury, 25 * nsparks, cycle, MaxWear(Crew()), Room())
    }

    method WorstWear() returns (w: int)
      requires Shaped()
      ensures w == MaxWear(Crew())
    {
      w := 0;
      var i := 0;
      while i < nsparks
        invariant 0 <= i <= nsparks && w == MaxWear(sparks[..i])
      {
        assert sparks[..i + 1][..i] == sparks[..i];
        if sparks[i].wear > w { w := sparks[i].wear; }
        i := i + 1;
      }
    }

    /** Wear that cannot wait: some Frame is at 60 or beyond. */
    ghost predicate WornOut()
      requires Shaped()
      reads this, sparks
    {
      exists s <- Crew() :: s.wear >= 60
    }

    /** Unbuilt, and affordable above the wages of a cycle. */
    ghost predicate InReach(i: int)
      requires Shaped()
      reads this
    {
      0 <= i < NVENUES && built[i] == 0 && treasury >= COSTS[i] + 25 * nsparks
    }

    /**
     The venue whose turn it is: the Den at once for a worn Frame; else the Rails before the Plaza; once both
     stand the Den, the Tavern and the Chapel in that order; once they stand the Row, while there is room.
    */
    ghost predicate Due(i: int)
      requires Shaped()
      reads this, sparks
    {
      InReach(i) &&
      if WornOut() && InReach(1) then i == 1
      else if built[2] == 0 || built[3] == 0 then i == 2 || (i == 3 && !InReach(2))
      else if built[1] == 0 || built[0] == 0 || built[4] == 0 then
        i == 1 || (i == 0 && !InReach(1)) || (i == 4 && !InReach(1) && !InReach(0))
      else i == 5 && nsparks < SPARKS_PER_WARD
    }

    /** What was due before was built, and nothing else. */
    twostate predicate BuiltAsDue(built0: seq<int>)
      requires old(Shaped()) && |built0| == NVENUES
      reads this`built, this`cycle
    {
      && (forall i: int :: old(Due(i)) ==> 0 <= i < |built0| && built == built0[i := cycle])
      && ((forall i: int :: !old(Due(i))) ==> built == built0)
      && (old(WornOut() && InReach(1)) ==> built == built0[1 := cycle])
    }

    /** What the planner decides, in the ward's own terms. */
    lemma DecidedForTheWard(d: Option<int>)
      requires Shaped() && d == QueenPlanner.Decision(View())
      ensures forall i :: d == Some(i) <==> Due(i)
      ensures WornOut() && InReach(1) ==> d == Some(1)
      ensures !WornOut() && InReach(2) ==> d == Some(2)
      ensures (forall v :: 0 <= v < 5 ==> built[v] != 0) ==>
        d == if nsparks < SPARKS_PER_WARD && InReach(5) then Some(5) else None
    {
      MaxWearIsLargest(Crew());
    }

    /** commission: the planner is asked once, and what it names is built. It always can be. */
    method Commission() returns (answered: bool)
      requires Books() && cycle >= 1
      modifies this`treasury, this`spent, this`built, this`ledger
      ensures Books() && answered
      ensures var d := QueenPlanner.Decision(old(View()));
        if d.Some? then 0 <= d.value < NVENUES && spent == old(spent) + COSTS[d.value]
          && built == old(built)[d.value := cycle]
        else spent == old(spent) && built == old(built)
      ensures treasury >= 25 * nsparks || treasury == old(treasury)
      ensures forall i :: old(Due(i)) ==> built == old(built)[i := cycle]
      ensures (forall i :: !old(Due(i))) ==> built == old(built)
      ensures old(WornOut() && InReach(1)) ==> built == old(built)[1 := cycle]
      ensures old(!WornOut() && InReach(2)) ==> built == old(built)[2 := cycle]
      ensures old(forall v :: 0 <= v < 5 ==> built[v] != 0) ==>
        built == if old(nsparks < SPARKS_PER_WARD && InReach(5)) then old(built)[5 := cycle] else old(built)
    {
      hide QueenPlanner.Decision, Balanced;
      DecidedForTheWard(QueenPlanner.Decision(View()));
      var wear := WorstWear();
      var view: QueenPlanner.Ward := QueenPlanner.View(built, COSTS, treasury, 25 * nsparks, cycle, wear, Room());
      var ok, i := QueenPlanner.QueenPlan(view);
      if !ok { return false; }
      if i < 0 || i >= NVENUES { return true; }
      var done := BuildVenue(i);
      return true;
    }

    /** A number below n, from the dice. */
    method Below(n: nat) returns (v: nat)
      requires n > 0
      modifies this`drawn
      ensures v < n && v == dice(old(drawn)) % n && drawn == old(drawn) + 1
    {
      v := dice(drawn) % n;
      drawn := drawn + 1;
    }

    /** A contract as it can be posted. */
    ghost predicate Posted(c: Contract) {
      c.taken == -1 && c.outcome == None && 10 <= c.risk < 65 && 23 <= c.payout
    }

    /** The contract three draws make: riskier work pays more, and the Plaza pays a quarter more. */
    function ContractOf(d: nat, plaza: bool): Contract {
      var risk := 10 + dice(d + 1) % 55;
      var base := 18 + risk / 2 + dice(d + 2) % 20;
      Contract(if plaza then base + base / 4 else base, risk, -1, None)
    }

    /** post_board */
    method PostBoard()
      requires Shaped()
      modifies this`drawn, this`board
      ensures |board| == BOARD_SIZE + (if built[2] != 0 then 3 else 0) && drawn == old(drawn) + 3 * |board|
      ensures forall i :: 0 <= i < |board| ==> board[i] == ContractOf(old(drawn) + 3 * i, built[3] != 0)
      ensures forall i :: 0 <= i < |board| ==> var d := old(drawn) + 3 * i;
                board[i].risk == 10 + dice(d + 1) % 55 && board[i].payout ==
                  (var base := 18 + board[i].risk / 2 + dice(d + 2) % 20;
                   if built[3] != 0 then base + base / 4 else base)
      ensures forall c <- board :: Posted(c)
    {
      var n := BOARD_SIZE + (if built[2] != 0 then 3 else 0);
      board := [];
      var i := 0;
      while i < n
        invariant 0 <= i <= n && |board| == i && drawn == old(drawn) + 3 * i
        invariant forall k :: 0 <= k < i ==> board[k] == ContractOf(old(drawn) + 3 * k, built[3] != 0)
      {
        var kind := Below(9);
        var risk := Below(55);
        risk := 10 + risk;
        var extra := Below(20);
        var payout := 18 + risk / 2 + extra;
        if built[3] != 0 { payout := payout + payout / 4; }
        board := board + [Contract(payout, risk, -1, None)];
        i := i + 1;
      }
      forall k | 0 <= k < |board| ensures Posted(board[k]) { WorthPosting(old(drawn) + 3 * k, built[3] != 0); }
    }

    lemma WorthPosting(d: nat, plaza: bool)
      ensures Posted(ContractOf(d, plaza))
    {
    }

    function Nerve(s: Spark): int
      requires |built| == NVENUES
      reads this
    {
      100 - s.wear + (if built[0] != 0 then 25 else 0) + (if built[4] != 0 then 20 else 0)
    }

    /** choose: the first of the best untaken contracts, marked as taken; nothing when all are taken. */
    method Choose(s: Spark) returns (r: Option<nat>)
      requires |built| == NVENUES
      modifies this`board
      ensures r.None? ==> board == old(board) && forall c <- board :: c.taken != -1
      ensures r.Some? ==>
        && r.value < |old(board)| && old(board)[r.value].taken == -1
        && board == old(board)[r.value := old(board)[r.value].(taken := s.id)]
      ensures var nerve := 100 - s.wear + (if built[0] != 0 then 25 else 0) + (if built[4] != 0 then 20 else 0);
        r.Some? ==> forall j :: 0 <= j < |board| && old(board)[j].taken == -1 ==>
          && Score(old(board)[j], nerve) <= Score(old(board)[r.value], nerve)
          && (j < r.value ==> Score(old(board)[j], nerve) < Score(old(board)[r.value], nerve))
    {
      var nerve := Nerve(s);
      r := None;
      var j := 0;
      while j < |board|
        invariant 0 <= j <= |board|
        invariant r.None? ==> forall c <- board[..j] :: c.taken != -1
        invariant r.Some? ==> r.value < j && IsChoice(board[..j], nerve, r.value)
      {
        if board[j].taken == -1 && (r.None? || Score(board[j], nerve) > Score(board[r.value], nerve)) {
          r := Some(j);
        }
        j := j + 1;
      }
      assert board[..j] == board;
      if r.Some? { board := board[r.value := board[r.value].(taken := s.id)]; }
    }

    // ---- Paying ----

    /** pay: the purse and the ledger move in the databases first, then in memory. */
    method Pay(grp: seq<Party>, i: nat, amount: int, item: Option<string>) returns (ok: bool, joined: seq<Party>)
      requires Shaped() && i < nsparks
      modifies this`treasury, this`ledger, sparks
      ensures ok <==>
        (SparkAt(i) in grp || |grp| < TXN_MAX_PARTS) && (item.Some? ==> item.value !in old(Crew())[i].db.held)
      ensures Widened(grp, joined, i) && (SparkAt(i) in grp ==> joined == grp)
      ensures ok ==>
        treasury == old(treasury) - amount && ledger == old(ledger) + [Entry(cycle, Wages, -amount, old(Crew())[i].id)]
      ensures ok ==> Crew() == old(Crew())[i := Paid(old(Crew())[i], amount, item)]
      ensures ok ==> SparkAt(i) in joined
      ensures !ok ==> treasury == old(treasury) && SameMemory(old(Crew()), Crew())
    {
      ok, joined := Join(grp, SparkAt(i));
      if !ok { return; }
      var s := sparks[i];
      ledger := ledger + [Entry(cycle, Wages, -amount, s.id)];
      sparks[i] := s.(db := s.db.(purse := s.db.purse + amount));
      if item.Some? {
        if item.value in s.db.held { return false, joined; }
        sparks[i] := sparks[i].(db := sparks[i].db.(held := s.db.held + [item.value]));
      }
      treasury := treasury - amount;
      sparks[i] := sparks[i].(purse := s.purse + amount);
      assert item.None? ==> s.db.held + [] == s.db.held;
      assert Crew() == old(Crew())[i := Paid(old(Crew())[i], amount, item)];
    }

    static function Paid(s: Spark, amount: int, item: Option<string>): Spark {
      Spark(s.id, s.purse + amount, s.wear,
            SparkDb(s.db.purse + amount, s.db.wear, s.db.held + (if item.Some? then [item.value] else [])))
    }

    /** The same Sparks as the process remembers them, whatever their databases hold. */
    static ghost predicate SameMemory(a: seq<Spark>, b: seq<Spark>) {
      |a| == |b| && forall i :: 0 <= i < |a| ==> a[i] == b[i].(db := a[i].db)
    }

    /**
     pay_alone: the payment in a group of its own. One that does not land is taken back in memory
     alone. If the record failed, the connections go on holding the payment, and `honest` is off by
     its amount.
    */
    method PayAlone(i: nat, amount: int, fate: Fate) returns (ok: bool)
      requires Books() && i < nsparks && amount <= treasury
      modifies this`treasury, this`ledger, sparks
      ensures ok <==> Landed([TheWard, SparkAt(i)], fate)
      ensures ok ==> Books() && treasury == old(treasury) - amount
                     && Crew() == old(Crew())[i := Paid(old(Crew())[i], amount, None)]
      ensures !ok ==> Remembered() && treasury == old(treasury) && SameMemory(old(Crew()), Crew())
      ensures !ok ==> var keep := KeptBy([TheWard, SparkAt(i)], fate);
        && Crew()[i].db == (if SparkAt(i) in keep then Paid(old(Crew())[i], amount, None).db else old(Crew())[i].db)
        && Crew() == old(Crew())[i := Crew()[i]]
        && ledger == old(ledger) + (if TheWard in keep then [Entry(cycle, Wages, -amount, Crew()[i].id)] else [])
      ensures !ok ==> (SumHolds() <==> fate.CommitFails? || amount == 0)
    {
      hide Balanced, SumHolds, KeptBy, Landed;
      var savedLedger, saved := ledger, sparks[i].db;
      ghost var crew, m := Crew(), Held();
      BooksRemembered();
      RememberedIs(m, crew);
      var joined := PayTogether(i, amount);
      ok := Landed(joined, fate);
      if ok { return; }
      var keep := KeptBy(joined, fate);
      if TheWard !in keep { ledger := savedLedger; }
      TakeBack(i, amount, SparkAt(i) in keep, saved);
      SumMoves(m, crew, i, Crew());
      WhoKept(i, fate);
      RememberAgain(m, crew);
    }

    /** The payment inside its group of two, before the commit. */
    method PayTogether(i: nat, amount: int) returns (joined: seq<Party>)
      requires Books() && i < nsparks && amount <= treasury
      modifies this`treasury, this`ledger, sparks
      ensures joined == [TheWard, SparkAt(i)] && Books() && treasury == old(treasury) - amount
      ensures ledger == old(ledger) + [Entry(cycle, Wages, -amount, old(Crew())[i].id)]
      ensures Crew() == old(Crew())[i := Paid(old(Crew())[i], amount, None)]
      ensures old(treasury + Total(Crew(), PurseOf) + retired + spent == issued)
    {
      hide Balanced;
      ghost var crew, m, e := Crew(), Held(), Entry(cycle, Wages, -amount, Crew()[i].id);
      BooksRemembered();
      var _, grp := Join([], TheWard);
      var _, both := Pay(grp, i, amount, None);
      joined := both;
      PaidIsOk(m, crew, old(ledger), i, amount, None);
      PayBalances(m, crew, old(ledger), i, Paid(crew[i], amount, None), Held(), Crew(), e);
    }

    /** Only a failed record leaves the Spark's part standing. */
    static lemma WhoKept(i: nat, fate: Fate)
      ensures var grp := [TheWard, SparkAt(i)];
        !Landed(grp, fate) ==>
          (SparkAt(i) in KeptBy(grp, fate) <==> fate.RecordFails?) && (fate.RecordFails? || fate.CommitFails?)
    {
    }

    /** The memory is put back; the Spark's database only if it was rolled back. */
    method TakeBack(i: nat, amount: int, kept: bool, saved: SparkDb)
      requires Shaped() && i < nsparks
      modifies this`treasury, sparks
      ensures treasury == old(treasury) + amount
      ensures var s := old(Crew())[i];
        Crew() == old(Crew())[i := s.(purse := s.purse - amount, db := if kept then s.db else saved)]
    {
      if !kept { sparks[i] := sparks[i].(db := saved); }
      treasury := treasury + amount;
      sparks[i] := sparks[i].(purse := sparks[i].purse - amount);
      assert Crew() == old(Crew())[i := sparks[i]];
    }

    /** The sum is off by as much as one purse is. */
    lemma SumMoves(m: Money, crew: seq<Spark>, i: nat, now: seq<Spark>)
      requires Shaped() && now == Crew() && i < |crew| == |now| && now == crew[i := now[i]]
      requires m == Held().(debt := m.debt, found := m.found)
      requires m.treasury + Total(crew, PurseOf) + m.retired + m.spent == m.issued
      ensures SumHolds() <==> now[i].db.purse == crew[i].db.purse
    {
      TotalUpdate(crew, i, now[i], PurseOf);
    }

    static lemma PaidIsOk(m: Money, crew: seq<Spark>, ledger: seq<Entry>, i: nat, amount: int, item: Option<string>)
      requires Balanced(m, crew, ledger) && i < |crew|
      ensures SparkOk(crew[i]) && SparkOk(Paid(crew[i], amount, item))
    {
    }

    /** The payment can be asked for: the Spark is here and the treasury reaches it. */
    ghost predicate Asked(who: int, amount: int)
      requires Shaped()
      reads this, sparks
    {
      0 < amount <= treasury && exists i :: 0 <= i < nsparks && Crew()[i].id == who
    }

    /** The command "pay": refused unless the Spark is here and the treasury can reach it. */
    method PayCommand(who: int, amount: int, fate: Fate) returns (ok: bool, refused: bool)
      requires Books()
      modifies this`treasury, this`ledger, sparks
      ensures refused <==> !old(Asked(who, amount))
      ensures ok <==> !refused && (fate.Lands? || (fate.CommitFails? && fate.at >= 2))
      ensures refused ==> Books() && Crew() == old(Crew()) && ledger == old(ledger)
      ensures ok ==> Books() && treasury == old(treasury) - amount
      ensures !ok ==> treasury == old(treasury)
      ensures !ok && !refused ==> Remembered() && SameMemory(old(Crew()), Crew())
      ensures !ok && !refused ==> (SumHolds() <==> !fate.RecordFails?)
      ensures !ok ==> (Asked(who, amount) <==> !refused)
      ensures Shaped() && SameSparks(old(Crew()), Crew())
    {
      hide Balanced, SumHolds;
      var at, i := -1, 0;
      while i < nsparks
        invariant 0 <= i <= nsparks && -1 <= at < i
        invariant at >= 0 ==> sparks[at].id == who
        invariant at < 0 ==> forall j :: 0 <= j < i ==> sparks[j].id != who
      {
        if sparks[i].id == who { at := i; }
        i := i + 1;
      }
      if at < 0 || amount <= 0 || treasury < amount { return false, true; }
      assert Crew()[at].id == who;
      refused := false;
      ok := PayAlone(at, amount, fate);
    }

    // ---- A cycle ----

    /** Names this ward has yet to draw are in no Spark's hands. */
    ghost predicate FreshNames(crew: seq<Spark>, from: nat, atCycle: int)
      reads this`wardNo
    {
      forall q: nat, i :: from <= q && 0 <= i < |crew| ==> names(wardNo, atCycle, q) !in crew[i].db.held
    }

    /** The names the next cycle can draw are in nobody's hands. */
    ghost predicate Fresh()
      requires Shaped()
      reads this, sparks
    {
      FreshNames(Crew(), seq_, cycle + 1)
    }

    /** The last name drawn was in somebody's hands already: what makes a cycle give up. */
    ghost predicate Repeated()
      requires Shaped()
      reads this, sparks
    {
      seq_ > 0 && exists i :: 0 <= i < nsparks && names(wardNo, cycle, seq_ - 1) in Crew()[i].db.held
    }

    /** A cycle gave up: over a repeated name, and with a find in nobody's hands. */
    ghost predicate GivenUp()
      requires Shaped()
      reads this, sparks
    {
      Repeated() && Total(Crew(), ItemsOf) < found
    }

    /** Every roll keeps its contract. */
    ghost predicate Lucky() { forall d: nat :: dice(d) % 100 >= 65 }

    /** The same Sparks with the same purses in memory. */
    static ghost predicate SamePurses(a: seq<Spark>, b: seq<Spark>) {
      |a| == |b| && forall i :: 0 <= i < |a| ==> a[i].purse == b[i].purse && a[i].id == b[i].id
    }

    /** The same Spark, with no less than before in their purse or in their hands. */
    static predicate NoLess(was: Spark, now: Spark) {
      was.id == now.id && was.purse <= now.purse && |was.db.held| <= |now.db.held|
    }

    /** The Spark after the contract: worn in both places, and paid in both if paid. */
    static function Worked(s: Spark, wear: int, wage: int, item: Option<string>): Spark {
      var held := s.db.held + (if item.Some? then [item.value] else []);
      Spark(s.id, s.purse + wage, wear, SparkDb(s.db.purse + wage, wear, held))
    }

    /** A share of what was earned, or the flat wage of a failure; nothing if the treasury will not reach. */
    static function WageOf(won: bool, payout: int, treasury: int): (r: int)
      ensures r == 0 || 0 < r <= treasury
      ensures won && 2 <= payout && payout <= 2 * treasury ==> 2 * r == payout - payout % 2
      ensures !won ==> (r == 4 <==> treasury >= 4) && (r == 0 <==> treasury < 4)
    {
      var wage := if won then payout / 2 else 4;
      if wage > 0 && treasury >= wage then wage else 0
    }

    /** The group, with at most this Spark added. */
    static predicate Widened(grp: seq<Party>, joined: seq<Party>, i: nat) {
      joined == grp || joined == grp + [SparkAt(i)]
    }

    /** What one Spark's contract does to every field. */
    method Perform(i: nat, k: nat, grp: seq<Party>) returns (ok: bool, joined: seq<Party>, won: bool)
      requires Shaped() && i < nsparks && k < |board| && |grp| < TXN_MAX_PARTS
      modifies this`drawn, this`treasury, this`issued, this`found, this`seq_, this`ledger, this`board, sparks
      ensures var earned := if won then old(board)[k].payout else 0;
        ok <==> !(won && WageOf(won, old(board)[k].payout, old(treasury) + earned) > 0
                  && names(wardNo, cycle, old(seq_)) in old(Crew())[i].db.held)
      ensures Widened(grp, joined, i) && drawn == old(drawn) + 1
      ensures won <==> dice(old(drawn)) % 100 >= old(board)[k].risk
      ensures board == old(board)[k := old(board)[k].(outcome := Some(if won then Kept else Lost))]
      ensures seq_ == old(seq_) + (if won then 1 else 0) && found == old(found) + (if won then 1 else 0)
      ensures ok ==>
        Performed(won, old(board)[k].payout, old(Crew())[i], Crew()[i], old(treasury), old(ledger), old(seq_),
          old(issued))
      ensures ok ==> Crew() == old(Crew())[i := Crew()[i]] && SparkAt(i) in joined
      ensures !ok ==> treasury == old(treasury) + old(board)[k].payout && issued == old(issued) + old(board)[k].payout
                      && SamePurses(old(Crew()), Crew())
    {
      ghost var crew := Crew();
      var payout, risk := board[k].payout, board[k].risk;
      var roll := Below(100);
      won := roll >= risk;
      var item: Option<string> := None;
      if won {
        item := Some(names(wardNo, cycle, seq_));
        Earn(i, payout);
      }
      board := board[k := board[k].(outcome := Some(if won then Kept else Lost))];
      assert Crew() == crew;
      ok, joined := Settle(i, Worn(sparks[i].wear, won, built[1] != 0), WageOf(won, payout, treasury), item, grp);
    }

    /** The Frame wears in memory, the Spark is paid if a wage is due, and their row is written. */
    method Settle(i: nat, wear: int, wage: int, item: Option<string>, grp: seq<Party>) returns (ok: bool,
                  joined: seq<Party>)
      requires Shaped() && i < nsparks && |grp| < TXN_MAX_PARTS && wage >= 0
      modifies this`treasury, this`ledger, sparks
      ensures Widened(grp, joined, i)
      ensures ok <==> (wage > 0 && item.Some? ==> item.value !in old(Crew())[i].db.held)
      ensures ok ==> treasury == old(treasury) - wage && SparkAt(i) in joined
      ensures !ok ==> treasury == old(treasury) && SamePurses(old(Crew()), Crew())
      ensures ok ==> ledger == old(ledger) + (if wage > 0 then [Entry(cycle, Wages, -wage, old(Crew())[i].id)] else [])
      ensures ok ==> Crew() == old(Crew())[i := Worked(old(Crew())[i], wear, wage, if wage > 0 then item else None)]
    {
      ghost var crew := Crew();
      sparks[i] := sparks[i].(wear := wear);
      assert Crew() == crew[i := crew[i].(wear := wear)];
      joined := grp;
      if wage > 0 {
        ok, joined := Pay(grp, i, wage, item);
        if !ok { return; }
      }
      ok, joined := Join(joined, SparkAt(i));
      sparks[i] := sparks[i].(db := sparks[i].db.(wear := wear));
      assert wage == 0 ==> crew[i].db.held + [] == crew[i].db.held;
      assert Crew() == crew[i := Worked(crew[i], wear, wage, if wage > 0 then item else None)];
    }

    ghost predicate Performed(won: bool, payout: int, was: Spark, now: Spark, treasury0: int, ledger0: seq<Entry>,
                              seq0: nat, issued0: int)
      requires |built| == NVENUES
      reads this
    {
      var earned := if won then payout else 0;
      var wage := WageOf(won, payout, treasury0 + earned);
      && issued == issued0 + earned && treasury == treasury0 + earned - wage
      && now == Worked(was, Worn(was.wear, won, built[1] != 0), wage,
                       if won && wage > 0 then Some(names(wardNo, cycle, seq0)) else None)
      && ledger == ledger0 + (if won then [Entry(cycle, Salvage, earned, was.id)] else [])
                           + (if wage > 0 then [Entry(cycle, Wages, -wage, was.id)] else [])
    }

    /** Whatever the roll, a contract worth posting leaves the books balanced: a find is always paid out. */
    lemma PerformBalances(won: bool, payout: int, i: nat, now: Spark, m: Money, crew: seq<Spark>, led: seq<Entry>,
                          seq0: nat)
      requires |built| == NVENUES && Balanced(m, crew, led) && i < |crew| && payout >= 23
      requires Performed(won, payout, crew[i], now, m.treasury, led, seq0, m.issued)
      requires found == m.found + (if won then 1 else 0)
      requires debt == m.debt && retired == m.retired && spent == m.spent
      ensures Balanced(Held(), crew[i := now], ledger)
    {
      hide Balanced;
      PaidIsOk(m, crew, led, i, 0, None);
      MoneyIn(m, crew, led);
      var earned := if won then payout else 0;
      var wage := WageOf(won, payout, m.treasury + earned);
      var m1 := m.(treasury := m.treasury + earned, issued := issued);
      var led1 := led + (if won then [Entry(cycle, Salvage, earned, crew[i].id)] else []);
      EarnBalances(m, crew, led, won, m1, led1, Entry(cycle, Salvage, earned, crew[i].id));
      if wage > 0 {
        PayBalances(m1, crew, led1, i, now, Held(), crew[i := now], Entry(cycle, Wages, -wage, crew[i].id));
      } else {
        assert led1 + [] == led1 == ledger;
        SparkKeepsBalance(m1, crew, led1, i, now);
      }
    }

    /** What is earned is issued and entered, so it balances. */
    static lemma EarnBalances(m: Money, crew: seq<Spark>, led: seq<Entry>, won: bool, m1: Money, led1: seq<Entry>,
                              e: Entry)
      requires Balanced(m, crew, led) && e.what == Salvage && e.amount >= 0 && (!won ==> e.amount == 0)
      requires m1 == m.(treasury := m.treasury + e.amount, issued := m.issued + e.amount)
      requires led1 == led + (if won then [e] else [])
      ensures Balanced(m1, crew, led1)
    {
      if won {
        MoneyIn(m, crew, led);
        EntryBalances(m, crew, led, m1, e);
      } else {
        assert led1 == led && m1 == m;
      }
    }

    /** A contract that stopped the cycle: the name drawn was in the Spark's hands, and no purse has moved. */
    twostate predicate Slipped(i: nat)
      requires old(Shaped()) && Shaped() && i < old(nsparks)
      reads this, sparks
    {
      && seq_ == old(seq_) + 1 && names(wardNo, cycle, old(seq_)) in old(Crew())[i].db.held
      && treasury - issued == old(treasury) - old(issued) && treasury >= old(treasury) && found == old(found) + 1
      && SamePurses(old(Crew()), Crew())
    }

    /** One Spark's contract, once chosen. Only a salvage name already in their hands stops it. */
    method Work(i: nat, k: nat, grp: seq<Party>) returns (ok: bool, joined: seq<Party>, won: bool)
      requires Books() && i < nsparks && k < |board| && board[k].payout >= 23 && |grp| < TXN_MAX_PARTS
      modifies this`drawn, this`treasury, this`issued, this`found, this`seq_, this`ledger, this`board, sparks
      ensures won <==> dice(old(drawn)) % 100 >= old(board)[k].risk
      ensures ok <==> !(won && names(wardNo, cycle, old(seq_)) in old(Crew())[i].db.held)
      ensures Widened(grp, joined, i) && seq_ == old(seq_) + (if won then 1 else 0) && drawn == old(drawn) + 1
      ensures ok ==> Books() && Crew() == old(Crew())[i := Crew()[i]] && SparkAt(i) in joined
      ensures ok ==> NoLess(old(Crew())[i], Crew()[i]) && (won ==> Crew()[i].purse > old(Crew())[i].purse)
      ensures ok ==> board == old(board)[k := old(board)[k].(outcome := Some(if won then Kept else Lost))]
      ensures ok ==>
        issued == old(issued) + (if won then old(board)[k].payout else 0)
          && found == old(found) + (if won then 1 else 0)
      ensures !ok ==> Slipped(i)
    {
      hide Balanced, Performed;
      ghost var crew, m, led, seq0, pay := Crew(), Held(), ledger, seq_, board[k].payout;
      MoneyIn(m, crew, led);
      ok, joined, won := Perform(i, k, grp);
      if ok {
        PerformBalances(won, pay, i, Crew()[i], m, crew, led, seq0);
        PerformIssues(won, pay, crew[i], Crew()[i], m, led, seq0);
      }
    }

    lemma PerformIssues(won: bool, payout: int, was: Spark, now: Spark, m: Money, led: seq<Entry>, seq0: nat)
      requires |built| == NVENUES && Performed(won, payout, was, now, m.treasury, led, seq0, m.issued)
      requires payout >= 23 && m.treasury >= 0
      ensures issued == m.issued + (if won then payout else 0)
      ensures NoLess(was, now) && (won ==> now.purse > was.purse)
    {
    }

    /** What is owed is not held, so it can grow without touching the books. */
    static lemma Compounded(m: Money, crew: seq<Spark>, ledger: seq<Entry>)
      requires Balanced(m, crew, ledger)
      ensures Balanced(m.(debt := m.debt + m.debt / 100), crew, ledger)
    {
    }

    static lemma MoneyIn(m: Money, crew: seq<Spark>, ledger: seq<Entry>)
      requires Balanced(m, crew, ledger)
      ensures m.treasury >= 0 && m.debt >= 0
    {
    }

    /** What the contract paid, if it was kept: the only thing that makes scrip. */
    method Earn(i: nat, payout: int)
      requires Shaped() && i < nsparks
      modifies this`treasury, this`issued, this`found, this`seq_, this`ledger
      ensures treasury == old(treasury) + payout && issued == old(issued) + payout
      ensures found == old(found) + 1 && seq_ == old(seq_) + 1
      ensures ledger == old(ledger) + [Entry(cycle, Salvage, payout, Crew()[i].id)]
    {
      treasury := treasury + payout;
      issued := issued + payout;
      seq_ := seq_ + 1;
      found := found + 1;
      ledger := ledger + [Entry(cycle, Salvage, payout, sparks[i].id)];
    }

    /** Contracts not yet taken are as they were posted. */
    ghost predicate BoardOk() reads this {
      |board| <= BOARD_SIZE + 3 && forall c <- board :: c.taken == -1 ==> Posted(c)
    }

    static lemma BoardMoves(b: seq<Contract>, k: nat, id: int, o: Outcome)
      requires k < |b| && b[k].taken == -1 && b[k].outcome == None && id >= 0
      ensures var b' := b[k := b[k].(taken := id, outcome := Some(o))];
        && Total(b', OneIfTaken) == Total(b, OneIfTaken) + 1
        && Total(b', PayIfKept) == Total(b, PayIfKept) + (if o == Kept then b[k].payout else 0)
        && Total(b', OneIfKept) == Total(b, OneIfKept) + (if o == Kept then 1 else 0)
    {
      var c := b[k].(taken := id, outcome := Some(o));
      TotalUpdate(b, k, c, OneIfTaken);
      TotalUpdate(b, k, c, PayIfKept);
      TotalUpdate(b, k, c, OneIfKept);
    }

    static lemma TakenAtMost(b: seq<Contract>)
      ensures Total(b, OneIfTaken) <= |b|
    {
      TotalAtMost(b, OneIfTaken, 1);
    }

    static lemma {:induction false} SomeLeft(b: seq<Contract>)
      requires Total(b, OneIfTaken) < |b|
      ensures exists c <- b :: c.taken == -1
    {
      if b[|b| - 1].taken != -1 {
        SomeLeft(b[..|b| - 1]);
        var c :| c in b[..|b| - 1] && c.taken == -1;
        assert c in b;
      } else {
        assert b[|b| - 1] in b;
      }
    }

    /** One Spark's turn: a contract if one is left. A Spark joins the group only by taking one. */
    method Turn(i: nat, grp: seq<Party>) returns (ok: bool, joined: seq<Party>)
      requires Books() && i < nsparks && BoardOk() && |grp| == 1 + Total(board, OneIfTaken) && Before(grp, i)
      modifies this`drawn, this`treasury, this`issued, this`found, this`seq_, this`ledger, this`board, sparks
      ensures seq_ >= old(seq_) && found >= old(found) && |joined| <= 1 + |old(board)| && Widened(grp, joined, i)
      ensures ok ==> Books() && Crew() == old(Crew())[i := Crew()[i]] && NoLess(old(Crew())[i], Crew()[i])
      ensures ok ==> SparkAt(i) in joined || Crew()[i] == old(Crew())[i]
      ensures ok ==> BoardOk() && |board| == |old(board)| && |joined| == 1 + Total(board, OneIfTaken)
      ensures Before(joined, i + 1)
      ensures ok ==> issued - Total(board, PayIfKept) == old(issued) - Total(old(board), PayIfKept)
      ensures ok ==> found - Total(board, OneIfKept) == old(found) - Total(old(board), OneIfKept)
      ensures !ok ==> Slipped(i)
      ensures Lucky() && Total(old(board), OneIfTaken) < |old(board)| ==>
        && (ok <==> names(wardNo, cycle, old(seq_)) !in old(Crew())[i].db.held)
        && (ok ==> Won(i, old(seq_), old(Crew())[i], Total(old(board), OneIfTaken)))
    {
      hide Balanced, Total;
      TakenAtMost(board);
      PaidIsOk(Held(), Crew(), ledger, i, 0, None);
      if Total(board, OneIfTaken) < |board| { SomeLeft(board); }
      var id := Choose(sparks[i]);
      if id.None? {
        assert Crew() == old(Crew())[i := Crew()[i]];
        return true, grp;
      }
      var k := id.value;
      assert old(board)[k] in old(board);
      BoardMoves(old(board), k, old(Crew())[i].id, Lost);
      TakenAtMost(old(board)[k := old(board)[k].(taken := old(Crew())[i].id, outcome := Some(Lost))]);
      var won: bool;
      ok, joined, won := Work(i, k, grp);
      if ok {
        ghost var o := if won then Kept else Lost;
        BoardMoves(old(board), k, old(Crew())[i].id, o);
        assert board == old(board)[k := old(board)[k].(taken := old(Crew())[i].id, outcome := Some(o))];
      }
    }

    /** The ward and Sparks in places before this one. */
    static ghost predicate Before(grp: seq<Party>, i: nat) {
      forall p <- grp :: p == TheWard || p.i < i
    }

    /** A contract was taken and kept, and its wage paid. */
    ghost predicate Won(i: nat, seq0: nat, was: Spark, taken0: int)
      requires Shaped() && i < nsparks
      reads this, sparks
    {
      seq_ == seq0 + 1 && Crew()[i].purse > was.purse && Total(board, OneIfTaken) == taken0 + 1
    }

    /** Nobody is poorer, and who is not in the group is as they were. */
    static ghost predicate Moved(was: seq<Spark>, now: seq<Spark>, grp: seq<Party>) {
      |was| == |now| && forall j :: 0 <= j < |was| ==> NoLess(was[j], now[j]) && (SparkAt(j) in grp || now[j] == was[j])
    }

    static ghost predicate NoPoorer(was: seq<Spark>, now: seq<Spark>) {
      |was| == |now| && forall j :: 0 <= j < |was| ==> was[j].purse <= now[j].purse && was[j].id == now[j].id
    }

    /** The last name drawn is in the hands of one of these. */
    ghost predicate Stuck(crew: seq<Spark>)
      reads this`seq_, this`wardNo, this`cycle
    {
      seq_ > 0 && exists j :: 0 <= j < |crew| && names(wardNo, cycle, seq_ - 1) in crew[j].db.held
    }

    /** The name the j-th find of this cycle would get is not in the j-th Spark's hands. */
    ghost predicate Clear(crew: seq<Spark>, seq0: nat, j: nat)
      requires j < |crew|
      reads this`wardNo, this`cycle
    {
      names(wardNo, cycle, seq0 + j) !in crew[j].db.held
    }

    /** The first n have each kept a contract and been paid for it. */
    ghost predicate AllPaid(was: seq<Spark>, now: seq<Spark>, seq0: nat, n: nat)
      reads this`wardNo, this`cycle
    {
      n <= |was| == |now| && forall j :: 0 <= j < n ==> Clear(was, seq0, j) && now[j].purse > was[j].purse
    }

    /** How a cycle of nothing but luck goes: all are paid, or all before the first whose name is not clear. */
    ghost predicate LuckyEnd(ok: bool, was: seq<Spark>, now: seq<Spark>, seq0: nat)
      reads this`wardNo, this`cycle
    {
      if ok then AllPaid(was, now, seq0, |was|)
      else exists n :: 0 <= n < |was| && AllPaid(was, now, seq0, n) && !Clear(was, seq0, n)
    }

    lemma PaidNext(was: seq<Spark>, mid: seq<Spark>, now: seq<Spark>, seq0: nat, i: nat)
      requires AllPaid(was, mid, seq0, i) && i < |was| && mid[i] == was[i] && Clear(was, seq0, i)
      requires |now| == |mid| && now == mid[i := now[i]] && now[i].purse > mid[i].purse
      ensures AllPaid(was, now, seq0, i + 1)
    {
    }

    lemma PaidThenStuck(was: seq<Spark>, mid: seq<Spark>, now: seq<Spark>, seq0: nat, i: nat)
      requires AllPaid(was, mid, seq0, i) && i < |was| && !Clear(was, seq0, i) && SamePurses(mid, now)
      ensures LuckyEnd(false, was, now, seq0)
    {
      assert AllPaid(was, now, seq0, i);
    }

    static lemma MovedNext(was: seq<Spark>, mid: seq<Spark>, now: seq<Spark>, grp: seq<Party>, joined: seq<Party>,
                           i: nat)
      requires Moved(was, mid, grp) && i < |was| && mid[i] == was[i] && Widened(grp, joined, i)
      requires |now| == |mid| && now == mid[i := now[i]] && NoLess(mid[i], now[i])
      requires SparkAt(i) in joined || now[i] == mid[i]
      ensures Moved(was, now, joined)
    {
    }

    static lemma MovedNoPoorer(was: seq<Spark>, mid: seq<Spark>, now: seq<Spark>, grp: seq<Party>)
      requires Moved(was, mid, grp) && SamePurses(mid, now)
      ensures NoPoorer(was, now)
    {
    }

    /** Every Spark in turn. What was issued and found is what the board says was kept. */
    method Turns(grp: seq<Party>) returns (ok: bool, joined: seq<Party>)
      requires Books() && grp == [TheWard] && |board| <= BOARD_SIZE + 3 && forall c <- board :: Posted(c)
      modifies this`drawn, this`treasury, this`issued, this`found, this`seq_, this`ledger, this`board, sparks
      ensures FreshNames(old(Crew()), old(seq_), cycle) ==> ok
      ensures grp <= joined && |joined| <= 1 + |old(board)| && NoPoorer(old(Crew()), Crew())
      ensures ok ==> |joined| == 1 + Total(board, OneIfTaken)
      ensures ok ==>
        Books() && issued == old(issued) + Total(board, PayIfKept) && found == old(found) + Total(board, OneIfKept)
      ensures ok ==> Moved(old(Crew()), Crew(), joined)
      ensures !ok ==> Remembered() && found > old(found) && Stuck(old(Crew()))
      ensures Lucky() && nsparks <= |old(board)| ==> LuckyEnd(ok, old(Crew()), Crew(), old(seq_))
    {
      hide Balanced, Total, Moved, NoPoorer, AllPaid, LuckyEnd, BoardOk, Lucky, FreshNames, Stuck, Remembered, SumHolds;
      ghost var crew, seq0, rows := Crew(), seq_, |board|;
      NobodyMoved(crew, grp);
      NothingTaken(board);
      joined := grp;
      var i := 0;
      while i < nsparks
        invariant 0 <= i <= nsparks && Books() && BoardOk() && |board| == rows && seq_ >= seq0 && found >= old(found)
        invariant grp <= joined && |joined| == 1 + Total(board, OneIfTaken) && Before(joined, i)
        invariant issued == old(issued) + Total(board, PayIfKept) && found == old(found) + Total(board, OneIfKept)
        invariant forall j :: i <= j < nsparks ==> Crew()[j] == crew[j]
        invariant Moved(crew, Crew(), joined)
        invariant Lucky() && nsparks <= rows ==>
          seq_ == seq0 + i && Total(board, OneIfTaken) == i && AllPaid(crew, Crew(), seq0, i)
      {
        ghost var mid, was, m := Crew(), joined, Held();
        BooksRemembered();
        RememberedIs(m, mid);
        ok, joined := Turn(i, joined);
        if !ok {
          RememberAgain(m, mid);
          MovedNoPoorer(crew, mid, Crew(), was);
          NotFresh(crew, i, seq0);
          if Lucky() && nsparks <= rows { PaidThenStuck(crew, mid, Crew(), seq0, i); }
          return;
        }
        MovedNext(crew, mid, Crew(), was, joined, i);
        if Lucky() && nsparks <= rows { PaidNext(crew, mid, Crew(), seq0, i); }
        i := i + 1;
      }
      TakenAtMost(board);
      MovedNoPoorer(crew, Crew(), Crew(), joined);
      if Lucky() && nsparks <= rows { LuckyAll(crew, Crew(), seq0); }
      ok := true;
    }

    lemma NobodyMoved(crew: seq<Spark>, grp: seq<Party>)
      ensures Moved(crew, crew, grp) && AllPaid(crew, crew, seq_, 0)
    {
    }

    lemma NothingTaken(b: seq<Contract>)
      requires |b| <= BOARD_SIZE + 3 && forall c <- b :: Posted(c)
      ensures Total(b, PayIfKept) == Total(b, OneIfKept) == Total(b, OneIfTaken) == 0
      ensures b == board ==> BoardOk()
    {
      TotalZero(b, PayIfKept);
      TotalZero(b, OneIfKept);
      TotalZero(b, OneIfTaken);
    }

    lemma RememberedIs(m: Money, mid: seq<Spark>)
      requires Remembered() && m == Held() && mid == Crew()
      ensures m.treasury + Total(mid, MindOf) + m.retired + m.spent == m.issued && m.treasury >= 0 && m.debt >= 0
    {
    }

    /** Earning without paying, or neither, leaves the memory adding up. */
    lemma RememberAgain(m: Money, mid: seq<Spark>)
      requires Shaped() && SamePurses(mid, Crew()) && m.treasury >= 0 && m.debt >= 0
      requires m.treasury + Total(mid, MindOf) + m.retired + m.spent == m.issued
      requires treasury - issued == m.treasury - m.issued && treasury >= m.treasury
      requires debt == m.debt && retired == m.retired && spent == m.spent
      ensures Remembered()
    {
      MindKept(mid, Crew());
    }

    lemma NotFresh(crew: seq<Spark>, i: nat, seq0: nat)
      requires i < |crew| && seq_ > seq0 && names(wardNo, cycle, seq_ - 1) in crew[i].db.held
      ensures Stuck(crew) && !FreshNames(crew, seq0, cycle)
    {
    }

    lemma LuckyAll(was: seq<Spark>, now: seq<Spark>, seq0: nat)
      requires AllPaid(was, now, seq0, |was|)
      ensures LuckyEnd(true, was, now, seq0)
    {
    }

    static lemma {:induction false} MindKept(a: seq<Spark>, b: seq<Spark>)
      requires SamePurses(a, b)
      ensures Total(a, MindOf) == Total(b, MindOf)
    {
      if a != [] { MindKept(a[..|a| - 1], b[..|b| - 1]); }
    }

    /** The Debt Clock compounds first and is paid second. */
    method DebtClock()
      requires Books()
      modifies this`treasury, this`debt, this`retired, this`ledger
      ensures Books()
      ensures debt + (retired - old(retired)) == old(debt) + old(debt) / 100 && retired >= old(retired)
      ensures treasury == old(treasury) - (retired - old(retired))
      ensures var owed, sixth := old(debt) + old(debt) / 100, old(treasury) / 6;
        retired - old(retired) == if sixth < owed then sixth else owed
    {
      hide Balanced;
      MoneyIn(Held(), Crew(), ledger);
      Compounded(Held(), Crew(), ledger);
      debt := debt + debt / 100;
      var paid := treasury / 6;
      if paid > debt { paid := debt; }
      if paid > 0 {
        ghost var m := Held();
        treasury := treasury - paid;
        debt := debt - paid;
        retired := retired + paid;
        EntryBalances(m, Crew(), ledger, Held(), Entry(cycle, DebtPaid, -paid, -1));
        ledger := ledger + [Entry(cycle, DebtPaid, -paid, -1)];
      }
    }

    /** ROLLBACK on every participant but those that have committed. The memory is not touched. */
    method Rollback(keep: seq<Party>, built0: seq<int>, board0: seq<Contract>, ledger0: seq<Entry>, dbs: seq<Spark>)
      requires Shaped() && |dbs| == nsparks && |built0| == NVENUES
      modifies this`built, this`board, this`ledger, sparks
      ensures Shaped() && SamePurses(old(Crew()), Crew())
      ensures TheWard !in keep ==> built == built0 && board == board0 && ledger == ledger0
      ensures TheWard in keep ==> built == old(built) && board == old(board) && ledger == old(ledger)
      ensures forall j :: 0 <= j < nsparks ==>
        Crew()[j].db == if SparkAt(j) in keep then old(Crew())[j].db else dbs[j].db
    {
      if TheWard !in keep { built, board, ledger := built0, board0, ledger0; }
      ghost var crew := Crew();
      var j := 0;
      while j < nsparks
        invariant 0 <= j <= nsparks
        invariant TheWard !in keep ==> built == built0 && board == board0 && ledger == ledger0
        invariant TheWard in keep ==> built == old(built) && board == old(board) && ledger == old(ledger)
        invariant forall t :: 0 <= t < nsparks ==>
          sparks[t] == if t < j && SparkAt(t) !in keep then crew[t].(db := dbs[t].db) else crew[t]
      {
        if SparkAt(j) !in keep { sparks[j] := sparks[j].(db := dbs[j].db); }
        j := j + 1;
      }
    }

    /** The Queen commissions, and the board is posted. */
    method Morning()
      requires Books() && cycle >= 1
      modifies this`drawn, this`treasury, this`spent, this`built, this`board, this`ledger
      ensures Books() && AsDecided(old(View()), old(spent), old(built))
      ensures BOARD_SIZE <= |board| <= BOARD_SIZE + 3 && forall c <- board :: Posted(c)
    {
      hide Balanced, QueenPlanner.Decision, Posted;
      ghost var view, spent0, built0 := View(), spent, built;
      var answered := Commission();
      assert answered && AsDecided(view, spent0, built0);
      hide AsDecided;
      PostBoard();
    }

    /** What happens inside the group of a cycle. */
    method Day() returns (ok: bool, grp: seq<Party>)
      requires Books() && cycle >= 1
      modifies this`drawn, this`treasury, this`debt, this`issued, this`found, this`retired, this`spent, this`seq_,
               this`built, this`board, this`ledger, sparks
      ensures [TheWard] <= grp && |grp| <= 10 && Shaped() && (old(FreshNames(Crew(), seq_, cycle)) ==> ok)
      ensures ok ==> Books()
      ensures ok ==> issued == old(issued) + Total(board, PayIfKept) && found == old(found) + Total(board, OneIfKept)
      ensures ok ==> debt + (retired - old(retired)) == old(debt) + old(debt) / 100 && retired >= old(retired)
      ensures AsDecided(old(View()), old(spent), old(built))
      ensures NoPoorer(old(Crew()), Crew()) && (ok ==> Moved(old(Crew()), Crew(), grp))
      ensures ok ==> |grp| == 1 + Total(board, OneIfTaken)
      ensures !ok ==> Remembered() && found > old(found) && Stuck(old(Crew()))
      ensures Lucky() && nsparks <= BOARD_SIZE ==> LuckyEnd(ok, old(Crew()), Crew(), old(seq_))
    {
      hide Balanced, Total, QueenPlanner.Decision, Posted, FreshNames, Moved, NoPoorer, LuckyEnd, Stuck, Lucky;
      hide AsDecided;
      var _, first := Join([], TheWard);
      ghost var crew := Crew();
      Morning();
      assert Crew() == crew;
      ok, grp := Turns(first);
      ghost var after := Crew();
      if ok { DebtClock(); }
      assert Crew() == after;
    }

    /** The venues and what they cost are as the closed form of the planner decides for this view. */
    ghost predicate AsDecided(view: QueenPlanner.Ward, spent0: int, built0: seq<int>)
      reads this`spent, this`built
    {
      var d := QueenPlanner.Decision(view);
      if d.Some? then 0 <= d.value < NVENUES == |built0| && spent == spent0 + COSTS[d.value]
        && built == built0[d.value := view.cycle]
      else spent == spent0 && built == built0
    }

    /**
     cycle: one group for the whole of it. A cycle that is done keeps the books, issues exactly
     what the board says was kept, builds what the planner decided, and holds at most ten of the
     group's sixteen places. It gives up only over a salvage name already in a Spark's hands: the
     planner always answers and the group is never full. However it ends, the memory adds up; and
     when it is not done, `honest` passes exactly when nobody whose database was rolled back had
     been paid.
    */
    method Cycle(fate: Fate) returns (e: Ending, grp: seq<Party>)
      requires Books()
      modifies this, sparks
      ensures cycle == old(cycle) + 1 && [TheWard] <= grp && |grp| <= 10 && Shaped() && Remembered()
      ensures e != GaveUp && (e == Done || TheWard in KeptBy(grp, fate)) ==> |grp| == 1 + Total(board, OneIfTaken)
      ensures e == GaveUp ==> GivenUp()
      ensures old(FreshNames(Crew(), seq_, cycle + 1)) ==> e != GaveUp
      ensures e != GaveUp ==> (e == Done <==> Landed(grp, fate))
      ensures e == Done ==> Books()
      ensures e == Done ==>
        issued == old(issued) + Total(board, PayIfKept) && found == old(found) + Total(board, OneIfKept)
      ensures e == Done ==> debt + (retired - old(retired)) == old(debt) + old(debt) / 100 && retired >= old(retired)
      ensures e == Done ==> AsDecided(old(View()).(cycle := cycle), old(spent), old(built))
      ensures e == Done ==> BuiltAsDue(old(built))
      ensures e == Done ==>
        nsparks == old(nsparks) + (if built[5] != 0 && old(nsparks) < SPARKS_PER_WARD && cycle % 12 == 0 then 1 else 0)
      ensures e != Done ==> nsparks == old(nsparks)
      ensures e != Done ==>
        CutOff(if e == GaveUp then [] else KeptBy(grp, fate), old(Crew()), old(built), old(board), old(ledger))
      ensures e == Unlanded && fate.RecordFails? ==> Books()
      ensures Lucky() && old(nsparks) <= BOARD_SIZE ==> LuckyCycle(e, old(Crew()), old(seq_))
      ensures wardNo == old(wardNo)
      ensures var came := if e == Done && Arriving(old(nsparks)) then Arrival(old(nsparks)) else multiset{};
        given == old(given) + came && IdBag(Crew()) == old(IdBag(Crew())) + came
    {
      hide Balanced, Total, QueenPlanner.Decision, AsDecided, FreshNames, Moved, NoPoorer, LuckyEnd, Stuck, CutOff,
           Remembered, IdBag, GivenUp, SamePurses, Lucky, Arriving, Arrival, WornOut, InReach, Due,
           BuiltAsDue, KeptBy, Landed, LuckyCycle;
      var built0, board0, ledger0, dbs := built, board, ledger, sparks[..nsparks];
      ghost var view, seq0 := View(), seq_;
      DecidesAtOnce(view, cycle + 1);
      BooksRemembered();
      cycle := cycle + 1;
      assert View() == view.(cycle := cycle);
      hide View;
      var ok;
      ok, grp := Day();
      ghost var day := Crew();
      NoPoorerIds(dbs, day);
      e := Close(ok, grp, fate, built0, board0, ledger0, dbs, seq0);
      if e == Done { BuiltNow(view.(cycle := cycle), old(spent), built0); }
    }

    /** The decision does not depend on the count of cycles. */
    lemma DecidesAtOnce(view: QueenPlanner.Ward, now: int)
      requires Shaped() && view == View()
      ensures WornOut() && InReach(1) ==> QueenPlanner.Decision(view.(cycle := now)) == Some(1)
      ensures forall i :: QueenPlanner.Decision(view.(cycle := now)) == Some(i) <==> Due(i)
    {
      DecidedForTheWard(QueenPlanner.Decision(view));
      hide Due, WornOut, InReach;
    }

    twostate lemma BuiltNow(new v: QueenPlanner.Ward, new spent0: int, new built0: seq<int>)
      requires old(Shaped()) && |built0| == NVENUES && v.cycle == cycle && AsDecided(v, spent0, built0)
      requires forall i :: QueenPlanner.Decision(v) == Some(i) <==> old(Due(i))
      requires old(WornOut() && InReach(1)) ==> QueenPlanner.Decision(v) == Some(1)
      ensures BuiltAsDue(built0)
    {
      hide QueenPlanner.Decision, Due, WornOut, InReach;
    }

    /** The end of a cycle: its commit and who arrives then, or what is left when it is not done. */
    method Close(ok: bool, grp: seq<Party>, fate: Fate, built0: seq<int>, board0: seq<Contract>, ledger0: seq<Entry>,
                 dbs: seq<Spark>, ghost seq0: nat) returns (e: Ending)
      requires Shaped() && |dbs| == nsparks && |built0| == NVENUES && (forall s <- dbs :: SparkOk(s))
      requires [TheWard] <= grp && NoPoorer(dbs, Crew())
      requires if ok then Books() && Moved(dbs, Crew(), grp)
               else Remembered() && Total(dbs, ItemsOf) < found && Stuck(dbs)
      requires Lucky() && nsparks <= BOARD_SIZE ==> LuckyEnd(ok, dbs, Crew(), seq0)
      modifies this`built, this`board, this`ledger, this`nsparks, this`given, sparks
      ensures Shaped() && Remembered()
      ensures Lucky() && old(nsparks) <= BOARD_SIZE ==> LuckyCycle(e, dbs, seq0)
      ensures e == GaveUp <==> !ok
      ensures ok ==> (e == Done <==> Landed(grp, fate))
      ensures e == GaveUp ==> GivenUp() && SamePurses(old(Crew()), Crew())
      ensures e == Done ==> Books() && built == old(built) && board == old(board)
      ensures e == Done ==>
        nsparks == old(nsparks) + (if built[5] != 0 && old(nsparks) < SPARKS_PER_WARD && cycle % 12 == 0 then 1 else 0)
      ensures e != Done ==> nsparks == old(nsparks)
      ensures e != Done ==> CutOff(if e == GaveUp then [] else KeptBy(grp, fate), dbs, built0, board0, ledger0)
      ensures e == Unlanded && fate.RecordFails? ==> Books()
      ensures e == Unlanded && TheWard in KeptBy(grp, fate) ==> board == old(board)
      ensures var came := if e == Done && Arriving(old(nsparks)) then Arrival(old(nsparks)) else multiset{};
        given == old(given) + came && IdBag(Crew()) == old(IdBag(Crew())) + came
    {
      hide Balanced, Total, Moved, NoPoorer, Stuck, CutOff, Remembered, SamePurses, IdBag, KeptBy, Landed, LuckyEnd,
           Clear;
      if Lucky() && nsparks <= BOARD_SIZE { LuckyClear(ok, dbs, Crew(), seq0); }
      if ok && Landed(grp, fate) {
        Arrive();
        return Done;
      }
      e := if ok then Unlanded else GaveUp;
      ghost var day := Crew();
      Stop(ok, grp, fate, built0, board0, ledger0, dbs);
      SamePursesIds(day, Crew());
      if !ok {
        StillStuck(dbs);
        LuckySame(ok, dbs, day, Crew(), seq0);
      }
    }

    /** What luck alone decides: the cycle gives up exactly when a name is not clear, and those before are paid. */
    ghost predicate LuckyCycle(e: Ending, was: seq<Spark>, seq0: nat)
      requires Shaped()
      reads this, sparks
    {
      && (e == GaveUp <==> exists j :: 0 <= j < |was| && !Clear(was, seq0, j))
      && (e == GaveUp ==> LuckyEnd(false, was, Crew(), seq0))
    }

    static lemma NoPoorerIds(was: seq<Spark>, now: seq<Spark>)
      requires NoPoorer(was, now)
      ensures IdBag(was) == IdBag(now)
    {
      IdsKept(was, now);
    }

    static lemma SamePursesIds(was: seq<Spark>, now: seq<Spark>)
      requires SamePurses(was, now)
      ensures IdBag(was) == IdBag(now)
    {
      IdsKept(was, now);
    }

    /** The id an arrival takes: from the current count. */
    function Arrival(count: nat): multiset<int>
      reads this`wardNo
    {
      multiset{IdOf(wardNo, count)}
    }

    lemma LuckyClear(ok: bool, was: seq<Spark>, now: seq<Spark>, seq0: nat)
      requires LuckyEnd(ok, was, now, seq0)
      ensures ok <==> forall j :: 0 <= j < |was| ==> Clear(was, seq0, j)
    {
    }

    lemma StillStuck(was: seq<Spark>)
      requires Shaped() && Stuck(was) && |was| == nsparks && forall j :: 0 <= j < nsparks ==> Crew()[j].db == was[j].db
      ensures Repeated()
    {
    }

    /** A cycle that is not done: the commits that succeeded stand, the others are rolled back, the memory stays. */
    method Stop(ok: bool, grp: seq<Party>, fate: Fate, built0: seq<int>, board0: seq<Contract>, ledger0: seq<Entry>,
                dbs: seq<Spark>)
      requires Shaped() && |dbs| == nsparks && |built0| == NVENUES && (forall s <- dbs :: SparkOk(s))
      requires [TheWard] <= grp && NoPoorer(dbs, Crew())
      requires (if ok then Books() && Moved(dbs, Crew(), grp) else Remembered() && Total(dbs, ItemsOf) < found)
      modifies this`built, this`board, this`ledger, sparks
      ensures Shaped() && Remembered() && SamePurses(old(Crew()), Crew())
      ensures CutOff(if ok then KeptBy(grp, fate) else [], dbs, built0, board0, ledger0)
      ensures !ok ==> Total(Crew(), ItemsOf) < found && forall j :: 0 <= j < nsparks ==> Crew()[j].db == dbs[j].db
      ensures ok && fate.RecordFails? ==> Books()
      ensures ok && TheWard in KeptBy(grp, fate) ==> board == old(board)
    {
      hide Balanced, Total, Moved, NoPoorer;
      assert TheWard in grp by { assert grp[0] == TheWard; }
      var keep := if ok then KeptBy(grp, fate) else [];
      ghost var day := Crew();
      if ok {
        BooksRemembered();
        StandsOrNot(dbs, day, grp);
      }
      if !(ok && fate.RecordFails?) { Rollback(keep, built0, board0, ledger0, dbs); }
      Cut(dbs, day, Crew(), keep, ok, grp);
    }

    static lemma StandsOrNot(was: seq<Spark>, day: seq<Spark>, grp: seq<Party>)
      requires Moved(was, day, grp)
      ensures forall j :: 0 <= j < |was| && SparkAt(j) !in grp ==> day[j].db == was[j].db
    {
    }

    lemma LuckySame(ok: bool, was: seq<Spark>, day: seq<Spark>, now: seq<Spark>, seq0: nat)
      requires SamePurses(day, now)
      ensures LuckyEnd(ok, was, day, seq0) ==> LuckyEnd(ok, was, now, seq0)
    {
      if !ok && LuckyEnd(ok, was, day, seq0) {
        var n :| 0 <= n < |was| && AllPaid(was, day, seq0, n) && !Clear(was, seq0, n);
        assert AllPaid(was, now, seq0, n);
      }
    }

    /** The Sparks after a cycle cut short, and what their purses and their hands add up to. */
    static lemma Cut(was: seq<Spark>, day: seq<Spark>, now: seq<Spark>, keep: seq<Party>, ok: bool, grp: seq<Party>)
      requires (forall s <- was :: SparkOk(s)) && NoPoorer(was, day) && SamePurses(day, now)
      requires ok ==> Moved(was, day, grp) && forall s <- day :: SparkOk(s)
      requires !ok ==> keep == []
      requires forall j :: 0 <= j < |now| ==>
        now[j].db == (if SparkAt(j) in keep then day[j].db else was[j].db)
      ensures Total(now, MindOf) == Total(day, MindOf)
      ensures forall j :: 0 <= j < |now| ==> CutSpark(was[j], now[j], SparkAt(j) in keep)
      ensures Total(now, PurseOf) == Total(now, MindOf) <==>
              forall j :: 0 <= j < |now| && SparkAt(j) !in keep ==> now[j].purse == was[j].purse
      ensures Total(now, ItemsOf) <= Total(if ok then day else was, ItemsOf)
    {
      hide Total;
      MindKept(day, now);
      forall j | 0 <= j < |now|
        ensures CutSpark(was[j], now[j], SparkAt(j) in keep)
        ensures |now[j].db.held| <= |(if ok then day else was)[j].db.held|
      {
        if ok {
          assert SparkOk(day[j]) && NoLess(was[j], day[j]);
        }
      }
      CutSums(was, now, keep);
      ItemsAtMost(now, if ok then day else was);
    }

    /** Word gets out, and a Spark arrives. */
    method Arrive()
      requires Books()
      modifies this`nsparks, this`given, sparks
      ensures Books() && Remembered() && nsparks == old(nsparks) + (if Arriving(old(nsparks)) then 1 else 0)
      ensures var came := if Arriving(old(nsparks)) then Arrival(old(nsparks)) else multiset{};
        given == old(given) + came && IdBag(Crew()) == old(IdBag(Crew())) + came
    {
      hide Balanced;
      if Arriving(nsparks) {
        var joined := JoinWard(IdOf(wardNo, nsparks));
        assert nsparks == |Crew()| == old(nsparks) + 1;
      }
      BooksRemembered();
    }

    predicate Arriving(count: nat)
      requires |built| == NVENUES
      reads this`built, this`cycle
    {
      built[5] != 0 && count < SPARKS_PER_WARD && cycle % ARRIVAL_CYCLES == 0
    }

    /**
     What a cycle that is not done leaves: these participants keep their part, the others are as
     before; and the sum of `honest` holds exactly when nobody who was rolled back had been paid.
    */
    ghost predicate CutOff(keep: seq<Party>, was: seq<Spark>, built0: seq<int>, board0: seq<Contract>,
                           ledger0: seq<Entry>)
      requires Shaped()
      reads this, sparks
    {
      && |was| == nsparks && (TheWard !in keep ==> built == built0 && board == board0 && ledger == ledger0)
      && (forall j :: 0 <= j < nsparks ==> CutSpark(was[j], Crew()[j], SparkAt(j) in keep))
      && Total(Crew(), ItemsOf) <= found
      && (SumHolds() <==> forall j :: 0 <= j < nsparks && SparkAt(j) !in keep ==> Crew()[j].purse == was[j].purse)
    }

    static predicate CutSpark(was: Spark, now: Spark, kept: bool) {
      was.purse <= now.purse && if kept then now.db.purse == now.purse else now.db == was.db
    }

    static lemma CutSums(was: seq<Spark>, now: seq<Spark>, keep: seq<Party>)
      requires |was| == |now| && forall s <- was :: SparkOk(s)
      requires forall j :: 0 <= j < |now| ==> CutSpark(was[j], now[j], SparkAt(j) in keep)
      ensures Total(now, PurseOf) == Total(now, MindOf) <==>
              forall j :: 0 <= j < |now| && SparkAt(j) !in keep ==> now[j].purse == was[j].purse
    {
      hide Total;
      forall j | 0 <= j < |now|
        ensures now[j].db.purse <= now[j].purse
        ensures now[j].db.purse == now[j].purse <==> (SparkAt(j) !in keep ==> now[j].purse == was[j].purse)
      {
        assert SparkOk(was[j]) && CutSpark(was[j], now[j], SparkAt(j) in keep);
      }
      SumsAgree(now);
    }

    static lemma {:induction false} ItemsAtMost(a: seq<Spark>, b: seq<Spark>)
      requires |a| == |b| && forall j :: 0 <= j < |a| ==> |a[j].db.held| <= |b[j].db.held|
      ensures Total(a, ItemsOf) <= Total(b, ItemsOf)
    {
      if a != [] { ItemsAtMost(a[..|a| - 1], b[..|b| - 1]); }
    }

    // ---- What the ward must never do ----

    method Purses() returns (total: int)
      requires Shaped()
      ensures total == Total(Crew(), PurseOf)
    {
      total := 0;
      var i := 0;
      while i < nsparks
        invariant 0 <= i <= nsparks && total == Total(sparks[..i], PurseOf)
      {
        assert sparks[..i + 1] == sparks[..i] + [sparks[i]];
        TotalAppend(sparks[..i], sparks[i], PurseOf);
        total := total + sparks[i].db.purse;
        i := i + 1;
      }
    }

    method Items() returns (items: int)
      requires Shaped()
      ensures items == Total(Crew(), ItemsOf)
    {
      items := 0;
      var i := 0;
      while i < nsparks
        invariant 0 <= i <= nsparks && items == Total(sparks[..i], ItemsOf)
      {
        assert sparks[..i + 1] == sparks[..i] + [sparks[i]];
        TotalAppend(sparks[..i], sparks[i], ItemsOf);
        items := items + |sparks[i].db.held|;
        i := i + 1;
      }
    }

    /** honest: the sum a ward is held to. Balanced books always pass it. */
    method Honest() returns (ok: bool)
      requires Shaped()
      ensures ok <==> SumHolds() && Total(Crew(), ItemsOf) <= found
      ensures Books() ==> ok
    {
      hide Total, Balanced;
      if Books() { BooksRemembered(); }
      var p := Purses();
      if treasury + p + retired + spent != issued { return false; }
      var items := Items();
      return items <= found;
    }

    /** Take the Spark out, closing the gap in place. */
    method Remove(idx: nat)
      requires Shaped() && idx < nsparks
      modifies this`nsparks, sparks
      ensures Shaped() && Crew() == old(Crew()[..idx] + Crew()[idx + 1..])
    {
      ghost var crew := Crew();
      var i := idx;
      while i + 1 < nsparks
        invariant idx <= i < nsparks == |crew|
        invariant forall j :: 0 <= j < idx ==> sparks[j] == crew[j]
        invariant forall j :: idx <= j < i ==> sparks[j] == crew[j + 1]
        invariant forall j :: i < j < nsparks ==> sparks[j] == crew[j]
      {
        sparks[i] := sparks[i + 1];
        i := i + 1;
      }
      nsparks := nsparks - 1;
      assert Crew() == crew[..idx] + crew[idx + 1..];
    }

    /** The books of a ward a Spark leaves. */
    method Depart(idx: nat) returns (s: Spark)
      requires Books() && idx < nsparks
      modifies this`issued, this`found, this`ledger, this`nsparks, sparks
      ensures Books() && s == old(Crew())[idx] && SparkOk(s) && Crew() == old(Crew()[..idx] + Crew()[idx + 1..])
      ensures issued == old(issued) - s.purse && found == old(found) - |s.db.held|
    {
      hide Balanced;
      s := sparks[idx];
      ghost var crew, e := Crew(), Entry(cycle, Departed, -s.purse, s.id);
      PaidIsOk(Held(), crew, ledger, idx, 0, None);
      DepartureBalances(Held(), crew, ledger, idx);
      issued := issued - s.purse;
      found := found - |s.db.held|;
      TillUnmoved(Held(), crew[..idx] + crew[idx + 1..], ledger, e);
      ledger := ledger + [Entry(cycle, Departed, -s.purse, s.id)];
      Remove(idx);
    }

    /** The books of a ward a Spark comes to. */
    method Admit(s: Spark)
      requires Books() && nsparks < MAX_SPARKS && SparkOk(s)
      modifies this`issued, this`found, this`ledger, this`nsparks, sparks
      ensures Books() && Crew() == old(Crew()) + [s]
      ensures issued == old(issued) + s.purse && found == old(found) + |s.db.held|
    {
      hide Balanced;
      ghost var crew, e := Crew(), Entry(cycle, Arrived, s.purse, s.id);
      ArrivalBalances(Held(), crew, ledger, s);
      issued := issued + s.purse;
      found := found + |s.db.held|;
      TillUnmoved(Held(), crew + [s], ledger, e);
      ledger := ledger + [Entry(cycle, Arrived, s.purse, s.id)];
      sparks[nsparks] := s;
      nsparks := nsparks + 1;
      assert Crew() == crew + [s];
    }
  }

  /** migrate: the Spark, their purse and their salvage move, and both wards' books move with them. */
  method Migrate(from: Ward, to: Ward, idx: int) returns (ok: bool)
    requires from.Books() && to.Books() && (from == to || from.sparks != to.sparks)
    modifies from`issued, from`found, from`ledger, from`nsparks, from.sparks
    modifies to`issued, to`found, to`ledger, to`nsparks, to.sparks
    ensures from.Books() && to.Books()
    ensures ok <==> 0 <= idx < old(from.nsparks) && old(to.nsparks) < MAX_SPARKS
    ensures !ok ==> from.Crew() == old(from.Crew()) && to.Crew() == old(to.Crew())
    ensures ok && from != to ==> from.Crew() == old(from.Crew()[..idx] + from.Crew()[idx + 1..])
    ensures ok && from != to ==> to.Crew() == old(to.Crew() + [from.Crew()[idx]])
    ensures ok && from == to ==> to.Crew() == old(from.Crew()[..idx] + from.Crew()[idx + 1..] + [from.Crew()[idx]])
    ensures from.issued + to.issued == old(from.issued) + old(to.issued)
    ensures from.found + to.found == old(from.found) + old(to.found)
    ensures ok && from != to ==> (to.nsparks <= SPARKS_PER_WARD <==> old(to.nsparks) < SPARKS_PER_WARD)
  {
    hide Balanced;
    if idx < 0 || idx >= from.nsparks { return false; }
    if to.nsparks >= MAX_SPARKS { return false; }
    var s := from.Depart(idx);
    to.Admit(s);
    return true;
  }

  lemma TillUnmoved(m: Money, crew: seq<Spark>, ledger: seq<Entry>, e: Entry)
    requires Balanced(m, crew, ledger) && e.what in {Departed, Arrived}
    ensures Balanced(m, crew, ledger + [e])
  {
    TotalAppend(ledger, e, TillOf);
  }

  ghost function HeldAcross(ws: seq<Ward>): int
    requires forall w <- ws :: w.Shaped()
    reads ws, set w <- ws :: w.sparks
  {
    if ws == [] then 0
    else var w := ws[|ws| - 1];
         HeldAcross(ws[..|ws| - 1]) + w.treasury + Total(w.Crew(), PurseOf) + w.retired + w.spent
  }

  ghost function IssuedAcross(ws: seq<Ward>): int
    reads ws
  {
    if ws == [] then 0 else IssuedAcross(ws[..|ws| - 1]) + ws[|ws| - 1].issued
  }

  /** honest_across: the sum over every ward at once. */
  method HonestAcross(ws: seq<Ward>) returns (ok: bool)
    requires forall w <- ws :: w.Shaped()
    ensures ok <==> HeldAcross(ws) == IssuedAcross(ws)
  {
    hide Total;
    var held, issued, i := 0, 0, 0;
    while i < |ws|
      invariant 0 <= i <= |ws| && held == HeldAcross(ws[..i]) && issued == IssuedAcross(ws[..i])
    {
      assert ws[..i + 1][..i] == ws[..i] && ws[..i + 1][i] == ws[i];
      var p := ws[i].Purses();
      held := held + ws[i].treasury + p + ws[i].retired + ws[i].spent;
      issued := issued + ws[i].issued;
      i := i + 1;
    }
    assert ws[..i] == ws;
    return held == issued;
  }

  /** Wards whose own books balance pass it. */
  lemma {:induction false} EveryWardHonestSoAreTheyAll(ws: seq<Ward>)
    requires forall w <- ws :: w.Shaped() && w.Books()
    ensures HeldAcross(ws) == IssuedAcross(ws)
  {
    if ws != [] {
      assert ws[|ws| - 1] in ws;
      EveryWardHonestSoAreTheyAll(ws[..|ws| - 1]);
    }
  }

  // ---- A whole game ----

  /** The wards of a game keep their Sparks apart. */
  ghost predicate Apart(ws: seq<Ward>) {
    forall i, j :: 0 <= i < j < |ws| ==> ws[i] != ws[j] && ws[i].sparks != ws[j].sparks
  }

  datatype Move =
    | RunCycle(w: nat, fate: Fate)
    | BuildByHand(w: nat, venue: int)
    | PayByHand(w: nat, who: int, amount: int, fate: Fate)
    | MoveSpark(w: nat, to: nat, idx: int)

  /** Every ward keeps its books. */
  ghost predicate AllBooks(ws: seq<Ward>)
    reads ws, set w <- ws :: w.sparks
  {
    forall i :: 0 <= i < |ws| ==> ws[i].Books()
  }

  /**
   Why a game ends: a commit that did not land, or a cycle that drew a salvage name which is in the
   hands of one of its Sparks and so left a find in nobody's; or a payment that was asked for and
   did not land. A cycle's participants are its ward and one Spark for each contract taken.
  */
  ghost predicate Ends(ws: seq<Ward>, move: Move)
    reads ws, set w <- ws :: w.sparks
  {
    && move.w < |ws| && ws[move.w].Shaped()
    && match move
       case RunCycle(w, fate) => Fails(fate, 1 + Total(ws[w].board, OneIfTaken)) || ws[w].GivenUp()
       case PayByHand(w, who, amount, fate) => Fails(fate, 2) && ws[w].Asked(who, amount)
       case _ => false
  }

  /** The commit of a group of `n` does not land. */
  predicate Fails(fate: Fate, n: int) {
    fate.RecordFails? || (fate.CommitFails? && fate.at < n)
  }

  /** Counted by the contracts taken, as far as the board still tells, the group fails exactly when it does not land. */
  lemma FailsIsUnlanded(grp: seq<Party>, fate: Fate, board: seq<Contract>)
    requires [TheWard] <= grp
    requires Landed(grp, fate) || TheWard in KeptBy(grp, fate) ==> |grp| == 1 + Total(board, OneIfTaken)
    ensures Landed(grp, fate) <==> !Fails(fate, 1 + Total(board, OneIfTaken))
  {
    TotalAtMost(board, OneIfTaken, 1);
    hide Total;
    assert grp[0] == TheWard;
    if fate.CommitFails? && 0 < fate.at < |grp| { assert grp[..fate.at][0] == TheWard; }
  }

  /** Books that balance leave no find in nobody's hands. */
  lemma BooksGiveNothingUp(w: Ward)
    requires w.Books()
    ensures !w.GivenUp()
  {
  }

  /** The books of every ward but this one. */
  ghost predicate OtherBooks(ws: seq<Ward>, w: nat)
    reads ws, set w <- ws :: w.sparks
  {
    forall i :: 0 <= i < |ws| && i != w ==> ws[i].Books()
  }

  // ---- Who is in a game, by id ----

  ghost predicate AllShaped(ws: seq<Ward>)
    reads ws
  {
    forall i :: 0 <= i < |ws| ==> ws[i].Shaped()
  }

  /** The ids in each ward. */
  ghost function Rolls(ws: seq<Ward>): (r: seq<multiset<int>>)
    requires AllShaped(ws)
    reads ws, set w <- ws :: w.sparks
    ensures |r| == |ws| && forall i :: 0 <= i < |ws| ==> r[i] == IdBag(ws[i].Crew())
  {
    if ws == [] then [] else Rolls(ws[..|ws| - 1]) + [IdBag(ws[|ws| - 1].Crew())]
  }

  /** The ids each ward has given out. */
  ghost function Handouts(ws: seq<Ward>): (r: seq<multiset<int>>)
    reads ws
    ensures |r| == |ws| && forall i :: 0 <= i < |ws| ==> r[i] == ws[i].given
  {
    if ws == [] then [] else Handouts(ws[..|ws| - 1]) + [ws[|ws| - 1].given]
  }

  function Sum(bags: seq<multiset<int>>): multiset<int> {
    if bags == [] then multiset{} else Sum(bags[..|bags| - 1]) + bags[|bags| - 1]
  }

  lemma {:induction false} SumUpdate(bags: seq<multiset<int>>, i: nat, b: multiset<int>)
    requires i < |bags|
    ensures Sum(bags[i := bags[i] + b]) == Sum(bags) + b
  {
    var n, now := |bags| - 1, bags[i := bags[i] + b];
    if i < n {
      SumUpdate(bags[..n], i, b);
      assert now[..n] == bags[..n][i := bags[..n][i] + b];
    } else {
      assert now[..n] == bags[..n];
    }
  }

  /** Whom one ward loses another gains, and nobody is lost. */
  lemma SumMoved(bags: seq<multiset<int>>, i: nat, j: nat, rest: multiset<int>, b: multiset<int>)
    requires i < |bags| && j < |bags| && i != j && bags[i] == rest + b
    ensures Sum(bags[i := rest][j := bags[j] + b]) == Sum(bags)
  {
    var less := bags[i := rest];
    SumUpdate(less, i, b);
    assert less[i := less[i] + b] == bags;
    SumUpdate(less, j, b);
  }

  /** The wards' numbers. */
  ghost function Numbers(ws: seq<Ward>): (r: seq<int>)
    reads ws
    ensures |r| == |ws| && forall i :: 0 <= i < |ws| ==> r[i] == ws[i].wardNo
  {
    if ws == [] then [] else Numbers(ws[..|ws| - 1]) + [ws[|ws| - 1].wardNo]
  }

  /**
   Everybody in the game bears an id that some ward has given out, as often as it was given out;
   each ward gives out ids of its own number only.
  */
  ghost predicate Numbered(ws: seq<Ward>)
    reads ws, set w <- ws :: w.sparks
  {
    AllShaped(ws) && Sum(Rolls(ws)) == Sum(Handouts(ws)) && OwnIds(Handouts(ws), Numbers(ws))
  }

  ghost predicate OwnIds(handouts: seq<multiset<int>>, numbers: seq<int>) {
    && |handouts| == |numbers|
    && (forall i, id :: 0 <= i < |handouts| && id in handouts[i] ==> OfWard(numbers[i], id))
    && (forall i, j :: 0 <= i < j < |numbers| ==> numbers[i] != numbers[j])
  }

  predicate OfWard(number: int, id: int) {
    number * SPARKS_PER_WARD <= id < (number + 1) * SPARKS_PER_WARD
  }

  /** An arrival is given an id of its ward's own. */
  lemma OwnIdsGrow(handouts: seq<multiset<int>>, numbers: seq<int>, w: nat, count: nat)
    requires OwnIds(handouts, numbers) && w < |numbers| && count < SPARKS_PER_WARD
    ensures OwnIds(handouts[w := handouts[w] + multiset{IdOf(numbers[w], count)}], numbers)
  {
    ArrivalOfWard(numbers[w], count);
    hide OfWard;
  }

  lemma ArrivalOfWard(number: int, count: nat)
    requires count < SPARKS_PER_WARD
    ensures OfWard(number, IdOf(number, count))
  {
  }

  /** Nobody came. */
  twostate predicate NobodyCame(ws: seq<Ward>)
    requires old(AllShaped(ws)) && AllShaped(ws)
    reads ws, set w <- ws :: w.sparks
  {
    && Handouts(ws) == old(Handouts(ws)) && Sum(Rolls(ws)) == old(Sum(Rolls(ws)))
    && Numbers(ws) == old(Numbers(ws))
  }

  /** One Spark came to this ward, under the id of its count. */
  twostate predicate OneCame(ws: seq<Ward>, w: nat)
    requires old(AllShaped(ws)) && AllShaped(ws) && w < |ws|
    reads ws, set w <- ws :: w.sparks
  {
    var id := ws[w].Arrival(old(ws[w].nsparks));
    && Handouts(ws) == old(Handouts(ws))[w := old(ws[w].given) + id]
    && Sum(Rolls(ws)) == old(Sum(Rolls(ws))) + id
    && old(ws[w].nsparks) < SPARKS_PER_WARD
    && Numbers(ws) == old(Numbers(ws))
  }

  /** Does this move bring a Spark? */
  twostate predicate Brings(ws: seq<Ward>, move: Move, stopped: bool)
    requires AllShaped(ws)
    reads ws
  {
    !stopped && move.RunCycle? && move.w < |ws| && ws[move.w].Arriving(old(ws[move.w].nsparks))
  }

  /** One ward's Sparks are the ones they were, and the other wards are untouched. */
  twostate lemma SamePeople(ws: seq<Ward>)
    requires old(AllShaped(ws)) && AllShaped(ws)
    requires forall i :: 0 <= i < |ws| ==>
      && IdBag(ws[i].Crew()) == old(IdBag(ws[i].Crew())) && ws[i].given == old(ws[i].given)
      && ws[i].wardNo == old(ws[i].wardNo)
    ensures NobodyCame(ws)
  {
    hide Sum, IdBag, Rolls, Handouts, Numbers;
    assert Rolls(ws) == old(Rolls(ws)) && Handouts(ws) == old(Handouts(ws)) && Numbers(ws) == old(Numbers(ws));
  }

  twostate lemma OneMore(ws: seq<Ward>, new w: nat)
    requires old(AllShaped(ws)) && AllShaped(ws) && w < |ws| && old(ws[w].nsparks) < SPARKS_PER_WARD
    requires var id := ws[w].Arrival(old(ws[w].nsparks));
      IdBag(ws[w].Crew()) == old(IdBag(ws[w].Crew())) + id && ws[w].given == old(ws[w].given) + id
    requires forall i :: 0 <= i < |ws| ==> ws[i].wardNo == old(ws[i].wardNo)
    requires forall i :: 0 <= i < |ws| && i != w ==>
      IdBag(ws[i].Crew()) == old(IdBag(ws[i].Crew())) && ws[i].given == old(ws[i].given)
    ensures OneCame(ws, w)
  {
    hide Sum, IdBag, Rolls, Handouts, Numbers;
    var id := ws[w].Arrival(old(ws[w].nsparks));
    SumUpdate(old(Rolls(ws)), w, id);
    assert Rolls(ws) == old(Rolls(ws))[w := old(Rolls(ws))[w] + id];
    assert Handouts(ws) == old(Handouts(ws))[w := old(ws[w].given) + id] && Numbers(ws) == old(Numbers(ws));
  }

  /** Whoever comes, the game stays numbered. */
  twostate lemma NumberedMore(ws: seq<Ward>, new w: nat)
    requires old(Numbered(ws)) && AllShaped(ws) && w < |ws| && OneCame(ws, w)
    ensures Numbered(ws)
  {
    hide IdBag, Rolls, Sum, OwnIds, OfWard;
    var count := old(ws[w].nsparks);
    OwnIdsGrow(old(Handouts(ws)), Numbers(ws), w, count);
    SumUpdate(old(Handouts(ws)), w, ws[w].Arrival(count));
  }

  twostate lemma NumberedStill(ws: seq<Ward>)
    requires old(Numbered(ws)) && AllShaped(ws) && NobodyCame(ws)
    ensures Numbered(ws)
  {
    hide IdBag, Rolls, Sum, OwnIds;
  }

  /** One move of a game, which ends it only for a reason, and then only in one ward's books. */
  method Play(ws: seq<Ward>, move: Move) returns (stopped: bool)
    requires Apart(ws) && AllBooks(ws)
    modifies ws, set w <- ws :: w.sparks
    ensures !stopped ==> AllBooks(ws)
    ensures stopped <==> Ends(ws, move)
    ensures stopped ==> OtherBooks(ws, move.w) && ws[move.w].Remembered()
    ensures move.RunCycle? && move.w < |ws| && move.fate.Lands? && old(ws[move.w].Fresh()) ==> !stopped
    ensures AllShaped(ws)
    ensures Brings(ws, move, stopped) ==> OneCame(ws, move.w)
    ensures !Brings(ws, move, stopped) ==> NobodyCame(ws)
    ensures old(Numbered(ws)) ==> Numbered(ws)
  {
    hide Ends, AllBooks, OtherBooks, Numbered, OneCame, NobodyCame, AllShaped, Apart, Ward.Arriving, Ward.Fresh;
    stopped := Advance(ws, move);
    if old(Numbered(ws)) {
      if Brings(ws, move, stopped) { NumberedMore(ws, move.w); } else { NumberedStill(ws); }
    }
  }

  method Advance(ws: seq<Ward>, move: Move) returns (stopped: bool)
    requires Apart(ws) && AllBooks(ws)
    modifies ws, set w <- ws :: w.sparks
    ensures !stopped ==> AllBooks(ws)
    ensures stopped <==> Ends(ws, move)
    ensures stopped ==> OtherBooks(ws, move.w) && ws[move.w].Remembered()
    ensures move.RunCycle? && move.w < |ws| && move.fate.Lands? && old(ws[move.w].Fresh()) ==> !stopped
    ensures AllShaped(ws)
    ensures Brings(ws, move, stopped) ==> OneCame(ws, move.w)
    ensures !Brings(ws, move, stopped) ==> NobodyCame(ws)
  {
    hide Balanced, Rolls, Handouts, Numbers, Sum, IdBag, OneCame, NobodyCame, Fails, Ward.GivenUp, Ward.Asked, Total;
    stopped := false;
    if move.w >= |ws| {
      SamePeople(ws);
    } else {
      match move {
        case RunCycle(w, fate) => stopped := PlayCycle(ws, w, fate);
        case BuildByHand(w, v) => PlayBuilding(ws, w, v);
        case PayByHand(w, who, amount, fate) => stopped := PlayPayment(ws, w, who, amount, fate);
        case MoveSpark(w, to, idx) => PlayMigration(ws, w, to, idx);
      }
    }
  }

  method PlayCycle(ws: seq<Ward>, w: nat, fate: Fate) returns (stopped: bool)
    requires Apart(ws) && AllBooks(ws) && w < |ws|
    modifies ws, set w <- ws :: w.sparks
    ensures !stopped ==> AllBooks(ws)
    ensures stopped <==> Ends(ws, RunCycle(w, fate))
    ensures stopped ==> OtherBooks(ws, w) && ws[w].Remembered()
    ensures fate.Lands? && old(ws[w].Fresh()) ==> !stopped
    ensures AllShaped(ws)
    ensures Brings(ws, RunCycle(w, fate), stopped) ==> OneCame(ws, w)
    ensures !Brings(ws, RunCycle(w, fate), stopped) ==> NobodyCame(ws)
  {
    hide Balanced, Ward.Remembered, Ward.CutOff, Ward.AsDecided, Ward.FreshNames, Ward.SumHolds, Ward.LuckyCycle,
         Ward.GivenUp, Rolls, Handouts, Sum, IdBag, Total, OneCame, NobodyCame, Ward.Lucky;
    var e, grp := ws[w].Cycle(fate);
    stopped := e != Done;
    if e != GaveUp { FailsIsUnlanded(grp, fate, ws[w].board); }
    if e == Done { BooksGiveNothingUp(ws[w]); }
    assert OtherBooks(ws, w);
    if Brings(ws, RunCycle(w, fate), stopped) { OneMore(ws, w); } else { SamePeople(ws); }
  }

  method PlayBuilding(ws: seq<Ward>, w: nat, venue: int)
    requires Apart(ws) && AllBooks(ws) && w < |ws|
    modifies ws, set w <- ws :: w.sparks
    ensures AllBooks(ws) && AllShaped(ws) && NobodyCame(ws)
  {
    hide Balanced, Rolls, Handouts, Sum, IdBag, NobodyCame;
    var _ := ws[w].BuildVenue(venue);
    SamePeople(ws);
  }

  method PlayMigration(ws: seq<Ward>, w: nat, to: nat, idx: int)
    requires Apart(ws) && AllBooks(ws) && w < |ws|
    modifies ws, set w <- ws :: w.sparks
    ensures AllBooks(ws) && AllShaped(ws) && NobodyCame(ws)
  {
    hide Balanced, Rolls, Handouts, Sum, IdBag, NobodyCame;
    if to >= |ws| {
      SamePeople(ws);
      return;
    }
    ghost var from, into := ws[w].Crew(), ws[to].Crew();
    var ok := Migrate(ws[w], ws[to], idx);
    StillBooks(ws, w, to);
    assert w != to ==> ws[w] != ws[to];
    assert old(AllShaped(ws)) && from == old(ws[w].Crew()) && into == old(ws[to].Crew());
    hide Ward.Books, AllBooks, Apart;
    if ok && w != to {
      IdsRemoved(from, idx);
      IdsAppend(into, from[idx]);
      MovedPeople(ws, w, to, from[idx].id);
    } else {
      if ok { IdsRemovedAppended(from, idx); }
      SamePeople(ws);
    }
  }

  /** Every ward but two is untouched, and these two keep their books. */
  twostate lemma StillBooks(ws: seq<Ward>, new w: nat, new to: nat)
    requires old(AllBooks(ws)) && w < |ws| && to < |ws| && ws[w].Books() && ws[to].Books()
    requires forall i :: 0 <= i < |ws| && i != w && i != to ==> unchanged(ws[i]) && unchanged(ws[i].sparks)
    ensures AllBooks(ws) && AllShaped(ws)
  {
    hide Balanced;
  }

  lemma IdsRemovedAppended(crew: seq<Spark>, i: nat)
    requires i < |crew|
    ensures IdBag(crew[..i] + crew[i + 1..] + [crew[i]]) == IdBag(crew)
  {
    IdsRemoved(crew, i);
    IdsAppend(crew[..i] + crew[i + 1..], crew[i]);
  }

  twostate lemma MovedPeople(ws: seq<Ward>, new w: nat, new to: nat, new id: int)
    requires old(AllShaped(ws)) && AllShaped(ws) && w < |ws| && to < |ws| && w != to
    requires IdBag(ws[w].Crew()) + multiset{id} == old(IdBag(ws[w].Crew()))
    requires IdBag(ws[to].Crew()) == old(IdBag(ws[to].Crew())) + multiset{id}
    requires forall i :: 0 <= i < |ws| ==> ws[i].wardNo == old(ws[i].wardNo) && ws[i].given == old(ws[i].given)
    requires forall i :: 0 <= i < |ws| && i != w && i != to ==> IdBag(ws[i].Crew()) == old(IdBag(ws[i].Crew()))
    ensures NobodyCame(ws)
  {
    hide Sum, IdBag, Rolls, Handouts, Numbers;
    var was, rest := old(Rolls(ws)), IdBag(ws[w].Crew());
    SumMoved(was, w, to, rest, multiset{id});
    assert Rolls(ws) == was[w := rest][to := was[to] + multiset{id}];
    assert Handouts(ws) == old(Handouts(ws)) && Numbers(ws) == old(Numbers(ws));
  }

  /** A payment that was asked for and did not land ends the game; one that was refused does not. */
  method PlayPayment(ws: seq<Ward>, w: nat, who: int, amount: int, fate: Fate) returns (stopped: bool)
    requires Apart(ws) && AllBooks(ws) && w < |ws|
    modifies ws, set w <- ws :: w.sparks
    ensures !stopped ==> AllBooks(ws)
    ensures stopped <==> Ends(ws, PayByHand(w, who, amount, fate))
    ensures stopped ==> OtherBooks(ws, w) && ws[w].Remembered()
    ensures AllShaped(ws) && NobodyCame(ws)
  {
    hide Balanced, Ward.SumHolds, Ward.Remembered, Rolls, Handouts, Sum, IdBag, NobodyCame, Ward.Asked;
    var ok, refused := ws[w].PayCommand(who, amount, fate);
    stopped := !ok && !refused;
    assert OtherBooks(ws, w);
    IdsKept(old(ws[w].Crew()), ws[w].Crew());
    SamePeople(ws);
  }

  /**
   Scrip is conserved over the whole game: through any moves among any wards every ward's books
   balance, and so do all of them together. A game stops before its last move only at a commit
   that did not land or a salvage name drawn twice, and then only one ward's books are open.
  */
  method PlayAll(ws: seq<Ward>, moves: seq<Move>) returns (played: nat)
    requires Apart(ws) && AllBooks(ws)
    modifies ws, set w <- ws :: w.sparks
    ensures played <= |moves|
    ensures played == |moves| ==> AllBooks(ws) && (forall w <- ws :: w.Shaped()) && HeldAcross(ws) == IssuedAcross(ws)
    ensures played < |moves| ==>
      Ends(ws, moves[played]) && OtherBooks(ws, moves[played].w) && ws[moves[played].w].Remembered()
    ensures old(Numbered(ws)) ==> Numbered(ws)
  {
    hide Balanced, Ends, Numbered, OneCame, NobodyCame;
    played := 0;
    while played < |moves|
      invariant played <= |moves| && AllBooks(ws) && (old(Numbered(ws)) ==> Numbered(ws))
    {
      var stopped := Play(ws, moves[played]);
      if stopped { return; }
      played := played + 1;
    }
    EveryWardHonestSoAreTheyAll(ws);
  }

  // ---- A cycle that gave up ----

  /**
   A cycle that gives up after a payment: two Sparks, every roll kept, one salvage name for all. The
   first is paid; the second holds the name already; and then `honest` does not pass.
  */
  method GivingUpAfterAPayment() returns (w: Ward, honest: bool)
    ensures w.Shaped() && w.Remembered() && w.GivenUp() && !w.SumHolds() && !honest
  {
    hide Balanced, Ward.Remembered, Ward.SumHolds, Ward.GivenUp;
    w := new Ward(_ => 99, (_, _, _) => "x");
    w.spent := 0;
    var founded := w.Found(2, 0);
    GiveSalvage(w);
    honest := UnluckyCycle(w);
  }

  /** The cycle of such a ward. */
  method UnluckyCycle(w: Ward) returns (honest: bool)
    requires w.Books() && w.nsparks == 2 && w.Lucky() && OneName(w, "x")
    requires w.Crew()[0].db.held == [] && w.Crew()[1].db.held == ["x"]
    modifies w, w.sparks
    ensures w.Shaped() && w.Remembered() && w.GivenUp() && !w.SumHolds() && !honest
  {
    hide Balanced, Ward.CutOff, Ward.LuckyCycle, Ward.LuckyEnd, Ward.Remembered, Ward.SumHolds, Ward.GivenUp,
         Ward.AsDecided, Ward.FreshNames, Ward.Lucky, Ward.Clear, OneName, IdBag, Ward.Arriving, Total;
    ghost var crew, seq0 := w.Crew(), w.seq_;
    var e, grp := w.Cycle(Lands);
    SecondHasIt(w, crew, seq0, "x");
    FirstHasNothing(w, crew, seq0);
    LuckyStops(w, crew, seq0, e);
    FirstPaid(w, crew, seq0);
    honest := w.Honest();
  }

  /** Every find of this ward gets the same name. */
  ghost predicate OneName(w: Ward, x: string) { forall n: int, c: int, q: nat :: w.names(n, c, q) == x }

  lemma NameIs(w: Ward, x: string, n: int, c: int, q: nat)
    requires OneName(w, x)
    ensures w.names(n, c, q) == x
  {
  }

  lemma FirstHasNothing(w: Ward, crew: seq<Spark>, seq0: nat)
    requires |crew| == 2 && crew[0].db.held == []
    ensures w.Clear(crew, seq0, 0)
  {
  }

  lemma SecondHasIt(w: Ward, crew: seq<Spark>, seq0: nat, x: string)
    requires |crew| == 2 && crew[1].db.held == [x]
    requires OneName(w, x)
    ensures !w.Clear(crew, seq0, 1)
  {
    NameIs(w, x, w.wardNo, w.cycle, seq0 + 1);
    assert x == crew[1].db.held[0];
  }

  /** The second Spark of a ward of two has found something. */
  method GiveSalvage(w: Ward)
    requires w.Books() && w.nsparks == 2 && w.found == 0 && forall i :: 0 <= i < 2 ==> w.Crew()[i].db.held == []
    modifies w`found, w.sparks
    ensures w.Books() && w.Crew()[0].db.held == [] && w.Crew()[1].db.held == ["x"]
  {
    ghost var crew := w.Crew();
    var s := w.sparks[1];
    w.sparks[1] := s.(db := s.db.(held := ["x"]));
    w.found := 1;
    assert SparkOk(crew[1]) && SparkOk(w.sparks[1]);
    TotalUpdate(crew, 1, w.sparks[1], PurseOf);
    TotalUpdate(crew, 1, w.sparks[1], ItemsOf);
    assert w.Crew() == crew[1 := w.sparks[1]];
  }

  lemma LuckyStops(w: Ward, crew: seq<Spark>, seq0: nat, e: Ending)
    requires w.Shaped() && |crew| == 2 && w.LuckyCycle(e, crew, seq0) && !w.Clear(crew, seq0, 1)
    ensures e == GaveUp && w.LuckyEnd(false, crew, w.Crew(), seq0)
  {
  }

  lemma FirstPaid(w: Ward, crew: seq<Spark>, seq0: nat)
    requires w.Shaped() && |crew| == w.nsparks == 2 && w.LuckyEnd(false, crew, w.Crew(), seq0)
    requires w.Clear(crew, seq0, 0) && exists built0, board0, ledger0 :: w.CutOff([], crew, built0, board0, ledger0)
    ensures !w.SumHolds()
  {
    hide Total;
    var n :| 0 <= n < |crew| && w.AllPaid(crew, w.Crew(), seq0, n) && !w.Clear(crew, seq0, n);
    assert w.Crew()[0].purse > crew[0].purse && SparkAt(0) !in [];
  }

  // ---- Names of arrivals ----

  function Ids(crew: seq<Spark>): set<int> { set i | 0 <= i < |crew| :: crew[i].id }

  predicate IdsApart(crew: seq<Spark>) { forall i, j :: 0 <= i < j < |crew| ==> crew[i].id != crew[j].id }

  lemma {:induction false} IdsCount(crew: seq<Spark>)
    requires IdsApart(crew)
    ensures |Ids(crew)| == |crew|
  {
    if crew != [] {
      var n := |crew| - 1;
      IdsCount(crew[..n]);
      assert Ids(crew) == Ids(crew[..n]) + {crew[n].id};
      assert crew[n].id !in Ids(crew[..n]);
    }
  }

  /** The ids a ward has given out so far, from its first on. */
  function Given(first: int, count: nat): (r: set<int>)
    ensures forall id :: id in r <==> first <= id < first + count
  {
    if count == 0 then {} else Given(first, count - 1) + {first + count - 1}
  }

  lemma {:induction false} GivenCount(first: int, count: nat)
    ensures |Given(first, count)| == count
  {
    if count > 0 {
      GivenCount(first, count - 1);
    }
  }

  /**
   An arrival takes its id from the current count. While the ids a ward has given out are a run from
   its first on, the new id is one of them exactly when more of the ward's own Sparks are away than
   there are strangers here; and they are still a run afterwards exactly when as many are.
  */
  lemma ArrivalIdIsTakenExactlyWhenMoreAreAway(w: Ward, count: nat)
    requires w.Shaped() && IdsApart(w.Crew())
    requires w.given == multiset(Given(IdOf(w.wardNo, 0), count))
    ensures var first := IdOf(w.wardNo, 0);
      var born, here, id := Given(first, count), Ids(w.Crew()), IdOf(w.wardNo, w.nsparks);
      && (id in w.given <==> |born - here| > |here - born|)
      && (w.given + multiset{id} == multiset(Given(first, count + 1)) <==> |born - here| == |here - born|)
  {
    var first := IdOf(w.wardNo, 0);
    IdsCount(w.Crew());
    TakenByCount(first, count, Ids(w.Crew()));
    NextOfRun(first, count, first + w.nsparks);
  }

  lemma TakenByCount(first: int, given: nat, here: set<int>)
    ensures var born, id := Given(first, given), first + |here|;
      && (id in born <==> |born - here| > |here - born|)
      && (id == first + given <==> |born - here| == |here - born|)
  {
    var born := Given(first, given);
    GivenCount(first, given);
    assert (born - here) + (born * here) == born && (here - born) + (born * here) == here;
  }

  lemma NextOfRun(first: int, count: nat, id: int)
    ensures multiset(Given(first, count)) + multiset{id} == multiset(Given(first, count + 1)) <==> id == first + count
  {
    var run := multiset(Given(first, count));
    assert multiset(Given(first, count + 1)) == run + multiset{first + count};
    if id != first + count {
      assert (run + multiset{id})[first + count] == 0;
    }
  }

  /** Nobody bears the id of another. */
  ghost predicate NoneTwice(ids: multiset<int>) { forall id <- ids :: ids[id] == 1 }

  lemma {:induction false} SumOfNone(bags: seq<multiset<int>>, id: int)
    requires forall i :: 0 <= i < |bags| ==> id !in bags[i]
    ensures id !in Sum(bags)
  {
    if bags != [] { SumOfNone(bags[..|bags| - 1], id); }
  }

  lemma {:induction false} SumOfOne(bags: seq<multiset<int>>, id: int, w: nat)
    requires w < |bags| && forall i :: 0 <= i < |bags| && i != w ==> id !in bags[i]
    ensures Sum(bags)[id] == bags[w][id]
  {
    var n := |bags| - 1;
    if w == n { SumOfNone(bags[..n], id); } else { SumOfOne(bags[..n], id, w); }
  }

  /** An id given out by one ward is given out by no other. */
  lemma GivenByOne(handouts: seq<multiset<int>>, numbers: seq<int>, w: nat, id: int)
    requires OwnIds(handouts, numbers) && w < |numbers| && OfWard(numbers[w], id)
    ensures Sum(handouts)[id] == handouts[w][id]
  {
    forall i | 0 <= i < |handouts| && i != w
      ensures id !in handouts[i]
    {
      if id in handouts[i] { OfOneWard(numbers[i], numbers[w], id); }
    }
    SumOfOne(handouts, id, w);
  }

  lemma OfOneWard(a: int, b: int, id: int)
    requires OfWard(a, id) && OfWard(b, id)
    ensures a == b
  {
    if a < b { WardsApart(a, b); } else if b < a { WardsApart(b, a); }
  }

  lemma WardsApart(a: int, b: int)
    requires a < b
    ensures (a + 1) * SPARKS_PER_WARD <= b * SPARKS_PER_WARD
  {
  }

  /**
   The ids of a game are meant to be unique across its wards. An arrival keeps them so exactly when
   its ward has not given its id out before.
  */
  lemma ArrivalKeepsIdsUniqueExactly(ws: seq<Ward>, w: nat)
    requires Numbered(ws) && w < |ws| && ws[w].nsparks < SPARKS_PER_WARD
    ensures var id := IdOf(ws[w].wardNo, ws[w].nsparks);
      NoneTwice(Sum(Rolls(ws)) + multiset{id}) <==> NoneTwice(Sum(Rolls(ws))) && id !in ws[w].given
  {
    NumberedIs(ws, w);
    hide Numbered, Rolls, Handouts, Numbers, IdBag, Sum, OwnIds, NoneTwice, AllShaped, IdOf;
    NewIdKeepsApart(Handouts(ws), Numbers(ws), w, ws[w].nsparks, Sum(Rolls(ws)));
  }

  lemma NumberedIs(ws: seq<Ward>, w: nat)
    requires Numbered(ws) && w < |ws|
    ensures Sum(Rolls(ws)) == Sum(Handouts(ws)) && OwnIds(Handouts(ws), Numbers(ws))
    ensures |Handouts(ws)| == |Numbers(ws)| == |ws|
    ensures Handouts(ws)[w] == ws[w].given && Numbers(ws)[w] == ws[w].wardNo
  {
    hide OwnIds, Sum, IdBag;
  }

  lemma NewIdKeepsApart(handouts: seq<multiset<int>>, numbers: seq<int>, w: nat, count: nat, ids: multiset<int>)
    requires OwnIds(handouts, numbers) && w < |numbers| && count < SPARKS_PER_WARD && ids == Sum(handouts)
    ensures |handouts| == |numbers|
    ensures var id := IdOf(numbers[w], count);
      NoneTwice(ids + multiset{id}) <==> NoneTwice(ids) && id !in handouts[w]
  {
    var id := IdOf(numbers[w], count);
    ArrivalOfWard(numbers[w], count);
    hide OfWard, Sum, NoneTwice;
    GivenByOne(handouts, numbers, w, id);
    OneMoreId(ids, id);
  }

  lemma OneMoreId(ids: multiset<int>, id: int)
    ensures NoneTwice(ids + multiset{id}) <==> NoneTwice(ids) && id !in ids
  {
    var now := ids + multiset{id};
    if NoneTwice(now) {
      forall j <- ids
        ensures ids[j] == 1 && j != id
      {
        assert j in now && id in now;
      }
    }
  }

  /** A game as its wards are founded, the i-th from its own first id on, is numbered, and no id is borne twice. */
  lemma FoundedGame(ws: seq<Ward>)
    requires forall i :: 0 <= i < |ws| ==> FoundedAt(ws[i], i)
    ensures Numbered(ws) && NoneTwice(Sum(Rolls(ws)))
  {
    hide IdBag, Sum, OwnIds, NoneTwice, Rolls, Handouts, Numbers;
    FoundedOwn(ws, Handouts(ws), Numbers(ws));
    assert Rolls(ws) == Handouts(ws);
    EachOnce(Handouts(ws), Numbers(ws));
  }

  lemma FoundedOwn(ws: seq<Ward>, handouts: seq<multiset<int>>, numbers: seq<int>)
    requires forall i :: 0 <= i < |ws| ==> FoundedAt(ws[i], i)
    requires handouts == Handouts(ws) && numbers == Numbers(ws)
    ensures OwnIds(handouts, numbers) && forall i :: 0 <= i < |handouts| ==> NoneTwice(handouts[i])
  {
    hide OfWard, IdBag, NoneTwice, FoundedAt, Handouts, Numbers;
    forall i | 0 <= i < |handouts|
      ensures handouts[i] == ws[i].given && numbers[i] == i && NoneTwice(handouts[i])
      ensures forall id <- handouts[i] :: OfWard(i, id)
    {
      assert FoundedAt(ws[i], i);
      FoundedIds(ws[i], i);
    }
  }

  /** Wards that have given out no id twice have together given out none twice. */
  lemma EachOnce(handouts: seq<multiset<int>>, numbers: seq<int>)
    requires OwnIds(handouts, numbers) && forall i :: 0 <= i < |handouts| ==> NoneTwice(handouts[i])
    ensures NoneTwice(Sum(handouts))
  {
    hide Sum, OfWard;
    forall id <- Sum(handouts)
      ensures Sum(handouts)[id] == 1
    {
      if i :| 0 <= i < |handouts| && id in handouts[i] {
        assert OfWard(numbers[i], id);
        GivenByOne(handouts, numbers, i, id);
      } else {
        SumOfNone(handouts, id);
      }
    }
  }

  /** What `Found` leaves, given the first id of the ward with this number. */
  ghost predicate FoundedAt(w: Ward, number: nat)
    reads w, w.sparks
  {
    && w.Shaped() && w.wardNo == number && w.given == IdBag(w.Crew()) && w.nsparks <= SPARKS_PER_WARD
    && forall j :: 0 <= j < w.nsparks ==> w.Crew()[j].id == IdOf(number, j)
  }

  lemma FoundedIds(w: Ward, number: nat)
    requires FoundedAt(w, number)
    ensures w.wardNo == number && NoneTwice(w.given) && forall id <- w.given :: OfWard(number, id)
  {
    var ids := IdsOf(w.Crew());
    forall j | 0 <= j < |ids|
      ensures OfWard(number, ids[j]) && multiset(ids)[ids[j]] == 1
    {
      ArrivalOfWard(number, j);
      OnceIn(ids, j);
    }
    hide OfWard;
    forall id <- w.given
      ensures OfWard(number, id) && w.given[id] == 1
    {
      assert id in ids;
    }
  }

  lemma OnceIn(ids: seq<int>, j: nat)
    requires j < |ids| && forall i :: 0 <= i < |ids| && i != j ==> ids[i] != ids[j]
    ensures multiset(ids)[ids[j]] == 1
  {
    var id := ids[j];
    assert ids == ids[..j] + [id] + ids[j + 1..];
    assert id !in ids[..j] && id !in ids[j + 1..];
  }
}
