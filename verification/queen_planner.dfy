/**
 The Queen's planner (src/planner.cpp): the ward as a domain of the HTN planner, and
 the closed form of what the search over it decides.
*/
module QueenPlanner {
  import opened Wrappers
  import opened HtnDomain
  import opened HtnWitness
  import opened HtnPlain
  import opened HtnSearch

  const TAVERN := 0
  const DEN := 1
  const RAILS := 2
  const PLAZA := 3
  const CHAPEL := 4
  const ROW := 5
  const VENUES := 6

  const WEAR_THAT_CANNOT_WAIT := 60

  /** What the planner sees of a ward; `built` is the cycle a venue was built in, 0 for never. */
  datatype View = View(built: seq<int>, cost: seq<int>, treasury: int, reserve: int, cycle: int, worstWear: int,
                       room: int)

  predicate Shaped(w: View) {
    |w.built| == VENUES && |w.cost| == VENUES
  }

  type Ward = w: View | Shaped(w) witness View([0, 0, 0, 0, 0, 0], [0, 0, 0, 0, 0, 0], 0, 0, 0, 0, 0)

  predicate Built(w: Ward, v: int) {
    0 <= v < VENUES && w.built[v] != 0
  }

  predicate Affordable(w: Ward, v: int) {
    0 <= v < VENUES && w.treasury >= w.cost[v] + w.reserve
  }

  /** Unbuilt, and the treasury can bear it. */
  predicate CanBuy(w: Ward, v: int) {
    0 <= v < VENUES && !Built(w, v) && Affordable(w, v)
  }

  function Bought(w: Ward, v: int): Ward
    requires 0 <= v < VENUES
  {
    w.(built := w.built[v := w.cycle], treasury := w.treasury - w.cost[v])
  }

  // ---- Names: hidden in proofs, where only their distinct lengths matter ----

  function CommissionName(): (r: string) ensures |r| == 10 { "commission" }
  function HoldName(): (r: string) ensures |r| == 4 { "hold" }
  function RunName(): (r: string) ensures |r| == 12 { "run_the_ward" }
  function EarnName(): (r: string) ensures |r| == 18 { "make_the_ward_earn" }
  function KeepName(): (r: string) ensures |r| == 23 { "keep_the_sparks_working" }
  function WordName(): (r: string) ensures |r| == 16 { "let_word_get_out" }

  function Commission(v: int): Call { Call(CommissionName(), [Int(v)]) }
  function Hold(): Call { Call(HoldName(), []) }
  function Plea(name: string): Task { Do(Call(name, [])) }

  // ---- Actions and methods ----

  function ActCommission(w: Ward, args: seq<Value>): Option<Ward> {
    if |args| != 1 || !args[0].Int? then None
    else if args[0].i < 0 || args[0].i >= VENUES then None
    else if Built(w, args[0].i) then None
    else if w.treasury < w.cost[args[0].i] + w.reserve then None
    else Some(Bought(w, args[0].i))
  }

  function ActHold(w: Ward, args: seq<Value>): Option<Ward> { Some(w) }

  /** next_of: buy this, then carry on with the same task. */
  function NextOf(w: Ward, task: string, v: int): Option<seq<Task>> {
    if Built(w, v) then None else Some([Do(Commission(v)), Plea(task)])
  }

  function MRails(w: Ward, args: seq<Value>): Option<seq<Task>> { NextOf(w, EarnName(), RAILS) }
  function MPlaza(w: Ward, args: seq<Value>): Option<seq<Task>> { NextOf(w, EarnName(), PLAZA) }
  function MSaveToEarn(w: Ward, args: seq<Value>): Option<seq<Task>> {
    if !Built(w, RAILS) || !Built(w, PLAZA) then Some([Do(Hold())]) else None
  }
  function MThenTheSparks(w: Ward, args: seq<Value>): Option<seq<Task>> { Some([Plea(KeepName())]) }

  function MDen(w: Ward, args: seq<Value>): Option<seq<Task>> { NextOf(w, KeepName(), DEN) }
  function MTavern(w: Ward, args: seq<Value>): Option<seq<Task>> { NextOf(w, KeepName(), TAVERN) }
  function MChapel(w: Ward, args: seq<Value>): Option<seq<Task>> { NextOf(w, KeepName(), CHAPEL) }
  function MSaveForSparks(w: Ward, args: seq<Value>): Option<seq<Task>> {
    if !Built(w, TAVERN) || !Built(w, DEN) || !Built(w, CHAPEL) then Some([Do(Hold())]) else None
  }
  function MThenTheWord(w: Ward, args: seq<Value>): Option<seq<Task>> { Some([Plea(WordName())]) }

  function MRow(w: Ward, args: seq<Value>): Option<seq<Task>> {
    if Built(w, ROW) || w.room <= 0 then None else Some([Do(Commission(ROW))])
  }
  function MWait(w: Ward, args: seq<Value>): Option<seq<Task>> { Some([Do(Hold())]) }

  function MRepairFirst(w: Ward, args: seq<Value>): Option<seq<Task>> {
    if Built(w, DEN) then None
    else if w.worstWear < WEAR_THAT_CANNOT_WAIT then None
    else Some([Do(Commission(DEN)), Plea(KeepName())])
  }
  function MEarnFirst(w: Ward, args: seq<Value>): Option<seq<Task>> { Some([Plea(EarnName())]) }

  function WardDomain(): Domain<Ward> {
    Domain(
      map[CommissionName() := ActCommission, HoldName() := ActHold],
      map[RunName() := [MRepairFirst, MEarnFirst],
          EarnName() := [MRails, MPlaza, MSaveToEarn, MThenTheSparks],
          KeepName() := [MDen, MTavern, MChapel, MSaveForSparks, MThenTheWord],
          WordName() := [MRow, MWait]],
      (w: Ward, b: Binding) => false,
      (v: Value) => "")
  }

  // ---- The closed form ----

  /** What the plan holds once word is all there is to spread. */
  function WordPlan(w: Ward): Plan {
    if w.room > 0 && CanBuy(w, ROW) then [Commission(ROW)] else [Hold()]
  }

  function Missing(w: Ward, v: int): nat { if Built(w, v) then 0 else 1 }

  /** Den, Tavern, Chapel while they can be bought; save while one is missing; then the word. */
  function KeepPlan(w: Ward): Plan
    requires w.cycle != 0
    decreases Missing(w, DEN) + Missing(w, TAVERN) + Missing(w, CHAPEL)
  {
    if CanBuy(w, DEN) then [Commission(DEN)] + KeepPlan(Bought(w, DEN))
    else if CanBuy(w, TAVERN) then [Commission(TAVERN)] + KeepPlan(Bought(w, TAVERN))
    else if CanBuy(w, CHAPEL) then [Commission(CHAPEL)] + KeepPlan(Bought(w, CHAPEL))
    else if !Built(w, TAVERN) || !Built(w, DEN) || !Built(w, CHAPEL) then [Hold()]
    else WordPlan(w)
  }

  /** Rails, Plaza while they can be bought; save while one is missing; then the Sparks. */
  function EarnPlan(w: Ward): Plan
    requires w.cycle != 0
    decreases Missing(w, RAILS) + Missing(w, PLAZA)
  {
    if CanBuy(w, RAILS) then [Commission(RAILS)] + EarnPlan(Bought(w, RAILS))
    else if CanBuy(w, PLAZA) then [Commission(PLAZA)] + EarnPlan(Bought(w, PLAZA))
    else if !Built(w, RAILS) || !Built(w, PLAZA) then [Hold()]
    else KeepPlan(w)
  }

  function RunPlan(w: Ward): Plan
    requires w.cycle != 0
  {
    if w.worstWear >= WEAR_THAT_CANNOT_WAIT && CanBuy(w, DEN) then [Commission(DEN)] + KeepPlan(Bought(w, DEN))
    else EarnPlan(w)
  }

  /** The Queen's decision this cycle, without any search. */
  function Decision(w: Ward): (r: Option<int>)
    ensures r.Some? ==> CanBuy(w, r.value)
  {
    if w.worstWear >= WEAR_THAT_CANNOT_WAIT && CanBuy(w, DEN) then Some(DEN)
    else if CanBuy(w, RAILS) then Some(RAILS)
    else if CanBuy(w, PLAZA) then Some(PLAZA)
    else if !Built(w, RAILS) || !Built(w, PLAZA) then None
    else if CanBuy(w, DEN) then Some(DEN)
    else if CanBuy(w, TAVERN) then Some(TAVERN)
    else if CanBuy(w, CHAPEL) then Some(CHAPEL)
    else if !Built(w, DEN) || !Built(w, TAVERN) || !Built(w, CHAPEL) then None
    else if w.room > 0 && CanBuy(w, ROW) then Some(ROW)
    else None
  }

  // ---- How the search steps through this domain ----

  /** The search over one list of tasks, with enough fuel, comes to this. */
  ghost predicate Finds(w: Ward, tasks: seq<Task>, fuel: nat, r: Option<Plan>) {
    Settled(WardDomain(), {}, w, tasks, fuel) && Plain(WardDomain(), {}, w, tasks, fuel) == r
  }

  /** The methods of a task from number i on come to this. */
  ghost predicate Tries(w: Ward, name: string, i: nat, seen: set<seq<Task>>, fuel: nat, r: Option<Plan>) {
    && name in WardDomain().methods && i <= |WardDomain().methods[name]|
    && var bs := MethodBranches(WardDomain(), {}, w, name, [], [], i, seen);
       AllSettled(WardDomain(), {}, w, bs, fuel) && FirstOf(WardDomain(), {}, w, bs, fuel) == r
  }

  lemma TriesNone(w: Ward, name: string, seen: set<seq<Task>>, fuel: nat)
    requires name in WardDomain().methods
    ensures Tries(w, name, |WardDomain().methods[name]|, seen, fuel, None)
  {
    hide WardDomain;
  }

  /** A method that does not apply is stepped over. */
  lemma TriesNext(w: Ward, name: string, i: nat, seen: set<seq<Task>>, fuel: nat, r: Option<Plan>)
    requires name in WardDomain().methods && i < |WardDomain().methods[name]|
    requires WardDomain().methods[name][i](w, []) == None && Tries(w, name, i + 1, seen, fuel, r)
    ensures Tries(w, name, i, seen, fuel, r)
  {
    hide WardDomain;
  }

  /** A method that applies is tried, and the rest only if it fails. */
  lemma TriesThis(w: Ward, name: string, i: nat, subs: seq<Task>, seen: set<seq<Task>>, fuel: nat, r: Option<Plan>,
                  rest: Option<Plan>)
    requires name in WardDomain().methods && i < |WardDomain().methods[name]|
    requires WardDomain().methods[name][i](w, []) == Some(subs) && subs !in seen
    requires Plausible(WardDomain(), {}, w, subs)
    requires Finds(w, subs, fuel, r) && Tries(w, name, i + 1, seen + {subs}, fuel, rest)
    ensures Tries(w, name, i, seen, fuel, if r.Some? then r else rest)
  {
    hide WardDomain, Plausible, Settled, Plain;
    var bs := MethodBranches(WardDomain(), {}, w, name, [], [], i + 1, seen + {subs});
    assert subs + [] == subs;
    assert ([subs] + bs)[1..] == bs;
    assert MethodBranches(WardDomain(), {}, w, name, [], [], i, seen) == [subs] + bs;
  }

  /** A task on its own is what its methods come to. */
  lemma FindsTask(w: Ward, name: string, fuel: nat, r: Option<Plan>)
    requires name in WardDomain().methods && name !in WardDomain().actions && WardDomain().methods[name] != []
    requires Tries(w, name, 0, {}, fuel, r)
    ensures Finds(w, [Plea(name)], fuel + 1, r)
  {
    hide WardDomain;
    var tasks := [Plea(name)];
    assert tasks[1..] == [] && tasks[..0] == [];
    assert Certified(WardDomain(), w, tasks) == 1;
  }

  /** hold alone. */
  lemma FindsHold(w: Ward, fuel: nat)
    ensures Finds(w, [Do(Hold())], fuel, Some([Hold()]))
  {
    hide MethodBranches, CommissionName, HoldName, RunName, EarnName, KeepName, WordName;
    var tasks := [Do(Hold())];
    assert tasks[1..] == [] && tasks[..0] == [];
    assert Skipped(WardDomain(), w, tasks) == 0;
    assert Finds(w, [], fuel, Some([]));
    assert [Hold()] + [] == [Hold()];
  }

  /** A commission with nothing after it, or with one more task after it. */
  lemma FindsCommission(w: Ward, v: int, rest: seq<Task>, fuel: nat, r: Option<Plan>)
    requires rest == [] || (|rest| == 1 && IsTask(rest[0]))
    requires 0 <= v < VENUES && !Built(w, v)
    requires CanBuy(w, v) ==> Finds(Bought(w, v), rest, fuel, r)
    ensures Finds(w, [Do(Commission(v))] + rest, fuel, if CanBuy(w, v) then Prepended(Commission(v), r) else None)
  {
    hide CommissionName, HoldName, RunName, EarnName, KeepName, WordName, Branches, CallKey;
    var tasks := [Do(Commission(v))] + rest;
    assert tasks[0] == Do(Commission(v));
    assert tasks[1..] == rest;
    CommissionScan(w, v, rest);
    assert !Branching(WardDomain(), w, tasks[0]);
  }

  /** One of the four tasks, without arguments. */
  predicate IsTask(t: Task) {
    t in {Plea(RunName()), Plea(EarnName()), Plea(KeepName()), Plea(WordName())}
  }

  lemma CommissionScan(w: Ward, v: int, rest: seq<Task>)
    requires rest == [] || (|rest| == 1 && IsTask(rest[0]))
    ensures Scanned(WardDomain(), w, [Do(Commission(v))] + rest).found
  {
    hide CommissionName, HoldName, RunName, EarnName, KeepName, WordName;
    var first := [Do(Commission(v))];
    assert first[..0] == [] && Skipped(WardDomain(), w, first) == 0;
    if rest == [] {
      assert first + rest == first;
    } else {
      assert (first + rest)[..1] == first;
      assert Certified(WardDomain(), w, first + rest) >= 1;
    }
  }

  /** A commission and a task, a task, and the single acts are all worth trying. */
  lemma WorthTrying(w: Ward, v: int, t: Task)
    requires IsTask(t)
    ensures Plausible(WardDomain(), {}, w, [Do(Commission(v)), t]) && Plausible(WardDomain(), {}, w, [t])
    ensures Plausible(WardDomain(), {}, w, [Do(Commission(v))]) && Plausible(WardDomain(), {}, w, [Do(Hold())])
  {
    hide CommissionName, HoldName, RunName, EarnName, KeepName, WordName, CallKey;
  }

  lemma Methods()
    ensures var m := WardDomain().methods;
      && {RunName(), EarnName(), KeepName(), WordName()} <= m.Keys
      && {RunName(), EarnName(), KeepName(), WordName()} !! WardDomain().actions.Keys
      && m[RunName()] == [MRepairFirst, MEarnFirst]
      && m[EarnName()] == [MRails, MPlaza, MSaveToEarn, MThenTheSparks]
      && m[KeepName()] == [MDen, MTavern, MChapel, MSaveForSparks, MThenTheWord]
      && m[WordName()] == [MRow, MWait]
  {
    hide CommissionName, HoldName, RunName, EarnName, KeepName, WordName;
  }

  // ---- What the search decides ----

  lemma FindsWord(w: Ward, fuel: nat)
    ensures Finds(w, [Plea(WordName())], fuel + 1, Some(WordPlan(w)))
  {
    hide WardDomain, Finds, Tries, Plausible, CommissionName, HoldName, RunName, EarnName, KeepName, WordName;
    Methods();
    var row, hold := [Do(Commission(ROW))], [Do(Hold())];
    WorthTrying(w, ROW, Plea(WordName()));
    FindsHold(w, fuel);
    var name := WordName();
    if Built(w, ROW) || w.room <= 0 {
      TriesNone(w, name, {hold}, fuel);
      assert {} + {hold} == {hold};
      TriesThis(w, name, 1, hold, {}, fuel, Some([Hold()]), None);
      TriesNext(w, name, 0, {}, fuel, Some([Hold()]));
    } else {
      TriesNone(w, name, {row} + {hold}, fuel);
      TriesThis(w, name, 1, hold, {row}, fuel, Some([Hold()]), None);
      FindsEmpty(Bought(w, ROW), fuel);
      FindsCommission(w, ROW, [], fuel, Some([]));
      assert row + [] == row;
      var r := if CanBuy(w, ROW) then Prepended(Commission(ROW), Some([])) else None;
      var none: set<seq<Task>> := {};
      assert [Commission(ROW)] + [] == [Commission(ROW)];
      assert none + {row} == {row};
      TriesThis(w, name, 0, row, {}, fuel, r, Some([Hold()]));
    }
    FindsTask(w, name, fuel, Some(WordPlan(w)));
  }

  function BuyThen(v: int, task: string): seq<Task> { [Do(Commission(v)), Plea(task)] }

  function SeenAfter(w: Ward, v: int, task: string, seen: set<seq<Task>>): set<seq<Task>> {
    if Built(w, v) then seen else seen + {BuyThen(v, task)}
  }

  /** A method of the form "buy this, then carry on with the task". */
  lemma TriesBuy(w: Ward, name: string, i: nat, v: int, task: string, seen: set<seq<Task>>, fuel: nat, r: Plan,
                 rest: Option<Plan>)
    requires name in WardDomain().methods && i < |WardDomain().methods[name]| && 0 <= v < VENUES
    requires WardDomain().methods[name][i](w, []) == NextOf(w, task, v) && BuyThen(v, task) !in seen
    requires IsTask(Plea(task))
    requires CanBuy(w, v) ==> Finds(Bought(w, v), [Plea(task)], fuel, Some(r))
    requires Tries(w, name, i + 1, SeenAfter(w, v, task, seen), fuel, rest)
    ensures Tries(w, name, i, seen, fuel, if CanBuy(w, v) then Some([Commission(v)] + r) else rest)
  {
    hide WardDomain, Finds, Tries, Plausible, CommissionName, HoldName, RunName, EarnName, KeepName, WordName, IsTask;
    if Built(w, v) {
      TriesNext(w, name, i, seen, fuel, rest);
    } else {
      WorthTrying(w, v, Plea(task));
      FindsCommission(w, v, [Plea(task)], fuel, Some(r));
      assert [Do(Commission(v))] + [Plea(task)] == BuyThen(v, task);
      var bought := if CanBuy(w, v) then Some([Commission(v)] + r) else None;
      TriesThis(w, name, i, BuyThen(v, task), seen, fuel, bought, rest);
    }
  }

  /** The last two methods of a line of business: hold while something is missing, else hand on. */
  lemma TriesSaveOrPass(w: Ward, name: string, i: nat, saving: bool, next: string, seen: set<seq<Task>>, fuel: nat,
                        r: Plan)
    requires name in WardDomain().methods && |WardDomain().methods[name]| == i + 2
    requires WardDomain().methods[name][i](w, []) == if saving then Some([Do(Hold())]) else None
    requires WardDomain().methods[name][i + 1](w, []) == Some([Plea(next)])
    requires [Do(Hold())] !in seen && [Plea(next)] !in seen && IsTask(Plea(next)) && Do(Hold()) != Plea(next)
    requires Finds(w, [Plea(next)], fuel, Some(r))
    ensures Tries(w, name, i, seen, fuel, Some(if saving then [Hold()] else r))
  {
    hide WardDomain, Finds, Tries, Plausible, CommissionName, HoldName, RunName, EarnName, KeepName, WordName, IsTask;
    WorthTrying(w, 0, Plea(next));
    var hold, pass := [Do(Hold())], [Plea(next)];
    assert hold[0] != pass[0];
    var seen' := if saving then seen + {hold} else seen;
    TriesNone(w, name, seen' + {pass}, fuel);
    TriesThis(w, name, i + 1, pass, seen', fuel, Some(r), None);
    if saving {
      FindsHold(w, fuel);
      TriesThis(w, name, i, hold, seen, fuel, Some([Hold()]), Some(r));
    } else {
      TriesNext(w, name, i, seen, fuel, Some(r));
    }
  }

  lemma FindsKeep(w: Ward, fuel: nat)
    requires w.cycle != 0 && fuel >= 1 + Missing(w, DEN) + Missing(w, TAVERN) + Missing(w, CHAPEL)
    ensures Finds(w, [Plea(KeepName())], fuel + 1, Some(KeepPlan(w)))
    decreases Missing(w, DEN) + Missing(w, TAVERN) + Missing(w, CHAPEL)
  {
    hide WardDomain, Finds, Tries, Plausible, CommissionName, HoldName, RunName, EarnName, KeepName, WordName;
    Methods();
    var name := KeepName();
    if CanBuy(w, DEN) { FindsKeep(Bought(w, DEN), fuel - 1); }
    if CanBuy(w, TAVERN) { FindsKeep(Bought(w, TAVERN), fuel - 1); }
    if CanBuy(w, CHAPEL) { FindsKeep(Bought(w, CHAPEL), fuel - 1); }
    FindsWord(w, fuel - 1);
    KeepTries(w, fuel);
    FindsTask(w, name, fuel, Some(KeepPlan(w)));
  }

  function KeepAfter(w: Ward, v: int): Plan
    requires w.cycle != 0 && 0 <= v < VENUES
  {
    KeepPlan(Bought(w, v))
  }

  /** The set of decompositions seen before method i, when methods 0..i buy these venues. */
  function SeenBuying(w: Ward, task: string, vs: seq<int>): set<seq<Task>> {
    if vs == [] then {} else SeenAfter(w, vs[|vs| - 1], task, SeenBuying(w, task, vs[..|vs| - 1]))
  }

  lemma {:induction false} SeenOnlyBuys(w: Ward, task: string, vs: seq<int>)
    ensures forall b <- SeenBuying(w, task, vs) :: |b| == 2 && exists v <- vs :: b[0] == Do(Commission(v))
  {
    if vs != [] {
      SeenOnlyBuys(w, task, vs[..|vs| - 1]);
    }
  }

  /** Methods that buy one venue after another, and then what the remaining methods come to. */
  lemma {:induction false} TriesAll(w: Ward, name: string, vs: seq<int>, k: nat, fuel: nat, after: int -> Plan,
                                    rest: Plan)
    requires name in WardDomain().methods && k <= |vs| <= |WardDomain().methods[name]| && IsTask(Plea(name))
    requires forall i, j :: 0 <= i < j < |vs| ==> vs[i] != vs[j]
    requires forall i :: 0 <= i < |vs| ==>
      0 <= vs[i] < VENUES && WardDomain().methods[name][i](w, []) == NextOf(w, name, vs[i])
    requires forall v <- vs :: CanBuy(w, v) ==> Finds(Bought(w, v), [Plea(name)], fuel, Some(after(v)))
    requires Tries(w, name, |vs|, SeenBuying(w, name, vs), fuel, Some(rest))
    ensures Tries(w, name, k, SeenBuying(w, name, vs[..k]), fuel, Some(FirstBuy(w, vs[k..], after, rest)))
    decreases |vs| - k
  {
    hide WardDomain, Finds, Tries, CommissionName, HoldName, RunName, EarnName, KeepName, WordName, IsTask, CanBuy,
         SeenAfter, SeenBuying, FirstBuy, NextOf;
    NothingLeft(w, after, rest);
    if k == |vs| {
      assert vs[..k] == vs && vs[k..] == [];
    } else {
      TriesAll(w, name, vs, k + 1, fuel, after, rest);
      var seen := SeenBuying(w, name, vs[..k]);
      SeenNext(w, name, vs, k);
      FirstNext(w, vs, k, after, rest);
      TriesBuy(w, name, k, vs[k], name, seen, fuel, after(vs[k]), Some(FirstBuy(w, vs[k + 1..], after, rest)));
    }
  }

  lemma SeenNext(w: Ward, name: string, vs: seq<int>, k: nat)
    requires k < |vs| && forall i, j :: 0 <= i < j < |vs| ==> vs[i] != vs[j]
    ensures SeenBuying(w, name, vs[..k + 1]) == SeenAfter(w, vs[k], name, SeenBuying(w, name, vs[..k]))
    ensures BuyThen(vs[k], name) !in SeenBuying(w, name, vs[..k])
  {
    hide SeenAfter;
    assert vs[..k + 1][..k] == vs[..k];
    SeenOnlyBuys(w, name, vs[..k]);
  }

  lemma FirstNext(w: Ward, vs: seq<int>, k: nat, after: int -> Plan, rest: Plan)
    requires k < |vs|
    ensures FirstBuy(w, vs[k..], after, rest) ==
      if CanBuy(w, vs[k]) then [Commission(vs[k])] + after(vs[k]) else FirstBuy(w, vs[k + 1..], after, rest)
  {
    assert vs[k..][1..] == vs[k + 1..];
  }

  lemma NothingLeft(w: Ward, after: int -> Plan, rest: Plan)
    ensures FirstBuy(w, [], after, rest) == rest
  {
  }

  /** The first of these that can be bought, and then the plan after it; else the rest. */
  function FirstBuy(w: Ward, vs: seq<int>, after: int -> Plan, rest: Plan): Plan {
    if vs == [] then rest
    else if CanBuy(w, vs[0]) then [Commission(vs[0])] + after(vs[0])
    else FirstBuy(w, vs[1..], after, rest)
  }

  lemma KeepTries(w: Ward, fuel: nat)
    requires w.cycle != 0
    requires forall v | v in [DEN, TAVERN, CHAPEL] && CanBuy(w, v) ::
      Finds(Bought(w, v), [Plea(KeepName())], fuel, Some(KeepAfter(w, v)))
    requires Finds(w, [Plea(WordName())], fuel, Some(WordPlan(w)))
    ensures Tries(w, KeepName(), 0, {}, fuel, Some(KeepPlan(w)))
  {
    hide WardDomain, Finds, Tries, WordPlan, CanBuy, SeenBuying, CommissionName, HoldName, RunName, EarnName, KeepName,
         WordName;
    Methods();
    var name, vs := KeepName(), [DEN, TAVERN, CHAPEL];
    var saving := !Built(w, TAVERN) || !Built(w, DEN) || !Built(w, CHAPEL);
    SeenOnlyBuys(w, name, vs);
    TriesSaveOrPass(w, name, 3, saving, WordName(), SeenBuying(w, name, vs), fuel, WordPlan(w));
    var after := v => if 0 <= v < VENUES then KeepAfter(w, v) else [];
    var rest := if saving then [Hold()] else WordPlan(w);
    TriesAll(w, name, vs, 0, fuel, after, rest);
    assert vs[..0] == [] && vs[0..] == vs;
    KeepPlanIsFirstBuy(w, after, rest);
    NoneSeen(w, name);
  }

  lemma NoneSeen(w: Ward, task: string)
    ensures SeenBuying(w, task, []) == {}
  {
  }

  lemma KeepPlanIsFirstBuy(w: Ward, after: int -> Plan, rest: Plan)
    requires w.cycle != 0 && forall v | 0 <= v < VENUES :: after(v) == KeepAfter(w, v)
    requires rest == if !Built(w, TAVERN) || !Built(w, DEN) || !Built(w, CHAPEL) then [Hold()] else WordPlan(w)
    ensures KeepPlan(w) == FirstBuy(w, [DEN, TAVERN, CHAPEL], after, rest)
  {
    hide CanBuy, WordPlan, Commission, Hold;
    var vs := [DEN, TAVERN, CHAPEL];
    var r1 := FirstBuy(w, vs[1..], after, rest);
    var r2 := FirstBuy(w, vs[2..], after, rest);
    assert vs[1..][1..] == vs[2..] && vs[2..][1..] == [];
    assert vs[1..][0] == TAVERN && vs[2..][0] == CHAPEL;
    assert FirstBuy(w, vs[2..][1..], after, rest) == rest;
    assert r2 == if CanBuy(w, CHAPEL) then [Commission(CHAPEL)] + KeepAfter(w, CHAPEL) else rest;
    assert r1 == if CanBuy(w, TAVERN) then [Commission(TAVERN)] + KeepAfter(w, TAVERN) else r2;
  }

  lemma FindsEarn(w: Ward, fuel: nat)
    requires w.cycle != 0 && fuel >= 5 + Missing(w, RAILS) + Missing(w, PLAZA)
    ensures Finds(w, [Plea(EarnName())], fuel + 1, Some(EarnPlan(w)))
    decreases Missing(w, RAILS) + Missing(w, PLAZA)
  {
    hide WardDomain, Finds, Tries, KeepPlan, CommissionName, HoldName, RunName, EarnName, KeepName, WordName;
    Methods();
    if CanBuy(w, RAILS) { FindsEarn(Bought(w, RAILS), fuel - 1); }
    if CanBuy(w, PLAZA) { FindsEarn(Bought(w, PLAZA), fuel - 1); }
    FindsKeep(w, fuel - 1);
    EarnTries(w, fuel);
    FindsTask(w, EarnName(), fuel, Some(EarnPlan(w)));
  }

  function EarnAfter(w: Ward, v: int): Plan
    requires w.cycle != 0 && 0 <= v < VENUES
  {
    EarnPlan(Bought(w, v))
  }

  lemma EarnTries(w: Ward, fuel: nat)
    requires w.cycle != 0
    requires forall v | v in [RAILS, PLAZA] && CanBuy(w, v) ::
      Finds(Bought(w, v), [Plea(EarnName())], fuel, Some(EarnAfter(w, v)))
    requires Finds(w, [Plea(KeepName())], fuel, Some(KeepPlan(w)))
    ensures Tries(w, EarnName(), 0, {}, fuel, Some(EarnPlan(w)))
  {
    hide WardDomain, Finds, Tries, KeepPlan, CanBuy, SeenBuying, CommissionName, HoldName, RunName, EarnName, KeepName,
         WordName;
    Methods();
    var name, vs := EarnName(), [RAILS, PLAZA];
    var saving := !Built(w, RAILS) || !Built(w, PLAZA);
    SeenOnlyBuys(w, name, vs);
    TriesSaveOrPass(w, name, 2, saving, KeepName(), SeenBuying(w, name, vs), fuel, KeepPlan(w));
    var after := v => if 0 <= v < VENUES then EarnAfter(w, v) else [];
    var rest := if saving then [Hold()] else KeepPlan(w);
    TriesAll(w, name, vs, 0, fuel, after, rest);
    assert vs[..0] == [] && vs[0..] == vs;
    EarnPlanIsFirstBuy(w, after, rest);
    NoneSeen(w, name);
  }

  lemma EarnPlanIsFirstBuy(w: Ward, after: int -> Plan, rest: Plan)
    requires w.cycle != 0 && forall v | 0 <= v < VENUES :: after(v) == EarnAfter(w, v)
    requires rest == if !Built(w, RAILS) || !Built(w, PLAZA) then [Hold()] else KeepPlan(w)
    ensures EarnPlan(w) == FirstBuy(w, [RAILS, PLAZA], after, rest)
  {
    hide CanBuy, KeepPlan, Commission, Hold;
    var vs := [RAILS, PLAZA];
    assert vs[1..][1..] == [];
    assert FirstBuy(w, vs[1..], after, rest) ==
      if CanBuy(w, PLAZA) then [Commission(PLAZA)] + EarnAfter(w, PLAZA) else rest;
  }

  /** The whole search: it succeeds, well within its fuel, with the plan of the closed form. */
  lemma FindsRun(w: Ward, fuel: nat)
    requires w.cycle != 0 && fuel >= 8
    ensures Finds(w, [Plea(RunName())], fuel + 1, Some(RunPlan(w)))
  {
    hide WardDomain, Finds, Tries, Plausible, KeepPlan, EarnPlan, CommissionName, HoldName, RunName, EarnName,
         KeepName, WordName;
    Methods();
    var name, repair, earn := RunName(), BuyThen(DEN, KeepName()), [Plea(EarnName())];
    FindsEarn(w, fuel - 1);
    WorthTrying(w, DEN, Plea(EarnName()));
    var applies := !Built(w, DEN) && w.worstWear >= WEAR_THAT_CANNOT_WAIT;
    var none: set<seq<Task>> := {};
    var seen := if applies then none + {repair} else none;
    TriesNone(w, name, seen + {earn}, fuel);
    TriesThis(w, name, 1, earn, seen, fuel, Some(EarnPlan(w)), None);
    if applies {
      if CanBuy(w, DEN) { FindsKeep(Bought(w, DEN), fuel - 1); }
      WorthTrying(w, DEN, Plea(KeepName()));
      var r := if CanBuy(w, DEN) then KeepPlan(Bought(w, DEN)) else [];
      FindsCommission(w, DEN, [Plea(KeepName())], fuel, Some(r));
      assert [Do(Commission(DEN))] + [Plea(KeepName())] == repair;
      var repaired := if CanBuy(w, DEN) then Some([Commission(DEN)] + r) else None;
      TriesThis(w, name, 0, repair, none, fuel, repaired, Some(EarnPlan(w)));
    } else {
      TriesNext(w, name, 0, none, fuel, Some(EarnPlan(w)));
    }
    FindsTask(w, name, fuel, Some(RunPlan(w)));
  }

  lemma FindsEmpty(w: Ward, fuel: nat)
    ensures Finds(w, [], fuel, Some([]))
  {
  }

  // ---- The decision ----

  predicate IsCommission(c: Call) {
    c.name == CommissionName() && |c.args| == 1 && c.args[0].Int?
  }

  /** The first step of the plan is the decision, and a plan that holds holds from the start. */
  lemma RunPlanDecides(w: Ward)
    requires w.cycle != 0
    ensures Decision(w).Some? ==> RunPlan(w) != [] && RunPlan(w)[0] == Commission(Decision(w).value)
    ensures Decision(w).None? ==> RunPlan(w) == [Hold()]
  {
    hide CommissionName, HoldName, CanBuy;
  }

  /** queen_plan: the venue to commission this cycle, or -1 to hold. It always answers. */
  method QueenPlan(w: Ward) returns (ok: bool, venue: int)
    ensures w.cycle != 0 ==> ok && venue == (if Decision(w).Some? then Decision(w).value else -1)
    ensures ok && venue != -1 ==> CanBuy(w, venue)
  {
    hide RunPlan, Decision, Plain, Settled, Execute, CommissionName, HoldName, RunName;
    var plan := FindPlan(WardDomain(), {}, w, [Plea(RunName())]);
    venue := -1;
    if w.cycle != 0 {
      FindsRun(w, TW_MAX_DEPTH - 1);
      RunPlanDecides(w);
    }
    if plan.None? { return false, -1; }
    ok := true;
    var i := 0;
    while i < |plan.value|
      invariant 0 <= i <= |plan.value| && venue == -1
      invariant forall j :: 0 <= j < i ==> !IsCommission(plan.value[j])
    {
      var c := plan.value[i];
      if IsCommission(c) {
        venue := c.args[0].i;
        FirstCommissionCanBuy(w, plan.value, i);
        return;
      }
      i := i + 1;
    }
  }

  /** The first commission of any plan that runs could have been bought at the start. */
  lemma {:induction false} FirstCommissionCanBuy(w: Ward, plan: Plan, i: nat)
    requires Execute(WardDomain(), w, plan).Some? && i < |plan| && IsCommission(plan[i])
    requires forall j :: 0 <= j < i ==> !IsCommission(plan[j])
    ensures CanBuy(w, plan[i].args[0].i)
    decreases i
  {
    hide CommissionName, HoldName, RunName, EarnName, KeepName, WordName;
    if i > 0 {
      assert WardDomain().actions[plan[0].name](w, plan[0].args) == Some(w);
      FirstCommissionCanBuy(w, plan[1..], i - 1);
    }
  }

  /** In any plan that runs, whatever it was made from: the reserve is kept, and no venue is bought twice. */
  lemma {:induction false} CommissionsKeepReserve(w: Ward, plan: Plan, i: nat)
    requires Execute(WardDomain(), w, plan).Some? && i < |plan| && IsCommission(plan[i])
    ensures Execute(WardDomain(), w, plan[..i + 1]).Some?
    ensures var t := Execute(WardDomain(), w, plan[..i + 1]).value; t.treasury >= t.reserve == w.reserve
    ensures w.cycle != 0 ==> forall j :: 0 <= j < i && IsCommission(plan[j]) ==> plan[j] != plan[i]
    ensures !Built(w, plan[i].args[0].i)
    decreases i
  {
    hide CommissionName, HoldName, RunName, EarnName, KeepName, WordName;
    var t := WardDomain().actions[plan[0].name](w, plan[0].args).value;
    assert plan[..i + 1][0] == plan[0] && plan[..i + 1][1..] == plan[1..][..i];
    if i > 0 {
      CommissionsKeepReserve(t, plan[1..], i - 1);
      assert plan[1..][i - 1] == plan[i];
      assert t.cycle == w.cycle && t.reserve == w.reserve;
      forall j | 0 <= j < i && IsCommission(plan[j]) && w.cycle != 0
        ensures plan[j] != plan[i]
      {
        if j > 0 {
          assert plan[1..][j - 1] == plan[j];
        } else {
          assert Built(t, plan[0].args[0].i);
        }
      }
    }
  }
}
