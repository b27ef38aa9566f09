/**
 The search with a derivation tree, with no memory and no tree: what the one with both is
 measured against, and when it finds a plan (thirdparty/taskweft/tw_planner.hpp). It spends
 fuel on every step and leaves out the methods it was told to skip.
*/
module HtnTreePlain {
  import opened Wrappers
  import opened HtnDomain
  import opened HtnWitness
  import opened HtnPlain
  import opened HtnComplete

  type Skip = map<string, set<int>>

  /** Is this alternative of this command to be left out? */
  predicate Skipped<S(!new)>(d: Domain<S>, skip: Skip, c: Call, i: int) {
    CallKey(d, c) in skip && i in skip[CallKey(d, c)]
  }

  /** Methods i, i+1, … that are not to be skipped: each new decomposition once, and only the plausible ones. */
  function Unskipped<S(!new)>(d: Domain<S>, bl: set<string>, skip: Skip, s: S, c: Call, tail: seq<Task>, i: nat,
                              seen: set<seq<Task>>): seq<seq<Task>>
    requires c.name in d.methods && i <= |d.methods[c.name]|
    decreases |d.methods[c.name]| - i
  {
    if i == |d.methods[c.name]| then []
    else
      match if Skipped(d, skip, c, i) then None else Expanded(d, s, c.name, c.args, tail, i)
      case None => Unskipped(d, bl, skip, s, c, tail, i + 1, seen)
      case Some(tasks) =>
        if tasks in seen then Unskipped(d, bl, skip, s, c, tail, i + 1, seen)
        else (if Plausible(d, bl, s, tasks) then [tasks] else []) +
             Unskipped(d, bl, skip, s, c, tail, i + 1, seen + {tasks})
  }

  function TreeBranches<S(!new)>(d: Domain<S>, bl: set<string>, skip: Skip, s: S, tasks: seq<Task>): seq<seq<Task>>
    requires tasks != []
  {
    match tasks[0]
    case Do(c) => if c.name in d.methods then Unskipped(d, bl, skip, s, c, tasks[1..], 0, {}) else []
    case Goal(bs) =>
      var unmet := Unmet(d, s, bs);
      if unmet != [] && unmet[0].variable in d.methods
      then Unskipped(d, bl, skip, s, Call(unmet[0].variable, GoalArgs(unmet[0])), tasks, 0, {}) else []
    case Multi(bs) => BindingBranches(Unmet(d, s, bs), tasks, 0)
  }

  /** The plain search. Fuel bounds the steps. */
  function TreePlain<S(!new)>(d: Domain<S>, bl: set<string>, skip: Skip, s: S, tasks: seq<Task>,
                              fuel: nat): Option<Plan>
    decreases fuel, 0
  {
    if fuel == 0 then None
    else if tasks == [] then Some([])
    else if Branching(d, s, tasks[0]) then
      TreeFirst(d, bl, skip, s, TreeBranches(d, bl, skip, s, tasks), fuel - 1)
    else
      match tasks[0]
      case Do(c) =>
        if CallKey(d, c) in bl then None
        else
          (match d.actions[c.name](s, c.args)
           case None => None
           case Some(t) => Prepended(c, TreePlain(d, bl, skip, t, tasks[1..], fuel - 1)))
      case _ => TreePlain(d, bl, skip, s, tasks[1..], fuel - 1)
  }

  /** The first branch with a plan. */
  function TreeFirst<S(!new)>(d: Domain<S>, bl: set<string>, skip: Skip, s: S, branches: seq<seq<Task>>,
                              fuel: nat): Option<Plan>
    decreases fuel, 1, |branches|
  {
    if branches == [] then None
    else
      var r := TreePlain(d, bl, skip, s, branches[0], fuel);
      if r.Some? then r else TreeFirst(d, bl, skip, s, branches[1..], fuel)
  }

  /** No step below here ever runs out of fuel. */
  predicate TreeSettled<S(!new)>(d: Domain<S>, bl: set<string>, skip: Skip, s: S, tasks: seq<Task>, fuel: nat)
    decreases fuel, 0
  {
    && fuel > 0
    && if tasks == [] then true
       else if Branching(d, s, tasks[0]) then
         AllTreeSettled(d, bl, skip, s, TreeBranches(d, bl, skip, s, tasks), fuel - 1)
       else
         match tasks[0]
         case Do(c) =>
           CallKey(d, c) in bl ||
           (match d.actions[c.name](s, c.args)
            case None => true
            case Some(t) => TreeSettled(d, bl, skip, t, tasks[1..], fuel - 1))
         case _ => TreeSettled(d, bl, skip, s, tasks[1..], fuel - 1)
  }

  predicate AllTreeSettled<S(!new)>(d: Domain<S>, bl: set<string>, skip: Skip, s: S, branches: seq<seq<Task>>,
                                    fuel: nat)
    decreases fuel, 1, |branches|
  {
    branches == [] ||
    (TreeSettled(d, bl, skip, s, branches[0], fuel) && AllTreeSettled(d, bl, skip, s, branches[1..], fuel))
  }

  /** More fuel than needed changes nothing. */
  lemma {:induction false} MoreSteps<S(!new)>(d: Domain<S>, bl: set<string>, skip: Skip, s: S, tasks: seq<Task>, n: nat,
                                              m: nat)
    requires TreeSettled(d, bl, skip, s, tasks, n) && n <= m
    ensures TreeSettled(d, bl, skip, s, tasks, m)
    ensures TreePlain(d, bl, skip, s, tasks, m) == TreePlain(d, bl, skip, s, tasks, n)
    decreases n, 0
  {
    hide Branching, TreeBranches, CallKey;
    if tasks != [] {
      if Branching(d, s, tasks[0]) {
        MoreStepsBranches(d, bl, skip, s, TreeBranches(d, bl, skip, s, tasks), n - 1, m - 1);
      } else {
        BranchingAction(d, s, tasks[0]);
        match tasks[0]
        case Do(c) =>
          if CallKey(d, c) !in bl && d.actions[c.name](s, c.args).Some? {
            MoreSteps(d, bl, skip, d.actions[c.name](s, c.args).value, tasks[1..], n - 1, m - 1);
          }
        case _ => MoreSteps(d, bl, skip, s, tasks[1..], n - 1, m - 1);
      }
    }
  }

  lemma BranchingAction<S(!new)>(d: Domain<S>, s: S, t: Task)
    requires !Branching(d, s, t)
    ensures if t.Do? then t.call.name in d.actions else Satisfied(d, s, t.bindings)
  {
  }

  lemma {:induction false} MoreStepsBranches<S(!new)>(d: Domain<S>, bl: set<string>, skip: Skip, s: S,
                                                      branches: seq<seq<Task>>, n: nat, m: nat)
    requires AllTreeSettled(d, bl, skip, s, branches, n) && n <= m
    ensures AllTreeSettled(d, bl, skip, s, branches, m)
    ensures TreeFirst(d, bl, skip, s, branches, m) == TreeFirst(d, bl, skip, s, branches, n)
    decreases n, 1, |branches|
  {
    if branches != [] {
      MoreSteps(d, bl, skip, s, branches[0], n, m);
      MoreStepsBranches(d, bl, skip, s, branches[1..], n, m);
    }
  }

  /** A settled search that finds nothing: no amount of fuel would help it. */
  ghost predicate TreeHopeless<S(!new)>(d: Domain<S>, bl: set<string>, skip: Skip, s: S, tasks: seq<Task>) {
    exists n: nat :: TreeSettled(d, bl, skip, s, tasks, n) && TreePlain(d, bl, skip, s, tasks, n) == None
  }

  lemma TreeHopelessFails<S(!new)>(d: Domain<S>, bl: set<string>, skip: Skip, s: S, tasks: seq<Task>, fuel: nat)
    requires TreeHopeless(d, bl, skip, s, tasks) && TreeSettled(d, bl, skip, s, tasks, fuel)
    ensures TreePlain(d, bl, skip, s, tasks, fuel) == None
  {
    var n: nat :| TreeSettled(d, bl, skip, s, tasks, n) && TreePlain(d, bl, skip, s, tasks, n) == None;
    if n <= fuel {
      MoreSteps(d, bl, skip, s, tasks, n, fuel);
    } else {
      MoreSteps(d, bl, skip, s, tasks, fuel, n);
    }
  }

  lemma NowTreeHopeless<S(!new)>(d: Domain<S>, bl: set<string>, skip: Skip, s: S, tasks: seq<Task>, fuel: nat)
    requires TreeSettled(d, bl, skip, s, tasks, fuel) && TreePlain(d, bl, skip, s, tasks, fuel) == None
    ensures TreeHopeless(d, bl, skip, s, tasks)
  {
  }

  /** What is left of the branches once method k has been looked at. */
  lemma NextUnskipped<S(!new)>(d: Domain<S>, bl: set<string>, skip: Skip, s: S, c: Call, tail: seq<Task>, k: nat,
                               seen: set<seq<Task>>, fuel: nat)
    requires c.name in d.methods && k < |d.methods[c.name]|
    ensures var here := Unskipped(d, bl, skip, s, c, tail, k, seen);
      match if Skipped(d, skip, c, k) then None else Expanded(d, s, c.name, c.args, tail, k)
      case None => here == Unskipped(d, bl, skip, s, c, tail, k + 1, seen)
      case Some(branch) =>
        if branch in seen then here == Unskipped(d, bl, skip, s, c, tail, k + 1, seen)
        else var rest := Unskipped(d, bl, skip, s, c, tail, k + 1, seen + {branch});
          if !Plausible(d, bl, s, branch) then here == rest else Splits(d, bl, skip, s, here, branch, rest, fuel)
  {
    hide TreePlain, TreeSettled, Plausible, Expanded, Skipped;
    var branch := if Skipped(d, skip, c, k) then None else Expanded(d, s, c.name, c.args, tail, k);
    if branch.Some? && branch.value !in seen {
      var rest := Unskipped(d, bl, skip, s, c, tail, k + 1, seen + {branch.value});
      assert ([branch.value] + rest)[1..] == rest && [] + rest == rest;
    }
  }

  /** Trying these branches is trying the first and then the rest. */
  ghost predicate Splits<S(!new)>(d: Domain<S>, bl: set<string>, skip: Skip, s: S, all: seq<seq<Task>>,
                                  first: seq<Task>, rest: seq<seq<Task>>, fuel: nat) {
    && (AllTreeSettled(d, bl, skip, s, all, fuel) ==>
          TreeSettled(d, bl, skip, s, first, fuel) && AllTreeSettled(d, bl, skip, s, rest, fuel))
    && TreeFirst(d, bl, skip, s, all, fuel) ==
       if TreePlain(d, bl, skip, s, first, fuel).Some? then TreePlain(d, bl, skip, s, first, fuel)
       else TreeFirst(d, bl, skip, s, rest, fuel)
  }

  lemma NextTreeBinding<S(!new)>(d: Domain<S>, bl: set<string>, skip: Skip, s: S, unmet: seq<Binding>, tasks: seq<Task>,
                                 k: nat, fuel: nat)
    requires tasks != [] && k < |unmet|
    ensures Splits(d, bl, skip, s, BindingBranches(unmet, tasks, k), [Goal([unmet[k]])] + tasks,
                   BindingBranches(unmet, tasks, k + 1), fuel)
  {
    hide TreePlain, TreeSettled;
    assert BindingBranches(unmet, tasks, k)[1..] == BindingBranches(unmet, tasks, k + 1);
  }

  lemma NoMoreBranches<S(!new)>(d: Domain<S>, bl: set<string>, skip: Skip, s: S, c: Call, tail: seq<Task>,
                                seen: set<seq<Task>>, unmet: seq<Binding>, tasks: seq<Task>, fuel: nat)
    requires tasks != []
    ensures TreeFirst(d, bl, skip, s, BindingBranches(unmet, tasks, |unmet|), fuel) == None
    ensures c.name in d.methods ==>
              TreeFirst(d, bl, skip, s, Unskipped(d, bl, skip, s, c, tail, |d.methods[c.name]|, seen), fuel) == None
  {
  }

  // ---- When it finds a plan ----

  /** The command whose methods a decision about this task is between; a multigoal only picks a goal. */
  function Chosen<S(!new)>(d: Domain<S>, s: S, task: Task): Option<Call> {
    match task
    case Do(c) => Some(c)
    case Goal(bs) =>
      var unmet := Unmet(d, s, bs);
      if unmet == [] then None else Some(Call(unmet[0].variable, GoalArgs(unmet[0])))
    case Multi(bs) => None
  }

  /** How many steps a derivation takes. */
  function Steps(der: Derivation): nat {
    match der
    case Stop => 1
    case Pass(rest) => 1 + Steps(rest)
    case Act(rest) => 1 + Steps(rest)
    case Use(_, rest) => 1 + Steps(rest)
  }

  /** A derivation that takes no alternative it was to skip. */
  predicate Heeds<S(!new)>(d: Domain<S>, skip: Skip, s: S, tasks: seq<Task>, der: Derivation)
    decreases der
  {
    match der
    case Stop => true
    case Pass(rest) => tasks != [] ==> Heeds(d, skip, s, tasks[1..], rest)
    case Act(rest) =>
      tasks != [] && tasks[0].Do? && tasks[0].call.name in d.actions ==>
        (match d.actions[tasks[0].call.name](s, tasks[0].call.args)
         case None => true
         case Some(t) => Heeds(d, skip, t, tasks[1..], rest))
    case Use(i, rest) =>
      tasks != [] && Decomposed(d, s, tasks, i).Some? ==>
        && (Chosen(d, s, tasks[0]).Some? ==> !Skipped(d, skip, Chosen(d, s, tasks[0]).value, i))
        && Heeds(d, skip, s, Decomposed(d, s, tasks, i).value, rest)
  }

  /** A derivation of a plan without a blacklisted command and without a skipped alternative. */
  ghost predicate Good<S(!new)>(d: Domain<S>, bl: set<string>, skip: Skip, s: S, tasks: seq<Task>, der: Derivation,
                                plan: Plan) {
    && Follow(d, s, tasks, der).Some? && Follow(d, s, tasks, der).value.0 == plan
    && Spares(d, bl, plan) && Heeds(d, skip, s, tasks, der)
  }

  ghost predicate SolvableHeeding<S(!new)>(d: Domain<S>, bl: set<string>, skip: Skip, s: S, tasks: seq<Task>) {
    exists der: Derivation, plan: Plan :: Good(d, bl, skip, s, tasks, der, plan)
  }

  lemma {:induction false} UnskippedKept<S(!new)>(d: Domain<S>, bl: set<string>, skip: Skip, s: S, c: Call,
                                                  tail: seq<Task>, k: nat, seen: set<seq<Task>>, i: nat)
    requires c.name in d.methods && k <= i < |d.methods[c.name]| && !Skipped(d, skip, c, i)
    requires Expanded(d, s, c.name, c.args, tail, i).Some?
    requires var b := Expanded(d, s, c.name, c.args, tail, i).value; b !in seen && Plausible(d, bl, s, b)
    ensures Expanded(d, s, c.name, c.args, tail, i).value in Unskipped(d, bl, skip, s, c, tail, k, seen)
    decreases |d.methods[c.name]| - k
  {
    hide Plausible, Expanded, Skipped;
    var b := Expanded(d, s, c.name, c.args, tail, i).value;
    match if Skipped(d, skip, c, k) then None else Expanded(d, s, c.name, c.args, tail, k)
    case None => UnskippedKept(d, bl, skip, s, c, tail, k + 1, seen, i);
    case Some(x) =>
      if x != b { UnskippedKept(d, bl, skip, s, c, tail, k + 1, if x in seen then seen else seen + {x}, i); }
  }

  lemma {:induction false} UnskippedIs<S(!new)>(d: Domain<S>, bl: set<string>, skip: Skip, s: S, c: Call,
                                                tail: seq<Task>, k: nat, seen: set<seq<Task>>, b: seq<Task>)
    returns (i: nat)
    requires c.name in d.methods && k <= |d.methods[c.name]| && b in Unskipped(d, bl, skip, s, c, tail, k, seen)
    ensures Expanded(d, s, c.name, c.args, tail, i) == Some(b) && !Skipped(d, skip, c, i)
    decreases |d.methods[c.name]| - k
  {
    hide Plausible, Expanded, Skipped;
    match if Skipped(d, skip, c, k) then None else Expanded(d, s, c.name, c.args, tail, k) {
      case None => i := UnskippedIs(d, bl, skip, s, c, tail, k + 1, seen, b);
      case Some(x) =>
        if x == b { return k; }
        i := UnskippedIs(d, bl, skip, s, c, tail, k + 1, if x in seen then seen else seen + {x}, b);
    }
  }

  /** A decomposition that is not skipped is one the search tries. */
  lemma UsedIsTreeBranch<S(!new)>(d: Domain<S>, bl: set<string>, skip: Skip, s: S, tasks: seq<Task>, i: nat)
    requires tasks != [] && Decomposed(d, s, tasks, i).Some?
    requires Chosen(d, s, tasks[0]).Some? ==> !Skipped(d, skip, Chosen(d, s, tasks[0]).value, i)
    requires Plausible(d, bl, s, Decomposed(d, s, tasks, i).value)
    ensures Decomposed(d, s, tasks, i).value in TreeBranches(d, bl, skip, s, tasks) && Branching(d, s, tasks[0])
  {
    hide Plausible, Expanded, Unskipped, BindingBranches, Skipped, Unmet, GoalArgs, CallKey;
    match tasks[0]
    case Do(c) =>
      ExpandedInRange(d, s, c.name, c.args, tasks[1..], i);
      UnskippedKept(d, bl, skip, s, c, tasks[1..], 0, {}, i);
    case Goal(bs) =>
      var b := Unmet(d, s, bs)[0];
      assert [tasks[0]] + tasks[1..] == tasks;
      ExpandedInRange(d, s, b.variable, GoalArgs(b), tasks, i);
      UnskippedKept(d, bl, skip, s, Call(b.variable, GoalArgs(b)), tasks, 0, {}, i);
    case Multi(bs) =>
      BindingKept(Unmet(d, s, bs), tasks, 0, i);
      assert [Goal([Unmet(d, s, bs)[i]]), tasks[0]] + tasks[1..] == [Goal([Unmet(d, s, bs)[i]])] + tasks;
  }

  /** Every branch the search tries is a decomposition that is not skipped. */
  lemma TreeBranchIs<S(!new)>(d: Domain<S>, bl: set<string>, skip: Skip, s: S, tasks: seq<Task>, b: seq<Task>)
    returns (i: nat)
    requires tasks != [] && Branching(d, s, tasks[0]) && b in TreeBranches(d, bl, skip, s, tasks)
    ensures Decomposed(d, s, tasks, i) == Some(b)
    ensures Chosen(d, s, tasks[0]).Some? ==> !Skipped(d, skip, Chosen(d, s, tasks[0]).value, i)
  {
    hide Expanded, Unskipped, BindingBranches, Unmet, Skipped;
    match tasks[0] {
      case Do(c) => i := UnskippedIs(d, bl, skip, s, c, tasks[1..], 0, {}, b);
      case Goal(bs) =>
        var u := Unmet(d, s, bs)[0];
        assert [tasks[0]] + tasks[1..] == tasks;
        i := UnskippedIs(d, bl, skip, s, Call(u.variable, GoalArgs(u)), tasks, 0, {}, b);
      case Multi(bs) =>
        i := BindingBranchIs(Unmet(d, s, bs), tasks, 0, b);
        assert [Goal([Unmet(d, s, bs)[i]]), tasks[0]] + tasks[1..] == [Goal([Unmet(d, s, bs)[i]])] + tasks;
    }
  }

  lemma {:induction false} TreeFirstFinds<S(!new)>(d: Domain<S>, bl: set<string>, skip: Skip, s: S,
                                                   branches: seq<seq<Task>>, fuel: nat, b: seq<Task>)
    requires b in branches && TreePlain(d, bl, skip, s, b, fuel).Some?
    ensures TreeFirst(d, bl, skip, s, branches, fuel).Some?
    decreases |branches|
  {
    hide TreePlain;
    if branches[0] != b { TreeFirstFinds(d, bl, skip, s, branches[1..], fuel, b); }
  }

  /** The search finds a plan wherever there is a good derivation with no more steps than it has fuel. */
  lemma {:induction false} DerivationIsFoundInTree<S(!new)>(d: Domain<S>, bl: set<string>, skip: Skip, s: S,
                                                            tasks: seq<Task>, der: Derivation, fuel: nat)
    requires Covered(d) && Covers(d, tasks) && Follow(d, s, tasks, der).Some? && Steps(der) <= fuel
    requires Allowed(d, bl, Follow(d, s, tasks, der).value.0) && Heeds(d, skip, s, tasks, der)
    ensures TreePlain(d, bl, skip, s, tasks, fuel).Some?
    decreases der
  {
    hide Covered, Covers, Decomposed, TreeBranches, Plausible, CallKey, Satisfied, Spares, TreeFirst, Chosen, Skipped;
    match der
    case Stop =>
    case Pass(rest) =>
      CoversRest(d, tasks);
      DerivationIsFoundInTree(d, bl, skip, s, tasks[1..], rest, fuel - 1);
    case Act(rest) =>
      var c := tasks[0].call;
      var t := d.actions[c.name](s, c.args).value;
      CoversRest(d, tasks);
      AllowedSplits(d, bl, c, Follow(d, t, tasks[1..], rest).value.0);
      DerivationIsFoundInTree(d, bl, skip, t, tasks[1..], rest, fuel - 1);
    case Use(i, rest) =>
      var subs := Decomposed(d, s, tasks, i).value;
      DecomposedKeeps(d, s, tasks, i);
      Probed(d, bl, s, subs, rest);
      UsedIsTreeBranch(d, bl, skip, s, tasks, i);
      DerivationIsFoundInTree(d, bl, skip, s, subs, rest, fuel - 1);
      TreeFirstFinds(d, bl, skip, s, TreeBranches(d, bl, skip, s, tasks), fuel - 1, subs);
  }

  /** What it finds is a good derivation's plan. */
  lemma {:induction false} TreePlainIsGood<S(!new)>(d: Domain<S>, bl: set<string>, skip: Skip, s: S, tasks: seq<Task>,
                                                    fuel: nat) returns (der: Derivation)
    requires TreePlain(d, bl, skip, s, tasks, fuel).Some?
    ensures Good(d, bl, skip, s, tasks, der, TreePlain(d, bl, skip, s, tasks, fuel).value)
    decreases fuel, 0
  {
    hide Decomposed, TreeBranches, CallKey, Satisfied, Branching, TreeFirst, Chosen, Skipped, Spares;
    if tasks == [] {
      NothingForbidden(d, bl);
      der := Stop;
    } else if Branching(d, s, tasks[0]) {
      var b;
      b, der := TreeFirstIsGood(d, bl, skip, s, TreeBranches(d, bl, skip, s, tasks), fuel - 1);
      var i := TreeBranchIs(d, bl, skip, s, tasks, b);
      der := Use(i, der);
    } else {
      BranchingAction(d, s, tasks[0]);
      if tasks[0].Do? {
        var c := tasks[0].call;
        var t := d.actions[c.name](s, c.args).value;
        der := TreePlainIsGood(d, bl, skip, t, tasks[1..], fuel - 1);
        AllowedJoins(d, bl, c, TreePlain(d, bl, skip, t, tasks[1..], fuel - 1).value);
        der := Act(der);
      } else {
        der := TreePlainIsGood(d, bl, skip, s, tasks[1..], fuel - 1);
        der := Pass(der);
      }
    }
  }

  lemma {:induction false} TreeFirstIsGood<S(!new)>(d: Domain<S>, bl: set<string>, skip: Skip, s: S,
                                                    branches: seq<seq<Task>>, fuel: nat)
    returns (b: seq<Task>, der: Derivation)
    requires TreeFirst(d, bl, skip, s, branches, fuel).Some?
    ensures b in branches && Good(d, bl, skip, s, b, der, TreeFirst(d, bl, skip, s, branches, fuel).value)
    decreases fuel, 1, |branches|
  {
    hide Good, TreePlain;
    if TreePlain(d, bl, skip, s, branches[0], fuel).Some? {
      b := branches[0];
      der := TreePlainIsGood(d, bl, skip, s, b, fuel);
    } else {
      b, der := TreeFirstIsGood(d, bl, skip, s, branches[1..], fuel);
    }
  }

  /** Where no step runs out of fuel, a covered search finds a plan exactly if there is a good one. */
  lemma TreeFindsExactly<S(!new)>(d: Domain<S>, bl: set<string>, skip: Skip, s: S, tasks: seq<Task>, fuel: nat)
    requires Covered(d) && Covers(d, tasks) && TreeSettled(d, bl, skip, s, tasks, fuel)
    ensures TreePlain(d, bl, skip, s, tasks, fuel).Some? <==> SolvableHeeding(d, bl, skip, s, tasks)
  {
    hide Covered, Covers, TreeSettled, TreePlain, Spares, Heeds;
    if TreePlain(d, bl, skip, s, tasks, fuel).Some? {
      var der := TreePlainIsGood(d, bl, skip, s, tasks, fuel);
    }
    if SolvableHeeding(d, bl, skip, s, tasks) {
      var der: Derivation, plan: Plan :| Good(d, bl, skip, s, tasks, der, plan);
      var enough := fuel + Steps(der);
      DerivationIsFoundInTree(d, bl, skip, s, tasks, der, enough);
      MoreSteps(d, bl, skip, s, tasks, fuel, enough);
    }
  }
}
