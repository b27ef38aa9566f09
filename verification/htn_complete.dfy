/**
 When the search finds a plan if there is one (thirdparty/taskweft/tw_planner.hpp). The two
 pre-checks judge every goal that is still to come in the current state; that loses plans
 where a goal's variable has no method, and none where each has one.
*/
module HtnComplete {
  import opened Wrappers
  import opened HtnDomain
  import opened HtnWitness
  import opened HtnPlain

  /** Every goal among these tasks is about variables that have a method. */
  predicate Covers<S(!new)>(d: Domain<S>, tasks: seq<Task>) {
    forall k :: 0 <= k < |tasks| ==> Covers1(d, tasks[k])
  }

  predicate Covers1<S(!new)>(d: Domain<S>, t: Task) {
    !t.Do? ==> forall b <- t.bindings :: HasMethod(d, b.variable)
  }

  /** And so is every goal a method can give. */
  ghost predicate Covered<S(!new)>(d: Domain<S>) {
    forall name: string, i: nat, s: S, args: seq<Value> ::
      Expanded(d, s, name, args, [], i).Some? ==> Covers(d, Expanded(d, s, name, args, [], i).value)
  }

  /** How many decisions a derivation takes. */
  function Uses(der: Derivation): nat {
    match der
    case Stop => 0
    case Pass(rest) => Uses(rest)
    case Act(rest) => Uses(rest)
    case Use(_, rest) => 1 + Uses(rest)
  }

  lemma ExpandedTail<S(!new)>(d: Domain<S>, s: S, name: string, args: seq<Value>, tail: seq<Task>, i: nat)
    ensures Expanded(d, s, name, args, tail, i).Some? ==>
              Expanded(d, s, name, args, [], i).Some?
              && Expanded(d, s, name, args, tail, i).value == Expanded(d, s, name, args, [], i).value + tail
  {
    if Expanded(d, s, name, args, tail, i).Some? {
      var subs := d.methods[name][i](s, args).value;
      assert subs + [] == subs;
    }
  }

  /** A decomposition keeps what comes after its head, and keeps the goals covered. */
  lemma DecomposedKeeps<S(!new)>(d: Domain<S>, s: S, tasks: seq<Task>, i: nat)
    requires tasks != [] && Decomposed(d, s, tasks, i).Some?
    ensures forall t <- tasks[1..] :: t in Decomposed(d, s, tasks, i).value
    ensures Covered(d) && Covers(d, tasks) ==> Covers(d, Decomposed(d, s, tasks, i).value)
  {
    hide Covered, HasMethod, Expanded;
    var rest, subs := tasks[1..], Decomposed(d, s, tasks, i).value;
    match tasks[0]
    case Do(c) =>
      ExpandedTail(d, s, c.name, c.args, rest, i);
      CoveredGives(d, s, c.name, c.args, i);
    case Goal(bs) =>
      var b := Unmet(d, s, bs)[0];
      assert [tasks[0]] + rest == tasks;
      ExpandedTail(d, s, b.variable, GoalArgs(b), tasks, i);
      CoveredGives(d, s, b.variable, GoalArgs(b), i);
    case Multi(bs) =>
      var b := Unmet(d, s, bs)[i];
      assert subs == [Goal([b])] + tasks;
      assert Covers1(d, tasks[0]) ==> Covers1(d, Goal([b]));
  }

  lemma CoveredGives<S(!new)>(d: Domain<S>, s: S, name: string, args: seq<Value>, i: nat)
    ensures Covered(d) && Expanded(d, s, name, args, [], i).Some? ==> Covers(d, Expanded(d, s, name, args, [], i).value)
  {
  }

  /** A derivation meets every command of the list: it is in the plan, or there is a method for it. */
  lemma {:induction false} CommandsAreMet<S(!new)>(d: Domain<S>, s: S, tasks: seq<Task>, der: Derivation, c: Call)
    requires Follow(d, s, tasks, der).Some? && Do(c) in tasks
    ensures if c.name in d.actions then c in Follow(d, s, tasks, der).value.0 else HasMethod(d, c.name)
    decreases der
  {
    match der
    case Stop =>
    case Pass(rest) => CommandsAreMet(d, s, tasks[1..], rest, c);
    case Act(rest) =>
      var head := tasks[0].call;
      if head != c { CommandsAreMet(d, d.actions[head.name](s, head.args).value, tasks[1..], rest, c); }
    case Use(i, rest) =>
      DecomposedKeeps(d, s, tasks, i);
      if tasks[0] != Do(c) { CommandsAreMet(d, s, Decomposed(d, s, tasks, i).value, rest, c); }
  }

  lemma {:induction false} NoneSkipped<S(!new)>(d: Domain<S>, s: S, tasks: seq<Task>)
    requires forall k :: 0 <= k < |tasks| ==> TaskScore(d, s, tasks[k]).1 == 0
    ensures Skipped(d, s, tasks) == 0
  {
    hide TaskScore;
    if tasks != [] { NoneSkipped(d, s, tasks[..|tasks| - 1]); }
  }

  /** The pre-check of the whole list does not turn it away. */
  lemma Reachable<S(!new)>(d: Domain<S>, s: S, tasks: seq<Task>, der: Derivation)
    requires Follow(d, s, tasks, der).Some? && Covers(d, tasks)
    ensures Scanned(d, s, tasks).found
  {
    hide Follow, HasMethod, Certified, Skipped;
    forall k | 0 <= k < |tasks| ensures TaskScore(d, s, tasks[k]).1 == 0 {
      if tasks[k].Do? {
        CommandsAreMet(d, s, tasks, der, tasks[k].call);
      } else {
        assert Covers1(d, tasks[k]);
      }
    }
    NoneSkipped(d, s, tasks);
  }

  /** Nor does the probe of its first two tasks. */
  lemma Probed<S(!new)>(d: Domain<S>, bl: set<string>, s: S, tasks: seq<Task>, der: Derivation)
    requires Follow(d, s, tasks, der).Some? && Covers(d, tasks) && Allowed(d, bl, Follow(d, s, tasks, der).value.0)
    ensures Plausible(d, bl, s, tasks)
  {
    hide Follow, CallKey, Spares;
    forall k | 0 <= k < |tasks| ensures Plausible1(d, bl, s, tasks[k]) {
      if tasks[k].Do? {
        CommandsAreMet(d, s, tasks, der, tasks[k].call);
      } else {
        assert Covers1(d, tasks[k]);
        var unmet := Unmet(d, s, tasks[k].bindings);
        if unmet != [] { assert unmet[0] in unmet && unmet[0].variable in d.methods; }
      }
    }
  }

  /** Every plausible decomposition is among the branches. */
  lemma {:induction false} BranchKept<S(!new)>(d: Domain<S>, bl: set<string>, s: S, name: string, args: seq<Value>,
                                               tail: seq<Task>, k: nat, seen: set<seq<Task>>, i: nat)
    requires name in d.methods && k <= i < |d.methods[name]| && Expanded(d, s, name, args, tail, i).Some?
    requires var b := Expanded(d, s, name, args, tail, i).value; b !in seen && Plausible(d, bl, s, b)
    ensures Expanded(d, s, name, args, tail, i).value in MethodBranches(d, bl, s, name, args, tail, k, seen)
    decreases |d.methods[name]| - k
  {
    hide Plausible, Expanded;
    var b := Expanded(d, s, name, args, tail, i).value;
    match Expanded(d, s, name, args, tail, k)
    case None => BranchKept(d, bl, s, name, args, tail, k + 1, seen, i);
    case Some(x) =>
      if x != b { BranchKept(d, bl, s, name, args, tail, k + 1, if x in seen then seen else seen + {x}, i); }
  }

  lemma {:induction false} BindingKept(unmet: seq<Binding>, tasks: seq<Task>, k: nat, i: nat)
    requires tasks != [] && k <= i < |unmet|
    ensures [Goal([unmet[i]])] + tasks in BindingBranches(unmet, tasks, k)
    decreases i - k
  {
    if k < i { BindingKept(unmet, tasks, k + 1, i); }
  }

  lemma {:induction false} FirstOfFinds<S(!new)>(d: Domain<S>, bl: set<string>, s: S, branches: seq<seq<Task>>,
                                                 fuel: nat, b: seq<Task>)
    requires b in branches && Plain(d, bl, s, b, fuel).Some?
    ensures FirstOf(d, bl, s, branches, fuel).Some?
    decreases |branches|
  {
    hide Plain;
    if branches[0] != b { FirstOfFinds(d, bl, s, branches[1..], fuel, b); }
  }

  lemma ExpandedInRange<S(!new)>(d: Domain<S>, s: S, name: string, args: seq<Value>, tail: seq<Task>, i: nat)
    requires Expanded(d, s, name, args, tail, i).Some?
    ensures name in d.methods && i < |d.methods[name]|
  {
  }

  /** A decomposition a derivation uses is one the search tries. */
  lemma UsedIsTried<S(!new)>(d: Domain<S>, bl: set<string>, s: S, tasks: seq<Task>, i: nat)
    requires tasks != [] && Decomposed(d, s, tasks, i).Some?
    requires Plausible(d, bl, s, Decomposed(d, s, tasks, i).value)
    ensures Decomposed(d, s, tasks, i).value in Branches(d, bl, s, tasks) && Branching(d, s, tasks[0])
  {
    hide Plausible, Expanded, MethodBranches, BindingBranches, Unmet, GoalArgs, CallKey;
    match tasks[0]
    case Do(c) =>
      ExpandedInRange(d, s, c.name, c.args, tasks[1..], i);
      BranchKept(d, bl, s, c.name, c.args, tasks[1..], 0, {}, i);
    case Goal(bs) =>
      var b := Unmet(d, s, bs)[0];
      assert [tasks[0]] + tasks[1..] == tasks;
      ExpandedInRange(d, s, b.variable, GoalArgs(b), tasks, i);
      BranchKept(d, bl, s, b.variable, GoalArgs(b), tasks, 0, {}, i);
    case Multi(bs) =>
      BindingKept(Unmet(d, s, bs), tasks, 0, i);
      assert [Goal([Unmet(d, s, bs)[i]]), tasks[0]] + tasks[1..] == [Goal([Unmet(d, s, bs)[i]])] + tasks;
  }

  /** The search finds a plan wherever there is a derivation with no more decisions than it has fuel. */
  lemma {:induction false} DerivationIsFound<S(!new)>(d: Domain<S>, bl: set<string>, s: S, tasks: seq<Task>,
                                                      der: Derivation, fuel: nat)
    requires Covered(d) && Covers(d, tasks) && Follow(d, s, tasks, der).Some? && Uses(der) <= fuel
    requires Allowed(d, bl, Follow(d, s, tasks, der).value.0)
    ensures Plain(d, bl, s, tasks, fuel).Some?
    decreases der
  {
    hide Covered, Covers, Scanned, Decomposed, Branches, Plausible, CallKey, Satisfied, Spares, FirstOf;
    Reachable(d, s, tasks, der);
    match der
    case Stop =>
    case Pass(rest) =>
      CoversRest(d, tasks);
      DerivationIsFound(d, bl, s, tasks[1..], rest, fuel);
    case Act(rest) =>
      var c := tasks[0].call;
      var t := d.actions[c.name](s, c.args).value;
      var tail := Follow(d, t, tasks[1..], rest).value.0;
      CoversRest(d, tasks);
      AllowedSplits(d, bl, c, tail);
      DerivationIsFound(d, bl, t, tasks[1..], rest, fuel);
    case Use(i, rest) =>
      var subs := Decomposed(d, s, tasks, i).value;
      DecomposedKeeps(d, s, tasks, i);
      Probed(d, bl, s, subs, rest);
      UsedIsTried(d, bl, s, tasks, i);
      DerivationIsFound(d, bl, s, subs, rest, fuel - 1);
      FirstOfFinds(d, bl, s, Branches(d, bl, s, tasks), fuel - 1, subs);
  }

  lemma CoversRest<S(!new)>(d: Domain<S>, tasks: seq<Task>)
    requires tasks != [] && Covers(d, tasks)
    ensures Covers(d, tasks[1..])
  {
  }

  lemma AllowedSplits<S(!new)>(d: Domain<S>, bl: set<string>, c: Call, plan: Plan)
    requires Allowed(d, bl, [c] + plan)
    ensures CallKey(d, c) !in bl && Allowed(d, bl, plan)
  {
    hide CallKey, Spares;
    var whole := [c] + plan;
    assert whole[0] == c;
    forall i | 0 <= i < |plan| ensures CallKey(d, plan[i]) !in bl { assert plan[i] == whole[i + 1]; }
  }

  // ---- What the plain search finds is a derivation ----

  lemma {:induction false} MethodBranchIs<S(!new)>(d: Domain<S>, bl: set<string>, s: S, name: string, args: seq<Value>,
                                                   tail: seq<Task>, k: nat, seen: set<seq<Task>>, b: seq<Task>)
    returns (i: nat)
    requires name in d.methods && k <= |d.methods[name]| && b in MethodBranches(d, bl, s, name, args, tail, k, seen)
    ensures Expanded(d, s, name, args, tail, i) == Some(b)
    decreases |d.methods[name]| - k
  {
    hide Plausible, Expanded;
    match Expanded(d, s, name, args, tail, k) {
      case None => i := MethodBranchIs(d, bl, s, name, args, tail, k + 1, seen, b);
      case Some(x) =>
        if x == b { return k; }
        i := MethodBranchIs(d, bl, s, name, args, tail, k + 1, if x in seen then seen else seen + {x}, b);
    }
  }

  lemma {:induction false} BindingBranchIs(unmet: seq<Binding>, tasks: seq<Task>, k: nat, b: seq<Task>) returns (i: nat)
    requires tasks != [] && k <= |unmet| && b in BindingBranches(unmet, tasks, k)
    ensures i < |unmet| && b == [Goal([unmet[i]])] + tasks
    decreases |unmet| - k
  {
    i := k;
    if b != [Goal([unmet[k]])] + tasks { i := BindingBranchIs(unmet, tasks, k + 1, b); }
  }

  /** Every branch the search tries is a decomposition. */
  lemma BranchIs<S(!new)>(d: Domain<S>, bl: set<string>, s: S, tasks: seq<Task>, b: seq<Task>) returns (i: nat)
    requires tasks != [] && Branching(d, s, tasks[0]) && b in Branches(d, bl, s, tasks)
    ensures Decomposed(d, s, tasks, i) == Some(b)
  {
    hide Expanded, MethodBranches, BindingBranches, Unmet;
    match tasks[0] {
      case Do(c) => i := MethodBranchIs(d, bl, s, c.name, c.args, tasks[1..], 0, {}, b);
      case Goal(bs) =>
        var u := Unmet(d, s, bs)[0];
        assert [tasks[0]] + tasks[1..] == tasks;
        i := MethodBranchIs(d, bl, s, u.variable, GoalArgs(u), tasks, 0, {}, b);
      case Multi(bs) =>
        i := BindingBranchIs(Unmet(d, s, bs), tasks, 0, b);
        assert [Goal([Unmet(d, s, bs)[i]]), tasks[0]] + tasks[1..] == [Goal([Unmet(d, s, bs)[i]])] + tasks;
    }
  }

  lemma {:induction false} PlainIsSound<S(!new)>(d: Domain<S>, bl: set<string>, s: S, tasks: seq<Task>, fuel: nat)
    requires Plain(d, bl, s, tasks, fuel).Some?
    ensures Derives(d, s, tasks, Plain(d, bl, s, tasks, fuel).value)
    ensures Allowed(d, bl, Plain(d, bl, s, tasks, fuel).value)
    decreases fuel, 0, |tasks|
  {
    hide Derives, Allowed, Scanned, Decomposed, Branches, CallKey, Satisfied, Branching, FirstOf;
    if tasks == [] {
      DeriveDone(d, s);
      NothingForbidden(d, bl);
    } else if Branching(d, s, tasks[0]) {
      var b := FirstOfIsSound(d, bl, s, Branches(d, bl, s, tasks), fuel - 1);
      var i := BranchIs(d, bl, s, tasks, b);
      DeriveUse(d, s, tasks, i, Plain(d, bl, s, tasks, fuel).value);
    } else {
      StepIsSound(d, bl, s, tasks, fuel);
    }
  }

  lemma {:induction false} StepIsSound<S(!new)>(d: Domain<S>, bl: set<string>, s: S, tasks: seq<Task>, fuel: nat)
    requires tasks != [] && !Branching(d, s, tasks[0]) && Plain(d, bl, s, tasks, fuel).Some?
    ensures Derives(d, s, tasks, Plain(d, bl, s, tasks, fuel).value)
    ensures Allowed(d, bl, Plain(d, bl, s, tasks, fuel).value)
    decreases fuel, 0, |tasks|, 0
  {
    hide Derives, Allowed, Scanned, CallKey, FirstOf;
    if tasks[0].Do? {
      var c := tasks[0].call;
      var t := d.actions[c.name](s, c.args).value;
      PlainIsSound(d, bl, t, tasks[1..], fuel);
      DeriveAct(d, s, tasks, t, Plain(d, bl, t, tasks[1..], fuel).value);
      AllowedJoins(d, bl, c, Plain(d, bl, t, tasks[1..], fuel).value);
    } else {
      PlainIsSound(d, bl, s, tasks[1..], fuel);
      DerivePass(d, s, tasks, Plain(d, bl, s, tasks[1..], fuel).value);
    }
  }

  lemma {:induction false} FirstOfIsSound<S(!new)>(d: Domain<S>, bl: set<string>, s: S, branches: seq<seq<Task>>,
                                                   fuel: nat)
    returns (b: seq<Task>)
    requires FirstOf(d, bl, s, branches, fuel).Some?
    ensures b in branches && Derives(d, s, b, FirstOf(d, bl, s, branches, fuel).value)
    ensures Allowed(d, bl, FirstOf(d, bl, s, branches, fuel).value)
    decreases fuel, 1, |branches|
  {
    hide Derives, Allowed, Plain;
    if Plain(d, bl, s, branches[0], fuel).Some? {
      b := branches[0];
      PlainIsSound(d, bl, s, b, fuel);
    } else {
      b := FirstOfIsSound(d, bl, s, branches[1..], fuel);
    }
  }

  lemma NothingForbidden<S(!new)>(d: Domain<S>, bl: set<string>)
    ensures Allowed(d, bl, [])
  {
  }

  lemma AllowedJoins<S(!new)>(d: Domain<S>, bl: set<string>, c: Call, plan: Plan)
    requires CallKey(d, c) !in bl && Allowed(d, bl, plan)
    ensures Allowed(d, bl, [c] + plan)
  {
    hide CallKey, Spares;
  }

  // ---- Exactly when ----

  /** A plan for these tasks without a blacklisted command. */
  ghost predicate Solvable<S(!new)>(d: Domain<S>, bl: set<string>, s: S, tasks: seq<Task>) {
    exists plan: Plan :: Derives(d, s, tasks, plan) && Spares(d, bl, plan)
  }

  /** Where no branch runs out of fuel, a covered search finds a plan exactly if there is one. */
  lemma FindsExactlyIfSolvable<S(!new)>(d: Domain<S>, bl: set<string>, s: S, tasks: seq<Task>, fuel: nat)
    requires Covered(d) && Covers(d, tasks) && Settled(d, bl, s, tasks, fuel)
    ensures Plain(d, bl, s, tasks, fuel).Some? <==> Solvable(d, bl, s, tasks)
  {
    hide Covered, Covers, Settled, Plain, Spares;
    if Plain(d, bl, s, tasks, fuel).Some? { PlainIsSound(d, bl, s, tasks, fuel); }
    if Solvable(d, bl, s, tasks) {
      var plan: Plan :| Derives(d, s, tasks, plan) && Spares(d, bl, plan);
      var der: Derivation :| Follow(d, s, tasks, der).Some? && Follow(d, s, tasks, der).value.0 == plan;
      var enough := fuel + Uses(der);
      DerivationIsFound(d, bl, s, tasks, der, enough);
      MoreFuel(d, bl, s, tasks, fuel, enough);
    }
  }

  // ---- And a plan that the pre-check loses ----

  /** One action that sets a flag, and no methods. */
  const OneFlag: Domain<bool> := Domain(
    map["set" := (s: bool, args: seq<Value>) => Some(true)], map[],
    (s: bool, b: Binding) => s, (v: Value) => "")

  /**
   Set the flag, then have it set: the plan is there, but the goal has no method and does not hold yet,
   so the search turns the list away at any fuel.
  */
  lemma PreCheckLosesAPlan(fuel: nat)
    ensures var tasks := [Do(Call("set", [])), Goal([Binding("flag", "", Bool(true))])];
      Solvable(OneFlag, {}, false, tasks) && Plain(OneFlag, {}, false, tasks, fuel) == None
  {
    var goal := Goal([Binding("flag", "", Bool(true))]);
    var tasks := [Do(Call("set", [])), goal];
    assert tasks[1..] == [goal] && [goal][1..] == [];
    hide CallKey, Plain, Follow;
    DeriveDone(OneFlag, true);
    DerivePass(OneFlag, true, [goal], []);
    DeriveAct(OneFlag, false, tasks, true, []);
    assert Derives(OneFlag, false, tasks, [Call("set", [])] + []);
    assert Spares(OneFlag, {}, [Call("set", [])] + []);
    GoalUncertain(tasks);
    TurnedAway(OneFlag, {}, false, tasks, fuel);
  }

  lemma GoalUncertain(tasks: seq<Task>)
    requires tasks == [Do(Call("set", [])), Goal([Binding("flag", "", Bool(true))])]
    ensures !Scanned(OneFlag, false, tasks).found
  {
    hide Certified, Skipped;
    var unmet := Unmet(OneFlag, false, tasks[1].bindings);
    assert unmet == [Binding("flag", "", Bool(true))];
    assert TaskScore(OneFlag, false, tasks[0]) == (0, 0) && TaskScore(OneFlag, false, tasks[1]) == (0, 1);
    NothingSummed(OneFlag, false);
    SumsNext(OneFlag, false, [], tasks[0]);
    SumsNext(OneFlag, false, [tasks[0]], tasks[1]);
    assert [] + [tasks[0]] == [tasks[0]] && [tasks[0]] + [tasks[1]] == tasks;
  }

  lemma TurnedAway<S(!new)>(d: Domain<S>, bl: set<string>, s: S, tasks: seq<Task>, fuel: nat)
    requires tasks != [] && !Scanned(d, s, tasks).found
    ensures Plain(d, bl, s, tasks, fuel) == None
  {
  }
}
