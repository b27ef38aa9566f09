/**
 The memoised search of the planner (thirdparty/taskweft/tw_planner.hpp): an
 iterative walk over actions and satisfied goals, caches of failed and solved
 subproblems, and methods reordered by how they fared. Memo keys are the exact
 state and task list; the wall clock never fires.
*/
module HtnSearch {
  import opened Wrappers
  import opened HtnDomain
  import opened HtnWitness
  import opened HtnPlain
  import opened HtnComplete

  /** How the walk over the head of a task list ended. */
  datatype Walked<S> =
    | Finished(plan: Plan)
    | DeadEnd
    | AtBranch(state: S, idx: nat, prefix: Plan)

  function Joined(prefix: Plan, r: Option<Plan>): Option<Plan> {
    if r.Some? then Some(prefix + r.value) else None
  }

  /** Where the walk stands: deriving, planning and settling here decide the same at the start. */
  ghost predicate WalkedTo<S(!new)>(d: Domain<S>, bl: set<string>, s0: S, tasks: seq<Task>, s: S, idx: nat,
                                    prefix: Plan) {
    && idx <= |tasks| && Allowed(d, bl, prefix)
    && (forall q: Plan :: Derives(d, s, tasks[idx..], q) ==> Derives(d, s0, tasks, prefix + q))
    && (forall fuel: nat :: Plain(d, bl, s0, tasks, fuel) == Joined(prefix, Plain(d, bl, s, tasks[idx..], fuel)))
    && (forall fuel: nat :: Settled(d, bl, s0, tasks, fuel) ==> Settled(d, bl, s, tasks[idx..], fuel))
  }

  lemma WalkStarts<S(!new)>(d: Domain<S>, bl: set<string>, s0: S, tasks: seq<Task>)
    ensures WalkedTo(d, bl, s0, tasks, s0, 0, [])
  {
    assert tasks[0..] == tasks;
    forall q: Plan ensures [] + q == q { }
  }

  lemma WalkPasses<S(!new)>(d: Domain<S>, bl: set<string>, s0: S, tasks: seq<Task>, s: S, idx: nat, prefix: Plan)
    requires WalkedTo(d, bl, s0, tasks, s, idx, prefix) && idx < |tasks|
    requires Scanned(d, s, tasks[idx..]).found && !tasks[idx].Do? && Satisfied(d, s, tasks[idx].bindings)
    ensures WalkedTo(d, bl, s0, tasks, s, idx + 1, prefix)
  {
    hide Scanned, Satisfied;
    assert tasks[idx..][1..] == tasks[idx + 1..];
    PassEquations(d, bl, s, tasks[idx..]);
    forall q: Plan | Derives(d, s, tasks[idx + 1..], q)
      ensures Derives(d, s0, tasks, prefix + q)
    {
      DerivePass(d, s, tasks[idx..], q);
    }
  }

  lemma PassEquations<S(!new)>(d: Domain<S>, bl: set<string>, s: S, tasks: seq<Task>)
    requires tasks != [] && Scanned(d, s, tasks).found && !tasks[0].Do? && Satisfied(d, s, tasks[0].bindings)
    ensures forall fuel: nat :: Plain(d, bl, s, tasks, fuel) == Plain(d, bl, s, tasks[1..], fuel)
    ensures forall fuel: nat :: Settled(d, bl, s, tasks, fuel) == Settled(d, bl, s, tasks[1..], fuel)
  {
  }

  lemma ActEquations<S(!new)>(d: Domain<S>, bl: set<string>, s: S, tasks: seq<Task>, t: S)
    requires tasks != [] && Scanned(d, s, tasks).found && tasks[0].Do? && tasks[0].call.name in d.actions
    requires CallKey(d, tasks[0].call) !in bl && d.actions[tasks[0].call.name](s, tasks[0].call.args) == Some(t)
    ensures forall fuel: nat ::
      Plain(d, bl, s, tasks, fuel) == Prepended(tasks[0].call, Plain(d, bl, t, tasks[1..], fuel))
    ensures forall fuel: nat :: Settled(d, bl, s, tasks, fuel) == Settled(d, bl, t, tasks[1..], fuel)
  {
  }

  lemma WalkActs<S(!new)>(d: Domain<S>, bl: set<string>, s0: S, tasks: seq<Task>, s: S, idx: nat, prefix: Plan, t: S)
    requires WalkedTo(d, bl, s0, tasks, s, idx, prefix) && idx < |tasks|
    requires Scanned(d, s, tasks[idx..]).found && tasks[idx].Do? && tasks[idx].call.name in d.actions
    requires CallKey(d, tasks[idx].call) !in bl && d.actions[tasks[idx].call.name](s, tasks[idx].call.args) == Some(t)
    ensures WalkedTo(d, bl, s0, tasks, t, idx + 1, prefix + [tasks[idx].call])
  {
    hide Scanned;
    var c := tasks[idx].call;
    assert tasks[idx..][1..] == tasks[idx + 1..];
    ActEquations(d, bl, s, tasks[idx..], t);
    forall q: Plan
      ensures prefix + [c] + q == prefix + ([c] + q)
      ensures Derives(d, t, tasks[idx + 1..], q) ==> Derives(d, s0, tasks, prefix + [c] + q)
    {
      if Derives(d, t, tasks[idx + 1..], q) {
        DeriveAct(d, s, tasks[idx..], t, q);
      }
    }
  }

  /** The fast path: actions and satisfied goals, in place and without spending fuel. */
  method Walk<S(!new)>(d: Domain<S>, bl: set<string>, s0: S, tasks: seq<Task>) returns (w: Walked<S>)
    ensures w.Finished? ==> Derives(d, s0, tasks, w.plan) && Allowed(d, bl, w.plan)
    ensures w.Finished? ==> forall fuel: nat :: Plain(d, bl, s0, tasks, fuel) == Some(w.plan)
    ensures w.DeadEnd? ==> forall fuel: nat :: Plain(d, bl, s0, tasks, fuel) == None
    ensures w.AtBranch? ==> WalkedTo(d, bl, s0, tasks, w.state, w.idx, w.prefix)
    ensures w.AtBranch? ==>
      w.idx < |tasks| && Branching(d, w.state, tasks[w.idx]) && Scanned(d, w.state, tasks[w.idx..]).found
  {
    hide Scanned, WalkedTo, Branching;
    var cache := BuildCache(d, tasks);
    var s, idx, prefix := s0, 0, [];
    WalkStarts(d, bl, s0, tasks);
    while idx < |tasks|
      invariant 0 <= idx <= |tasks| && WalkedTo(d, bl, s0, tasks, s, idx, prefix)
    {
      var seen := ScanCached(d, s, tasks, cache, idx);
      if !seen.found {
        DeadHere(d, bl, s0, tasks, s, idx, prefix);
        return DeadEnd;
      }
      var branching := Branching(d, s, tasks[idx]);
      if branching { return AtBranch(s, idx, prefix); }
      if tasks[idx].Do? {
        var c := tasks[idx].call;
        ActionHere(d, s, tasks[idx]);
        if CallKey(d, c) in bl || d.actions[c.name](s, c.args).None? {
          DeadHere(d, bl, s0, tasks, s, idx, prefix);
          return DeadEnd;
        }
        var t := d.actions[c.name](s, c.args).value;
        WalkActs(d, bl, s0, tasks, s, idx, prefix, t);
        s, prefix := t, prefix + [c];
      } else {
        GoalHere(d, s, tasks[idx]);
        WalkPasses(d, bl, s0, tasks, s, idx, prefix);
      }
      idx := idx + 1;
    }
    WalkDone(d, bl, s0, tasks, s, prefix);
    w := Finished(prefix);
  }

  lemma ActionHere<S(!new)>(d: Domain<S>, s: S, t: Task)
    requires !Branching(d, s, t) && t.Do?
    ensures t.call.name in d.actions
  {
  }

  lemma GoalHere<S(!new)>(d: Domain<S>, s: S, t: Task)
    requires !Branching(d, s, t) && !t.Do?
    ensures Satisfied(d, s, t.bindings)
  {
  }

  lemma DeadHere<S(!new)>(d: Domain<S>, bl: set<string>, s0: S, tasks: seq<Task>, s: S, idx: nat, prefix: Plan)
    requires WalkedTo(d, bl, s0, tasks, s, idx, prefix) && idx < |tasks|
    requires !Scanned(d, s, tasks[idx..]).found ||
             (tasks[idx].Do? && tasks[idx].call.name in d.actions &&
              (CallKey(d, tasks[idx].call) in bl || d.actions[tasks[idx].call.name](s, tasks[idx].call.args).None?))
    ensures forall fuel: nat :: Plain(d, bl, s0, tasks, fuel) == None
  {
    hide Scanned;
    forall fuel: nat
      ensures Plain(d, bl, s, tasks[idx..], fuel) == None
    {
      assert tasks[idx..][0] == tasks[idx];
    }
  }

  lemma WalkDone<S(!new)>(d: Domain<S>, bl: set<string>, s0: S, tasks: seq<Task>, s: S, prefix: Plan)
    requires WalkedTo(d, bl, s0, tasks, s, |tasks|, prefix)
    ensures Derives(d, s0, tasks, prefix) && Allowed(d, bl, prefix)
    ensures forall fuel: nat :: Plain(d, bl, s0, tasks, fuel) == Some(prefix)
  {
    assert tasks[|tasks|..] == [];
    DeriveDone(d, s);
    assert prefix + [] == prefix;
  }

  class Search<S(==, !new)> {
    const d: Domain<S>
    const bl: set<string>
    var fails: set<(S, seq<Task>)>
    var wins: map<(S, seq<Task>), Plan>
    var stats: map<(string, seq<Value>), seq<int>>

    constructor (d: Domain<S>, bl: set<string>)
      ensures this.d == d && this.bl == bl && WinsHold() && Untouched()
    {
      this.d, this.bl, fails, wins, stats := d, bl, {}, map[], map[];
    }

    /** Every remembered plan is a derivation of its tasks and uses no blacklisted command. */
    ghost predicate WinsHold()
      reads this
    {
      forall k <- wins :: Derives(d, k.0, k.1, wins[k]) && Allowed(d, bl, wins[k])
    }

    /** No method has ever succeeded, no plan is remembered, and remembered failures are final. */
    ghost predicate Untouched()
      reads this
    {
      && wins == map[] && ScoresLow()
      && forall k <- fails :: Hopeless(d, bl, k.0, k.1)
    }

    ghost predicate ScoresLow()
      reads this
    {
      forall k <- stats :: forall i :: 0 <= i < |stats[k]| ==> stats[k][i] <= 0
    }

    /** Declaration order with one method swapped to the front. */
    static function SwapFront(count: nat, best: nat): seq<nat> {
      seq(count, i => if i == 0 then best else if i == best then 0 else i)
    }

    /** The method to try first: the best-scoring one if any has scored, else the first declared. */
    static ghost predicate Leads(scores: seq<int>, first: nat) {
      && first < |scores|
      && (first != 0 ==> scores[first] > 0)
      && forall i :: 0 <= i < |scores| && scores[i] > 0 ==> scores[i] <= scores[first]
    }

    /** tw_order_methods: every method once, the best-scoring one first if any has scored. */
    method OrderMethods(key: (string, seq<Value>), count: nat) returns (order: seq<nat>)
      modifies this`stats
      ensures |order| == count && forall i :: 0 <= i < count ==> order[i] < count
      ensures count > 0 ==> order == SwapFront(count, order[0])
      ensures count > 1 ==> key in stats && |stats[key]| >= count && Leads(stats[key][..count], order[0])
      ensures old(ScoresLow()) ==> ScoresLow() && forall i :: 0 <= i < count ==> order[i] == i
    {
      order := seq(count, i => i);
      if count <= 1 { return; }
      var scores := Resized(if key in stats then stats[key] else [], count);
      stats := stats[key := scores];
      var best, i := 0, 1;
      while i < count
        invariant 1 <= i <= count && 0 <= best < i
        invariant forall j :: 0 <= j < i ==> scores[j] <= scores[best]
      {
        if scores[i] > scores[best] { best := i; }
        i := i + 1;
      }
      if scores[best] > 0 && best != 0 { order := order[0 := order[best]][best := order[0]]; }
    }

    static function Resized(scores: seq<int>, count: nat): (r: seq<int>)
      ensures |r| >= count && |r| >= |scores|
      ensures forall i :: 0 <= i < |r| ==> r[i] == if i < |scores| then scores[i] else 0
    {
      if |scores| < count then scores + seq(count - |scores|, _ => 0) else scores
    }

    /** tw_note_method_result: two up for a success, one down for a failure, within 64. */
    method Note(key: (string, seq<Value>), idx: nat, success: bool)
      modifies this`stats
      ensures old(ScoresLow()) && !success ==> ScoresLow()
      ensures var was := if key in old(stats) then old(stats)[key] else [];
        stats == old(stats)[key := Resized(was, idx + 1)[idx := Scored(Resized(was, idx + 1)[idx], success)]]
    {
      var scores := Resized(if key in stats then stats[key] else [], idx + 1);
      stats := stats[key := scores[idx := Scored(scores[idx], success)]];
    }

    static function Scored(score: int, success: bool): (r: int)
      ensures -64 <= r <= 64
      ensures success ==> r == if score < -66 then -64 else if score > 62 then 64 else score + 2
      ensures !success ==> r == if score < -63 then -64 else if score > 65 then 64 else score - 1
    {
      var moved := score + (if success then 2 else -1);
      if moved > 64 then 64 else if moved < -64 then -64 else moved
    }

    /** mark_success and mark_fail. */
    method Remember(s0: S, tasks: seq<Task>, r: Option<Plan>)
      modifies this`fails, this`wins
      ensures r.Some? ==> wins == old(wins)[(s0, tasks) := r.value] && fails == old(fails)
      ensures r.None? ==> fails == old(fails) + {(s0, tasks)} && wins == old(wins)
    {
      if r.Some? { wins := wins[(s0, tasks) := r.value]; } else { fails := fails + {(s0, tasks)}; }
    }

    /**
     tw_seek_plan. Whatever the caches hold, as long as their plans are derivations, a plan
     found is a derivation of the tasks without a blacklisted command. From fresh caches,
     and while no branch runs out of fuel, the answer is exactly the plain search's.
    */
    method Seek(s0: S, tasks: seq<Task>, fuel: nat) returns (r: Option<Plan>)
      requires WinsHold()
      modifies this
      decreases fuel, 0
      ensures WinsHold()
      ensures r.Some? ==> Derives(d, s0, tasks, r.value) && Allowed(d, bl, r.value) && Spares(d, bl, r.value)
      ensures old(Untouched()) && Settled(d, bl, s0, tasks, fuel) ==> r == Plain(d, bl, s0, tasks, fuel)
      ensures old(Untouched()) && Settled(d, bl, s0, tasks, fuel) && r.None? ==> Untouched()
    {
      hide Derives, Allowed, Spares, WalkedTo, Hopeless, Scanned, Branches, Branching, Settled, Plain;
      if tasks == [] {
        DeriveDone(d, s0);
        NothingToDo(s0, fuel);
        return Some([]);
      }
      if (s0, tasks) in fails {
        if Untouched() && Settled(d, bl, s0, tasks, fuel) { HopelessFails(d, bl, s0, tasks, fuel); }
        return None;
      }
      if (s0, tasks) in wins {
        return Some(wins[(s0, tasks)]);
      }
      var w := Walk(d, bl, s0, tasks);
      match w {
        case Finished(plan) => r := Some(plan);
        case DeadEnd => r := None;
        case AtBranch(s, idx, prefix) =>
          BranchEquations(s0, tasks, s, idx, prefix, fuel);
          if fuel == 0 {
            r := None;
          } else {
            var sub := Decide(s, tasks[idx..], fuel - 1);
            r := Joined(prefix, sub);
            if sub.Some? { JoinPlans(s0, tasks, s, idx, prefix, sub.value); }
          }
      }
      if r.None? && Settled(d, bl, s0, tasks, fuel) && Plain(d, bl, s0, tasks, fuel) == None {
        NowHopeless(s0, tasks, fuel);
      }
      Remember(s0, tasks, r);
    }

    lemma NothingToDo(s: S, fuel: nat)
      ensures Plain(d, bl, s, [], fuel) == Some([]) && Allowed(d, bl, [])
    {
    }

    lemma NowHopeless(s: S, tasks: seq<Task>, fuel: nat)
      requires Settled(d, bl, s, tasks, fuel) && Plain(d, bl, s, tasks, fuel) == None
      ensures Hopeless(d, bl, s, tasks)
    {
    }

    lemma JoinPlans(s0: S, tasks: seq<Task>, s: S, idx: nat, prefix: Plan, q: Plan)
      requires WalkedTo(d, bl, s0, tasks, s, idx, prefix) && Derives(d, s, tasks[idx..], q) && Allowed(d, bl, q)
      ensures Derives(d, s0, tasks, prefix + q) && Allowed(d, bl, prefix + q)
    {
    }

    /** What the plain search does at the branch the walk stopped at. */
    lemma BranchEquations(s0: S, tasks: seq<Task>, s: S, idx: nat, prefix: Plan, fuel: nat)
      requires WalkedTo(d, bl, s0, tasks, s, idx, prefix) && idx < |tasks|
      requires Branching(d, s, tasks[idx]) && Scanned(d, s, tasks[idx..]).found
      ensures Settled(d, bl, s0, tasks, fuel) ==>
        fuel > 0 && AllSettled(d, bl, s, Branches(d, bl, s, tasks[idx..]), fuel - 1)
      ensures fuel > 0 ==>
        Plain(d, bl, s0, tasks, fuel) == Joined(prefix, FirstOf(d, bl, s, Branches(d, bl, s, tasks[idx..]), fuel - 1))
    {
      hide Branches, Branching, Scanned;
      assert tasks[idx..][0] == tasks[idx];
    }

    /** The branching search: try the alternatives of the head task in order. */
    method Decide(s: S, tasks: seq<Task>, fuel: nat) returns (r: Option<Plan>)
      requires WinsHold() && tasks != [] && Branching(d, s, tasks[0])
      modifies this
      decreases fuel, 2
      ensures WinsHold()
      ensures r.Some? ==> Derives(d, s, tasks, r.value) && Allowed(d, bl, r.value)
      ensures old(Untouched()) && AllSettled(d, bl, s, Branches(d, bl, s, tasks), fuel) ==>
        r == FirstOf(d, bl, s, Branches(d, bl, s, tasks), fuel)
      ensures old(Untouched()) && AllSettled(d, bl, s, Branches(d, bl, s, tasks), fuel) && r.None? ==> Untouched()
    {
      hide Derives, Allowed, Plain, Settled;
      r := None;
      match tasks[0] {
        case Do(c) =>
          if c.name in d.methods {
            r := TryMethods(s, tasks, c.name, c.args, tasks[1..], fuel);
          }
        case Goal(bs) =>
          var unmet := Unmet(d, s, bs);
          if unmet != [] && unmet[0].variable in d.methods {
            assert [tasks[0]] + tasks[1..] == tasks;
            r := TryMethods(s, tasks, unmet[0].variable, GoalArgs(unmet[0]), tasks, fuel);
          }
        case Multi(bs) =>
          r := TryBindings(s, tasks, Unmet(d, s, bs), fuel);
      }
    }

    method TryMethods(s: S, ghost tasks: seq<Task>, name: string, args: seq<Value>, tail: seq<Task>, fuel: nat)
      returns (r: Option<Plan>)
      requires WinsHold() && tasks != [] && name in d.methods
      requires forall i: nat :: Decomposed(d, s, tasks, i) == Expanded(d, s, name, args, tail, i)
      modifies this
      decreases fuel, 1
      ensures WinsHold()
      ensures r.Some? ==> Derives(d, s, tasks, r.value) && Allowed(d, bl, r.value)
      ensures var bs := MethodBranches(d, bl, s, name, args, tail, 0, {});
        old(Untouched()) && AllSettled(d, bl, s, bs, fuel) ==>
          r == FirstOf(d, bl, s, bs, fuel) && (r.None? ==> Untouched())
    {
      hide Derives, Allowed, Plain, Settled, Expanded, Decomposed, Plausible, Hopeless, Leads, MethodBranches,
           AllSettled, FirstOf, Resized, Scored, ScoresLow;
      ghost var all := MethodBranches(d, bl, s, name, args, tail, 0, {});
      ghost var exact := Untouched() && AllSettled(d, bl, s, all, fuel);
      var count := |d.methods[name]|;
      var order := OrderMethods((name, args), count);
      var seen: set<seq<Task>>, k := {}, 0;
      while k < count
        invariant 0 <= k <= count && WinsHold()
        invariant exact ==> Untouched() && forall i :: 0 <= i < count ==> order[i] == i
        invariant exact ==> var rest := MethodBranches(d, bl, s, name, args, tail, k, seen);
          AllSettled(d, bl, s, rest, fuel) && FirstOf(d, bl, s, rest, fuel) == FirstOf(d, bl, s, all, fuel)
      {
        var midx := order[k];
        var branch := Expanded(d, s, name, args, tail, midx);
        NextMethod(s, name, args, tail, k, seen, fuel);
        if branch.Some? && branch.value !in seen {
          seen := seen + {branch.value};
          if Plausible(d, bl, s, branch.value) {
            r := Seek(s, branch.value, fuel);
            if r.Some? {
              assert Decomposed(d, s, tasks, midx) == branch;
              DeriveUse(d, s, tasks, midx, r.value);
              Note((name, args), midx, true);
              return;
            }
            Note((name, args), midx, false);
          }
        }
        k := k + 1;
      }
      NoMoreMethods(s, name, args, tail, seen, fuel);
      r := None;
    }

    /** What is left of the branches once method k has been looked at. */
    lemma NextMethod(s: S, name: string, args: seq<Value>, tail: seq<Task>, k: nat, seen: set<seq<Task>>, fuel: nat)
      requires name in d.methods && k < |d.methods[name]|
      ensures var here := MethodBranches(d, bl, s, name, args, tail, k, seen);
        match Expanded(d, s, name, args, tail, k)
        case None => here == MethodBranches(d, bl, s, name, args, tail, k + 1, seen)
        case Some(branch) =>
          if branch in seen then here == MethodBranches(d, bl, s, name, args, tail, k + 1, seen)
          else var rest := MethodBranches(d, bl, s, name, args, tail, k + 1, seen + {branch});
            if !Plausible(d, bl, s, branch) then here == rest
            else
              && (AllSettled(d, bl, s, here, fuel) ==>
                    Settled(d, bl, s, branch, fuel) && AllSettled(d, bl, s, rest, fuel))
              && FirstOf(d, bl, s, here, fuel) ==
                 (if Plain(d, bl, s, branch, fuel).Some? then Plain(d, bl, s, branch, fuel)
                  else FirstOf(d, bl, s, rest, fuel))
    {
      hide Plain, Settled, Plausible, Expanded;
      var branch := Expanded(d, s, name, args, tail, k);
      if branch.Some? && branch.value !in seen {
        var rest := MethodBranches(d, bl, s, name, args, tail, k + 1, seen + {branch.value});
        assert ([branch.value] + rest)[1..] == rest && [] + rest == rest;
      }
    }

    lemma NoMoreMethods(s: S, name: string, args: seq<Value>, tail: seq<Task>, seen: set<seq<Task>>, fuel: nat)
      requires name in d.methods
      ensures FirstOf(d, bl, s, MethodBranches(d, bl, s, name, args, tail, |d.methods[name]|, seen), fuel) == None
    {
    }

    method TryBindings(s: S, tasks: seq<Task>, unmet: seq<Binding>, fuel: nat) returns (r: Option<Plan>)
      requires WinsHold() && tasks != [] && tasks[0].Multi? && unmet == Unmet(d, s, tasks[0].bindings)
      modifies this
      decreases fuel, 1
      ensures WinsHold()
      ensures r.Some? ==> Derives(d, s, tasks, r.value) && Allowed(d, bl, r.value)
      ensures old(Untouched()) && AllSettled(d, bl, s, BindingBranches(unmet, tasks, 0), fuel) ==>
          r == FirstOf(d, bl, s, BindingBranches(unmet, tasks, 0), fuel) && (r.None? ==> Untouched())
    {
      hide Derives, Allowed, Plain, Settled, Hopeless, AllSettled, FirstOf, BindingBranches, Untouched, WinsHold, Unmet;
      ghost var all := BindingBranches(unmet, tasks, 0);
      ghost var exact := Untouched() && AllSettled(d, bl, s, all, fuel);
      var k := 0;
      while k < |unmet|
        invariant 0 <= k <= |unmet| && WinsHold()
        invariant exact ==> Untouched()
        invariant exact ==> var rest := BindingBranches(unmet, tasks, k);
          AllSettled(d, bl, s, rest, fuel) && FirstOf(d, bl, s, rest, fuel) == FirstOf(d, bl, s, all, fuel)
      {
        var branch := [Goal([unmet[k]])] + tasks;
        NextBinding(s, unmet, tasks, k, fuel);
        r := Seek(s, branch, fuel);
        if r.Some? {
          assert branch == [Goal([unmet[k]]), tasks[0]] + tasks[1..];
          DeriveUse(d, s, tasks, k, r.value);
          return;
        }
        k := k + 1;
      }
      LastBinding(s, unmet, tasks, fuel);
      r := None;
    }

    lemma NextBinding(s: S, unmet: seq<Binding>, tasks: seq<Task>, k: nat, fuel: nat)
      requires tasks != [] && k < |unmet|
      ensures var branch, rest := [Goal([unmet[k]])] + tasks, BindingBranches(unmet, tasks, k + 1);
        && (AllSettled(d, bl, s, BindingBranches(unmet, tasks, k), fuel) ==>
              Settled(d, bl, s, branch, fuel) && AllSettled(d, bl, s, rest, fuel))
        && FirstOf(d, bl, s, BindingBranches(unmet, tasks, k), fuel) ==
           if Plain(d, bl, s, branch, fuel).Some? then Plain(d, bl, s, branch, fuel) else FirstOf(d, bl, s, rest, fuel)
    {
      hide Plain, Settled;
      assert BindingBranches(unmet, tasks, k)[1..] == BindingBranches(unmet, tasks, k + 1);
    }

    lemma LastBinding(s: S, unmet: seq<Binding>, tasks: seq<Task>, fuel: nat)
      requires tasks != []
      ensures FirstOf(d, bl, s, BindingBranches(unmet, tasks, |unmet|), fuel) == None
    {
    }
  }

  /**
   tw_plan: one search from fresh caches. A plan it returns runs to its end, where the goal the list
   ends with holds; while no branch runs out of fuel, and every goal's variable has a method, one is
   returned exactly if there is one.
  */
  method FindPlan<S(==, !new)>(d: Domain<S>, bl: set<string>, s: S, tasks: seq<Task>) returns (r: Option<Plan>)
    ensures r.Some? ==> Derives(d, s, tasks, r.value) && Spares(d, bl, r.value) && Execute(d, s, r.value).Some?
    ensures r.Some? && tasks != [] && !tasks[|tasks| - 1].Do? ==>
              Satisfied(d, Execute(d, s, r.value).value, tasks[|tasks| - 1].bindings)
    ensures Settled(d, bl, s, tasks, TW_MAX_DEPTH) ==> r == Plain(d, bl, s, tasks, TW_MAX_DEPTH)
    ensures Settled(d, bl, s, tasks, TW_MAX_DEPTH) && Covered(d) && Covers(d, tasks) ==>
              (r.Some? <==> Solvable(d, bl, s, tasks))
  {
    hide Derives, Spares, Execute, Satisfied, Settled, Plain, Covered, Covers, Solvable;
    var search := new Search(d, bl);
    r := search.Seek(s, tasks, TW_MAX_DEPTH);
    if r.Some? {
      DerivesExecutes(d, s, tasks, r.value);
      if tasks != [] && !tasks[|tasks| - 1].Do? { DerivedReachesGoal(d, s, tasks, r.value); }
    }
    if Settled(d, bl, s, tasks, TW_MAX_DEPTH) && Covered(d) && Covers(d, tasks) {
      FindsExactlyIfSolvable(d, bl, s, tasks, TW_MAX_DEPTH);
    }
  }
}
