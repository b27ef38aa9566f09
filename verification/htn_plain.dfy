/**
 The plain depth-first search: the same pruning and the same order of methods as
 the planner, with no memory (thirdparty/taskweft/tw_planner.hpp). It is what the
 memoised search is measured against.
*/
module HtnPlain {
  import opened Wrappers
  import opened HtnDomain
  import opened HtnWitness

  const TW_MAX_DEPTH: nat := 400

  // ---- Pruning ----

  /** tw_task_shallow_plausible */
  predicate Plausible1<S(!new)>(d: Domain<S>, bl: set<string>, s: S, t: Task) {
    match t
    case Do(c) => if c.name in d.actions then CallKey(d, c) !in bl else c.name in d.methods
    case Goal(bs) => var unmet := Unmet(d, s, bs); unmet == [] || exists b :: b in unmet && b.variable in d.methods
    case Multi(bs) => var unmet := Unmet(d, s, bs); unmet == [] || exists b :: b in unmet && b.variable in d.methods
  }

  /** tw_prefix_plausible: only the first two tasks are probed. */
  predicate Plausible<S(!new)>(d: Domain<S>, bl: set<string>, s: S, tasks: seq<Task>) {
    && (|tasks| > 0 ==> Plausible1(d, bl, s, tasks[0]))
    && (|tasks| > 1 ==> Plausible1(d, bl, s, tasks[1]))
  }

  // ---- The branches of one decision, in the order they are tried ----

  /** Methods i, i+1, …: each new decomposition once, and only the plausible ones. */
  function MethodBranches<S(!new)>(d: Domain<S>, bl: set<string>, s: S, name: string, args: seq<Value>, tail: seq<Task>,
                                   i: nat, seen: set<seq<Task>>): seq<seq<Task>>
    requires name in d.methods && i <= |d.methods[name]|
    decreases |d.methods[name]| - i
  {
    if i == |d.methods[name]| then []
    else
      match Expanded(d, s, name, args, tail, i)
      case None => MethodBranches(d, bl, s, name, args, tail, i + 1, seen)
      case Some(tasks) =>
        if tasks in seen then MethodBranches(d, bl, s, name, args, tail, i + 1, seen)
        else (if Plausible(d, bl, s, tasks) then [tasks] else []) +
             MethodBranches(d, bl, s, name, args, tail, i + 1, seen + {tasks})
  }

  /** Unmet bindings i, i+1, … of a multigoal, each as the next goal to pursue. */
  function BindingBranches(unmet: seq<Binding>, tasks: seq<Task>, i: nat): seq<seq<Task>>
    requires tasks != [] && i <= |unmet|
    decreases |unmet| - i
  {
    if i == |unmet| then [] else [[Goal([unmet[i]])] + tasks] + BindingBranches(unmet, tasks, i + 1)
  }

  function Branches<S(!new)>(d: Domain<S>, bl: set<string>, s: S, tasks: seq<Task>): seq<seq<Task>>
    requires tasks != []
  {
    match tasks[0]
    case Do(c) =>
      if c.name in d.methods then MethodBranches(d, bl, s, c.name, c.args, tasks[1..], 0, {}) else []
    case Goal(bs) =>
      var unmet := Unmet(d, s, bs);
      if unmet != [] && unmet[0].variable in d.methods
      then MethodBranches(d, bl, s, unmet[0].variable, GoalArgs(unmet[0]), tasks, 0, {}) else []
    case Multi(bs) => BindingBranches(Unmet(d, s, bs), tasks, 0)
  }

  /** Does the head need a decision, rather than being passed or applied? */
  predicate Branching<S(!new)>(d: Domain<S>, s: S, t: Task) {
    match t
    case Do(c) => c.name !in d.actions
    case Goal(bs) => !Satisfied(d, s, bs)
    case Multi(bs) => !Satisfied(d, s, bs)
  }

  function Prepended(c: Call, r: Option<Plan>): Option<Plan> {
    if r.Some? then Some([c] + r.value) else None
  }

  /** The plain search. Fuel bounds decisions, not the length of a sequence. */
  function Plain<S(!new)>(d: Domain<S>, bl: set<string>, s: S, tasks: seq<Task>, fuel: nat): Option<Plan>
    decreases fuel, 0, |tasks|
  {
    if tasks == [] then Some([])
    else if !Scanned(d, s, tasks).found then None
    else if Branching(d, s, tasks[0]) then
      if fuel == 0 then None else FirstOf(d, bl, s, Branches(d, bl, s, tasks), fuel - 1)
    else
      match tasks[0]
      case Do(c) =>
        if CallKey(d, c) in bl then None
        else
          (match d.actions[c.name](s, c.args)
           case None => None
           case Some(t) => Prepended(c, Plain(d, bl, t, tasks[1..], fuel)))
      case _ => Plain(d, bl, s, tasks[1..], fuel)
  }

  /** The first branch with a plan. */
  function FirstOf<S(!new)>(d: Domain<S>, bl: set<string>, s: S, branches: seq<seq<Task>>, fuel: nat): Option<Plan>
    decreases fuel, 1, |branches|
  {
    if branches == [] then None
    else
      var r := Plain(d, bl, s, branches[0], fuel);
      if r.Some? then r else FirstOf(d, bl, s, branches[1..], fuel)
  }

  /** No branch below here ever runs out of fuel. */
  predicate Settled<S(!new)>(d: Domain<S>, bl: set<string>, s: S, tasks: seq<Task>, fuel: nat)
    decreases fuel, 0, |tasks|
  {
    if tasks == [] || !Scanned(d, s, tasks).found then true
    else if Branching(d, s, tasks[0]) then
      fuel > 0 && AllSettled(d, bl, s, Branches(d, bl, s, tasks), fuel - 1)
    else
      match tasks[0]
      case Do(c) =>
        CallKey(d, c) in bl ||
        (match d.actions[c.name](s, c.args)
         case None => true
         case Some(t) => Settled(d, bl, t, tasks[1..], fuel))
      case _ => Settled(d, bl, s, tasks[1..], fuel)
  }

  predicate AllSettled<S(!new)>(d: Domain<S>, bl: set<string>, s: S, branches: seq<seq<Task>>, fuel: nat)
    decreases fuel, 1, |branches|
  {
    branches == [] || (Settled(d, bl, s, branches[0], fuel) && AllSettled(d, bl, s, branches[1..], fuel))
  }

  /** More fuel than needed changes nothing. */
  lemma {:induction false} MoreFuel<S(!new)>(d: Domain<S>, bl: set<string>, s: S, tasks: seq<Task>, n: nat, m: nat)
    requires Settled(d, bl, s, tasks, n) && n <= m
    ensures Settled(d, bl, s, tasks, m) && Plain(d, bl, s, tasks, m) == Plain(d, bl, s, tasks, n)
    decreases n, 0, |tasks|
  {
    hide Scanned, Branching, Branches;
    if tasks != [] && Scanned(d, s, tasks).found {
      if Branching(d, s, tasks[0]) {
        MoreFuelBranches(d, bl, s, Branches(d, bl, s, tasks), n - 1, m - 1);
      } else {
        StepMoreFuel(d, bl, s, tasks, n, m);
      }
    }
  }

  lemma {:induction false} StepMoreFuel<S(!new)>(d: Domain<S>, bl: set<string>, s: S, tasks: seq<Task>, n: nat, m: nat)
    requires Settled(d, bl, s, tasks, n) && n <= m && tasks != [] && Scanned(d, s, tasks).found
    requires !Branching(d, s, tasks[0])
    ensures Settled(d, bl, s, tasks, m) && Plain(d, bl, s, tasks, m) == Plain(d, bl, s, tasks, n)
    decreases n, 0, |tasks|, 0
  {
    match tasks[0]
    case Do(c) =>
      if CallKey(d, c) !in bl && d.actions[c.name](s, c.args).Some? {
        MoreFuel(d, bl, d.actions[c.name](s, c.args).value, tasks[1..], n, m);
      }
    case _ => MoreFuel(d, bl, s, tasks[1..], n, m);
  }

  lemma {:induction false} MoreFuelBranches<S(!new)>(d: Domain<S>, bl: set<string>, s: S, branches: seq<seq<Task>>,
                                                     n: nat, m: nat)
    requires AllSettled(d, bl, s, branches, n) && n <= m
    ensures AllSettled(d, bl, s, branches, m) && FirstOf(d, bl, s, branches, m) == FirstOf(d, bl, s, branches, n)
    decreases n, 1, |branches|
  {
    if branches != [] {
      MoreFuel(d, bl, s, branches[0], n, m);
      MoreFuelBranches(d, bl, s, branches[1..], n, m);
    }
  }

  /** A settled search that finds nothing: no amount of fuel would help it. */
  ghost predicate Hopeless<S(!new)>(d: Domain<S>, bl: set<string>, s: S, tasks: seq<Task>) {
    exists n: nat :: Settled(d, bl, s, tasks, n) && Plain(d, bl, s, tasks, n) == None
  }

  lemma HopelessFails<S(!new)>(d: Domain<S>, bl: set<string>, s: S, tasks: seq<Task>, fuel: nat)
    requires Hopeless(d, bl, s, tasks) && Settled(d, bl, s, tasks, fuel)
    ensures Plain(d, bl, s, tasks, fuel) == None
  {
    var n: nat :| Settled(d, bl, s, tasks, n) && Plain(d, bl, s, tasks, n) == None;
    if n <= fuel { MoreFuel(d, bl, s, tasks, n, fuel); } else { MoreFuel(d, bl, s, tasks, fuel, n); }
  }
}
