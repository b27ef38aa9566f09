/**
 Tasks, goals and domains of the planner, what a plan means, and what it means for
 a plan to be derived from a task list (thirdparty/taskweft/tw_domain.hpp,
 thirdparty/taskweft/tw_replan.hpp). The state type is left open, and how a goal
 binding is judged in a state is the domain's own `holds`.
*/
module HtnDomain {
  import opened Wrappers

  datatype Value = Nil | Bool(b: bool) | Int(i: int) | Str(s: string)

  datatype Call = Call(name: string, args: seq<Value>)
  datatype Binding = Binding(variable: string, key: string, desired: Value)
  datatype Task = Do(call: Call) | Goal(bindings: seq<Binding>) | Multi(bindings: seq<Binding>)

  type Plan = seq<Call>

  datatype Domain<!S> = Domain(
    actions: map<string, (S, seq<Value>) -> Option<S>>,
    methods: map<string, seq<(S, seq<Value>) -> Option<seq<Task>>>>,
    holds: (S, Binding) -> bool,
    show: Value -> string)

  predicate Satisfied<S(!new)>(d: Domain<S>, s: S, bs: seq<Binding>) {
    forall i :: 0 <= i < |bs| ==> d.holds(s, bs[i])
  }

  /** The bindings that do not hold, in order. */
  function Unmet<S(!new)>(d: Domain<S>, s: S, bs: seq<Binding>): (r: seq<Binding>)
    ensures r == [] <==> Satisfied(d, s, bs)
    ensures forall i :: 0 <= i < |r| ==> r[i] in bs && !d.holds(s, r[i])
    ensures forall b <- bs :: !d.holds(s, b) ==> b in r
  {
    if bs == [] then []
    else if d.holds(s, bs[0]) then
      assert Satisfied(d, s, bs[1..]) <==> Satisfied(d, s, bs) by {
        assert forall i :: 0 < i < |bs| ==> bs[i] == bs[1..][i - 1];
      }
      Unmet(d, s, bs[1..])
    else [bs[0]] + Unmet(d, s, bs[1..])
  }

  /** They come in the order of the goal: those of its first part, then those of its second. */
  lemma {:induction false} UnmetInOrder<S(!new)>(d: Domain<S>, s: S, a: seq<Binding>, b: seq<Binding>)
    ensures Unmet(d, s, a + b) == Unmet(d, s, a) + Unmet(d, s, b)
  {
    hide Unmet;
    if a == [] {
      assert a + b == b;
      UnmetNone(d, s);
    } else {
      UnmetInOrder(d, s, a[1..], b);
      UnmetStep(d, s, a);
      assert (a + b)[1..] == a[1..] + b && (a + b)[0] == a[0];
      UnmetStep(d, s, a + b);
      Together(if d.holds(s, a[0]) then [] else [a[0]], Unmet(d, s, a[1..]), Unmet(d, s, b));
    }
  }

  lemma Together(a: seq<Binding>, b: seq<Binding>, c: seq<Binding>)
    ensures a + (b + c) == a + b + c
  {
  }

  lemma UnmetNone<S(!new)>(d: Domain<S>, s: S)
    ensures Unmet(d, s, []) == []
  {
  }

  lemma UnmetStep<S(!new)>(d: Domain<S>, s: S, bs: seq<Binding>)
    requires bs != []
    ensures Unmet(d, s, bs) == (if d.holds(s, bs[0]) then [] else [bs[0]]) + Unmet(d, s, bs[1..])
  {
  }

  /** tw_call_key: the canonical string of a concrete command. */
  function CallKey<S(!new)>(d: Domain<S>, c: Call): string {
    c.name + ArgsKey(d, c.args)
  }

  const SEPARATOR: char := 31 as char

  function ArgsKey<S(!new)>(d: Domain<S>, args: seq<Value>): string {
    if args == [] then "" else [SEPARATOR] + d.show(args[0]) + ArgsKey(d, args[1..])
  }

  /** The same command: the same name, and arguments that show the same, one by one. */
  predicate SameCommand<S(!new)>(d: Domain<S>, a: Call, b: Call) {
    a.name == b.name && |a.args| == |b.args| && forall i :: 0 <= i < |a.args| ==> d.show(a.args[i]) == d.show(b.args[i])
  }

  lemma {:induction false} SameArgsSameKey<S(!new)>(d: Domain<S>, a: seq<Value>, b: seq<Value>)
    requires |a| == |b| && forall i :: 0 <= i < |a| ==> d.show(a[i]) == d.show(b[i])
    ensures ArgsKey(d, a) == ArgsKey(d, b)
    decreases |a|
  {
    if a != [] {
      assert d.show(a[0]) == d.show(b[0]);
      assert forall i :: 0 <= i < |a| - 1 ==> a[1..][i] == a[i + 1] && b[1..][i] == b[i + 1];
      SameArgsSameKey(d, a[1..], b[1..]);
    }
  }

  /** The parts of a key between its separators. */
  function Parts(key: string): (r: seq<string>)
    ensures r != []
  {
    if key == [] then [[]]
    else if key[0] == SEPARATOR then [[]] + Parts(key[1..])
    else var r := Parts(key[1..]); [[key[0]] + r[0]] + r[1..]
  }

  lemma {:induction false} PartsOfFirst(x: string, rest: string)
    requires SEPARATOR !in x
    ensures Parts(x + [SEPARATOR] + rest) == [x] + Parts(rest)
    decreases |x|
  {
    var key := x + [SEPARATOR] + rest;
    if x == [] {
      assert key[1..] == rest;
    } else {
      assert key[1..] == x[1..] + [SEPARATOR] + rest && key[0] == x[0];
      PartsOfFirst(x[1..], rest);
      assert [x[0]] + x[1..] == x;
    }
  }

  lemma {:induction false} PartsOfOne(x: string)
    requires SEPARATOR !in x
    ensures Parts(x) == [x]
  {
    if x != [] {
      PartsOfOne(x[1..]);
      assert [x[0]] + x[1..] == x;
    }
  }

  /** How these arguments show. */
  function Shown<S(!new)>(d: Domain<S>, args: seq<Value>): seq<string> {
    seq(|args|, i requires 0 <= i < |args| => d.show(args[i]))
  }

  /** The name and the shown arguments hold no separator. */
  predicate Separable<S(!new)>(d: Domain<S>, c: Call) {
    SEPARATOR !in c.name && forall i :: 0 <= i < |c.args| ==> SEPARATOR !in d.show(c.args[i])
  }

  /** A key falls apart into the name and the shown arguments it was made of. */
  lemma {:induction false} KeyParts<S(!new)>(d: Domain<S>, name: string, args: seq<Value>)
    requires SEPARATOR !in name && forall i :: 0 <= i < |args| ==> SEPARATOR !in d.show(args[i])
    ensures Parts(name + ArgsKey(d, args)) == [name] + Shown(d, args)
    decreases |args|
  {
    if args == [] {
      assert name + "" == name;
      PartsOfOne(name);
    } else {
      var rest := d.show(args[0]) + ArgsKey(d, args[1..]);
      KeyParts(d, d.show(args[0]), args[1..]);
      assert name + ArgsKey(d, args) == name + [SEPARATOR] + rest;
      PartsOfFirst(name, rest);
      assert Shown(d, args) == [d.show(args[0])] + Shown(d, args[1..]);
    }
  }

  /** Two commands have one key exactly when they are the same command. */
  lemma KeysAgreeExactly<S(!new)>(d: Domain<S>, a: Call, b: Call)
    ensures SameCommand(d, a, b) ==> CallKey(d, a) == CallKey(d, b)
    ensures Separable(d, a) && Separable(d, b) ==> (CallKey(d, a) == CallKey(d, b) <==> SameCommand(d, a, b))
  {
    if SameCommand(d, a, b) { SameArgsSameKey(d, a.args, b.args); }
    if Separable(d, a) && Separable(d, b) && CallKey(d, a) == CallKey(d, b) {
      KeyParts(d, a.name, a.args);
      KeyParts(d, b.name, b.args);
      assert ([a.name] + Shown(d, a.args))[0] == ([b.name] + Shown(d, b.args))[0];
      assert ([a.name] + Shown(d, a.args))[1..] == Shown(d, a.args);
      assert ([b.name] + Shown(d, b.args))[1..] == Shown(d, b.args);
      forall i | 0 <= i < |a.args| ensures d.show(a.args[i]) == d.show(b.args[i]) {
        assert Shown(d, a.args)[i] == Shown(d, b.args)[i];
      }
    }
  }

  /** The plan holds none of the commands whose keys these are. */
  ghost predicate Spares<S(!new)>(d: Domain<S>, blacklist: set<string>, plan: Plan) {
    forall c: Call, i :: CallKey(d, c) in blacklist && 0 <= i < |plan| ==> !SameCommand(d, plan[i], c)
  }

  /** No command of the plan is blacklisted. */
  predicate Allowed<S(!new)>(d: Domain<S>, blacklist: set<string>, plan: Plan): (ok: bool)
    ensures ok <==> Spares(d, blacklist, plan)
  {
    KeysSpare(d, blacklist, plan);
    forall i :: 0 <= i < |plan| ==> CallKey(d, plan[i]) !in blacklist
  }

  lemma KeysSpare<S(!new)>(d: Domain<S>, blacklist: set<string>, plan: Plan)
    ensures (forall i :: 0 <= i < |plan| ==> CallKey(d, plan[i]) !in blacklist) <==> Spares(d, blacklist, plan)
  {
    hide CallKey;
    forall c: Call, i | 0 <= i < |plan| && SameCommand(d, plan[i], c)
      ensures CallKey(d, plan[i]) == CallKey(d, c)
    {
      KeysAgreeExactly(d, plan[i], c);
    }
    forall i | 0 <= i < |plan|
      ensures SameCommand(d, plan[i], plan[i])
    {
    }
  }

  // ---- What a plan does ----

  /** The state after the plan, if every command of it applies. */
  function Execute<S(!new)>(d: Domain<S>, s: S, plan: Plan): Option<S> {
    if plan == [] then Some(s)
    else if plan[0].name !in d.actions then None
    else
      match d.actions[plan[0].name](s, plan[0].args)
      case None => None
      case Some(t) => Execute(d, t, plan[1..])
  }

  datatype Simulation<S> = Simulation(completed: nat, failStep: Option<nat>, failAction: string, state: S)

  /** tw_simulate: apply the commands one by one, stopping at the first failure. */
  method Simulate<S(!new)>(d: Domain<S>, s: S, plan: Plan) returns (r: Simulation<S>)
    ensures r.completed <= |plan| && Execute(d, s, plan[..r.completed]) == Some(r.state)
    ensures r.failStep.None? <==> Execute(d, s, plan).Some?
    ensures r.failStep.None? ==> r.completed == |plan| && Execute(d, s, plan) == Some(r.state)
    ensures r.failStep.Some? ==>
      && r.failStep.value == r.completed < |plan| && r.failAction == plan[r.completed].name
      && Execute(d, s, plan[..r.completed + 1]) == None
  {
    var cur, i := s, 0;
    while i < |plan|
      invariant 0 <= i <= |plan| && Execute(d, s, plan[..i]) == Some(cur)
    {
      ExecuteSnoc(d, s, plan[..i], plan[i]);
      assert plan[..i] + [plan[i]] == plan[..i + 1];
      var step := if plan[i].name in d.actions then d.actions[plan[i].name](cur, plan[i].args) else None;
      if step.None? {
        ExecuteStops(d, s, plan, i + 1);
        return Simulation(i, Some(i), plan[i].name, cur);
      }
      cur, i := step.value, i + 1;
    }
    assert plan[..i] == plan;
    r := Simulation(i, None, "", cur);
  }

  lemma {:induction false} ExecuteSnoc<S(!new)>(d: Domain<S>, s: S, plan: Plan, c: Call)
    ensures Execute(d, s, plan + [c]) ==
            match Execute(d, s, plan)
            case None => None
            case Some(t) => if c.name in d.actions then d.actions[c.name](t, c.args) else None
    decreases |plan|
  {
    if plan == [] {
      assert plan + [c] == [c];
    } else {
      assert (plan + [c])[1..] == plan[1..] + [c];
      if plan[0].name in d.actions && d.actions[plan[0].name](s, plan[0].args).Some? {
        ExecuteSnoc(d, d.actions[plan[0].name](s, plan[0].args).value, plan[1..], c);
      }
    }
  }

  lemma {:induction false} ExecuteStops<S(!new)>(d: Domain<S>, s: S, plan: Plan, n: nat)
    requires n <= |plan| && Execute(d, s, plan[..n]) == None
    ensures Execute(d, s, plan) == None
    decreases n
  {
    if n > 0 && plan[0].name in d.actions && d.actions[plan[0].name](s, plan[0].args).Some? {
      assert plan[..n][1..] == plan[1..][..n - 1];
      ExecuteStops(d, d.actions[plan[0].name](s, plan[0].args).value, plan[1..], n - 1);
    }
  }

  // ---- What it means to derive a plan ----

  /** A derivation, one choice after another. */
  datatype Derivation =
    | Stop                            // nothing left to do
    | Pass(rest: Derivation)          // a goal that holds is passed
    | Act(rest: Derivation)           // an action is applied
    | Use(alternative: nat, rest: Derivation)   // a method, or which unmet binding to pursue

  /** The task lists that replace this one when its head is decomposed: one per alternative. */
  function Decomposed<S(!new)>(d: Domain<S>, s: S, tasks: seq<Task>, i: nat): Option<seq<Task>>
    requires tasks != []
  {
    var rest := tasks[1..];
    match tasks[0]
    case Do(c) =>
      if c.name in d.actions then None else Expanded(d, s, c.name, c.args, rest, i)
    case Goal(bs) =>
      var unmet := Unmet(d, s, bs);
      if unmet == [] then None
      else Expanded(d, s, unmet[0].variable, GoalArgs(unmet[0]), [tasks[0]] + rest, i)
    case Multi(bs) =>
      var unmet := Unmet(d, s, bs);
      if i < |unmet| then Some([Goal([unmet[i]]), tasks[0]] + rest) else None
  }

  function GoalArgs(b: Binding): seq<Value> {
    [Str(b.key), b.desired]
  }

  /** Method i of this name, applied, with `tail` still to do after it. */
  function Expanded<S(!new)>(d: Domain<S>, s: S, name: string, args: seq<Value>, tail: seq<Task>,
                             i: nat): Option<seq<Task>> {
    if name in d.methods && i < |d.methods[name]| then
      match d.methods[name][i](s, args)
      case None => None
      case Some(subs) => Some(subs + tail)
    else None
  }

  /** The plan and the final state a derivation yields, if it is one for these tasks. */
  function Follow<S(!new)>(d: Domain<S>, s: S, tasks: seq<Task>, der: Derivation): Option<(Plan, S)>
    decreases der
  {
    match der
    case Stop => if tasks == [] then Some(([], s)) else None
    case Pass(rest) =>
      if tasks != [] && !tasks[0].Do? && Satisfied(d, s, tasks[0].bindings)
      then Follow(d, s, tasks[1..], rest) else None
    case Act(rest) =>
      if tasks != [] && tasks[0].Do? && tasks[0].call.name in d.actions then
        match d.actions[tasks[0].call.name](s, tasks[0].call.args)
        case None => None
        case Some(t) =>
          match Follow(d, t, tasks[1..], rest)
          case None => None
          case Some(r) => Some(([tasks[0].call] + r.0, r.1))
      else None
    case Use(i, rest) =>
      if tasks == [] then None
      else
        match Decomposed(d, s, tasks, i)
        case None => None
        case Some(subs) => Follow(d, s, subs, rest)
  }

  ghost predicate Derives<S(!new)>(d: Domain<S>, s: S, tasks: seq<Task>, plan: Plan) {
    exists der: Derivation :: Follow(d, s, tasks, der).Some? && Follow(d, s, tasks, der).value.0 == plan
  }

  /** A derived plan runs to its end, and ends where the derivation says. */
  lemma {:induction false} FollowExecutes<S(!new)>(d: Domain<S>, s: S, tasks: seq<Task>, der: Derivation)
    requires Follow(d, s, tasks, der).Some?
    ensures Execute(d, s, Follow(d, s, tasks, der).value.0) == Some(Follow(d, s, tasks, der).value.1)
    decreases der
  {
    match der
    case Stop =>
    case Pass(rest) => FollowExecutes(d, s, tasks[1..], rest);
    case Act(rest) =>
      var c := tasks[0].call;
      var t := d.actions[c.name](s, c.args).value;
      FollowExecutes(d, t, tasks[1..], rest);
      var tail := Follow(d, t, tasks[1..], rest).value.0;
      assert ([c] + tail)[1..] == tail;
    case Use(i, rest) => FollowExecutes(d, s, Decomposed(d, s, tasks, i).value, rest);
  }

  lemma DerivesExecutes<S(!new)>(d: Domain<S>, s: S, tasks: seq<Task>, plan: Plan)
    requires Derives(d, s, tasks, plan)
    ensures Execute(d, s, plan).Some?
  {
    var der: Derivation :| Follow(d, s, tasks, der).Some? && Follow(d, s, tasks, der).value.0 == plan;
    FollowExecutes(d, s, tasks, der);
  }

  /** The last task outlasts every decomposition. */
  lemma LastStays<S(!new)>(d: Domain<S>, s: S, tasks: seq<Task>, i: nat)
    requires tasks != [] && Decomposed(d, s, tasks, i).Some?
    requires |tasks| > 1 || !tasks[0].Do?
    ensures var subs := Decomposed(d, s, tasks, i).value; subs != [] && subs[|subs| - 1] == tasks[|tasks| - 1]
  {
    hide Unmet;
    var rest := tasks[1..];
    if tasks[0].Do? {
      assert rest[|rest| - 1] == tasks[|tasks| - 1];
    } else {
      assert [tasks[0]] + rest == tasks;
    }
  }

  /** A goal at the end of a task list holds where a derivation of the list ends. */
  lemma {:induction false} LastGoalReached<S(!new)>(d: Domain<S>, s: S, tasks: seq<Task>, der: Derivation)
    requires tasks != [] && !tasks[|tasks| - 1].Do? && Follow(d, s, tasks, der).Some?
    ensures Satisfied(d, Follow(d, s, tasks, der).value.1, tasks[|tasks| - 1].bindings)
    decreases der
  {
    hide Satisfied, Decomposed;
    match der
    case Stop =>
    case Pass(rest) =>
      if |tasks| == 1 { assert rest.Stop?; } else { LastGoalReached(d, s, tasks[1..], rest); }
    case Act(rest) =>
      LastGoalReached(d, d.actions[tasks[0].call.name](s, tasks[0].call.args).value, tasks[1..], rest);
    case Use(i, rest) =>
      LastStays(d, s, tasks, i);
      LastGoalReached(d, s, Decomposed(d, s, tasks, i).value, rest);
  }

  /** So the state a derived plan leaves meets the goal its task list ends with. */
  lemma DerivedReachesGoal<S(!new)>(d: Domain<S>, s: S, tasks: seq<Task>, plan: Plan)
    requires Derives(d, s, tasks, plan) && tasks != [] && !tasks[|tasks| - 1].Do?
    ensures Execute(d, s, plan).Some? && Satisfied(d, Execute(d, s, plan).value, tasks[|tasks| - 1].bindings)
  {
    hide Satisfied, Execute;
    var der: Derivation :| Follow(d, s, tasks, der).Some? && Follow(d, s, tasks, der).value.0 == plan;
    FollowExecutes(d, s, tasks, der);
    LastGoalReached(d, s, tasks, der);
  }

  lemma DecomposedAppends<S(!new)>(d: Domain<S>, s: S, a: seq<Task>, b: seq<Task>, i: nat)
    requires a != []
    ensures Decomposed(d, s, a + b, i) ==
            if Decomposed(d, s, a, i).Some? then Some(Decomposed(d, s, a, i).value + b) else None
  {
    hide Unmet;
    assert (a + b)[0] == a[0] && (a + b)[1..] == a[1..] + b;
    match a[0]
    case Do(c) => ExpandedAppends(d, s, c.name, c.args, a[1..], b, i);
    case Goal(bs) =>
      var unmet := Unmet(d, s, bs);
      assert [a[0]] + (a[1..] + b) == [a[0]] + a[1..] + b;
      if unmet != [] { ExpandedAppends(d, s, unmet[0].variable, GoalArgs(unmet[0]), [a[0]] + a[1..], b, i); }
    case Multi(bs) =>
      var unmet := Unmet(d, s, bs);
      if i < |unmet| {
        var head := [Goal([unmet[i]]), a[0]];
        assert head + (a[1..] + b) == head + a[1..] + b;
      }
  }

  lemma ExpandedAppends<S(!new)>(d: Domain<S>, s: S, name: string, args: seq<Value>, a: seq<Task>, b: seq<Task>, i: nat)
    ensures Expanded(d, s, name, args, a + b, i) ==
            if Expanded(d, s, name, args, a, i).Some? then Some(Expanded(d, s, name, args, a, i).value + b) else None
  {
    if name in d.methods && i < |d.methods[name]| && d.methods[name][i](s, args).Some? {
      var subs := d.methods[name][i](s, args).value;
      assert subs + (a + b) == subs + a + b;
    }
  }

  /** A derivation of one list after another is one of the first, and from where that ends one of the second. */
  lemma {:induction false} FollowSplits<S(!new)>(d: Domain<S>, s: S, a: seq<Task>, b: seq<Task>, der: Derivation)
    returns (first: Derivation, second: Derivation)
    requires Follow(d, s, a + b, der).Some?
    ensures Follow(d, s, a, first).Some? && Follow(d, Follow(d, s, a, first).value.1, b, second).Some?
    ensures var (p, mid) := Follow(d, s, a, first).value; var (q, end) := Follow(d, mid, b, second).value;
            Follow(d, s, a + b, der).value == (p + q, end)
    decreases der
  {
    hide Satisfied, Decomposed;
    if a == [] {
      assert a + b == b;
      var r := Follow(d, s, b, der).value;
      assert [] + r.0 == r.0;
      return Stop, der;
    }
    assert (a + b)[0] == a[0] && (a + b)[1..] == a[1..] + b;
    match der {
      case Stop => first, second := Stop, Stop;
      case Pass(rest) =>
        first, second := FollowSplits(d, s, a[1..], b, rest);
        first := Pass(first);
      case Act(rest) =>
        var c := a[0].call;
        var t := d.actions[c.name](s, c.args).value;
        first, second := FollowSplits(d, t, a[1..], b, rest);
        var (p, mid) := Follow(d, t, a[1..], first).value;
        var q := Follow(d, mid, b, second).value.0;
        assert [c] + (p + q) == [c] + p + q;
        first := Act(first);
      case Use(i, rest) =>
        DecomposedAppends(d, s, a, b, i);
        first, second := FollowSplits(d, s, Decomposed(d, s, a, i).value, b, rest);
        first := Use(i, first);
    }
  }

  lemma DeriveDone<S(!new)>(d: Domain<S>, s: S)
    ensures Derives(d, s, [], [])
  {
    assert Follow(d, s, [], Stop) == Some(([], s));
  }

  lemma DerivePass<S(!new)>(d: Domain<S>, s: S, tasks: seq<Task>, plan: Plan)
    requires tasks != [] && !tasks[0].Do? && Satisfied(d, s, tasks[0].bindings) && Derives(d, s, tasks[1..], plan)
    ensures Derives(d, s, tasks, plan)
  {
    var der: Derivation :| Follow(d, s, tasks[1..], der).Some? && Follow(d, s, tasks[1..], der).value.0 == plan;
    assert Follow(d, s, tasks, Pass(der)) == Follow(d, s, tasks[1..], der);
  }

  lemma DeriveAct<S(!new)>(d: Domain<S>, s: S, tasks: seq<Task>, t: S, plan: Plan)
    requires tasks != [] && tasks[0].Do? && tasks[0].call.name in d.actions
    requires d.actions[tasks[0].call.name](s, tasks[0].call.args) == Some(t) && Derives(d, t, tasks[1..], plan)
    ensures Derives(d, s, tasks, [tasks[0].call] + plan)
  {
    var der: Derivation :| Follow(d, t, tasks[1..], der).Some? && Follow(d, t, tasks[1..], der).value.0 == plan;
    assert Follow(d, s, tasks, Act(der)).Some?;
  }

  lemma DeriveUse<S(!new)>(d: Domain<S>, s: S, tasks: seq<Task>, i: nat, plan: Plan)
    requires tasks != [] && Decomposed(d, s, tasks, i).Some? && Derives(d, s, Decomposed(d, s, tasks, i).value, plan)
    ensures Derives(d, s, tasks, plan)
  {
    var subs := Decomposed(d, s, tasks, i).value;
    var der: Derivation :| Follow(d, s, subs, der).Some? && Follow(d, s, subs, der).value.0 == plan;
    assert Follow(d, s, tasks, Use(i, der)) == Follow(d, s, subs, der);
  }
}
