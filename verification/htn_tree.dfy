/**
 The search that records its choices in a derivation tree and rolls the tree back
 when a choice fails (thirdparty/taskweft/tw_planner.hpp).
*/
module HtnTree {
  import opened Wrappers
  import opened HtnDomain
  import opened HtnPlain
  import opened HtnComplete
  import opened HtnTreePlain
  import opened SolutionTree

  /** Entry k of the action list is this command, and carries k as its step number. */
  predicate StepIs(t: Tree, k: nat, c: Call) {
    && k < |t.actions| && t.actions[k] < |t.nodes|
    && var n := t.nodes[t.actions[k]]; n.kind == ActionNode && n.name == c.name && n.args == c.args && n.planStep == k
  }

  /** A task or goal node never holds an alternative that was to be skipped. */
  predicate Heeded<S(!new)>(d: Domain<S>, skip: Skip, n: Node) {
    n.kind in {TaskNode, GoalNode} ==>
      var key := CallKey(d, Call(n.name, n.args)); key in skip ==> n.methodIdx !in skip[key]
  }

  // ---- The nodes of a derivation ----

  /** The choice a decomposition of this task makes: none of its own for a multigoal, which only picks a goal. */
  function ChoiceOf<S(!new)>(d: Domain<S>, s: S, task: Task): Option<(Kind, Call)> {
    match Chosen(d, s, task)
    case None => None
    case Some(c) => Some((if task.Do? then TaskNode else GoalNode, c))
  }

  function ActionEntry(c: Call, parent: int, step: nat): Node {
    Node(ActionNode, parent, [], c.name, c.args, -1, step, -1)
  }

  function ChoiceEntry(choice: (Kind, Call), i: nat, parent: int, step: nat): Node {
    Node(choice.0, parent, [], choice.1.name, choice.1.args, i, -1, step)
  }

  /**
   The nodes a derivation enters, numbered from `id`, its first action being step `step`: one
   for each choice, under the choice in force, and from there on itself the one in force; one for each
   action, under the choice in force.
  */
  function Entered<S(!new)>(d: Domain<S>, s: S, tasks: seq<Task>, der: Derivation, parent: int, id: nat,
                            step: nat): seq<Node>
    decreases der
  {
    match der
    case Stop => []
    case Pass(rest) => if tasks == [] then [] else Entered(d, s, tasks[1..], rest, parent, id, step)
    case Act(rest) =>
      if tasks != [] && tasks[0].Do? && tasks[0].call.name in d.actions then
        match d.actions[tasks[0].call.name](s, tasks[0].call.args)
        case None => []
        case Some(t) =>
          [ActionEntry(tasks[0].call, parent, step)] + Entered(d, t, tasks[1..], rest, parent, id + 1, step + 1)
      else []
    case Use(i, rest) =>
      if tasks == [] then []
      else
        match Decomposed(d, s, tasks, i)
        case None => []
        case Some(subs) =>
          match ChoiceOf(d, s, tasks[0])
          case None => Entered(d, s, subs, rest, parent, id, step)
          case Some(choice) => [ChoiceEntry(choice, i, parent, step)] + Entered(d, s, subs, rest, id, id + 1, step)
  }

  /** These nodes, their children aside. */
  function Bare(nodes: seq<Node>): seq<Node> {
    seq(|nodes|, i requires 0 <= i < |nodes| => nodes[i].(children := []))
  }

  /** This derivation yields the plan, and `t` is `b` with its nodes. */
  ghost predicate Follows<S(!new)>(d: Domain<S>, s: S, tasks: seq<Task>, der: Derivation, b: Tree, t: Tree, parent: int,
                                   plan: Plan) {
    && Follow(d, s, tasks, der).Some? && Follow(d, s, tasks, der).value.0 == plan && |b.nodes| <= |t.nodes|
    && Bare(t.nodes[|b.nodes|..]) == Entered(d, s, tasks, der, parent, |b.nodes|, |b.actions|)
  }

  /** From `b` to `t` exactly a derivation of this plan was recorded, with no skipped alternative. */
  ghost predicate Recorded<S(!new)>(d: Domain<S>, skip: Skip, s: S, tasks: seq<Task>, b: Tree, t: Tree,
                                    parent: int, plan: Plan) {
    && Kept(d, skip, b, t, plan)
    && exists der: Derivation :: Follows(d, s, tasks, der, b, t, parent, plan)
  }

  /** The old tree is still there, the new actions are the plan, and no new choice was to be skipped. */
  ghost predicate Kept<S(!new)>(d: Domain<S>, skip: Skip, b: Tree, t: Tree, plan: Plan) {
    && GrownFrom(b, t) && |t.actions| == |b.actions| + |plan|
    && (forall i :: 0 <= i < |plan| ==> StepIs(t, |b.actions| + i, plan[i]))
    && (forall j :: |b.nodes| <= j < |t.nodes| ==> Heeded(d, skip, t.nodes[j]))
  }

  lemma RecordedDerives<S(!new)>(d: Domain<S>, skip: Skip, s: S, tasks: seq<Task>, b: Tree, t: Tree,
                                 parent: int, plan: Plan)
    requires Recorded(d, skip, s, tasks, b, t, parent, plan)
    ensures Derives(d, s, tasks, plan)
  {
    hide Kept, Follow, Entered;
    var der: Derivation :| Follows(d, s, tasks, der, b, t, parent, plan);
  }

  lemma RecordDone<S(!new)>(d: Domain<S>, skip: Skip, s: S, b: Tree, parent: int)
    ensures Recorded(d, skip, s, [], b, b, parent, [])
  {
    assert b.nodes[|b.nodes|..] == [];
    assert Follows(d, s, [], Stop, b, b, parent, []);
  }

  lemma RecordPass<S(!new)>(d: Domain<S>, skip: Skip, s: S, tasks: seq<Task>, b: Tree, t: Tree,
                            parent: int, plan: Plan)
    requires tasks != [] && !tasks[0].Do? && Satisfied(d, s, tasks[0].bindings)
    requires Recorded(d, skip, s, tasks[1..], b, t, parent, plan)
    ensures Recorded(d, skip, s, tasks, b, t, parent, plan)
  {
    hide Kept, Bare;
    var der: Derivation :| Follows(d, s, tasks[1..], der, b, t, parent, plan);
    assert Follows(d, s, tasks, Pass(der), b, t, parent, plan);
  }

  /** A multigoal's pick adds no node. */
  lemma RecordPursue<S(!new)>(d: Domain<S>, skip: Skip, s: S, tasks: seq<Task>, i: nat, b: Tree,
                              t: Tree, parent: int, plan: Plan)
    requires tasks != [] && Decomposed(d, s, tasks, i).Some? && ChoiceOf(d, s, tasks[0]).None?
    requires Recorded(d, skip, s, Decomposed(d, s, tasks, i).value, b, t, parent, plan)
    ensures Recorded(d, skip, s, tasks, b, t, parent, plan)
  {
    hide Kept, Bare, Decomposed, ChoiceOf;
    var subs := Decomposed(d, s, tasks, i).value;
    var der: Derivation :| Follows(d, s, subs, der, b, t, parent, plan);
    assert Follows(d, s, tasks, Use(i, der), b, t, parent, plan);
  }

  /** The first new node of `t` is the one `m` had added, but for its children. */
  lemma BareFirst(b: Tree, m: Tree, t: Tree)
    requires GrownFrom(m, t) && |m.nodes| == |b.nodes| + 1 && m.nodes[|b.nodes|].children == []
    ensures Bare(t.nodes[|b.nodes|..]) == [m.nodes[|b.nodes|]] + Bare(t.nodes[|m.nodes|..])
    ensures t.nodes[|b.nodes|] == m.nodes[|b.nodes|].(children := t.nodes[|b.nodes|].children)
  {
    var n := |b.nodes|;
    assert OnlyGained(m.nodes[n], t.nodes[n], |m.nodes|);
    assert t.nodes[n..] == [t.nodes[n]] + t.nodes[n + 1..];
    assert t.nodes[n].(children := []) == m.nodes[n];
  }

  /** A step, and what is recorded after it. */
  lemma RecordAct<S(!new)>(d: Domain<S>, skip: Skip, s: S, tasks: seq<Task>, next: S, b: Tree, m: Tree,
                           t: Tree, parent: int, plan: Plan)
    requires tasks != [] && tasks[0].Do? && tasks[0].call.name in d.actions
    requires d.actions[tasks[0].call.name](s, tasks[0].call.args) == Some(next)
    requires GrownFrom(b, m) && |m.nodes| == |b.nodes| + 1 && m.actions == b.actions + [|b.nodes|]
    requires m.nodes[|b.nodes|] == ActionEntry(tasks[0].call, parent, |b.actions|)
    requires Recorded(d, skip, next, tasks[1..], m, t, parent, plan)
    ensures Recorded(d, skip, s, tasks, b, t, parent, [tasks[0].call] + plan)
  {
    KeptAfterAction(d, skip, b, m, t, tasks[0].call, parent, plan);
    assert GrownFrom(m, t);
    hide Kept, Bare, GrownFrom;
    var der: Derivation :| Follows(d, next, tasks[1..], der, m, t, parent, plan);
    BareFirst(b, m, t);
    assert Follows(d, s, tasks, Act(der), b, t, parent, [tasks[0].call] + plan);
  }

  lemma KeptAfterAction<S(!new)>(d: Domain<S>, skip: Skip, b: Tree, m: Tree, t: Tree, c: Call,
                                 parent: int, plan: Plan)
    requires GrownFrom(b, m) && |m.nodes| == |b.nodes| + 1 && m.actions == b.actions + [|b.nodes|]
    requires m.nodes[|b.nodes|] == ActionEntry(c, parent, |b.actions|) && Kept(d, skip, m, t, plan)
    ensures Kept(d, skip, b, t, [c] + plan)
  {
    GrowsOn(b, m, t);
    BareFirst(b, m, t);
    assert m.actions[|b.actions|] == t.actions[|b.actions|] == |b.nodes|;
    assert StepIs(t, |b.actions|, c);
    var whole := [c] + plan;
    forall i | 0 <= i < |whole|
      ensures StepIs(t, |b.actions| + i, whole[i])
    {
      if i > 0 { assert StepIs(t, |m.actions| + (i - 1), plan[i - 1]); }
    }
    assert Heeded(d, skip, t.nodes[|b.nodes|]);
  }

  /** A choice, and what is recorded under it. */
  lemma RecordUse<S(!new)>(d: Domain<S>, skip: Skip, s: S, tasks: seq<Task>, i: nat, b: Tree, m: Tree,
                           t: Tree, parent: int, plan: Plan)
    requires tasks != [] && Decomposed(d, s, tasks, i).Some? && ChoiceOf(d, s, tasks[0]).Some?
    requires GrownFrom(b, m) && |m.nodes| == |b.nodes| + 1 && m.actions == b.actions
    requires m.nodes[|b.nodes|] == ChoiceEntry(ChoiceOf(d, s, tasks[0]).value, i, parent, |b.actions|)
    requires Heeded(d, skip, m.nodes[|b.nodes|])
    requires Recorded(d, skip, s, Decomposed(d, s, tasks, i).value, m, t, |b.nodes|, plan)
    ensures Recorded(d, skip, s, tasks, b, t, parent, plan)
  {
    hide Decomposed, ChoiceOf, CallKey, ChoiceEntry;
    KeptAfterChoice(d, skip, b, m, t, plan);
    assert GrownFrom(m, t);
    hide Kept, Bare, GrownFrom;
    var subs := Decomposed(d, s, tasks, i).value;
    var der: Derivation :| Follows(d, s, subs, der, m, t, |b.nodes|, plan);
    assert m.nodes[|b.nodes|].children == [] by { NoChildren(ChoiceOf(d, s, tasks[0]).value, i, parent, |b.actions|); }
    BareFirst(b, m, t);
    assert Follows(d, s, tasks, Use(i, der), b, t, parent, plan);
  }

  lemma ChoiceHeeded<S(!new)>(d: Domain<S>, skip: Skip, n: Node, c: Call, i: int)
    requires n.name == c.name && n.args == c.args && n.methodIdx == i && !Skipped(d, skip, c, i)
    ensures Heeded(d, skip, n)
  {
    hide CallKey;
    assert Call(n.name, n.args) == c;
  }

  lemma NoChildren(choice: (Kind, Call), i: nat, parent: int, step: nat)
    ensures ChoiceEntry(choice, i, parent, step).children == []
  {
  }

  lemma KeptAfterChoice<S(!new)>(d: Domain<S>, skip: Skip, b: Tree, m: Tree, t: Tree, plan: Plan)
    requires GrownFrom(b, m) && |m.nodes| == |b.nodes| + 1 && m.actions == b.actions
    requires Heeded(d, skip, m.nodes[|b.nodes|]) && Kept(d, skip, m, t, plan)
    ensures Kept(d, skip, b, t, plan)
  {
    GrowsOn(b, m, t);
    var was, now := m.nodes[|b.nodes|], t.nodes[|b.nodes|];
    assert OnlyGained(was, now, |m.nodes|);
    assert now == was.(children := now.children);
    assert Heeded(d, skip, now);
  }

  // ---- What the recorded nodes say of the plan ----

  /** Where a node stands in the plan, and where what comes after it may stand. */
  function StepOf(n: Node): int {
    if n.kind == ActionNode then n.planStep else n.firstStep
  }

  function AfterStep(n: Node): int {
    if n.kind == ActionNode then n.planStep + 1 else n.firstStep
  }

  ghost predicate InStep(nodes: seq<Node>, step: int) {
    && (forall j :: 0 <= j < |nodes| ==>
          step <= StepOf(nodes[j]) && (nodes[j].kind == ActionNode || IsChoice(nodes[j])))
    && (forall j, k :: 0 <= j < k < |nodes| ==> AfterStep(nodes[j]) <= StepOf(nodes[k]))
  }

  /**
   A choice names a method that applies in the state the plan has reached by the choice's first step;
   for a goal, the binding it pursues does not hold there.
  */
  ghost predicate Applied<S(!new)>(d: Domain<S>, s: S, plan: Plan, n: Node, step: nat) {
    IsChoice(n) ==>
      && step <= n.firstStep <= step + |plan|
      && match Execute(d, s, plan[..n.firstStep - step])
         case None => false
         case Some(u) =>
           && n.name in d.methods && 0 <= n.methodIdx < |d.methods[n.name]|
           && d.methods[n.name][n.methodIdx](u, n.args).Some?
           && (n.kind == GoalNode ==>
                 |n.args| == 2 && n.args[0].Str? && !d.holds(u, Binding(n.name, n.args[0].s, n.args[1])))
  }

  lemma ConsHung(n: Node, rest: seq<Node>, id: nat, parent: int)
    requires n.parent == parent < id && Hung(rest, id + 1, if IsChoice(n) then id else parent)
    ensures Hung([n] + rest, id, parent)
  {
    var nodes, top := [n] + rest, if IsChoice(n) then id else parent;
    forall j | 0 <= j < |nodes| ensures UnderLastChoice(nodes, id, parent, j) {
      if j > 0 {
        assert UnderLastChoice(rest, id + 1, top, j - 1);
        var p := nodes[j].parent - id;
        if rest[j - 1].parent == top {
          forall k | 0 < k < j ensures !IsChoice(nodes[k]) { assert nodes[k] == rest[k - 1]; }
        } else {
          assert nodes[p] == rest[p - 1];
          forall k | p < k < j ensures !IsChoice(nodes[k]) { assert nodes[k] == rest[k - 1]; }
        }
      }
    }
  }

  lemma {:induction false} EnteredHung<S(!new)>(d: Domain<S>, s: S, tasks: seq<Task>, der: Derivation, parent: int,
                                                id: nat, step: nat)
    requires parent < id && Follow(d, s, tasks, der).Some?
    ensures Hung(Entered(d, s, tasks, der, parent, id, step), id, parent)
    decreases der
  {
    hide Hung, Decomposed, ChoiceOf;
    match der
    case Stop => NoneHung(id, parent);
    case Pass(rest) => EnteredHung(d, s, tasks[1..], rest, parent, id, step);
    case Act(rest) =>
      var c := tasks[0].call;
      var t := d.actions[c.name](s, c.args).value;
      EnteredHung(d, t, tasks[1..], rest, parent, id + 1, step + 1);
      ConsHung(ActionEntry(c, parent, step), Entered(d, t, tasks[1..], rest, parent, id + 1, step + 1), id, parent);
    case Use(i, rest) =>
      var subs := Decomposed(d, s, tasks, i).value;
      if ChoiceOf(d, s, tasks[0]).None? {
        EnteredHung(d, s, subs, rest, parent, id, step);
      } else {
        ChoiceKind(d, s, tasks[0]);
        EnteredHung(d, s, subs, rest, id, id + 1, step);
        ConsHung(ChoiceEntry(ChoiceOf(d, s, tasks[0]).value, i, parent, step),
                 Entered(d, s, subs, rest, id, id + 1, step), id, parent);
      }
  }

  lemma NoneHung(id: nat, parent: int)
    ensures Hung([], id, parent)
  {
  }

  lemma ChoiceKind<S(!new)>(d: Domain<S>, s: S, task: Task)
    requires ChoiceOf(d, s, task).Some?
    ensures ChoiceOf(d, s, task).value.0 in {TaskNode, GoalNode}
  {
  }

  lemma ConsInStep(n: Node, rest: seq<Node>, step: int)
    requires (n.kind == ActionNode || IsChoice(n)) && StepOf(n) == step && InStep(rest, AfterStep(n))
    ensures InStep([n] + rest, step)
  {
    var nodes := [n] + rest;
    forall j | 0 < j < |nodes| ensures nodes[j] == rest[j - 1] && AfterStep(n) <= StepOf(nodes[j]) {
    }
  }

  lemma {:induction false} EnteredInStep<S(!new)>(d: Domain<S>, s: S, tasks: seq<Task>, der: Derivation, parent: int,
                                                  id: nat, step: nat)
    requires Follow(d, s, tasks, der).Some?
    ensures InStep(Entered(d, s, tasks, der, parent, id, step), step)
    decreases der
  {
    hide InStep, Decomposed, ChoiceOf;
    match der
    case Stop => NoneInStep(step);
    case Pass(rest) => EnteredInStep(d, s, tasks[1..], rest, parent, id, step);
    case Act(rest) =>
      var c := tasks[0].call;
      var t := d.actions[c.name](s, c.args).value;
      EnteredInStep(d, t, tasks[1..], rest, parent, id + 1, step + 1);
      ConsInStep(ActionEntry(c, parent, step), Entered(d, t, tasks[1..], rest, parent, id + 1, step + 1), step);
    case Use(i, rest) =>
      var subs := Decomposed(d, s, tasks, i).value;
      if ChoiceOf(d, s, tasks[0]).None? {
        EnteredInStep(d, s, subs, rest, parent, id, step);
      } else {
        ChoiceKind(d, s, tasks[0]);
        EnteredInStep(d, s, subs, rest, id, id + 1, step);
        ConsInStep(ChoiceEntry(ChoiceOf(d, s, tasks[0]).value, i, parent, step),
                   Entered(d, s, subs, rest, id, id + 1, step), step);
      }
  }

  lemma NoneInStep(step: int)
    ensures InStep([], step)
  {
  }

  lemma AppliedLater<S(!new)>(d: Domain<S>, s: S, c: Call, t: S, plan: Plan, n: Node, step: nat)
    requires c.name in d.actions && d.actions[c.name](s, c.args) == Some(t) && Applied(d, t, plan, n, step + 1)
    ensures Applied(d, s, [c] + plan, n, step)
  {
    if IsChoice(n) {
      var k := n.firstStep - step;
      assert ([c] + plan)[..k] == [c] + plan[..k - 1];
      assert ([c] + plan[..k - 1])[1..] == plan[..k - 1];
    }
  }

  lemma ChoiceApplied<S(!new)>(d: Domain<S>, s: S, tasks: seq<Task>, i: nat, plan: Plan, parent: int, step: nat)
    requires tasks != [] && Decomposed(d, s, tasks, i).Some? && ChoiceOf(d, s, tasks[0]).Some?
    ensures Applied(d, s, plan, ChoiceEntry(ChoiceOf(d, s, tasks[0]).value, i, parent, step), step)
  {
    assert plan[..0] == [];
    assert Execute(d, s, []) == Some(s);
    if tasks[0].Goal? {
      var b := Unmet(d, s, tasks[0].bindings)[0];
      assert Binding(b.variable, b.key, b.desired) == b;
    }
  }

  lemma {:induction false} EnteredApplied<S(!new)>(d: Domain<S>, s: S, tasks: seq<Task>, der: Derivation, parent: int,
                                                   id: nat, step: nat, j: nat)
    requires Follow(d, s, tasks, der).Some? && j < |Entered(d, s, tasks, der, parent, id, step)|
    ensures Applied(d, s, Follow(d, s, tasks, der).value.0, Entered(d, s, tasks, der, parent, id, step)[j], step)
    decreases der
  {
    hide Applied, Decomposed, ChoiceOf;
    match der
    case Stop =>
    case Pass(rest) => EnteredApplied(d, s, tasks[1..], rest, parent, id, step, j);
    case Act(rest) =>
      var c := tasks[0].call;
      var t := d.actions[c.name](s, c.args).value;
      if j == 0 {
        ActionApplied(d, s, Follow(d, s, tasks, der).value.0, c, parent, step);
      } else {
        EnteredApplied(d, t, tasks[1..], rest, parent, id + 1, step + 1, j - 1);
        AppliedLater(d, s, c, t, Follow(d, t, tasks[1..], rest).value.0,
                     Entered(d, t, tasks[1..], rest, parent, id + 1, step + 1)[j - 1], step);
      }
    case Use(i, rest) =>
      var subs := Decomposed(d, s, tasks, i).value;
      if ChoiceOf(d, s, tasks[0]).None? {
        EnteredApplied(d, s, subs, rest, parent, id, step, j);
      } else if j == 0 {
        ChoiceApplied(d, s, tasks, i, Follow(d, s, tasks, der).value.0, parent, step);
      } else {
        EnteredApplied(d, s, subs, rest, id, id + 1, step, j - 1);
      }
  }

  lemma ActionApplied<S(!new)>(d: Domain<S>, s: S, plan: Plan, c: Call, parent: int, step: nat)
    ensures Applied(d, s, plan, ActionEntry(c, parent, step), step)
  {
  }

  /** The steps of the plan before a choice are the actions entered before it. */
  ghost predicate StepsBefore(t: Tree) {
    forall j, i :: 0 <= j < |t.nodes| && IsChoice(t.nodes[j]) && 0 <= i < |t.actions| ==>
      (t.actions[i] < j <==> i < t.nodes[j].firstStep)
  }

  /** The whole tree of a plan tells where each choice was made, of what, and what it led to. */
  ghost predicate TellsOf<S(!new)>(d: Domain<S>, s: S, t: Tree, plan: Plan) {
    && t.nodes != [] && t.nodes[0].kind == RootNode && Hung(t.nodes[1..], 1, 0) && StepsBefore(t)
    && |t.actions| == |plan| && (forall i :: 0 <= i < |plan| ==> StepIs(t, i, plan[i]))
    && (forall j :: 0 < j < |t.nodes| ==> Applied(d, s, plan, t.nodes[j], 0))
  }

  lemma RecordedTells<S(!new)>(d: Domain<S>, skip: Skip, s: S, tasks: seq<Task>, t: Tree, plan: Plan)
    requires WellFormed(t) && Recorded(d, skip, s, tasks, RootTree, t, 0, plan)
    ensures TellsOf(d, s, t, plan)
  {
    hide WellFormed, Hung, Applied, InStep, Heeded, StepsBefore, Follow, Entered;
    var der: Derivation :| Follows(d, s, tasks, der, RootTree, t, 0, plan);
    var w, rest := Entered(d, s, tasks, der, 0, 1, 0), t.nodes[1..];
    assert Bare(rest) == w;
    EnteredHung(d, s, tasks, der, 0, 1, 0);
    BareHung(rest, 1, 0);
    EnteredInStep(d, s, tasks, der, 0, 1, 0);
    BareInStep(rest, 0);
    RootKept(t);
    forall i | 0 <= i < |plan| ensures StepIs(t, i, plan[i]) {
      assert StepIs(t, |RootTree.actions| + i, plan[i]);
    }
    StepsInOrder(t, plan);
    forall j | 0 < j < |t.nodes| ensures Applied(d, s, plan, t.nodes[j], 0) {
      EnteredApplied(d, s, tasks, der, 0, 1, 0, j - 1);
      assert w[j - 1] == rest[j - 1].(children := []) && rest[j - 1] == t.nodes[j];
      BareApplied(d, s, plan, t.nodes[j]);
    }
  }

  lemma RootKept(t: Tree)
    requires GrownFrom(RootTree, t)
    ensures t.nodes[0] == RootTree.nodes[0].(children := t.nodes[0].children)
    ensures forall i :: 0 <= i < |t.actions| ==> 1 <= t.actions[i]
  {
    assert OnlyGained(RootTree.nodes[0], t.nodes[0], 1);
  }

  lemma BareApplied<S(!new)>(d: Domain<S>, s: S, plan: Plan, n: Node)
    requires Applied(d, s, plan, n.(children := []), 0)
    ensures Applied(d, s, plan, n, 0)
  {
  }

  lemma BareHung(nodes: seq<Node>, first: nat, top: int)
    requires Hung(Bare(nodes), first, top)
    ensures Hung(nodes, first, top)
  {
    var w := Bare(nodes);
    assert forall k :: 0 <= k < |nodes| ==> w[k].parent == nodes[k].parent && (IsChoice(w[k]) <==> IsChoice(nodes[k]));
    forall j | 0 <= j < |nodes| ensures UnderLastChoice(nodes, first, top, j) {
      assert UnderLastChoice(w, first, top, j);
    }
  }

  lemma BareInStep(nodes: seq<Node>, step: int)
    requires InStep(Bare(nodes), step)
    ensures InStep(nodes, step)
  {
    var w := Bare(nodes);
    assert forall k :: 0 <= k < |nodes| ==>
      w[k].kind == nodes[k].kind && StepOf(w[k]) == StepOf(nodes[k]) && AfterStep(w[k]) == AfterStep(nodes[k]);
  }

  lemma StepsInOrder(t: Tree, plan: Plan)
    requires t.nodes != [] && t.nodes[0].kind == RootNode && InStep(t.nodes[1..], 0) && |t.actions| == |plan|
    requires forall i :: 0 <= i < |plan| ==> StepIs(t, i, plan[i])
    ensures StepsBefore(t)
  {
    var nodes := t.nodes[1..];
    forall j, i | 0 <= j < |t.nodes| && IsChoice(t.nodes[j]) && 0 <= i < |t.actions|
      ensures t.actions[i] < j <==> i < t.nodes[j].firstStep
    {
      assert StepIs(t, i, plan[i]);
      var a := t.actions[i];
      assert a > 0 && nodes[a - 1] == t.nodes[a] && nodes[j - 1] == t.nodes[j];
      assert AfterStep(t.nodes[a]) == i + 1 && StepOf(t.nodes[a]) == i;
    }
  }

  class TreeSearch<S(==, !new)> {
    const d: Domain<S>
    const bl: set<string>
    const skip: Skip
    const sol: SolTree
    var fails: set<(S, seq<Task>)>

    constructor (d: Domain<S>, bl: set<string>, skip: Skip, sol: SolTree)
      ensures this.d == d && this.bl == bl && this.skip == skip && this.sol == sol && fails == {}
    {
      this.d, this.bl, this.skip, this.sol, fails := d, bl, skip, sol, {};
    }

    /** Remembered failures are final. */
    ghost predicate Untouched()
      reads this
    {
      forall k <- fails :: TreeHopeless(d, bl, skip, k.0, k.1)
    }

    /**
     tw_seek_plan_tree. Whatever failures are remembered: no plan, and the tree is exactly as
     it was; a plan, and the tree grew by exactly the nodes of a derivation of it. From fresh caches,
     and while no step runs out of fuel, the answer is exactly the plain search's.
    */
    method Seek(s: S, tasks: seq<Task>, parent: nat, fuel: nat) returns (r: Option<Plan>)
      requires WellFormed(sol.tree) && parent < |sol.tree.nodes|
      modifies this, sol
      decreases fuel, 0
      ensures r.None? ==> sol.tree == old(sol.tree)
      ensures r.Some? ==>
                WellFormed(sol.tree) && Recorded(d, skip, s, tasks, old(sol.tree), sol.tree, parent, r.value)
      ensures r.Some? ==> Derives(d, s, tasks, r.value) && Allowed(d, bl, r.value) && Spares(d, bl, r.value)
      ensures old(Untouched()) && TreeSettled(d, bl, skip, s, tasks, fuel) ==>
                r == TreePlain(d, bl, skip, s, tasks, fuel) && (r.None? ==> Untouched())
    {
      hide Derives, WellFormed, Recorded, Decomposed, CallKey, Spares, TreeHopeless, TreeBranches;
      ghost var was := sol.tree;
      if fuel == 0 { return None; }
      if tasks == [] {
        RecordDone(d, skip, s, was, parent);
        RecordedDerives(d, skip, s, tasks, was, sol.tree, parent, []);
        return Some([]);
      }
      if (s, tasks) in fails {
        if Untouched() && TreeSettled(d, bl, skip, s, tasks, fuel) { TreeHopelessFails(d, bl, skip, s, tasks, fuel); }
        return None;
      }
      if !tasks[0].Do? && Satisfied(d, s, tasks[0].bindings) {
        r := Seek(s, tasks[1..], parent, fuel - 1);
        if r.Some? {
          RecordPass(d, skip, s, tasks, was, sol.tree, parent, r.value);
          RecordedDerives(d, skip, s, tasks, was, sol.tree, parent, r.value);
        }
        return;
      }
      if tasks[0].Do? && tasks[0].call.name in d.actions {
        r := TryAction(s, tasks, parent, fuel - 1);
      } else {
        r := TryAlternatives(s, tasks, parent, fuel - 1);
      }
      if r.None? {
        if TreeSettled(d, bl, skip, s, tasks, fuel) && TreePlain(d, bl, skip, s, tasks, fuel) == None {
          NowTreeHopeless(d, bl, skip, s, tasks, fuel);
        }
        fails := fails + {(s, tasks)};
      } else {
        RecordedDerives(d, skip, s, tasks, was, sol.tree, parent, r.value);
      }
    }

    method TryAction(s: S, tasks: seq<Task>, parent: nat, fuel: nat) returns (r: Option<Plan>)
      requires WellFormed(sol.tree) && parent < |sol.tree.nodes|
      requires tasks != [] && tasks[0].Do? && tasks[0].call.name in d.actions
      modifies this, sol
      decreases fuel, 1
      ensures r.None? ==> sol.tree == old(sol.tree)
      ensures r.Some? ==>
                WellFormed(sol.tree) && Recorded(d, skip, s, tasks, old(sol.tree), sol.tree, parent, r.value)
      ensures r.Some? ==> Allowed(d, bl, r.value)
      ensures old(Untouched()) && TreeSettled(d, bl, skip, s, tasks, fuel + 1) ==>
                r == TreePlain(d, bl, skip, s, tasks, fuel + 1) && (r.None? ==> Untouched())
    {
      hide WellFormed, Recorded, CallKey, GrownFrom;
      ghost var was := sol.tree;
      var c := tasks[0].call;
      if CallKey(d, c) in bl { return None; }
      var next := d.actions[c.name](s, c.args);
      if next.None? { return None; }
      var cp := |sol.tree.nodes|;
      sol.AddAction(parent, c.name, c.args);
      ghost var mid := sol.tree;
      r := Seek(next.value, tasks[1..], parent, fuel);
      if r.None? {
        sol.Restore(cp, was);
        return;
      }
      RecordAct(d, skip, s, tasks, next.value, was, mid, sol.tree, parent, r.value);
      r := Some([c] + r.value);
    }

    method TryAlternatives(s: S, tasks: seq<Task>, parent: nat, fuel: nat) returns (r: Option<Plan>)
      requires WellFormed(sol.tree) && parent < |sol.tree.nodes| && tasks != [] && Branching(d, s, tasks[0])
      modifies this, sol
      decreases fuel, 2
      ensures r.None? ==> sol.tree == old(sol.tree)
      ensures r.Some? ==>
                WellFormed(sol.tree) && Recorded(d, skip, s, tasks, old(sol.tree), sol.tree, parent, r.value)
      ensures r.Some? ==> Allowed(d, bl, r.value)
      ensures old(Untouched()) && TreeSettled(d, bl, skip, s, tasks, fuel + 1) ==>
                r == TreePlain(d, bl, skip, s, tasks, fuel + 1) && (r.None? ==> Untouched())
    {
      hide WellFormed, Recorded, CallKey, Allowed, Untouched, Unskipped, BindingBranches;
      r := None;
      match tasks[0] {
        case Do(c) =>
          if c.name in d.methods {
            r := TryMethods(s, tasks, TaskNode, c, tasks[1..], parent, fuel);
          }
        case Goal(bs) =>
          var unmet := Unmet(d, s, bs);
          if unmet != [] && unmet[0].variable in d.methods {
            assert [tasks[0]] + tasks[1..] == tasks;
            r := TryMethods(s, tasks, GoalNode, Call(unmet[0].variable, GoalArgs(unmet[0])), tasks, parent, fuel);
          }
        case Multi(bs) =>
          r := TryBindings(s, tasks, Unmet(d, s, bs), parent, fuel);
      }
    }

    method TryMethods(s: S, ghost tasks: seq<Task>, kind: Kind, c: Call, tail: seq<Task>, parent: nat, fuel: nat)
      returns (r: Option<Plan>)
      requires WellFormed(sol.tree) && parent < |sol.tree.nodes| && tasks != []
      requires c.name in d.methods && kind in {TaskNode, GoalNode} && ChoiceOf(d, s, tasks[0]) == Some((kind, c))
      requires forall i: nat :: Decomposed(d, s, tasks, i) == Expanded(d, s, c.name, c.args, tail, i)
      modifies this, sol
      decreases fuel, 1
      ensures r.None? ==> sol.tree == old(sol.tree)
      ensures r.Some? ==>
                WellFormed(sol.tree) && Recorded(d, skip, s, tasks, old(sol.tree), sol.tree, parent, r.value)
      ensures r.Some? ==> Allowed(d, bl, r.value)
      ensures var bs := Unskipped(d, bl, skip, s, c, tail, 0, {});
        old(Untouched()) && AllTreeSettled(d, bl, skip, s, bs, fuel) ==>
          r == TreeFirst(d, bl, skip, s, bs, fuel) && (r.None? ==> Untouched())
    {
      hide WellFormed, Recorded, CallKey, Allowed, GrownFrom, Decomposed, Expanded, Plausible, ChoiceOf, Skipped,
           TreePlain, TreeSettled, TreeFirst, AllTreeSettled, Unskipped, Untouched;
      ghost var was := sol.tree;
      ghost var all := Unskipped(d, bl, skip, s, c, tail, 0, {});
      ghost var exact := Untouched() && AllTreeSettled(d, bl, skip, s, all, fuel);
      var seen: set<seq<Task>>, m := {}, 0;
      while m < |d.methods[c.name]|
        invariant 0 <= m <= |d.methods[c.name]| && sol.tree == was
        invariant exact ==> Untouched() && var rest := Unskipped(d, bl, skip, s, c, tail, m, seen);
          AllTreeSettled(d, bl, skip, s, rest, fuel)
          && TreeFirst(d, bl, skip, s, rest, fuel) == TreeFirst(d, bl, skip, s, all, fuel)
      {
        NextUnskipped(d, bl, skip, s, c, tail, m, seen, fuel);
        var branch := if Skipped(d, skip, c, m) then None else Expanded(d, s, c.name, c.args, tail, m);
        if branch.Some? {
          var cp := |sol.tree.nodes|;
          var id := sol.AddChoice(kind, parent, c.name, c.args, m);
          ghost var mid := sol.tree;
          if branch.value in seen {
            sol.Restore(cp, was);
          } else {
            seen := seen + {branch.value};
            if !Plausible(d, bl, s, branch.value) {
              sol.Restore(cp, was);
            } else {
              r := Seek(s, branch.value, id, fuel);
              if r.Some? {
                assert Decomposed(d, s, tasks, m) == branch;
                ChoiceHeeded(d, skip, mid.nodes[id], c, m);
                RecordUse(d, skip, s, tasks, m, was, mid, sol.tree, parent, r.value);
                return;
              }
              sol.Restore(cp, was);
            }
          }
        }
        m := m + 1;
      }
      NoMoreBranches(d, bl, skip, s, c, tail, seen, [], tasks, fuel);
      r := None;
    }

    method TryBindings(s: S, tasks: seq<Task>, unmet: seq<Binding>, parent: nat, fuel: nat) returns (r: Option<Plan>)
      requires WellFormed(sol.tree) && parent < |sol.tree.nodes|
      requires tasks != [] && tasks[0].Multi? && unmet == Unmet(d, s, tasks[0].bindings)
      modifies this, sol
      decreases fuel, 1
      ensures r.None? ==> sol.tree == old(sol.tree)
      ensures r.Some? ==>
                WellFormed(sol.tree) && Recorded(d, skip, s, tasks, old(sol.tree), sol.tree, parent, r.value)
      ensures r.Some? ==> Allowed(d, bl, r.value)
      ensures var bs := BindingBranches(unmet, tasks, 0);
        old(Untouched()) && AllTreeSettled(d, bl, skip, s, bs, fuel) ==>
          r == TreeFirst(d, bl, skip, s, bs, fuel) && (r.None? ==> Untouched())
    {
      hide WellFormed, Recorded, CallKey, Allowed, TreePlain, TreeSettled, TreeFirst, AllTreeSettled, BindingBranches,
           Untouched, Unmet;
      ghost var was := sol.tree;
      ghost var all := BindingBranches(unmet, tasks, 0);
      ghost var exact := Untouched() && AllTreeSettled(d, bl, skip, s, all, fuel);
      var k := 0;
      while k < |unmet|
        invariant 0 <= k <= |unmet| && sol.tree == was
        invariant exact ==> Untouched() && var rest := BindingBranches(unmet, tasks, k);
          AllTreeSettled(d, bl, skip, s, rest, fuel)
          && TreeFirst(d, bl, skip, s, rest, fuel) == TreeFirst(d, bl, skip, s, all, fuel)
      {
        var branch := [Goal([unmet[k]])] + tasks;
        NextTreeBinding(d, bl, skip, s, unmet, tasks, k, fuel);
        r := Seek(s, branch, parent, fuel);
        if r.Some? {
          assert branch == [Goal([unmet[k]]), tasks[0]] + tasks[1..];
          RecordPursue(d, skip, s, tasks, k, was, sol.tree, parent, r.value);
          return;
        }
        k := k + 1;
      }
      NoMoreBranches(d, bl, skip, s, Call("", []), [], {}, unmet, tasks, fuel);
      r := None;
    }
  }

  /**
   tw_plan_with_tree: from a bare root the tree is that of a derivation of the plan, its actions are the
   plan, and the plan runs to its end; while no step runs out of fuel, and every goal's variable has a
   method, one is found exactly if there is one without a blacklisted command and a skipped alternative.
  */
  method FindPlanWithTree<S(==, !new)>(d: Domain<S>, bl: set<string>, skip: Skip, s: S, tasks: seq<Task>)
    returns (r: Option<Plan>, t: Tree)
    ensures r.None? ==> t == RootTree
    ensures r.Some? ==> WellFormed(t) && Recorded(d, skip, s, tasks, RootTree, t, 0, r.value)
    ensures r.Some? ==> TellsOf(d, s, t, r.value)
    ensures r.Some? ==> Derives(d, s, tasks, r.value) && Spares(d, bl, r.value) && Execute(d, s, r.value).Some?
    ensures r.Some? && tasks != [] && !tasks[|tasks| - 1].Do? ==>
              Satisfied(d, Execute(d, s, r.value).value, tasks[|tasks| - 1].bindings)
    ensures forall j :: 0 <= j < |t.nodes| ==> Heeded(d, skip, t.nodes[j])
    ensures TreeSettled(d, bl, skip, s, tasks, TW_MAX_DEPTH) && Covered(d) && Covers(d, tasks) ==>
              (r.Some? <==> SolvableHeeding(d, bl, skip, s, tasks))
  {
    hide WellFormed, Follow, TellsOf, CallKey, Execute, Spares, Derives, Satisfied, TreeSettled, TreePlain, Covered,
         Covers, SolvableHeeding;
    var sol := new SolTree();
    var search := new TreeSearch(d, bl, skip, sol);
    r := search.Seek(s, tasks, 0, TW_MAX_DEPTH);
    if TreeSettled(d, bl, skip, s, tasks, TW_MAX_DEPTH) && Covered(d) && Covers(d, tasks) {
      TreeFindsExactly(d, bl, skip, s, tasks, TW_MAX_DEPTH);
    }
    t := sol.tree;
    if r.Some? {
      DerivesExecutes(d, s, tasks, r.value);
      if tasks != [] && !tasks[|tasks| - 1].Do? { DerivedReachesGoal(d, s, tasks, r.value); }
      RecordedTells(d, skip, s, tasks, t, r.value);
      RootKept(t);
    }
  }
}
