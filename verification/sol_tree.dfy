/**
 The derivation tree of a plan: how it grows, how it is rolled back to a
 checkpoint, and how the nearest choice that can be tried again is found
 (thirdparty/taskweft/tw_soltree.hpp).
*/
module SolutionTree {
  import opened HtnDomain

  datatype Kind = RootNode | TaskNode | ActionNode | GoalNode
  datatype Node = Node(kind: Kind, parent: int, children: seq<nat>, name: string, args: seq<Value>,
                       methodIdx: int, planStep: int, firstStep: int)

  /** The tree as a value: its nodes, and the action nodes in plan order. */
  datatype Tree = Tree(nodes: seq<Node>, actions: seq<nat>)

  const RootTree := Tree([Node(RootNode, -1, [], "", [], -1, -1, -1)], [])

  predicate IsChoice(n: Node) {
    n.kind in {TaskNode, GoalNode}
  }

  /** Children come after their parent and point back at it; every node but the root is a child, listed once. */
  ghost predicate WellFormed(t: Tree) {
    && AllListed(t)
    && (forall j, k :: 0 <= j < |t.nodes| && 0 <= k < |t.nodes[j].children| ==>
          var c := t.nodes[j].children[k]; j < c < |t.nodes| && t.nodes[c].parent == j)
    && (forall i :: 0 <= i < |t.actions| ==> t.actions[i] < |t.nodes|)
  }

  ghost predicate AllListed(t: Tree) {
    && t.nodes != [] && t.nodes[0].parent == -1
    && (forall i :: 0 < i < |t.nodes| ==> Listed(t, i))
    && (forall j :: 0 <= j < |t.nodes| ==> Ascending(t.nodes[j].children))
  }

  /** Node i hangs under an earlier node, which lists it. */
  predicate Listed(t: Tree, i: nat) {
    && i < |t.nodes| && 0 <= t.nodes[i].parent < i
    && i in t.nodes[t.nodes[i].parent].children
  }

  predicate Ascending(ch: seq<nat>) {
    forall j, k :: 0 <= j < k < |ch| ==> ch[j] < ch[k]
  }

  /** `t` grew from `b`: old nodes only gained new children, and new actions are new nodes. */
  ghost predicate GrownFrom(b: Tree, t: Tree) {
    && |b.nodes| <= |t.nodes|
    && (forall j :: 0 <= j < |b.nodes| ==> OnlyGained(b.nodes[j], t.nodes[j], |b.nodes|))
    && b.actions <= t.actions
    && (forall i :: |b.actions| <= i < |t.actions| ==> |b.nodes| <= t.actions[i])
  }

  ghost predicate OnlyGained(was: Node, now: Node, first: nat) {
    && now.(children := []) == was.(children := [])
    && was.children <= now.children
    && forall k :: |was.children| <= k < |now.children| ==> first <= now.children[k]
  }

  lemma GrowsOn(a: Tree, b: Tree, c: Tree)
    requires GrownFrom(a, b) && GrownFrom(b, c)
    ensures GrownFrom(a, c)
  {
    forall j | 0 <= j < |a.nodes|
      ensures OnlyGained(a.nodes[j], c.nodes[j], |a.nodes|)
    {
      assert OnlyGained(a.nodes[j], b.nodes[j], |a.nodes|) && OnlyGained(b.nodes[j], c.nodes[j], |b.nodes|);
    }
  }

  /** add_node */
  function Added(t: Tree, n: Node): Tree
    requires 0 <= n.parent < |t.nodes|
  {
    var p := t.nodes[n.parent];
    t.(nodes := t.nodes[n.parent := p.(children := p.children + [|t.nodes|])] + [n])
  }

  lemma AddedGrows(t: Tree, n: Node)
    requires WellFormed(t) && 0 <= n.parent < |t.nodes| && n.children == []
    ensures WellFormed(Added(t, n)) && GrownFrom(t, Added(t, n))
    ensures Added(t, n).nodes[|t.nodes|] == n
  {
    hide Listed, Ascending;
    var u := Added(t, n);
    var was, now := t.nodes[n.parent].children, u.nodes[n.parent].children;
    forall i | 0 < i < |u.nodes| ensures Listed(u, i) {
      if i < |t.nodes| {
        ListedParent(t, i);
        assert t.nodes[t.nodes[i].parent].children <= u.nodes[t.nodes[i].parent].children;
        StillListed(t, u, i);
      } else {
        NewListed(t, u, i);
      }
    }
    forall j | 0 <= j < |u.nodes| ensures Ascending(u.nodes[j].children) {
      if j == n.parent { AscendingSnoc(was, |t.nodes|); } else if j == |t.nodes| { NoneAscend(); }
    }
  }

  lemma NoneAscend()
    ensures Ascending([])
  {
  }

  lemma AscendingSnoc(ch: seq<nat>, x: nat)
    requires Ascending(ch) && forall k :: 0 <= k < |ch| ==> ch[k] < x
    ensures Ascending(ch + [x])
  {
  }

  lemma NewListed(t: Tree, u: Tree, i: nat)
    requires i == |t.nodes| < |u.nodes| && 0 <= u.nodes[i].parent < i
    requires u.nodes[u.nodes[i].parent].children == t.nodes[u.nodes[i].parent].children + [i]
    ensures Listed(u, i)
  {
  }

  /** A node stays listed while its parent and its parent's children stay. */
  lemma StillListed(t: Tree, u: Tree, i: nat)
    requires Listed(t, i) && |t.nodes| <= |u.nodes| && u.nodes[i].parent == t.nodes[i].parent
    requires t.nodes[t.nodes[i].parent].children <= u.nodes[t.nodes[i].parent].children
    ensures Listed(u, i)
  {
  }

  /** Only step numbers and the action list differ. */
  lemma RelabelledListed(t: Tree, u: Tree)
    requires AllListed(t) && |u.nodes| == |t.nodes|
    requires forall j :: 0 <= j < |t.nodes| ==>
               u.nodes[j].parent == t.nodes[j].parent && u.nodes[j].children == t.nodes[j].children
    ensures AllListed(u)
  {
    hide Listed, Ascending;
    forall i | 0 < i < |u.nodes| ensures Listed(u, i) { ListedParent(t, i); StillListed(t, u, i); }
  }

  lemma ListedParent(t: Tree, i: nat)
    requires Listed(t, i)
    ensures i < |t.nodes| && 0 <= t.nodes[i].parent < i
  {
  }

  /** The children that remain once everything in [cp, i) has been unlinked. */
  function Unlinked(ch: seq<nat>, cp: nat, i: nat): seq<nat> {
    if ch == [] then []
    else Unlinked(ch[..|ch| - 1], cp, i) + (if ch[|ch| - 1] < cp || i <= ch[|ch| - 1] then [ch[|ch| - 1]] else [])
  }

  lemma {:induction false} UnlinkedNone(ch: seq<nat>, cp: nat, i: nat)
    requires i <= cp
    ensures Unlinked(ch, cp, i) == ch
  {
    if ch != [] { UnlinkedNone(ch[..|ch| - 1], cp, i); }
  }

  /** std::remove of one value. */
  function Without(ch: seq<nat>, x: nat): seq<nat> {
    if ch == [] then [] else Without(ch[..|ch| - 1], x) + (if ch[|ch| - 1] == x then [] else [ch[|ch| - 1]])
  }

  lemma {:induction false} WithoutSnoc(ch: seq<nat>, y: nat, x: nat)
    ensures Without(ch + [y], x) == Without(ch, x) + (if y == x then [] else [y])
  {
    assert (ch + [y])[..|ch|] == ch;
  }

  lemma {:induction false} UnlinkOne(ch: seq<nat>, cp: nat, i: nat)
    requires cp <= i
    ensures Unlinked(ch, cp, i + 1) == Without(Unlinked(ch, cp, i), i)
  {
    if ch != [] {
      var last := ch[|ch| - 1];
      var init := Unlinked(ch[..|ch| - 1], cp, i);
      UnlinkOne(ch[..|ch| - 1], cp, i);
      if last < cp || i <= last {
        WithoutSnoc(init, last, i);
      } else {
        assert init + [] == init;
        assert Without(init, i) + [] == Without(init, i);
      }
    }
  }

  lemma {:induction false} UnlinkAbsent(ch: seq<nat>, cp: nat, i: nat)
    requires i !in ch
    ensures Unlinked(ch, cp, i + 1) == Unlinked(ch, cp, i)
  {
    if ch != [] { UnlinkAbsent(ch[..|ch| - 1], cp, i); }
  }

  /** Unlinking every new child gives the old list back. */
  lemma {:induction false} UnlinkAll(was: seq<nat>, now: seq<nat>, cp: nat, n: nat)
    requires was <= now && (forall k :: 0 <= k < |was| ==> was[k] < cp)
    requires (forall k :: |was| <= k < |now| ==> cp <= now[k] < n)
    ensures Unlinked(now, cp, n) == was
    decreases |now|
  {
    if now != [] {
      var init := now[..|now| - 1];
      if |was| == |now| {
        assert was == now;
        UnlinkAll(was[..|was| - 1], init, cp, n);
      } else {
        UnlinkAll(was, init, cp, n);
      }
    }
  }

  // ---- Which choice can be tried again ----

  /** These nodes, numbered from `first`, hang under the last choice before them, or under `top` before any choice. */
  ghost predicate Hung(nodes: seq<Node>, first: nat, top: int) {
    forall j :: 0 <= j < |nodes| ==> UnderLastChoice(nodes, first, top, j)
  }

  ghost predicate UnderLastChoice(nodes: seq<Node>, first: nat, top: int, j: nat)
    requires j < |nodes|
  {
    var p := nodes[j].parent - first;
    if nodes[j].parent == top then forall k :: 0 <= k < j ==> !IsChoice(nodes[k])
    else 0 <= p < j && IsChoice(nodes[p]) && forall k :: p < k < j ==> !IsChoice(nodes[k])
  }

  /** A choice with an alternative past the one it took. */
  predicate Retryable<S(!new)>(d: Domain<S>, n: Node) {
    IsChoice(n) && n.name in d.methods && n.methodIdx + 1 < |d.methods[n.name]|
  }

  /** Of the choices made before node i, `r` is the latest that can be tried again, -1 if none can. */
  ghost predicate LatestBefore<S(!new)>(d: Domain<S>, t: Tree, i: nat, r: int)
    requires i < |t.nodes|
  {
    && -1 <= r < i && (r >= 0 ==> Retryable(d, t.nodes[r]))
    && forall k :: r < k < i ==> !Retryable(d, t.nodes[k])
  }

  /** The nearest choice above node i that can be tried again, the root left out. */
  ghost function FirstUp<S(!new)>(d: Domain<S>, t: Tree, i: nat): int
    requires WellFormed(t) && i < |t.nodes|
    decreases i, 0
  {
    ParentBelow(t, i);
    UpFrom(d, t, t.nodes[i].parent)
  }

  ghost function UpFrom<S(!new)>(d: Domain<S>, t: Tree, i: int): int
    requires WellFormed(t) && i < |t.nodes|
    decreases i, 1
  {
    if i <= 0 then -1 else if Retryable(d, t.nodes[i]) then i else FirstUp(d, t, i)
  }

  lemma ParentBelow(t: Tree, i: nat)
    requires WellFormed(t) && i < |t.nodes|
    ensures if i == 0 then t.nodes[i].parent == -1 else 0 <= t.nodes[i].parent < i
  {
    hide Listed;
    if i > 0 { ListedParent(t, i); }
  }

  lemma HungUnder(t: Tree, i: nat)
    requires WellFormed(t) && Hung(t.nodes[1..], 1, 0) && 0 < i < |t.nodes|
    ensures var p := t.nodes[i].parent; 0 <= p < i && forall k :: p < k < i ==> !IsChoice(t.nodes[k])
  {
    ParentBelow(t, i);
    var nodes := t.nodes[1..];
    assert nodes[i - 1] == t.nodes[i] && UnderLastChoice(nodes, 1, 0, i - 1);
    var p := t.nodes[i].parent;
    forall k | p < k < i ensures !IsChoice(t.nodes[k]) {
      assert nodes[k - 1] == t.nodes[k];
    }
  }

  /** Where every node hangs under the last choice before it, that is the latest choice with a method left. */
  lemma {:induction false} FirstUpIsLatest<S(!new)>(d: Domain<S>, t: Tree, i: nat)
    requires WellFormed(t) && i < |t.nodes| && Hung(t.nodes[1..], 1, 0) && !IsChoice(t.nodes[0])
    ensures LatestBefore(d, t, i, FirstUp(d, t, i))
    decreases i
  {
    ParentBelow(t, i);
    hide WellFormed, Hung;
    if i > 0 {
      HungUnder(t, i);
      var p := t.nodes[i].parent;
      if p > 0 && !Retryable(d, t.nodes[p]) { FirstUpIsLatest(d, t, p); }
    }
  }

  // ---- The tree as the search changes it ----

  class SolTree {
    var tree: Tree

    constructor ()
      ensures tree == RootTree && WellFormed(tree)
    {
      tree := RootTree;
    }

    method AddNode(kind: Kind, parent: nat, name: string, args: seq<Value>, methodIdx: int) returns (id: nat)
      requires WellFormed(tree) && parent < |tree.nodes|
      modifies this
      ensures WellFormed(tree) && GrownFrom(old(tree), tree) && tree.actions == old(tree.actions)
      ensures id == |old(tree).nodes| && |tree.nodes| == id + 1
      ensures tree.nodes[id] == Node(kind, parent, [], name, args, methodIdx, -1, -1)
      ensures tree.nodes[parent].children == old(tree).nodes[parent].children + [id]
      ensures forall j :: 0 <= j < id && j != parent ==> tree.nodes[j] == old(tree).nodes[j]
    {
      id := |tree.nodes|;
      var n := Node(kind, parent, [], name, args, methodIdx, -1, -1);
      AddedGrows(tree, n);
      tree := Added(tree, n);
    }

    /** A task or goal node: the alternative tried, and the step its first action would have. */
    method AddChoice(kind: Kind, parent: nat, name: string, args: seq<Value>, methodIdx: nat) returns (id: nat)
      requires WellFormed(tree) && parent < |tree.nodes|
      modifies this
      ensures WellFormed(tree) && GrownFrom(old(tree), tree) && tree.actions == old(tree.actions)
      ensures id == |old(tree).nodes| && |tree.nodes| == id + 1
      ensures tree.nodes[id] == Node(kind, parent, [], name, args, methodIdx, -1, |tree.actions|)
    {
      hide AllListed;
      var first := |tree.actions|;
      id := AddNode(kind, parent, name, args, methodIdx);
      ghost var added := tree;
      tree := tree.(nodes := tree.nodes[id := tree.nodes[id].(firstStep := first)]);
      RelabelledListed(added, tree);
    }

    /** An action node, entered as the next step of the plan. */
    method AddAction(parent: nat, name: string, args: seq<Value>)
      requires WellFormed(tree) && parent < |tree.nodes|
      modifies this
      ensures WellFormed(tree) && GrownFrom(old(tree), tree)
      ensures |tree.nodes| == |old(tree).nodes| + 1 && tree.actions == old(tree).actions + [|old(tree).nodes|]
      ensures tree.nodes[|old(tree).nodes|] == Node(ActionNode, parent, [], name, args, -1, |old(tree).actions|, -1)
    {
      hide AllListed;
      var step := |tree.actions|;
      var id := AddNode(ActionNode, parent, name, args, -1);
      ghost var added := tree;
      tree := tree.(nodes := tree.nodes[id := tree.nodes[id].(planStep := step)], actions := tree.actions + [id]);
      RelabelledListed(added, tree);
    }

    /** restore: whatever grew since the checkpoint is gone, and the tree is as it was. */
    method Restore(cp: nat, ghost was: Tree)
      requires WellFormed(was) && WellFormed(tree) && GrownFrom(was, tree) && cp == |was.nodes|
      modifies this
      ensures tree == was
    {
      ghost var grown := tree;
      UnlinkNew(cp);
      ChildrenBack(was, grown);
      tree := tree.(nodes := tree.nodes[..cp]);
      assert tree.nodes == was.nodes;
      hide WellFormed, Unlinked;
      while tree.actions != [] && tree.actions[|tree.actions| - 1] >= cp
        invariant tree.nodes == was.nodes && was.actions <= tree.actions <= grown.actions
        decreases |tree.actions|
      {
        OldActionsBelow(was, grown, |tree.actions| - 1);
        tree := tree.(actions := tree.actions[..|tree.actions| - 1]);
      }
    }

    static lemma OldActionsBelow(was: Tree, g: Tree, k: nat)
      requires WellFormed(was) && GrownFrom(was, g) && k < |g.actions|
      ensures k < |was.actions| ==> g.actions[k] < |was.nodes|
    {
    }

    /** The first loop of restore: unlink every node from cp on. */
    method UnlinkNew(cp: nat)
      requires WellFormed(tree) && cp <= |tree.nodes|
      modifies this
      ensures tree.actions == old(tree.actions) && |tree.nodes| == |old(tree).nodes|
      ensures forall j :: 0 <= j < cp ==>
                tree.nodes[j] == old(tree).nodes[j].(children := Unlinked(old(tree).nodes[j].children, cp,
                  |tree.nodes|))
    {
      hide AllListed;
      ghost var grown := tree;
      forall j | 0 <= j < cp
        ensures Unlinked(grown.nodes[j].children, cp, cp) == grown.nodes[j].children
      {
        UnlinkedNone(grown.nodes[j].children, cp, cp);
      }
      assert UnlinkedTo(grown, tree.nodes, cp, cp);
      hide WellFormed, Unlinked, UnlinkedTo;
      var i := cp;
      while i < |tree.nodes|
        invariant cp <= i <= |tree.nodes| == |grown.nodes| && tree.actions == grown.actions
        invariant UnlinkedTo(grown, tree.nodes, cp, i)
      {
        var p := tree.nodes[i].parent;
        UnlinkNext(grown, tree.nodes, cp, i);
        if 0 <= p < cp {
          tree := tree.(nodes := tree.nodes[p := tree.nodes[p].(children := Without(tree.nodes[p].children, i))]);
        }
        i := i + 1;
      }
      UnlinkedWhole(grown, tree.nodes, cp);
    }

    /** Every node before cp has lost its children in [cp, i), and nothing else has changed. */
    static ghost predicate UnlinkedTo(g: Tree, nodes: seq<Node>, cp: nat, i: nat) {
      && cp <= |nodes| == |g.nodes|
      && (forall j :: cp <= j < |nodes| ==> nodes[j] == g.nodes[j])
      && (forall j :: 0 <= j < cp ==> nodes[j] == g.nodes[j].(children := Unlinked(g.nodes[j].children, cp, i)))
    }

    static lemma UnlinkNext(g: Tree, nodes: seq<Node>, cp: nat, i: nat)
      requires WellFormed(g) && UnlinkedTo(g, nodes, cp, i) && cp <= i < |nodes|
      ensures var p := nodes[i].parent;
        var after := if 0 <= p < cp then nodes[p := nodes[p].(children := Without(nodes[p].children, i))] else nodes;
        UnlinkedTo(g, after, cp, i + 1)
    {
      UnlinkStep(g, cp, i);
      hide WellFormed, Unlinked;
    }

    static lemma UnlinkedWhole(g: Tree, nodes: seq<Node>, cp: nat)
      requires UnlinkedTo(g, nodes, cp, |nodes|)
      ensures |nodes| == |g.nodes|
      ensures forall j :: 0 <= j < cp ==>
        nodes[j] == g.nodes[j].(children := Unlinked(g.nodes[j].children, cp, |nodes|))
    {
    }

    /** Unlinking node i reaches its parent and no one else. */
    static lemma UnlinkStep(g: Tree, cp: nat, i: nat)
      requires WellFormed(g) && cp <= i < |g.nodes|
      ensures forall j :: 0 <= j < cp && g.nodes[i].parent != j ==>
                Unlinked(g.nodes[j].children, cp, i + 1) == Unlinked(g.nodes[j].children, cp, i)
      ensures forall j :: 0 <= j < cp && g.nodes[i].parent == j ==>
                Unlinked(g.nodes[j].children, cp, i + 1) == Without(Unlinked(g.nodes[j].children, cp, i), i)
    {
      forall j | 0 <= j < cp
        ensures if g.nodes[i].parent == j
                then Unlinked(g.nodes[j].children, cp, i + 1) == Without(Unlinked(g.nodes[j].children, cp, i), i)
                else Unlinked(g.nodes[j].children, cp, i + 1) == Unlinked(g.nodes[j].children, cp, i)
      {
        if g.nodes[i].parent == j {
          UnlinkOne(g.nodes[j].children, cp, i);
        } else {
          UnlinkAbsent(g.nodes[j].children, cp, i);
        }
      }
    }

    static lemma ChildrenBack(was: Tree, g: Tree)
      requires WellFormed(was) && WellFormed(g) && GrownFrom(was, g)
      ensures forall j :: 0 <= j < |was.nodes| ==>
                Unlinked(g.nodes[j].children, |was.nodes|, |g.nodes|) == was.nodes[j].children
                && g.nodes[j].(children := []) == was.nodes[j].(children := [])
    {
      forall j | 0 <= j < |was.nodes|
        ensures Unlinked(g.nodes[j].children, |was.nodes|, |g.nodes|) == was.nodes[j].children
      {
        assert OnlyGained(was.nodes[j], g.nodes[j], |was.nodes|);
        UnlinkAll(was.nodes[j].children, g.nodes[j].children, |was.nodes|, |g.nodes|);
      }
    }

    /** nearest_retryable_ancestor: up the parents, to the first choice with a method left. */
    method NearestRetryable<S(!new)>(d: Domain<S>, id: nat) returns (r: int)
      requires WellFormed(tree) && id < |tree.nodes|
      ensures r == FirstUp(d, tree, id)
      ensures Hung(tree.nodes[1..], 1, 0) && tree.nodes[0].kind == RootNode ==> LatestBefore(d, tree, id, r)
    {
      hide WellFormed, Hung;
      if Hung(tree.nodes[1..], 1, 0) && tree.nodes[0].kind == RootNode { FirstUpIsLatest(d, tree, id); }
      ParentBelow(tree, id);
      var cur := tree.nodes[id].parent;
      while cur > 0
        invariant cur < |tree.nodes| && UpFrom(d, tree, cur) == FirstUp(d, tree, id)
        decreases cur
      {
        var n := tree.nodes[cur];
        ParentBelow(tree, cur);
        if n.kind == TaskNode {
          if n.name in d.methods && n.methodIdx + 1 < |d.methods[n.name]| { return cur; }
        } else if n.kind == GoalNode {
          if n.name in d.methods && n.methodIdx + 1 < |d.methods[n.name]| { return cur; }
        }
        cur := n.parent;
      }
      r := -1;
    }
  }
}
