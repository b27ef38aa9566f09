/**
 Relations between subjects and objects (thirdparty/taskweft/tw_rebac.hpp): the graph
 with its indexes, the fuelled check of a relation or a computed expression, and the
 expansion of a relation into the subjects that have it.
*/
module Rebac {
  datatype Rel = HasCapability | Controls | Owns | IsMemberOf | DelegatedTo | SupervisorOf | PartnerOf | Unknown

  function ParseRel(s: string): Rel {
    if s == "HAS_CAPABILITY" then HasCapability
    else if s == "CONTROLS" then Controls
    else if s == "OWNS" then Owns
    else if s == "IS_MEMBER_OF" then IsMemberOf
    else if s == "DELEGATED_TO" then DelegatedTo
    else if s == "SUPERVISOR_OF" then SupervisorOf
    else if s == "PARTNER_OF" then PartnerOf
    else Unknown
  }

  datatype Edge = Edge(subject: string, target: string, rel: Rel, name: string)

  /** A computed relation; anything that is not one of these is malformed and never holds. */
  datatype Expr =
    | Base(rel: string)
    | Union(a: Expr, b: Expr)
    | Intersection(a: Expr, b: Expr)
    | Difference(a: Expr, b: Expr)
    | TupleToUserset(pivot: string, inner: Expr)
    | Malformed

  // ---- What the relations mean, over the edges alone ----

  /** Built-in relations match by kind, all others by name. */
  predicate Matches(e: Edge, rel: Rel, name: string) {
    if rel != Unknown then e.rel == rel else e.name == name
  }

  ghost predicate Holder(es: seq<Edge>, s: string, name: string, o: string) {
    exists k :: 0 <= k < |es| && es[k].subject == s && es[k].target == o && Matches(es[k], ParseRel(name), name)
  }

  /** For CONTROLS alone: the object was delegated to this subject. */
  ghost predicate Delegate(es: seq<Edge>, s: string, name: string, o: string) {
    && ParseRel(name) == Controls
    && exists k :: 0 <= k < |es| && es[k].target == s && es[k].subject == o && es[k].rel == DelegatedTo
  }

  ghost predicate Has(es: seq<Edge>, s: string, name: string, o: string) {
    Holder(es, s, name, o) || Delegate(es, s, name, o)
  }

  /** A chain of membership edges from s to t. */
  ghost predicate Chain(es: seq<Edge>, s: string, path: seq<nat>, t: string)
    decreases |path|
  {
    if path == [] then s == t
    else path[0] < |es| && Step(es, s, path[0]) && Chain(es, es[path[0]].target, path[1..], t)
  }

  /** Fewer than `fuel` membership edges lead to somebody who has it. */
  ghost predicate Reaches(es: seq<Edge>, s: string, name: string, o: string, fuel: int) {
    exists path: seq<nat>, t: string :: |path| < fuel && Chain(es, s, path, t) && Has(es, t, name, o)
  }

  /** The same, one edge at a time. */
  ghost predicate Can(es: seq<Edge>, s: string, name: string, o: string, fuel: int)
    decreases fuel
  {
    && fuel > 0
    && (Has(es, s, name, o) || exists k :: 0 <= k < |es| && Step(es, s, k) && Can(es, es[k].target, name, o, fuel - 1))
  }

  /** Edge k makes s a member of its target. */
  predicate Step(es: seq<Edge>, s: string, k: nat)
    requires k < |es|
  {
    es[k].subject == s && es[k].rel == IsMemberOf
  }

  lemma {:induction false} CanReaches(es: seq<Edge>, s: string, name: string, o: string, fuel: int)
    requires Can(es, s, name, o, fuel)
    ensures Reaches(es, s, name, o, fuel)
    decreases fuel
  {
    hide Has;
    if Has(es, s, name, o) {
      assert Chain(es, s, [], s);
    } else {
      var k: nat :| k < |es| && Step(es, s, k) && Can(es, es[k].target, name, o, fuel - 1);
      CanReaches(es, es[k].target, name, o, fuel - 1);
      var path: seq<nat>, t: string :| |path| < fuel - 1 && Chain(es, es[k].target, path, t) && Has(es, t, name, o);
      ChainCons(es, s, k, path, t);
    }
  }

  lemma ChainCons(es: seq<Edge>, s: string, k: nat, path: seq<nat>, t: string)
    requires k < |es| && Step(es, s, k) && Chain(es, es[k].target, path, t)
    ensures Chain(es, s, [k] + path, t)
  {
    assert ([k] + path)[1..] == path;
  }

  lemma {:induction false} ChainCan(es: seq<Edge>, s: string, path: seq<nat>, t: string, name: string, o: string,
                                    fuel: int)
    requires |path| < fuel && Chain(es, s, path, t) && Has(es, t, name, o)
    ensures Can(es, s, name, o, fuel)
    decreases |path|
  {
    hide Has;
    if path != [] {
      ChainCan(es, es[path[0]].target, path[1..], t, name, o, fuel - 1);
      assert Step(es, s, path[0]);
    }
  }

  // ---- The same, over the names the edges were added under ----

  /** Every edge carries the kind its name stands for. */
  ghost predicate KindsOfNames(es: seq<Edge>) {
    forall k :: 0 <= k < |es| ==> es[k].rel == ParseRel(es[k].name)
  }

  predicate BuiltIn(name: string) {
    name in {"HAS_CAPABILITY", "CONTROLS", "OWNS", "IS_MEMBER_OF", "DELEGATED_TO", "SUPERVISOR_OF", "PARTNER_OF"}
  }

  lemma KindTellsName(a: string, b: string)
    ensures ParseRel(a) == Unknown <==> !BuiltIn(a)
    ensures BuiltIn(b) ==> (ParseRel(a) == ParseRel(b) <==> a == b)
    ensures ParseRel(a) == IsMemberOf <==> a == "IS_MEMBER_OF"
    ensures ParseRel(a) == DelegatedTo <==> a == "DELEGATED_TO"
    ensures ParseRel(a) == Controls <==> a == "CONTROLS"
  {
  }

  /** An edge of this name from a to b. */
  ghost predicate Linked(es: seq<Edge>, a: string, b: string, name: string) {
    exists k :: 0 <= k < |es| && es[k].subject == a && es[k].target == b && es[k].name == name
  }

  /** Straight from an edge of that name, or, for CONTROLS, from the object's delegating itself. */
  ghost predicate Granted(es: seq<Edge>, s: string, name: string, o: string) {
    Linked(es, s, o, name) || (name == "CONTROLS" && Linked(es, o, s, "DELEGATED_TO"))
  }

  /** A subject, a group it is a member of, a group that one is a member of, and so on. */
  ghost predicate MemberPath(es: seq<Edge>, nodes: seq<string>) {
    nodes != [] && forall i :: 0 <= i < |nodes| - 1 ==> Linked(es, nodes[i], nodes[i + 1], "IS_MEMBER_OF")
  }

  /** Somebody at the end of a path of at most `fuel` subjects was granted it. */
  ghost predicate GrantedAlong(es: seq<Edge>, s: string, name: string, o: string, fuel: int) {
    exists nodes ::
      MemberPath(es, nodes) && |nodes| <= fuel && nodes[0] == s && Granted(es, nodes[|nodes| - 1], name, o)
  }

  lemma HasIsGranted(es: seq<Edge>, s: string, name: string, o: string)
    requires KindsOfNames(es)
    ensures Has(es, s, name, o) <==> Granted(es, s, name, o)
  {
    hide ParseRel, BuiltIn;
    KindTellsName(name, name);
    forall k | 0 <= k < |es|
      ensures Matches(es[k], ParseRel(name), name) <==> es[k].name == name
      ensures es[k].rel == DelegatedTo <==> es[k].name == "DELEGATED_TO"
    {
      KindTellsName(es[k].name, name);
    }
  }

  lemma StepIsMember(es: seq<Edge>, s: string, k: nat)
    requires KindsOfNames(es) && k < |es|
    ensures Step(es, s, k) <==> es[k].subject == s && es[k].name == "IS_MEMBER_OF"
  {
    KindTellsName(es[k].name, "");
  }

  lemma {:induction false} CanIsGranted(es: seq<Edge>, s: string, name: string, o: string, fuel: int)
    requires KindsOfNames(es) && Can(es, s, name, o, fuel)
    ensures GrantedAlong(es, s, name, o, fuel)
    decreases fuel
  {
    hide Has, Granted, KindsOfNames, Step, GrantedAlong;
    if Has(es, s, name, o) {
      HasIsGranted(es, s, name, o);
      GrantedHere(es, s, name, o, fuel);
    } else {
      var k: nat :| k < |es| && Step(es, s, k) && Can(es, es[k].target, name, o, fuel - 1);
      StepIsMember(es, s, k);
      CanIsGranted(es, es[k].target, name, o, fuel - 1);
      assert Linked(es, s, es[k].target, "IS_MEMBER_OF");
      GrantedFurther(es, s, es[k].target, name, o, fuel);
    }
  }

  lemma GrantedHere(es: seq<Edge>, s: string, name: string, o: string, fuel: int)
    requires Granted(es, s, name, o) && fuel > 0
    ensures GrantedAlong(es, s, name, o, fuel)
  {
    hide Granted, Linked;
    var nodes := [s];
    assert MemberPath(es, nodes) && nodes[|nodes| - 1] == s;
  }

  lemma GrantedFurther(es: seq<Edge>, s: string, next: string, name: string, o: string, fuel: int)
    requires Linked(es, s, next, "IS_MEMBER_OF") && GrantedAlong(es, next, name, o, fuel - 1)
    ensures GrantedAlong(es, s, name, o, fuel)
  {
    hide Granted, Linked;
    var nodes :| MemberPath(es, nodes) && |nodes| <= fuel - 1 && nodes[0] == next
      && Granted(es, nodes[|nodes| - 1], name, o);
    PathCons(es, s, nodes);
    var longer := [s] + nodes;
    assert longer[|longer| - 1] == nodes[|nodes| - 1] && longer[0] == s;
  }

  lemma PathCons(es: seq<Edge>, s: string, nodes: seq<string>)
    requires MemberPath(es, nodes) && Linked(es, s, nodes[0], "IS_MEMBER_OF")
    ensures MemberPath(es, [s] + nodes)
  {
    hide Linked;
    var longer := [s] + nodes;
    forall i | 0 <= i < |longer| - 1 ensures Linked(es, longer[i], longer[i + 1], "IS_MEMBER_OF") {
      if i > 0 { assert longer[i] == nodes[i - 1] && longer[i + 1] == nodes[i]; }
    }
  }

  lemma {:induction false} GrantedCan(es: seq<Edge>, nodes: seq<string>, name: string, o: string, fuel: int)
    requires KindsOfNames(es) && MemberPath(es, nodes) && |nodes| <= fuel && Granted(es, nodes[|nodes| - 1], name, o)
    ensures Can(es, nodes[0], name, o, fuel)
    decreases |nodes|
  {
    hide Has, Granted, KindsOfNames, Step;
    HasIsGranted(es, nodes[|nodes| - 1], name, o);
    if |nodes| > 1 {
      var rest := nodes[1..];
      forall i | 0 <= i < |rest| - 1 ensures Linked(es, rest[i], rest[i + 1], "IS_MEMBER_OF") {
        assert Linked(es, nodes[i + 1], nodes[i + 2], "IS_MEMBER_OF");
      }
      GrantedCan(es, rest, name, o, fuel - 1);
      assert Linked(es, nodes[0], nodes[1], "IS_MEMBER_OF");
      var k :| 0 <= k < |es| && es[k].subject == nodes[0] && es[k].target == nodes[1] && es[k].name == "IS_MEMBER_OF";
      StepIsMember(es, nodes[0], k);
    }
  }

  /** Who an expansion lists: the direct holders, and the members of anybody the check accepts. */
  ghost predicate Expands(es: seq<Edge>, s: string, name: string, o: string, fuel: nat) {
    || Holder(es, s, name, o)
    || exists k :: 0 <= k < |es| && Step(es, s, k) && Reaches(es, es[k].target, name, o, fuel)
  }

  // ---- Enough fuel ----

  ghost function Nodes(es: seq<Edge>): set<string> {
    (set k | 0 <= k < |es| :: es[k].subject) + (set k | 0 <= k < |es| :: es[k].target)
  }

  ghost function Accepted(es: seq<Edge>, name: string, o: string, fuel: nat): set<string> {
    set s | s in Nodes(es) && Can(es, s, name, o, fuel)
  }

  lemma AcceptedIsCan(es: seq<Edge>, s: string, name: string, o: string, fuel: nat)
    ensures s in Accepted(es, name, o, fuel) <==> Can(es, s, name, o, fuel)
  {
    hide ParseRel;
    if Can(es, s, name, o, fuel) { assert s in Nodes(es); }
  }

  lemma {:induction false} OneMoreFuel(es: seq<Edge>, s: string, name: string, o: string, fuel: nat)
    requires Can(es, s, name, o, fuel)
    ensures Can(es, s, name, o, fuel + 1)
    decreases fuel
  {
    hide Has;
    if !Has(es, s, name, o) {
      var k: nat :| k < |es| && Step(es, s, k) && Can(es, es[k].target, name, o, fuel - 1);
      OneMoreFuel(es, es[k].target, name, o, fuel - 1);
    }
  }

  /** Once a fuel more accepts nobody new, no fuel ever will. */
  lemma StaysStable(es: seq<Edge>, name: string, o: string, fuel: nat)
    requires Accepted(es, name, o, fuel) == Accepted(es, name, o, fuel + 1)
    ensures Accepted(es, name, o, fuel + 1) == Accepted(es, name, o, fuel + 2)
  {
    hide Accepted, Has;
    var now, next := Accepted(es, name, o, fuel + 1), Accepted(es, name, o, fuel + 2);
    forall s
      ensures s in now <==> s in next
    {
      AcceptedIsCan(es, s, name, o, fuel + 1);
      AcceptedIsCan(es, s, name, o, fuel + 2);
      forall k | 0 <= k < |es| && Step(es, s, k)
        ensures Can(es, es[k].target, name, o, fuel) <==> Can(es, es[k].target, name, o, fuel + 1)
      {
        AcceptedIsCan(es, es[k].target, name, o, fuel);
        AcceptedIsCan(es, es[k].target, name, o, fuel + 1);
      }
    }
  }

  lemma {:induction false} StableOrGrown(es: seq<Edge>, name: string, o: string, fuel: nat)
    ensures Accepted(es, name, o, fuel) == Accepted(es, name, o, fuel + 1) || |Accepted(es, name, o, fuel + 1)| > fuel
  {
    var a, b := Accepted(es, name, o, fuel), Accepted(es, name, o, fuel + 1);
    assert a <= b by {
      forall s | s in a ensures s in b {
        AcceptedIsCan(es, s, name, o, fuel);
        OneMoreFuel(es, s, name, o, fuel);
        AcceptedIsCan(es, s, name, o, fuel + 1);
      }
    }
    hide Accepted, Can;
    if a != b { SmallerThan(a, b); }
    if fuel > 0 {
      StableOrGrown(es, name, o, fuel - 1);
      if Accepted(es, name, o, fuel - 1) == a { StaysStable(es, name, o, fuel - 1); }
    }
  }

  lemma SmallerThan<T>(a: set<T>, b: set<T>)
    requires a <= b && a != b
    ensures |a| < |b|
  {
    var x :| x in b && x !in a;
    AtMostAsMany(a, b - {x});
  }

  lemma {:induction false} AtMostAsMany<T>(a: set<T>, b: set<T>)
    requires a <= b
    ensures |a| <= |b|
  {
    if x :| x in a { AtMostAsMany(a - {x}, b - {x}); }
  }

  /** With as much fuel as there are nodes, more changes nothing. */
  lemma {:induction false} EnoughFuel(es: seq<Edge>, s: string, name: string, o: string, fuel: nat, more: nat)
    requires |Nodes(es)| <= fuel <= more
    ensures Can(es, s, name, o, fuel) <==> Can(es, s, name, o, more)
    decreases more
  {
    if fuel < more {
      EnoughFuel(es, s, name, o, fuel, more - 1);
      StableOrGrown(es, name, o, more - 1);
      assert Accepted(es, name, o, more) <= Nodes(es);
      AtMostAsMany(Accepted(es, name, o, more), Nodes(es));
      AcceptedIsCan(es, s, name, o, more - 1);
      AcceptedIsCan(es, s, name, o, more);
    }
  }

  /** What an expression means, with chains of any length. */
  ghost predicate Means(es: seq<Edge>, s: string, e: Expr, o: string)
    decreases e
  {
    match e
    case Base(name) => exists fuel: nat :: Reaches(es, s, name, o, fuel)
    case Union(a, b) => Means(es, s, a, o) || Means(es, s, b, o)
    case Intersection(a, b) => Means(es, s, a, o) && Means(es, s, b, o)
    case Difference(a, b) => Means(es, s, a, o) && !Means(es, s, b, o)
    case TupleToUserset(pivot, inner) =>
      exists k :: 0 <= k < |es| && es[k].subject == s && es[k].rel == ParseRel(pivot)
        && Means(es, es[k].target, inner, o)
    case Malformed => false
  }

  function Depth(e: Expr): nat {
    match e
    case Base(_) => 1
    case Union(a, b) => 1 + if Depth(a) > Depth(b) then Depth(a) else Depth(b)
    case Intersection(a, b) => 1 + if Depth(a) > Depth(b) then Depth(a) else Depth(b)
    case Difference(a, b) => 1 + if Depth(a) > Depth(b) then Depth(a) else Depth(b)
    case TupleToUserset(_, inner) => 1 + Depth(inner)
    case Malformed => 1
  }

  // ---- The graph ----

  function SubjectOf(e: Edge): string { e.subject }
  function TargetOf(e: Edge): string { e.target }

  /** Each edge is listed under its own key, and nothing else is. */
  ghost predicate Lists(es: seq<Edge>, idx: map<string, seq<nat>>, key: Edge -> string) {
    && (forall s <- idx :: forall j :: 0 <= j < |idx[s]| ==> idx[s][j] < |es| && key(es[idx[s][j]]) == s)
    && (forall k :: 0 <= k < |es| ==> key(es[k]) in idx && k in idx[key(es[k])])
  }

  lemma ListsOneMore(es: seq<Edge>, idx: map<string, seq<nat>>, key: Edge -> string, e: Edge)
    requires Lists(es, idx, key)
    ensures Lists(es + [e], idx[key(e) := (if key(e) in idx then idx[key(e)] else []) + [|es|]], key)
  {
    var row := (if key(e) in idx then idx[key(e)] else []) + [|es|];
    var idx', es' := idx[key(e) := row], es + [e];
    forall s <- idx', j | 0 <= j < |idx'[s]|
      ensures idx'[s][j] < |es'| && key(es'[idx'[s][j]]) == s
    {
      if s == key(e) && j == |row| - 1 {
        assert row[j] == |es|;
      } else {
        assert s in idx && idx'[s][j] == idx[s][j];
        assert es'[idx[s][j]] == es[idx[s][j]];
      }
    }
    forall k | 0 <= k < |es'|
      ensures key(es'[k]) in idx' && k in idx'[key(es'[k])]
    {
      if k < |es| {
        assert es'[k] == es[k];
      } else {
        assert row[|row| - 1] == |es|;
      }
    }
  }

  ghost predicate ListsMembers(es: seq<Edge>, members: seq<nat>) {
    && (forall j :: 0 <= j < |members| ==> members[j] < |es| && es[members[j]].rel == IsMemberOf)
    && (forall k :: 0 <= k < |es| && es[k].rel == IsMemberOf ==> k in members)
  }

  lemma MembersOneMore(es: seq<Edge>, members: seq<nat>, e: Edge)
    requires ListsMembers(es, members)
    ensures ListsMembers(es + [e], if e.rel == IsMemberOf then members + [|es|] else members)
  {
    var es', members' := es + [e], if e.rel == IsMemberOf then members + [|es|] else members;
    forall k | 0 <= k < |es'| && es'[k].rel == IsMemberOf
      ensures k in members'
    {
      if k < |es| {
        assert es'[k] == es[k] && k in members;
        var j :| 0 <= j < |members| && members[j] == k;
        assert members'[j] == k;
      } else {
        assert members'[|members|] == k;
      }
    }
    assert forall j :: 0 <= j < |members| ==> es'[members[j]] == es[members[j]];
  }

  class Graph {
    var edges: seq<Edge>
    var subjIdx: map<string, seq<nat>>
    var objIdx: map<string, seq<nat>>
    var memberEdges: seq<nat>

    /** The indexes list exactly the edges they are for, and each edge is of the kind of its name. */
    ghost predicate Valid()
      reads this
    {
      && Lists(edges, subjIdx, SubjectOf) && Lists(edges, objIdx, TargetOf) && ListsMembers(edges, memberEdges)
      && KindsOfNames(edges)
    }

    constructor ()
      ensures Valid() && edges == []
    {
      edges, subjIdx, objIdx, memberEdges := [], map[], map[], [];
    }

    /** add_edge */
    method AddEdge(subj: string, obj: string, name: string)
      requires Valid()
      modifies this
      ensures Valid() && edges == old(edges) + [Edge(subj, obj, ParseRel(name), name)]
    {
      hide ParseRel, Lists, ListsMembers;
      var idx := |edges|;
      var e := Edge(subj, obj, ParseRel(name), name);
      ListsOneMore(edges, subjIdx, SubjectOf, e);
      ListsOneMore(edges, objIdx, TargetOf, e);
      MembersOneMore(edges, memberEdges, e);
      edges := edges + [e];
      subjIdx := subjIdx[subj := (if subj in subjIdx then subjIdx[subj] else []) + [idx]];
      objIdx := objIdx[obj := (if obj in objIdx then objIdx[obj] else []) + [idx]];
      if edges[idx].rel == IsMemberOf { memberEdges := memberEdges + [idx]; }
    }

    function From(s: string): (r: seq<nat>)
      requires Valid()
      reads this
      ensures forall j :: 0 <= j < |r| ==> r[j] < |edges| && edges[r[j]].subject == s
    {
      if s in subjIdx then subjIdx[s] else []
    }

    function Into(o: string): (r: seq<nat>)
      requires Valid()
      reads this
      ensures forall j :: 0 <= j < |r| ==> r[j] < |edges| && edges[r[j]].target == o
    {
      if o in objIdx then objIdx[o] else []
    }

    /** check_base */
    predicate CheckBase(s: string, rel: Rel, name: string, o: string, fuel: int)
      requires Valid()
      reads this
      decreases fuel, 0
    {
      fuel > 0 &&
      ( (exists k <- From(s) :: Matches(edges[k], rel, name) && edges[k].target == o)
      || (exists k <- From(s) :: edges[k].rel == IsMemberOf && CheckExpr(edges[k].target, Base(name), o, fuel - 1))
      || (rel == Controls && exists k <- Into(s) :: edges[k].rel == DelegatedTo && edges[k].subject == o))
    }

    /** check_expr */
    predicate CheckExpr(s: string, e: Expr, o: string, fuel: int)
      requires Valid()
      reads this
      decreases fuel, 1
    {
      fuel > 0 &&
      match e
      case Base(name) => CheckBase(s, ParseRel(name), name, o, fuel)
      case Union(a, b) => CheckExpr(s, a, o, fuel - 1) || CheckExpr(s, b, o, fuel - 1)
      case Intersection(a, b) => CheckExpr(s, a, o, fuel - 1) && CheckExpr(s, b, o, fuel - 1)
      case Difference(a, b) => CheckExpr(s, a, o, fuel - 1) && !CheckExpr(s, b, o, fuel - 1)
      case TupleToUserset(pivot, inner) =>
        exists k <- From(s) :: edges[k].rel == ParseRel(pivot) && CheckExpr(edges[k].target, inner, o, fuel - 1)
      case Malformed => false
    }

    /** The check over the indexes is the one over the edges. */
    lemma {:induction false} CheckIsCan(s: string, name: string, o: string, fuel: int)
      requires Valid()
      ensures CheckBase(s, ParseRel(name), name, o, fuel) <==> Can(edges, s, name, o, fuel)
      decreases fuel
    {
      hide ParseRel, Valid;
      if fuel > 0 {
        IndexedHas(s, name, o);
        forall k | 0 <= k < |edges| && Step(edges, s, k)
          ensures CheckBase(edges[k].target, ParseRel(name), name, o, fuel - 1) <==>
            Can(edges, edges[k].target, name, o, fuel - 1)
        {
          CheckIsCan(edges[k].target, name, o, fuel - 1);
        }
        assert forall k <- From(s) :: edges[k].subject == s;
        assert forall k | 0 <= k < |edges| && Step(edges, s, k) :: k in From(s) by { IndexedSteps(s); }
      }
    }

    lemma IndexedSteps(s: string)
      requires Valid()
      ensures forall k | 0 <= k < |edges| && Step(edges, s, k) :: k in From(s)
    {
    }

    lemma IndexedHas(s: string, name: string, o: string)
      requires Valid()
      ensures Holder(edges, s, name, o) <==>
        exists k <- From(s) :: Matches(edges[k], ParseRel(name), name) && edges[k].target == o
      ensures Delegate(edges, s, name, o) <==>
              ParseRel(name) == Controls && exists k <- Into(s) :: edges[k].rel == DelegatedTo && edges[k].subject == o
    {
      hide ParseRel;
    }

    /** check_base is exact: fewer than `fuel` membership edges, then a holder or a delegate. */
    lemma CheckIsReach(s: string, name: string, o: string, fuel: int)
      requires Valid()
      ensures CheckBase(s, ParseRel(name), name, o, fuel) <==> Reaches(edges, s, name, o, fuel)
    {
      hide ParseRel, CheckBase, Can, Has, Chain, Valid;
      CheckIsCan(s, name, o, fuel);
      if Can(edges, s, name, o, fuel) { CanReaches(edges, s, name, o, fuel); }
      if Reaches(edges, s, name, o, fuel) {
        var path: seq<nat>, t: string :| |path| < fuel && Chain(edges, s, path, t) && Has(edges, t, name, o);
        ChainCan(edges, s, path, t, name, o, fuel);
      }
    }

    /**
     In the names the edges were added under: a path of IS_MEMBER_OF edges, of at most `fuel` subjects, to
     one with an edge of that very name to the object, or, for CONTROLS, with a DELEGATED_TO edge from it.
    */
    lemma CheckByName(s: string, name: string, o: string, fuel: int)
      requires Valid()
      ensures CheckBase(s, ParseRel(name), name, o, fuel) <==> GrantedAlong(edges, s, name, o, fuel)
    {
      CheckIsCan(s, name, o, fuel);
      hide ParseRel, CheckBase, Can, Granted, MemberPath, Lists, ListsMembers, KindsOfNames;
      if Can(edges, s, name, o, fuel) { CanIsGranted(edges, s, name, o, fuel); }
      if GrantedAlong(edges, s, name, o, fuel) {
        var nodes :| MemberPath(edges, nodes) && |nodes| <= fuel && nodes[0] == s
          && Granted(edges, nodes[|nodes| - 1], name, o);
        GrantedCan(edges, nodes, name, o, fuel);
      }
    }

    /** A pivot follows the edges of its own name, and one that is not built in every edge that is not. */
    lemma PivotByName(pivot: string, k: nat)
      requires Valid() && k < |edges|
      ensures edges[k].rel == ParseRel(pivot) <==>
              if BuiltIn(pivot) then edges[k].name == pivot else !BuiltIn(edges[k].name)
    {
      hide ParseRel, BuiltIn;
      KindTellsName(edges[k].name, pivot);
      KindTellsName(pivot, pivot);
    }

    /** With fuel for its depth and for every node of the graph, an expression is decided exactly. */
    lemma {:induction false} ExprDecided(s: string, e: Expr, o: string, fuel: nat)
      requires Valid() && fuel >= Depth(e) + |Nodes(edges)|
      ensures CheckExpr(s, e, o, fuel) <==> Means(edges, s, e, o)
      decreases e
    {
      hide ParseRel, Valid, CheckBase, Can, Nodes;
      match e
      case Base(name) =>
        CheckIsReach(s, name, o, fuel);
        BaseDecided(s, name, o, fuel);
      case Union(a, b) =>
        ExprDecided(s, a, o, fuel - 1);
        ExprDecided(s, b, o, fuel - 1);
      case Intersection(a, b) =>
        ExprDecided(s, a, o, fuel - 1);
        ExprDecided(s, b, o, fuel - 1);
      case Difference(a, b) =>
        ExprDecided(s, a, o, fuel - 1);
        ExprDecided(s, b, o, fuel - 1);
      case TupleToUserset(pivot, inner) =>
        forall k | 0 <= k < |edges|
          ensures CheckExpr(edges[k].target, inner, o, fuel - 1) <==> Means(edges, edges[k].target, inner, o)
        {
          ExprDecided(edges[k].target, inner, o, fuel - 1);
        }
        IndexedFrom(s);
      case Malformed =>
    }

    lemma IndexedFrom(s: string)
      requires Valid()
      ensures forall k :: 0 <= k < |edges| ==> (k in From(s) <==> edges[k].subject == s)
    {
    }

    lemma BaseDecided(s: string, name: string, o: string, fuel: nat)
      requires Valid() && fuel >= |Nodes(edges)|
      ensures Reaches(edges, s, name, o, fuel) <==> exists any: nat :: Reaches(edges, s, name, o, any)
    {
      hide ParseRel, Valid, CheckBase, Can, Reaches, Nodes;
      forall any: nat | Reaches(edges, s, name, o, any)
        ensures Reaches(edges, s, name, o, fuel)
      {
        ReachIsCan(s, name, o, any);
        ReachIsCan(s, name, o, fuel);
        if any <= fuel {
          FuelUp(edges, s, name, o, any, fuel);
        } else {
          EnoughFuel(edges, s, name, o, fuel, any);
        }
      }
    }

    lemma ReachIsCan(s: string, name: string, o: string, fuel: nat)
      requires Valid()
      ensures Reaches(edges, s, name, o, fuel) <==> Can(edges, s, name, o, fuel)
    {
      CheckIsReach(s, name, o, fuel);
      CheckIsCan(s, name, o, fuel);
    }

    static lemma {:induction false} FuelUp(es: seq<Edge>, s: string, name: string, o: string, fuel: nat, more: nat)
      requires fuel <= more && Can(es, s, name, o, fuel)
      ensures Can(es, s, name, o, more)
      decreases more
    {
      if fuel < more {
        FuelUp(es, s, name, o, fuel, more - 1);
        OneMoreFuel(es, s, name, o, more - 1);
      }
    }

    /** tw_expand: exactly the subjects the check accepts with one more fuel, but for direct delegates. */
    method Expand(name: string, o: string, fuel: nat) returns (result: set<string>)
      requires Valid()
      ensures forall s :: s in result <==> Expands(edges, s, name, o, fuel)
      ensures forall s :: s in result || Delegate(edges, s, name, o) <==> Reaches(edges, s, name, o, fuel + 1)
      ensures ParseRel(name) != Controls ==>
        forall s :: s in result <==> CheckBase(s, ParseRel(name), name, o, fuel + 1)
    {
      hide ParseRel, CheckBase, Reaches;
      var rel := ParseRel(name);
      result := {};
      var direct := Into(o);
      var i := 0;
      while i < |direct|
        invariant 0 <= i <= |direct|
        invariant forall s :: s in result <==>
          exists j :: 0 <= j < i && edges[direct[j]].subject == s && Matches(edges[direct[j]], rel, name)
      {
        var e := edges[direct[i]];
        if Matches(e, rel, name) { result := result + {e.subject}; }
        i := i + 1;
      }
      assert forall s :: s in result <==> Holder(edges, s, name, o) by { DirectHolders(name, o, result); }
      ghost var holders := result;
      if fuel > 0 {
        i := 0;
        while i < |memberEdges|
          invariant 0 <= i <= |memberEdges|
          invariant forall s :: s in result <==>
            s in holders || exists j :: 0 <= j < i && Inherits(memberEdges[j], s, name, o, fuel)
        {
          var e := edges[memberEdges[i]];
          BaseIsCheck(e.target, name, o, fuel);
          if CheckExpr(e.target, Base(name), o, fuel) { result := result + {e.subject}; }
          i := i + 1;
        }
      }
      forall s
        ensures s in result || Delegate(edges, s, name, o) <==> Reaches(edges, s, name, o, fuel + 1)
        ensures CheckBase(s, ParseRel(name), name, o, fuel + 1) <==> Reaches(edges, s, name, o, fuel + 1)
      {
        CheckIsReach(s, name, o, fuel + 1);
        Inherited(s, name, o, fuel);
      }
      forall s ensures s in result <==> Expands(edges, s, name, o, fuel) {
        MembersExpand(s, name, o, fuel);
      }
    }

    lemma MembersExpand(s: string, name: string, o: string, fuel: nat)
      requires Valid()
      ensures Expands(edges, s, name, o, fuel) <==>
        || Holder(edges, s, name, o)
        || (fuel > 0 && exists j :: 0 <= j < |memberEdges| && Inherits(memberEdges[j], s, name, o, fuel))
    {
      hide ParseRel, CheckBase, Holder, Reaches;
      forall k | 0 <= k < |edges|
        ensures CheckBase(edges[k].target, ParseRel(name), name, o, fuel) <==>
          Reaches(edges, edges[k].target, name, o, fuel)
      {
        CheckIsReach(edges[k].target, name, o, fuel);
      }
      if k :| 0 <= k < |edges| && Step(edges, s, k) && Reaches(edges, edges[k].target, name, o, fuel) {
        NoFuelNoReach(edges, edges[k].target, name, o, fuel);
        assert k in memberEdges;
        var j :| 0 <= j < |memberEdges| && memberEdges[j] == k;
        assert Inherits(memberEdges[j], s, name, o, fuel);
      }
      if fuel > 0 {
        if j :| 0 <= j < |memberEdges| && Inherits(memberEdges[j], s, name, o, fuel) {
          assert Step(edges, s, memberEdges[j]);
        }
      }
    }

    static lemma NoFuelNoReach(es: seq<Edge>, s: string, name: string, o: string, fuel: nat)
      requires Reaches(es, s, name, o, fuel)
      ensures fuel > 0
    {
    }

    lemma BaseIsCheck(s: string, name: string, o: string, fuel: int)
      requires Valid()
      ensures CheckExpr(s, Base(name), o, fuel) <==> CheckBase(s, ParseRel(name), name, o, fuel)
    {
    }

    ghost predicate Inherits(k: nat, s: string, name: string, o: string, fuel: int)
      requires Valid()
      reads this
    {
      k < |edges| && edges[k].subject == s && CheckBase(edges[k].target, ParseRel(name), name, o, fuel)
    }

    lemma DirectHolders(name: string, o: string, result: set<string>)
      requires Valid()
      requires forall s :: s in result <==>
        exists j :: 0 <= j < |Into(o)| && edges[Into(o)[j]].subject == s
          && Matches(edges[Into(o)[j]], ParseRel(name), name)
      ensures forall s :: s in result <==> Holder(edges, s, name, o)
    {
      hide ParseRel;
      forall s | Holder(edges, s, name, o) ensures s in result {
        var k :| 0 <= k < |edges| && edges[k].subject == s && edges[k].target == o
          && Matches(edges[k], ParseRel(name), name);
        assert k in Into(o);
        var j :| 0 <= j < |Into(o)| && Into(o)[j] == k;
      }
      forall s | s in result ensures Holder(edges, s, name, o) {
        var j :| 0 <= j < |Into(o)| && edges[Into(o)[j]].subject == s
          && Matches(edges[Into(o)[j]], ParseRel(name), name);
      }
    }

    /** One more fuel: somebody who has it, or a member of a group the check accepts. */
    lemma Inherited(s: string, name: string, o: string, fuel: nat)
      requires Valid()
      ensures CheckBase(s, ParseRel(name), name, o, fuel + 1) <==>
        || Has(edges, s, name, o)
        || (fuel > 0 && exists j :: 0 <= j < |memberEdges| && Inherits(memberEdges[j], s, name, o, fuel))
    {
      hide ParseRel, CheckBase, Has;
      CheckIsCan(s, name, o, fuel + 1);
      if k: nat :| k < |edges| && Step(edges, s, k) && Can(edges, edges[k].target, name, o, fuel) {
        CheckIsCan(edges[k].target, name, o, fuel);
        var j :| 0 <= j < |memberEdges| && memberEdges[j] == k;
        assert Inherits(memberEdges[j], s, name, o, fuel);
      }
      if j :| 0 <= j < |memberEdges| && Inherits(memberEdges[j], s, name, o, fuel) {
        CheckIsCan(edges[memberEdges[j]].target, name, o, fuel);
        assert Step(edges, s, memberEdges[j]);
      }
    }

  }

  /** One delegation: the check lets the agent control the owner, and the expansion does not list them. */
  method ExpansionMissesADelegate(owner: string, agent: string, fuel: nat) returns (checked: bool, listed: set<string>)
    ensures checked && listed == {}
  {
    var g := new Graph();
    RelNames();
    var delegated, controls := "DELEGATED_TO", "CONTROLS";
    hide ParseRel, Reaches, Expands, Delegate, Graph.CheckBase, Graph.Valid;
    g.AddEdge(owner, agent, delegated);
    LoneDelegation(g.edges, owner, agent, delegated, controls, fuel);
    g.CheckIsReach(agent, controls, owner, fuel + 1);
    checked := g.CheckBase(agent, ParseRel(controls), controls, owner, fuel + 1);
    listed := g.Expand(controls, owner, fuel);
  }

  lemma RelNames()
    ensures ParseRel("DELEGATED_TO") == DelegatedTo && ParseRel("CONTROLS") == Controls
  {
  }

  lemma LoneDelegation(es: seq<Edge>, owner: string, agent: string, delegated: string, controls: string, fuel: nat)
    requires ParseRel(delegated) == DelegatedTo && ParseRel(controls) == Controls
    requires es == [Edge(owner, agent, DelegatedTo, delegated)]
    ensures Reaches(es, agent, controls, owner, fuel + 1)
    ensures forall s :: !Expands(es, s, controls, owner, fuel)
  {
    hide ParseRel;
    assert es[0].target == agent;
    assert Delegate(es, agent, controls, owner);
    assert Chain(es, agent, [], agent);
  }
}
