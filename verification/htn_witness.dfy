/**
 The goal-reachability pre-check of the planner, as a full scan and as prefix sums
 with a walk over the goal indices (thirdparty/taskweft/tw_planner.hpp).
*/
module HtnWitness {
  import opened Wrappers
  import opened HtnDomain

  datatype Witness = Witness(found: bool, certified: nat, skipped: nat)

  predicate HasMethod<S(!new)>(d: Domain<S>, name: string) {
    name in d.methods && d.methods[name] != []
  }

  /** What one call contributes: nothing, one certified or one skipped; no state involved. */
  function CallScore<S(!new)>(d: Domain<S>, c: Call): (nat, nat) {
    if c.name in d.actions then (0, 0) else if HasMethod(d, c.name) then (1, 0) else (0, 1)
  }

  /** What one task contributes in this state. An unmet multigoal counts as neither. */
  function TaskScore<S(!new)>(d: Domain<S>, s: S, t: Task): (nat, nat) {
    match t
    case Do(c) => CallScore(d, c)
    case Goal(bs) =>
      var unmet := Unmet(d, s, bs);
      if unmet == [] then (0, 0) else if HasMethod(d, unmet[0].variable) then (1, 0) else (0, 1)
    case Multi(_) => (0, 0)
  }

  /** The reference: the sums over the tasks. */
  function Certified<S(!new)>(d: Domain<S>, s: S, tasks: seq<Task>): nat {
    if tasks == [] then 0 else Certified(d, s, tasks[..|tasks| - 1]) + TaskScore(d, s, tasks[|tasks| - 1]).0
  }

  function Skipped<S(!new)>(d: Domain<S>, s: S, tasks: seq<Task>): nat {
    if tasks == [] then 0 else Skipped(d, s, tasks[..|tasks| - 1]) + TaskScore(d, s, tasks[|tasks| - 1]).1
  }

  function Scanned<S(!new)>(d: Domain<S>, s: S, tasks: seq<Task>): Witness {
    var c, k := Certified(d, s, tasks), Skipped(d, s, tasks);
    Witness(c > 0 || k == 0, c, k)
  }

  /** tw_witness_oracle_goal_reach */
  method Scan<S(!new)>(d: Domain<S>, s: S, tasks: seq<Task>) returns (w: Witness)
    ensures w == Scanned(d, s, tasks)
  {
    var certified: nat, skipped: nat, i := 0, 0, 0;
    while i < |tasks|
      invariant 0 <= i <= |tasks|
      invariant certified == Certified(d, s, tasks[..i]) && skipped == Skipped(d, s, tasks[..i])
    {
      assert tasks[..i + 1][..i] == tasks[..i];
      match tasks[i] {
        case Do(c) =>
          if c.name !in d.actions {
            if HasMethod(d, c.name) { certified := certified + 1; } else { skipped := skipped + 1; }
          }
        case Goal(bs) =>
          if !Satisfied(d, s, bs) {
            var unmet := Unmet(d, s, bs);
            if HasMethod(d, unmet[0].variable) { certified := certified + 1; } else { skipped := skipped + 1; }
          }
        case Multi(_) =>
      }
      i := i + 1;
    }
    assert tasks[..i] == tasks;
    w := Witness(certified > 0 || skipped == 0, certified, skipped);
  }

  // ---- The cached form ----

  datatype ScanCache = ScanCache(certified: seq<nat>, skipped: seq<nat>, goals: seq<nat>)

  /** The sums over the calls alone, which no state can change. */
  function StaticCertified<S(!new)>(d: Domain<S>, tasks: seq<Task>): nat {
    if tasks == [] then 0
    else StaticCertified(d, tasks[..|tasks| - 1]) +
         (if tasks[|tasks| - 1].Do? then CallScore(d, tasks[|tasks| - 1].call).0 else 0)
  }

  function StaticSkipped<S(!new)>(d: Domain<S>, tasks: seq<Task>): nat {
    if tasks == [] then 0
    else StaticSkipped(d, tasks[..|tasks| - 1]) +
         (if tasks[|tasks| - 1].Do? then CallScore(d, tasks[|tasks| - 1].call).1 else 0)
  }

  function GoalsOf(tasks: seq<Task>): (r: seq<nat>)
    ensures forall i :: 0 <= i < |r| ==> r[i] < |tasks|
  {
    if tasks == [] then []
    else GoalsOf(tasks[..|tasks| - 1]) + (if tasks[|tasks| - 1].Do? then [] else [|tasks| - 1])
  }

  /** The cache holds the static prefix sums and the places of the goals. */
  ghost predicate CacheFor<S(!new)>(d: Domain<S>, tasks: seq<Task>, c: ScanCache) {
    && |c.certified| == |c.skipped| == |tasks| + 1
    && (forall i :: 0 <= i <= |tasks| ==> c.certified[i] == StaticCertified(d, tasks[..i]))
    && (forall i :: 0 <= i <= |tasks| ==> c.skipped[i] == StaticSkipped(d, tasks[..i]))
    && c.goals == GoalsOf(tasks)
  }

  /** tw_build_witness_scan_cache */
  method BuildCache<S(!new)>(d: Domain<S>, tasks: seq<Task>) returns (c: ScanCache)
    ensures CacheFor(d, tasks, c)
  {
    hide StaticCertified, StaticSkipped, GoalsOf, CallScore, CacheTo;
    c := ScanCache([0], [0], []);
    CacheStarts(d, tasks);
    var i := 0;
    while i < |tasks|
      invariant 0 <= i <= |tasks| && CacheTo(d, tasks, c, i)
    {
      CacheGrows(d, tasks, c, i);
      var cert: nat, skip: nat := 0, 0;
      if tasks[i].Do? {
        cert, skip := ScoreCall(d, tasks[i].call);
      } else {
        c := c.(goals := c.goals + [i]);
      }
      c := c.(certified := c.certified + [c.certified[i] + cert], skipped := c.skipped + [c.skipped[i] + skip]);
      i := i + 1;
    }
    CacheEnds(d, tasks, c);
  }

  /** The cache of the first n tasks. */
  ghost predicate CacheTo<S(!new)>(d: Domain<S>, tasks: seq<Task>, c: ScanCache, n: nat) {
    && n <= |tasks| && |c.certified| == |c.skipped| == n + 1
    && (forall k :: 0 <= k <= n ==> c.certified[k] == StaticCertified(d, tasks[..k]))
    && (forall k :: 0 <= k <= n ==> c.skipped[k] == StaticSkipped(d, tasks[..k]))
    && c.goals == GoalsOf(tasks[..n])
  }

  lemma CacheStarts<S(!new)>(d: Domain<S>, tasks: seq<Task>)
    ensures CacheTo(d, tasks, ScanCache([0], [0], []), 0)
  {
    assert tasks[..0] == [];
    NothingStatic(d);
  }

  lemma CacheGrows<S(!new)>(d: Domain<S>, tasks: seq<Task>, c: ScanCache, i: nat)
    requires i < |tasks| && CacheTo(d, tasks, c, i)
    ensures |c.certified| == |c.skipped| == i + 1
    ensures var score: (nat, nat) := if tasks[i].Do? then CallScore(d, tasks[i].call) else (0, 0);
      CacheTo(d, tasks, ScanCache(c.certified + [c.certified[i] + score.0], c.skipped + [c.skipped[i] + score.1],
                                  if tasks[i].Do? then c.goals else c.goals + [i]), i + 1)
  {
    hide StaticCertified, StaticSkipped, GoalsOf, CallScore;
    StaticNext(d, tasks, i);
    assert c.goals + [] == c.goals;
  }

  lemma CacheEnds<S(!new)>(d: Domain<S>, tasks: seq<Task>, c: ScanCache)
    requires CacheTo(d, tasks, c, |tasks|)
    ensures CacheFor(d, tasks, c)
  {
    hide StaticCertified, StaticSkipped, GoalsOf;
    assert tasks[..|tasks|] == tasks;
  }

  method ScoreCall<S(!new)>(d: Domain<S>, c: Call) returns (cert: nat, skip: nat)
    ensures (cert, skip) == CallScore(d, c)
  {
    cert, skip := 0, 0;
    if c.name !in d.actions {
      if HasMethod(d, c.name) { cert := 1; } else { skip := 1; }
    }
  }

  lemma NothingStatic<S(!new)>(d: Domain<S>)
    ensures StaticCertified(d, []) == StaticSkipped(d, []) == 0 && GoalsOf([]) == []
  {
  }

  lemma StaticNext<S(!new)>(d: Domain<S>, tasks: seq<Task>, i: nat)
    requires i < |tasks|
    ensures var t := tasks[i];
      && StaticCertified(d, tasks[..i + 1]) ==
         StaticCertified(d, tasks[..i]) + (if t.Do? then CallScore(d, t.call).0 else 0)
      && StaticSkipped(d, tasks[..i + 1]) ==
         StaticSkipped(d, tasks[..i]) + (if t.Do? then CallScore(d, t.call).1 else 0)
      && GoalsOf(tasks[..i + 1]) == GoalsOf(tasks[..i]) + (if t.Do? then [] else [i])
  {
    hide CallScore;
    assert tasks[..i + 1][..i] == tasks[..i];
  }

  /** The goals' own contribution at and after `from`, over the first `n` goal indices. */
  function GoalSum<S(!new)>(d: Domain<S>, s: S, tasks: seq<Task>, goals: seq<nat>, from: nat): (nat, nat)
    requires forall i :: 0 <= i < |goals| ==> goals[i] < |tasks|
  {
    if goals == [] then (0, 0)
    else
      var rest, g := GoalSum(d, s, tasks, goals[..|goals| - 1], from), goals[|goals| - 1];
      if g < from then rest
      else (rest.0 + TaskScore(d, s, tasks[g]).0, rest.1 + TaskScore(d, s, tasks[g]).1)
  }

  /** The full sums split into the static sums and the goals' sums. */
  lemma {:induction false} SumsSplit<S(!new)>(d: Domain<S>, s: S, tasks: seq<Task>, all: seq<Task>, from: nat, n: nat)
    requires from <= n <= |all| && tasks == all[from..n]
    ensures Certified(d, s, tasks) + StaticCertified(d, all[..from]) ==
            StaticCertified(d, all[..n]) + GoalSum(d, s, all, GoalsOf(all[..n]), from).0
    ensures Skipped(d, s, tasks) + StaticSkipped(d, all[..from]) ==
            StaticSkipped(d, all[..n]) + GoalSum(d, s, all, GoalsOf(all[..n]), from).1
    decreases n
  {
    hide Certified, Skipped, StaticCertified, StaticSkipped, GoalSum, GoalsOf, CallScore, Unmet;
    if n == from {
      assert tasks == [];
      NothingSummed(d, s);
      NoGoalsBefore(d, s, all, from, n);
    } else {
      var shorter := all[from..n - 1];
      SumsSplit(d, s, shorter, all, from, n - 1);
      SumsNext(d, s, shorter, all[n - 1]);
      assert tasks == shorter + [all[n - 1]];
      StaticNext(d, all, n - 1);
      GoalNext(d, s, all, from, n - 1);
    }
  }

  lemma NothingSummed<S(!new)>(d: Domain<S>, s: S)
    ensures Certified(d, s, []) == Skipped(d, s, []) == 0
  {
  }

  lemma SumsNext<S(!new)>(d: Domain<S>, s: S, tasks: seq<Task>, t: Task)
    ensures Certified(d, s, tasks + [t]) == Certified(d, s, tasks) + TaskScore(d, s, t).0
    ensures Skipped(d, s, tasks + [t]) == Skipped(d, s, tasks) + TaskScore(d, s, t).1
  {
    hide TaskScore;
    assert (tasks + [t])[..|tasks|] == tasks;
  }

  lemma GoalNext<S(!new)>(d: Domain<S>, s: S, all: seq<Task>, from: nat, n: nat)
    requires from <= n < |all|
    ensures var was, now := GoalSum(d, s, all, GoalsOf(all[..n]), from),
      GoalSum(d, s, all, GoalsOf(all[..n + 1]), from);
      now == if all[n].Do? then was else (was.0 + TaskScore(d, s, all[n]).0, was.1 + TaskScore(d, s, all[n]).1)
  {
    hide TaskScore, CallScore, StaticCertified, StaticSkipped;
    StaticNext(d, all, n);
    var goals := GoalsOf(all[..n + 1]);
    if all[n].Do? {
      assert goals == GoalsOf(all[..n]);
    } else {
      assert goals[..|goals| - 1] == GoalsOf(all[..n]);
    }
  }

  lemma {:induction false} NoGoalsBefore<S(!new)>(d: Domain<S>, s: S, all: seq<Task>, from: nat, n: nat)
    requires n <= from <= |all|
    ensures GoalSum(d, s, all, GoalsOf(all[..n]), from) == (0, 0)
    decreases n
  {
    hide TaskScore, CallScore, StaticCertified, StaticSkipped;
    if n > 0 {
      NoGoalsBefore(d, s, all, from, n - 1);
      StaticNext(d, all, n - 1);
      var goals := GoalsOf(all[..n]);
      if all[n - 1].Do? {
        assert goals == GoalsOf(all[..n - 1]);
      } else {
        assert goals[..|goals| - 1] == GoalsOf(all[..n - 1]);
      }
    } else {
      assert all[..0] == [];
    }
  }

  method ScoreGoal<S(!new)>(d: Domain<S>, s: S, t: Task) returns (cert: nat, skip: nat)
    requires !t.Do?
    ensures (cert, skip) == TaskScore(d, s, t)
  {
    cert, skip := 0, 0;
    match t {
      case Goal(bs) =>
        if !Satisfied(d, s, bs) {
          var unmet := Unmet(d, s, bs);
          if HasMethod(d, unmet[0].variable) { cert := 1; } else { skip := 1; }
        }
      case Multi(_) =>
    }
  }

  /** The walk over the goal indices, judging each goal in the current state. */
  method WalkGoals<S(!new)>(d: Domain<S>, s: S, tasks: seq<Task>, goals: seq<nat>, from: nat)
    returns (certified: nat, skipped: nat)
    requires goals == GoalsOf(tasks)
    ensures (certified, skipped) == GoalSum(d, s, tasks, goals, from)
  {
    hide TaskScore, GoalsOf;
    certified, skipped := 0, 0;
    var i := 0;
    while i < |goals|
      invariant 0 <= i <= |goals|
      invariant (certified, skipped) == GoalSum(d, s, tasks, goals[..i], from)
    {
      assert goals[..i + 1][..i] == goals[..i];
      var g := goals[i];
      if g >= from {
        GoalsAreGoals(tasks, i);
        var cert, skip := ScoreGoal(d, s, tasks[g]);
        certified, skipped := certified + cert, skipped + skip;
      }
      i := i + 1;
    }
    assert goals[..i] == goals;
  }

  /** tw_witness_oracle_goal_reach_cached: the same answer as scanning the remaining tasks. */
  method ScanCached<S(!new)>(d: Domain<S>, s: S, tasks: seq<Task>, c: ScanCache, from: nat) returns (w: Witness)
    requires CacheFor(d, tasks, c) && from <= |tasks|
    ensures w == Scanned(d, s, tasks[from..])
  {
    SumsSplit(d, s, tasks[from..], tasks, from, |tasks|);
    assert tasks[..|tasks|] == tasks;
    StaticGrows(d, tasks, from, |tasks|);
    var goalsCertified, goalsSkipped := WalkGoals(d, s, tasks, c.goals, from);
    var certified: nat := c.certified[|tasks|] - c.certified[from] + goalsCertified;
    var skipped: nat := c.skipped[|tasks|] - c.skipped[from] + goalsSkipped;
    w := Witness(certified > 0 || skipped == 0, certified, skipped);
  }

  lemma {:induction false} GoalsAreGoals(tasks: seq<Task>, i: nat)
    requires i < |GoalsOf(tasks)|
    ensures !tasks[GoalsOf(tasks)[i]].Do?
  {
    if i < |GoalsOf(tasks[..|tasks| - 1])| {
      GoalsAreGoals(tasks[..|tasks| - 1], i);
    }
  }

  lemma {:induction false} StaticGrows<S(!new)>(d: Domain<S>, tasks: seq<Task>, from: nat, n: nat)
    requires from <= n <= |tasks|
    ensures StaticCertified(d, tasks[..from]) <= StaticCertified(d, tasks[..n])
    ensures StaticSkipped(d, tasks[..from]) <= StaticSkipped(d, tasks[..n])
    decreases n
  {
    if from < n {
      assert tasks[..n][..n - 1] == tasks[..n - 1];
      StaticGrows(d, tasks, from, n - 1);
    }
  }
}
