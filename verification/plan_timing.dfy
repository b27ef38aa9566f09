/**
 The network as it is built, point by point, and the timing of a sequential plan
 (thirdparty/taskweft/tw_temporal.hpp).
*/
module PlanTiming {
  import opened Wrappers
  import opened TemporalNetwork
  import opened Durations
  import HtnDomain

  /** lo <= time(to) - time(from) <= hi; a missing side is unbounded. */
  datatype Constraint = Constraint(from: string, to: string, lo: Option<int>, hi: Option<int>)

  function UpTo(hi: Option<int>): Ext { if hi.Some? then Fin(hi.value) else Inf }
  function Back(lo: Option<int>): Ext { if lo.Some? then Fin(-lo.value) else Inf }

  /** These times, by point number, keep this constraint. */
  predicate Kept(t: seq<int>, idx: map<string, nat>, c: Constraint) {
    && c.from in idx && c.to in idx && idx[c.from] < |t| && idx[c.to] < |t|
    && var gap := t[idx[c.to]] - t[idx[c.from]];
       (c.hi.Some? ==> gap <= c.hi.value) && (c.lo.Some? ==> c.lo.value <= gap)
  }

  ghost predicate KeepsAll(t: seq<int>, idx: map<string, nat>, cs: seq<Constraint>) {
    forall i :: 0 <= i < |cs| ==> Kept(t, idx, cs[i])
  }

  /** The matrix says exactly what the constraints say. */
  ghost predicate Agrees(d: Matrix, n: nat, idx: map<string, nat>, cs: seq<Constraint>) {
    && Square(d, n)
    && forall t: seq<int> | |t| == n :: Meets(t, d) <==> KeepsAll(t, idx, cs)
  }

  /** A matrix with one more point, bound to nothing but itself. */
  ghost predicate Widened(d: Matrix, d': Matrix, n: nat) {
    && Square(d, n) && Square(d', n + 1)
    && (forall i, j :: 0 <= i < n && 0 <= j < n ==> d'[i][j] == d[i][j])
    && (forall i :: 0 <= i < n ==> d'[i][n] == Inf && d'[n][i] == Inf)
    && d'[n][n] == Fin(0)
  }

  lemma WidenedMeets(d: Matrix, d': Matrix, n: nat, t: seq<int>)
    requires Widened(d, d', n) && |t| == n + 1
    ensures Meets(t, d') <==> Meets(t[..n], d)
  {
    if Meets(t, d') {
      forall i, j | 0 <= i < n && 0 <= j < n ensures Within(t[..n], d, i, j) { assert Within(t, d', i, j); }
    }
    if Meets(t[..n], d) {
      forall i, j | 0 <= i <= n && 0 <= j <= n ensures Within(t, d', i, j) {
        if i < n && j < n { assert Within(t[..n], d, i, j); }
      }
    }
  }

  lemma WidenedAgrees(d: Matrix, d': Matrix, n: nat, idx: map<string, nat>, p: string, cs: seq<Constraint>)
    requires Agrees(d, n, idx, cs) && Widened(d, d', n) && p !in idx
    requires forall i :: 0 <= i < |cs| ==> cs[i].from in idx && cs[i].to in idx
    requires forall q <- idx :: idx[q] < n
    ensures Agrees(d', n + 1, idx[p := n], cs)
  {
    hide Meets;
    forall t: seq<int> | |t| == n + 1
      ensures Meets(t, d') <==> KeepsAll(t, idx[p := n], cs)
    {
      WidenedMeets(d, d', n, t);
      assert KeepsAll(t[..n], idx, cs) <==> KeepsAll(t, idx[p := n], cs) by {
        assert forall i :: 0 <= i < |cs| ==> (Kept(t[..n], idx, cs[i]) <==> Kept(t, idx[p := n], cs[i]));
      }
    }
  }

  /** One entry tightened to a bound. */
  function Bounded(d: Matrix, i: nat, j: nat, b: Ext): Matrix
    requires Square(d, |d|) && i < |d| && j < |d|
  {
    if Less(b, d[i][j]) then d[i := d[i][j := b]] else d
  }

  lemma BoundedMeets(d: Matrix, i: nat, j: nat, b: Ext, t: seq<int>)
    requires Square(d, |t|) && i < |t| && j < |t|
    ensures Square(Bounded(d, i, j, b), |t|)
    ensures Meets(t, Bounded(d, i, j, b)) <==> Meets(t, d) && AtMost(Fin(t[j] - t[i]), b)
  {
    var d' := Bounded(d, i, j, b);
    if Meets(t, d') {
      forall x, y | 0 <= x < |t| && 0 <= y < |t| ensures Within(t, d, x, y)
        { assert Within(t, d', x, y) && Within(t, d', i, j); }
      assert Within(t, d', i, j);
    }
    if Meets(t, d) && AtMost(Fin(t[j] - t[i]), b) {
      forall x, y | 0 <= x < |t| && 0 <= y < |t| ensures Within(t, d', x, y) { assert Within(t, d, x, y); }
    }
  }

  lemma ConstraintAgrees(d: Matrix, n: nat, idx: map<string, nat>, cs: seq<Constraint>, c: Constraint)
    requires Agrees(d, n, idx, cs) && c.from in idx && c.to in idx && idx[c.from] < n && idx[c.to] < n
    ensures Square(Bounded(d, idx[c.from], idx[c.to], UpTo(c.hi)), n)
    ensures Agrees(Bounded(Bounded(d, idx[c.from], idx[c.to], UpTo(c.hi)), idx[c.to], idx[c.from], Back(c.lo)), n,
      idx, cs + [c])
  {
    hide Meets, Bounded;
    var f, e := idx[c.from], idx[c.to];
    var d1 := Bounded(d, f, e, UpTo(c.hi));
    BoundedMeets(d, f, e, UpTo(c.hi), seq(n, _ => 0));
    var d2 := Bounded(d1, e, f, Back(c.lo));
    BoundedMeets(d1, e, f, Back(c.lo), seq(n, _ => 0));
    forall t: seq<int> | |t| == n
      ensures Meets(t, d2) <==> KeepsAll(t, idx, cs + [c])
    {
      BoundedMeets(d, f, e, UpTo(c.hi), t);
      BoundedMeets(d1, e, f, Back(c.lo), t);
      OneMore(t, idx, cs, c);
    }
  }

  lemma OneMore(t: seq<int>, idx: map<string, nat>, cs: seq<Constraint>, c: Constraint)
    ensures KeepsAll(t, idx, cs + [c]) <==> KeepsAll(t, idx, cs) && Kept(t, idx, c)
  {
    if KeepsAll(t, idx, cs + [c]) {
      assert (cs + [c])[|cs|] == c;
      forall i | 0 <= i < |cs| ensures Kept(t, idx, cs[i]) { assert (cs + [c])[i] == cs[i]; }
    }
  }

  class Stn {
    var points: seq<string>
    var idx: map<string, nat>
    var dist: Matrix
    ghost var added: seq<Constraint>

    ghost predicate Valid()
      reads this
    {
      && (forall i :: 0 <= i < |points| ==> points[i] in idx && idx[points[i]] == i)
      && (forall p <- idx :: idx[p] < |points| && points[idx[p]] == p)
      && (forall i :: 0 <= i < |added| ==> added[i].from in idx && added[i].to in idx)
      && Agrees(dist, |points|, idx, added)
      && (forall i :: 0 <= i < |points| ==> dist[i][i].Fin?)
    }

    constructor ()
      ensures Valid() && points == [] && idx == map[] && added == []
    {
      points, idx, dist, added := [], map[], [], [];
      new;
      assert forall t: seq<int> | |t| == 0 :: Meets(t, dist) && KeepsAll(t, idx, added);
    }

    /** add_point: a name is given one number, once. */
    method AddPoint(p: string)
      requires Valid()
      modifies this
      ensures Valid() && added == old(added)
      ensures p in old(idx) ==> points == old(points) && idx == old(idx)
      ensures p !in old(idx) ==> points == old(points) + [p] && idx == old(idx)[p := |old(points)|]
    {
      hide Agrees, Meets;
      if p in idx { return; }
      var n := |points|;
      ghost var before := dist;
      AgreesSquare(dist, n, idx, added);
      var i := 0;
      while i < n
        invariant 0 <= i <= n == |points| && |dist| == n && points == old(points) && idx == old(idx)
        invariant added == old(added)
        invariant forall x :: 0 <= x < i ==> dist[x] == before[x] + [Inf]
        invariant forall x :: i <= x < n ==> dist[x] == before[x]
      {
        dist := dist[i := dist[i] + [Inf]];
        i := i + 1;
      }
      dist := dist + [seq(n, _ => Inf) + [Fin(0)]];
      assert Widened(before, dist, n);
      WidenedAgrees(before, dist, n, idx, p, added);
      idx := idx[p := n];
      points := points + [p];
    }

    /** add_constraint */
    method AddConstraint(from: string, to: string, lo: Option<int>, hi: Option<int>)
      requires Valid()
      modifies this
      ensures Valid() && added == old(added) + [Constraint(from, to, lo, hi)]
      ensures from in old(idx) && to !in old(idx) ==>
        points == old(points) + [to] && idx == old(idx)[to := |old(points)|]
    {
      hide Valid;
      AddPoint(from);
      AddPoint(to);
      Bind(Constraint(from, to, lo, hi));
    }

    /** Tighten the two entries of a constraint between points already there. */
    method Bind(c: Constraint)
      requires Valid() && c.from in idx && c.to in idx
      modifies this`dist, this`added
      ensures Valid() && added == old(added) + [c]
    {
      hide Agrees, Meets, Bounded;
      var f, e := idx[c.from], idx[c.to];
      ConstraintAgrees(dist, |points|, idx, added, c);
      AgreesSquare(dist, |points|, idx, added);
      StaysFinite(dist, |points|, f, e, UpTo(c.hi));
      dist := Bounded(dist, f, e, UpTo(c.hi));
      StaysFinite(dist, |points|, e, f, Back(c.lo));
      dist := Bounded(dist, e, f, Back(c.lo));
      added := added + [c];
    }

    static lemma StaysFinite(d: Matrix, n: nat, i: nat, j: nat, b: Ext)
      requires Square(d, n) && i < n && j < n && forall x :: 0 <= x < n ==> d[x][x].Fin?
      ensures var d' := Bounded(d, i, j, b); Square(d', n) && forall x :: 0 <= x < n ==> d'[x][x].Fin?
    {
    }

    static lemma AgreesSquare(d: Matrix, n: nat, idx: map<string, nat>, cs: seq<Constraint>)
      requires Agrees(d, n, idx, cs)
      ensures Square(d, n)
    {
    }

    /** consistent: true exactly when some times keep every constraint ever added. */
    method Consistent() returns (ok: bool)
      requires Valid()
      ensures ok <==> exists t: seq<int> :: |t| == |points| && KeepsAll(t, idx, added)
    {
      hide Meets, KeepsAll;
      ok := Decide(dist, |points|);
      if ok {
        ghost var t: seq<int> :| |t| == |points| && Meets(t, dist);
        assert KeepsAll(t, idx, added);
      } else {
        forall t: seq<int> | |t| == |points| ensures !KeepsAll(t, idx, added) {
          assert !Meets(t, dist);
        }
      }
    }
  }

  // ---- Timing a plan ----

  datatype Step = Step(action: string, duration: string, start: string, end: string)
  datatype Timing = Timing(consistent: bool, total: string, origin: string, steps: seq<Step>)

  /** The duration of an action; none, or one that cannot be read, counts as nothing. */
  function DurationOf(durations: map<string, string>, name: string): (ms: nat) {
    if name in durations && Parsed(durations[name]) >= 0 then Parsed(durations[name]) else 0
  }

  /** The duration as it is reported: as it was given, or as nothing. */
  function DurationText(durations: map<string, string>, name: string): string {
    if name in durations && durations[name] != "" then durations[name] else "PT0S"
  }

  /** How long the plan takes. */
  function Span(durations: map<string, string>, plan: HtnDomain.Plan): nat {
    if plan == [] then 0
    else Span(durations, plan[..|plan| - 1]) + DurationOf(durations, plan[|plan| - 1].name)
  }

  function StartName(i: nat): string { "a" + Show(i) + "_start" }
  function EndName(i: nat): string { "a" + Show(i) + "_end" }
  function PrevEnd(i: nat): string { if i == 0 then "t0" else EndName(i - 1) }

  /** The points of the first i steps. */
  ghost predicate Names(keys: set<string>, i: nat) {
    forall p :: p in keys <==> p == "t0" || (exists j: nat :: j < i && (p == StartName(j) || p == EndName(j)))
  }

  lemma NamesApart(i: nat, j: nat)
    ensures StartName(i) == StartName(j) ==> i == j
    ensures EndName(i) == EndName(j) ==> i == j
    ensures StartName(i) != EndName(j) && StartName(i) != "t0" && EndName(i) != "t0"
  {
    var (si, sj, ei, ej) := (StartName(i), StartName(j), EndName(i), EndName(j));
    hide Show;
    assert si[|si| - 1] == 't' && ej[|ej| - 1] == 'd' && si[0] == 'a' && ei[0] == 'a' && "t0"[0] == 't';
    if si == sj { assert si[1..|si| - 6] == Show(i) && sj[1..|sj| - 6] == Show(j); }
    if ei == ej { assert ei[1..|ei| - 4] == Show(i) && ej[1..|ej| - 4] == Show(j); }
  }

  lemma NewNames(keys: set<string>, i: nat)
    requires Names(keys, i)
    ensures StartName(i) !in keys && EndName(i) !in keys + {StartName(i)}
    ensures PrevEnd(i) in keys && Names(keys + {StartName(i)} + {EndName(i)}, i + 1)
  {
    hide StartName, EndName;
    forall j: nat | j < i ensures StartName(i) !in {StartName(j), EndName(j), "t0"}
      && EndName(i) !in {StartName(j), EndName(j), "t0"} {
      NamesApart(i, j);
      NamesApart(j, i);
    }
    NamesApart(i, i);
  }

  /** Times for one more point, an exact distance after one already there. */
  lemma Follows(t: seq<int>, idx: map<string, nat>, cs: seq<Constraint>, from: string, to: string, ms: int)
    requires KeepsAll(t, idx, cs) && from in idx && to !in idx && idx[from] < |t|
    requires forall i :: 0 <= i < |cs| ==> cs[i].from in idx && cs[i].to in idx
    ensures KeepsAll(t + [t[idx[from]] + ms], idx[to := |t|], cs + [Constraint(from, to, Some(ms), Some(ms))])
  {
    var t', idx' := t + [t[idx[from]] + ms], idx[to := |t|];
    forall i | 0 <= i < |cs| ensures Kept(t', idx', cs[i]) { assert Kept(t, idx, cs[i]); }
  }

  /**
   tw_check_temporal: the network of a sequential plan is always consistent, and the times
   reported are the running sums of the durations.
  */
  method CheckTemporal(plan: HtnDomain.Plan, durations: map<string, string>, origin: string) returns (r: Timing)
    ensures r.consistent && r.origin == origin && |r.steps| == |plan|
    ensures Parsed(r.total) == Span(durations, plan)
    ensures var at := if Parsed(origin) < 0 then 0 else Parsed(origin);
      forall i :: 0 <= i < |plan| ==> StepAt(r.steps[i], plan, durations, at, i)
    ensures plan == [] ==> Parsed(r.total) == 0
    ensures plan != [] ==> Sequential(r, if Parsed(origin) < 0 then 0 else Parsed(origin))
    ensures forall i :: 0 <= i < |plan| ==>
      Takes(durations, plan[i].name, Parsed(r.steps[i].end) - Parsed(r.steps[i].start))
  {
    hide Parsed, Names, StartName, EndName, KeepsAll, Span, Stn.Valid, DurationText, DurationOf, Sequential,
         Takes;
    var at := Parse(origin);
    if at < 0 { at := 0; }
    if plan == [] {
      SpanZero(durations);
      var zero := Format(0);
      return Timing(true, zero, origin, []);
    }
    var stn := new Stn();
    stn.AddPoint("t0");
    var steps, prev, total, i := [], "t0", 0, 0;
    ghost var t := [0];
    FirstPoint(stn.idx);
    SpanZero(durations);
    assert plan[..0] == [];
    while i < |plan|
      invariant 0 <= i <= |plan| == |plan| && |steps| == i && prev == PrevEnd(i) && total == Span(durations, plan[..i])
      invariant stn.Valid() && fresh(stn) && Names(stn.idx.Keys, i) && |t| == |stn.points|
      invariant KeepsAll(t, stn.idx, stn.added)
      invariant forall x :: 0 <= x < i ==> StepAt(steps[x], plan, durations, at, x)
    {
      var ms, step := TimeStep(plan[i].name, durations, at + total);
      steps := steps + [step];
      SpanNext(durations, plan, i);
      total := total + ms;
      NewNames(stn.idx.Keys, i);
      t := Extend(stn, t, prev, StartName(i), 0);
      t := Extend(stn, t, StartName(i), EndName(i), ms);
      prev := EndName(i);
      i := i + 1;
    }
    assert plan[..i] == plan;
    var ok := stn.Consistent();
    var totalIso := Format(total);
    r := Timing(ok, totalIso, origin, steps);
    InSequence(r, plan, durations, at);
  }

  /** One step: how long it takes, and how it is reported when it starts at this time. */
  method TimeStep(name: string, durations: map<string, string>, at: nat) returns (ms: nat, step: Step)
    ensures ms == DurationOf(durations, name)
    ensures step.action == name && step.duration == DurationText(durations, name)
    ensures Parsed(step.start) == at && Parsed(step.end) == at + ms
  {
    hide Parsed;
    ms := 0;
    var text := "";
    if name in durations {
      text := durations[name];
      var parsed := Parse(text);
      if parsed >= 0 { ms := parsed; }
    }
    var start := Format(at);
    var end := Format(at + ms);
    step := Step(name, if text == "" then "PT0S" else text, start, end);
  }

  /** One exact constraint to a new point, and times that keep it. */
  method Extend(stn: Stn, ghost t: seq<int>, from: string, to: string, ms: int) returns (ghost t': seq<int>)
    requires stn.Valid() && from in stn.idx && to !in stn.idx && |t| == |stn.points| && KeepsAll(t, stn.idx, stn.added)
    modifies stn
    ensures stn.Valid() && stn.idx.Keys == old(stn.idx).Keys + {to} && |t'| == |stn.points|
    ensures KeepsAll(t', stn.idx, stn.added)
  {
    hide KeepsAll, Agrees;
    Follows(t, stn.idx, stn.added, from, to, ms);
    t' := t + [t[stn.idx[from]] + ms];
    stn.AddConstraint(from, to, Some(ms), Some(ms));
  }

  /** Step i starts when the steps before it end, and ends its own duration later. */
  predicate StepAt(s: Step, plan: HtnDomain.Plan, durations: map<string, string>, origin: nat, i: nat)
    requires i < |plan|
  {
    && s.action == plan[i].name && s.duration == DurationText(durations, plan[i].name)
    && Parsed(s.start) == origin + Span(durations, plan[..i])
    && Parsed(s.end) == origin + Span(durations, plan[..i + 1])
  }

  /** The first step starts at the origin, each next one where the one before ends, and the total is to the last end. */
  ghost predicate Sequential(r: Timing, origin: int)
    requires r.steps != []
  {
    && Parsed(r.steps[0].start) == origin
    && (forall i :: 0 <= i < |r.steps| - 1 ==> Parsed(r.steps[i + 1].start) == Parsed(r.steps[i].end))
    && Parsed(r.total) == Parsed(r.steps[|r.steps| - 1].end) - origin
  }

  /** An action takes the value of the duration its text is, and nothing if it has none or the text is none. */
  ghost predicate Takes(durations: map<string, string>, name: string, ms: int) {
    if name in durations && exists ps :: IsTextOf(durations[name], ps)
    then forall ps :: IsTextOf(durations[name], ps) ==> ms == Value(ps)
    else ms == 0
  }

  lemma TextNotNegative(dur: string, ps: seq<Part>)
    requires IsTextOf(dur, ps)
    ensures Value(ps) >= 0
  {
    CanonicalNotNegative(Start, ps);
  }

  lemma DurationTaken(durations: map<string, string>, name: string)
    ensures Takes(durations, name, DurationOf(durations, name))
  {
    hide Parsed, IsTextOf, Value;
    if name in durations {
      var dur := durations[name];
      forall ps | IsTextOf(dur, ps) ensures Parsed(dur) == Value(ps) && Value(ps) >= 0 {
        TextIsRead(dur, ps);
        TextNotNegative(dur, ps);
      }
      AcceptsExactlyCanonical(dur, Parsed(dur));
    }
  }

  lemma InSequence(r: Timing, plan: HtnDomain.Plan, durations: map<string, string>, origin: nat)
    requires |r.steps| == |plan| && Parsed(r.total) == Span(durations, plan)
    requires forall i :: 0 <= i < |plan| ==> StepAt(r.steps[i], plan, durations, origin, i)
    ensures plan != [] ==> Sequential(r, origin)
    ensures forall i :: 0 <= i < |plan| ==>
      Takes(durations, plan[i].name, Parsed(r.steps[i].end) - Parsed(r.steps[i].start))
  {
    hide Parsed, Span, DurationOf, Takes, DurationText;
    SpanZero(durations);
    if plan != [] {
      assert plan[..0] == [] && plan[..|plan|] == plan;
      assert StepAt(r.steps[0], plan, durations, origin, 0);
      assert StepAt(r.steps[|plan| - 1], plan, durations, origin, |plan| - 1);
    }
    forall i | 0 <= i < |plan|
      ensures Takes(durations, plan[i].name, Parsed(r.steps[i].end) - Parsed(r.steps[i].start))
    {
      SpanNext(durations, plan, i);
      DurationTaken(durations, plan[i].name);
      assert StepAt(r.steps[i], plan, durations, origin, i);
    }
    forall i | 0 <= i < |plan| - 1 ensures Parsed(r.steps[i + 1].start) == Parsed(r.steps[i].end) {
      assert StepAt(r.steps[i], plan, durations, origin, i) && StepAt(r.steps[i + 1], plan, durations, origin, i + 1);
    }
  }

  lemma SpanZero(durations: map<string, string>)
    ensures Span(durations, []) == 0
  {
  }

  lemma SpanNext(durations: map<string, string>, plan: HtnDomain.Plan, i: nat)
    requires i < |plan|
    ensures Span(durations, plan[..i + 1]) == Span(durations, plan[..i]) + DurationOf(durations, plan[i].name)
  {
    assert plan[..i + 1][..i] == plan[..i];
  }

  lemma FirstPoint(idx: map<string, nat>)
    requires idx == map["t0" := 0]
    ensures Names(idx.Keys, 0) && KeepsAll([0], idx, [])
  {
  }
}
