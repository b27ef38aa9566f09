/**
 The simple temporal network (thirdparty/taskweft/tw_temporal.hpp): a matrix of
 bounds on time differences, and the all-pairs relaxation that decides whether any
 times meet every constraint. Times are exact integers.
*/
module TemporalNetwork {
  /** A bound on a difference; Inf bounds nothing. */
  datatype Ext = Fin(v: int) | Inf

  predicate Less(a: Ext, b: Ext) {
    a.Fin? && (b.Inf? || a.v < b.v)
  }

  function Plus(a: Ext, b: Ext): Ext {
    if a.Inf? || b.Inf? then Inf else Fin(a.v + b.v)
  }

  function Min(a: Ext, b: Ext): Ext {
    if Less(a, b) then a else b
  }

  predicate AtMost(a: Ext, b: Ext) {
    !Less(b, a)
  }

  type Matrix = seq<seq<Ext>>

  predicate Square(d: Matrix, n: nat) {
    |d| == n && forall i :: 0 <= i < n ==> |d[i]| == n
  }

  /** These times keep every difference within its bound. */
  ghost predicate Meets(t: seq<int>, d: Matrix)
    requires Square(d, |t|)
  {
    forall i, j :: 0 <= i < |t| && 0 <= j < |t| ==> Within(t, d, i, j)
  }

  predicate Within(t: seq<int>, d: Matrix, i: nat, j: nat)
    requires Square(d, |t|) && i < |t| && j < |t|
  {
    AtMost(Fin(t[j] - t[i]), d[i][j])
  }

  // ---- Relaxation ----

  /** Entry (i, j) of d is replaced by the way round through k, if that is tighter. */
  function Via(d: Matrix, k: nat, i: nat, j: nat): Ext
    requires Square(d, |d|) && k < |d| && i < |d| && j < |d|
  {
    Min(Plus(d[i][k], d[k][j]), d[i][j])
  }

  /** d is no looser than `was`, and no times that meet `was` are lost. */
  ghost predicate Tightened(was: Matrix, d: Matrix, n: nat) {
    && Square(was, n) && Square(d, n)
    && (forall i, j :: 0 <= i < n && 0 <= j < n ==> AtMost(d[i][j], was[i][j]))
    && (forall t: seq<int> | |t| == n && Meets(t, was) :: Meets(t, d))
  }

  /** The closure so far: the way round through any k below m is never tighter. */
  ghost predicate Closed(d: Matrix, n: nat, m: nat) {
    && Square(d, n) && m <= n
    && forall k, i, j :: 0 <= k < m && 0 <= i < n && 0 <= j < n ==> NoShortcut(d, k, i, j)
  }

  /** Going through k is no tighter. */
  predicate NoShortcut(d: Matrix, k: nat, i: nat, j: nat)
    requires Square(d, |d|) && k < |d| && i < |d| && j < |d|
  {
    AtMost(d[i][j], Plus(d[i][k], d[k][j]))
  }

  ghost predicate NegativeLoop(d: Matrix) {
    exists i :: 0 <= i < |d| && i < |d[i]| && Less(d[i][i], Fin(0))
  }

  lemma TightenOne(d: Matrix, n: nat, k: nat, i: nat, j: nat)
    requires Square(d, n) && k < n && i < n && j < n
    ensures Tightened(d, d[i := d[i][j := Via(d, k, i, j)]], n)
  {
    var d' := d[i := d[i][j := Via(d, k, i, j)]];
    forall t: seq<int> | |t| == n && Meets(t, d)
      ensures Meets(t, d')
    {
      assert Within(t, d, i, k) && Within(t, d, k, j) && Within(t, d, i, j);
      forall x, y | 0 <= x < n && 0 <= y < n ensures Within(t, d', x, y) { assert Within(t, d, x, y); }
    }
  }

  lemma TightenedOn(a: Matrix, b: Matrix, c: Matrix, n: nat)
    requires Tightened(a, b, n) && Tightened(b, c, n)
    ensures Tightened(a, c, n)
  {
    forall i, j | 0 <= i < n && 0 <= j < n
      ensures AtMost(c[i][j], a[i][j])
    {
      assert AtMost(c[i][j], b[i][j]) && AtMost(b[i][j], a[i][j]);
    }
  }

  /** One row of one phase. Unless k is on a negative loop, the row is exactly the row of ways round through k. */
  method RelaxRow(was: Matrix, n: nat, k: nat, i: nat) returns (d: Matrix)
    requires Square(was, n) && k < n && i < n
    ensures Tightened(was, d, n)
    ensures forall x :: 0 <= x < n && x != i ==> d[x] == was[x]
    ensures !Less(was[k][k], Fin(0)) ==> forall j :: 0 <= j < n ==> d[i][j] == Via(was, k, i, j)
  {
    hide Tightened;
    d := was;
    NothingTightened(was, n);
    if d[i][k] == Inf { return; }
    var j := 0;
    while j < n
      invariant 0 <= j <= n && Square(d, n) && Tightened(was, d, n)
      invariant forall x :: 0 <= x < n && x != i ==> d[x] == was[x]
      invariant forall y :: j <= y < n ==> d[i][y] == was[i][y]
      invariant d[i][k].Fin?
      invariant !Less(was[k][k], Fin(0)) ==> d[i][k] == was[i][k] && d[k][k] == was[k][k]
      invariant !Less(was[k][k], Fin(0)) ==> forall y :: 0 <= y < j ==> d[i][y] == Via(was, k, i, y)
      invariant !Less(was[k][k], Fin(0)) && i == k ==> d[k] == was[k]
    {
      ghost var before := d;
      TightenOne(d, n, k, i, j);
      if d[k][j] != Inf {
        var via := Fin(d[i][k].v + d[k][j].v);
        if Less(via, d[i][j]) { d := d[i := d[i][j := via]]; }
      }
      if d == before {
        assert before[i][j := before[i][j]] == before[i] && before[i := before[i]] == before;
      }
      TightenedOn(was, before, d, n);
      j := j + 1;
    }
  }

  lemma NothingTightened(d: Matrix, n: nat)
    requires Square(d, n)
    ensures Tightened(d, d, n)
  {
  }

  /** Phase k: every row. */
  method RelaxPhase(was: Matrix, n: nat, k: nat) returns (d: Matrix)
    requires Square(was, n) && k < n
    ensures Tightened(was, d, n)
    ensures !Less(was[k][k], Fin(0)) ==> forall i, j :: 0 <= i < n && 0 <= j < n ==> d[i][j] == Via(was, k, i, j)
  {
    hide Tightened;
    d := was;
    NothingTightened(was, n);
    var i := 0;
    while i < n
      invariant 0 <= i <= n && Square(d, n) && Tightened(was, d, n)
      invariant forall x :: i <= x < n ==> d[x] == was[x]
      invariant !Less(was[k][k], Fin(0)) ==> d[k] == was[k]
      invariant !Less(was[k][k], Fin(0)) ==> forall x, y :: 0 <= x < i && 0 <= y < n ==> d[x][y] == Via(was, k, x, y)
    {
      ghost var before := d;
      d := RelaxRow(d, n, k, i);
      TightenedSquare(before, d, n);
      TightenedOn(was, before, d, n);
      assert !Less(was[k][k], Fin(0)) && i == k ==> d[k] == was[k];
      i := i + 1;
    }
  }

  lemma TightenedSquare(a: Matrix, b: Matrix, n: nat)
    requires Tightened(a, b, n)
    ensures Square(b, n)
  {
  }

  /** A whole phase without a negative loop at k closes the matrix under k as well. */
  lemma PhaseCloses(was: Matrix, d: Matrix, n: nat, k: nat)
    requires Closed(was, n, k) && k < n && Square(d, n) && !Less(was[k][k], Fin(0))
    requires forall i, j :: 0 <= i < n && 0 <= j < n ==> d[i][j] == Via(was, k, i, j)
    ensures Closed(d, n, k + 1)
  {
    forall m, i, j | 0 <= m < k + 1 && 0 <= i < n && 0 <= j < n
      ensures NoShortcut(d, m, i, j)
    {
      PhaseClosesAt(was, d, n, k, m, i, j);
    }
  }

  lemma PhaseClosesAt(was: Matrix, d: Matrix, n: nat, k: nat, m: nat, i: nat, j: nat)
    requires Closed(was, n, k) && k < n && Square(d, n) && !Less(was[k][k], Fin(0)) && m <= k && i < n && j < n
    requires forall i, j :: 0 <= i < n && 0 <= j < n ==> d[i][j] == Via(was, k, i, j)
    ensures NoShortcut(d, m, i, j)
  {
    assert d[i][j] == Via(was, k, i, j) && d[i][m] == Via(was, k, i, m) && d[m][j] == Via(was, k, m, j);
    if m < k {
      assert NoShortcut(was, m, i, j) && NoShortcut(was, m, k, j) && NoShortcut(was, m, i, k)
        && NoShortcut(was, m, k, k);
    }
  }

  // ---- From a closed matrix to times ----

  /** The tightest bound on point j from any of the first m points. */
  function Earliest(d: Matrix, m: nat, j: nat): (r: Ext)
    requires Square(d, |d|) && m <= |d| && j < |d|
    ensures forall i :: 0 <= i < m ==> AtMost(r, d[i][j])
    ensures r.Fin? ==> exists i :: 0 <= i < m && d[i][j] == r
  {
    if m == 0 then Inf else Min(d[m - 1][j], Earliest(d, m - 1, j))
  }

  /** A closed matrix with no negative loop is met: every point at its tightest bound. */
  lemma ClosedIsMet(d: Matrix, n: nat) returns (t: seq<int>)
    requires Closed(d, n, n) && forall i :: 0 <= i < n ==> d[i][i].Fin?
    ensures |t| == n && Meets(t, d)
  {
    hide Closed, Earliest;
    assert Square(d, n) by { ClosedSquare(d, n); }
    t := seq(n, j requires 0 <= j < n => Time(d, j));
    forall i, j | 0 <= i < n && 0 <= j < n
      ensures Within(t, d, i, j)
    {
      TimesApart(d, n, i, j);
    }
  }

  function Time(d: Matrix, j: nat): int
    requires Square(d, |d|) && j < |d|
  {
    if Earliest(d, |d|, j).Fin? then Earliest(d, |d|, j).v else 0
  }

  lemma ClosedSquare(d: Matrix, n: nat)
    requires Closed(d, n, n)
    ensures Square(d, n)
  {
  }

  lemma TimesApart(d: Matrix, n: nat, i: nat, j: nat)
    requires Closed(d, n, n) && i < n && j < n && d[i][i].Fin? && d[j][j].Fin?
    ensures AtMost(Fin(Time(d, j) - Time(d, i)), d[i][j])
  {
    hide Earliest;
    assert AtMost(Earliest(d, n, i), d[i][i]) && AtMost(Earliest(d, n, j), d[j][j]);
    var m :| 0 <= m < n && d[m][i] == Earliest(d, n, i);
    assert NoShortcut(d, i, m, j);
    assert AtMost(Earliest(d, n, j), d[m][j]);
  }

  lemma NegativeLoopIsUnmet(d: Matrix, t: seq<int>)
    requires Square(d, |t|) && NegativeLoop(d)
    ensures !Meets(t, d)
  {
    var i :| 0 <= i < |d| && i < |d[i]| && Less(d[i][i], Fin(0));
    assert !Within(t, d, i, i);
  }

  /** The relaxation and the look at the diagonal decide whether any times meet the matrix. */
  method Decide(dist: Matrix, n: nat) returns (ok: bool)
    requires Square(dist, n) && forall i :: 0 <= i < n ==> dist[i][i].Fin?
    ensures ok <==> exists t: seq<int> :: |t| == n && Meets(t, dist)
  {
    hide Tightened, Closed, Meets, NegativeLoop;
    if n == 0 {
      NoPoints(dist);
      return true;
    }
    var d := dist;
    NothingTightened(dist, n);
    NothingClosed(dist, n);
    var k := 0;
    while k < n
      invariant 0 <= k <= n && Square(d, n) && Tightened(dist, d, n)
      invariant NegativeLoop(d) || Closed(d, n, k)
    {
      ghost var before := d;
      d := RelaxPhase(d, n, k);
      TightenedSquare(before, d, n);
      TightenedOn(dist, before, d, n);
      PhaseKeeps(before, d, n, k);
      k := k + 1;
    }
    FinDiagonal(dist, d, n);
    var i := 0;
    while i < n
      invariant 0 <= i <= n && forall x :: 0 <= x < i ==> !Less(d[x][x], Fin(0))
    {
      if Less(d[i][i], Fin(0)) {
        HasLoop(d, i);
        forall t: seq<int> | |t| == n && Meets(t, dist) ensures false {
          TightenedMeets(dist, d, t);
          NegativeLoopIsUnmet(d, t);
        }
        return false;
      }
      i := i + 1;
    }
    NoLoop(d, n);
    ghost var t := ClosedIsMet(d, n);
    MeetsLooser(dist, d, t);
    return true;
  }

  lemma NoPoints(d: Matrix)
    requires Square(d, 0)
    ensures Meets([], d)
  {
  }

  lemma NothingClosed(d: Matrix, n: nat)
    requires Square(d, n)
    ensures Closed(d, n, 0)
  {
  }

  lemma PhaseKeeps(was: Matrix, d: Matrix, n: nat, k: nat)
    requires Square(was, n) && Square(d, n) && k < n && Tightened(was, d, n) && (NegativeLoop(was) || Closed(was, n, k))
    requires !Less(was[k][k], Fin(0)) ==> forall i, j :: 0 <= i < n && 0 <= j < n ==> d[i][j] == Via(was, k, i, j)
    ensures NegativeLoop(d) || Closed(d, n, k + 1)
  {
    if NegativeLoop(was) {
      var i :| 0 <= i < |was| && i < |was[i]| && Less(was[i][i], Fin(0));
      assert Less(d[i][i], Fin(0));
    } else {
      assert !Less(was[k][k], Fin(0));
      PhaseCloses(was, d, n, k);
    }
  }

  lemma FinDiagonal(was: Matrix, d: Matrix, n: nat)
    requires Tightened(was, d, n) && forall i :: 0 <= i < n ==> was[i][i].Fin?
    ensures forall i :: 0 <= i < n ==> d[i][i].Fin?
  {
    forall i | 0 <= i < n ensures d[i][i].Fin? { assert AtMost(d[i][i], was[i][i]); }
  }

  lemma HasLoop(d: Matrix, i: nat)
    requires i < |d| && i < |d[i]| && Less(d[i][i], Fin(0))
    ensures NegativeLoop(d)
  {
  }

  lemma NoLoop(d: Matrix, n: nat)
    requires Square(d, n) && forall x :: 0 <= x < n ==> !Less(d[x][x], Fin(0))
    ensures !NegativeLoop(d)
  {
  }

  lemma TightenedMeets(was: Matrix, d: Matrix, t: seq<int>)
    requires Tightened(was, d, |t|) && Meets(t, was)
    ensures Square(d, |t|) && Meets(t, d)
  {
  }

  lemma MeetsLooser(was: Matrix, d: Matrix, t: seq<int>)
    requires Tightened(was, d, |t|) && Meets(t, d)
    ensures Meets(t, was)
  {
    forall i, j | 0 <= i < |t| && 0 <= j < |t|
      ensures Within(t, was, i, j)
    {
      assert Within(t, d, i, j) && AtMost(d[i][j], was[i][j]);
    }
  }
}
