/** Sums over sequences, and what updating, appending and removing an element do to them. */
module Totals {
  function Total<T>(s: seq<T>, f: T -> int): int {
    if s == [] then 0 else Total(s[..|s| - 1], f) + f(s[|s| - 1])
  }

  lemma {:induction false} TotalAppend<T>(s: seq<T>, x: T, f: T -> int)
    ensures Total(s + [x], f) == Total(s, f) + f(x)
  {
    assert (s + [x])[..|s|] == s;
  }

  lemma {:induction false} TotalUpdate<T>(s: seq<T>, i: nat, x: T, f: T -> int)
    requires i < |s|
    ensures Total(s[i := x], f) == Total(s, f) - f(s[i]) + f(x)
    decreases |s|
  {
    var n := |s| - 1;
    if i < n {
      assert s[i := x][..n] == s[..n][i := x];
      TotalUpdate(s[..n], i, x, f);
    } else {
      assert s[i := x][..n] == s[..n];
    }
  }

  lemma {:induction false} TotalRemove<T>(s: seq<T>, i: nat, f: T -> int)
    requires i < |s|
    ensures Total(s[..i] + s[i + 1..], f) == Total(s, f) - f(s[i])
    decreases |s|
  {
    var n := |s| - 1;
    var rest := s[..i] + s[i + 1..];
    if i < n {
      TotalRemove(s[..n], i, f);
      assert rest[..n - 1] == s[..n][..i] + s[..n][i + 1..];
      assert rest[n - 1] == s[n];
    } else {
      assert rest == s[..n];
    }
  }

  lemma {:induction false} TotalAtMost<T>(s: seq<T>, f: T -> int, most: int)
    requires forall x <- s :: 0 <= f(x) <= most
    ensures 0 <= Total(s, f) <= most * |s|
  {
    if s != [] {
      var n := |s| - 1;
      TotalAtMost(s[..n], f, most);
      assert s[n] in s;
      assert most * |s| == most * n + most;
    }
  }

  lemma {:induction false} TotalZero<T>(s: seq<T>, f: T -> int)
    requires forall x <- s :: f(x) == 0
    ensures Total(s, f) == 0
  {
    if s != [] {
      assert s[|s| - 1] in s;
      TotalZero(s[..|s| - 1], f);
    }
  }
}
