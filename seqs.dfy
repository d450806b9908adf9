/** Order-preserving selection and reversal: the WHERE and ORDER BY of the read handlers. */
module Seqs {

  /** The elements of `s` that satisfy `p`, in their original order. */
  function Filter<T(!new)>(s: seq<T>, p: T -> bool): (r: seq<T>)
    ensures |r| <= |s|
    ensures forall x :: x in r <==> x in s && p(x)
  {
    if s == [] then []
    else
      var rest := Filter(s[..|s| - 1], p);
      assert s == s[..|s| - 1] + [s[|s| - 1]];
      rest + (if p(s[|s| - 1]) then [s[|s| - 1]] else [])
  }

  function Reverse<T>(s: seq<T>): (r: seq<T>)
    ensures |r| == |s|
    ensures forall i :: 0 <= i < |s| ==> r[i] == s[|s| - 1 - i]
  {
    if s == [] then [] else [s[|s| - 1]] + Reverse(s[..|s| - 1])
  }

  lemma {:induction false} FilterPreservesOrder<T(!new)>(s: seq<T>, p: T -> bool, i: nat, j: nat)
    requires i < j < |Filter(s, p)|
    ensures exists a, b :: 0 <= a < b < |s| && s[a] == Filter(s, p)[i] && s[b] == Filter(s, p)[j]
  {
    var n := |s| - 1;
    var rest := Filter(s[..n], p);
    if j < |rest| {
      FilterPreservesOrder(s[..n], p, i, j);
      var a, b :| 0 <= a < b < n && s[..n][a] == rest[i] && s[..n][b] == rest[j];
      assert s[a] == Filter(s, p)[i] && s[b] == Filter(s, p)[j];
    } else {
      assert Filter(s, p)[j] == s[n];
      assert rest[i] in s[..n];
      var a :| 0 <= a < n && s[..n][a] == rest[i];
      assert s[a] == Filter(s, p)[i];
    }
  }

  /** Reversing the selection lists later elements of `s` first. */
  lemma {:induction false} ReverseFilterOrder<T(!new)>(s: seq<T>, p: T -> bool, i: nat, j: nat)
    requires i < j < |Filter(s, p)|
    ensures var r := Reverse(Filter(s, p));
      exists a, b :: 0 <= b < a < |s| && s[a] == r[i] && s[b] == r[j]
  {
    var f := Filter(s, p);
    var n := |f|;
    var r := Reverse(f);
    FilterPreservesOrder(s, p, n - 1 - j, n - 1 - i);
    var x, y :| 0 <= x < y < |s| && s[x] == f[n - 1 - j] && s[y] == f[n - 1 - i];
    assert s[y] == r[i] && s[x] == r[j];
  }

  lemma FilterSnoc<T(!new)>(s: seq<T>, x: T, p: T -> bool)
    ensures Filter(s + [x], p) == Filter(s, p) + (if p(x) then [x] else [])
  {
    assert (s + [x])[..|s|] == s;
  }

  /**
   * The result of projecting every element with `f`.
   * The ensures only unfold the comprehension for the solver.
   */
  function MapSeq<T, U>(s: seq<T>, f: T -> U): (r: seq<U>)
    ensures |r| == |s| && forall i :: 0 <= i < |s| ==> r[i] == f(s[i])
  {
    seq(|s|, i requires 0 <= i < |s| => f(s[i]))
  }

  lemma {:induction false} FilterNone<T(!new)>(s: seq<T>, p: T -> bool)
    requires forall x :: x in s ==> !p(x)
    ensures Filter(s, p) == []
  {
    if s != [] {
      assert s[|s| - 1] in s;
      assert forall x :: x in s[..|s| - 1] ==> x in s;
      FilterNone(s[..|s| - 1], p);
    }
  }
}
