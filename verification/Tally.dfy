/** Sums over the tasks of a job. */
module Tally {
  /** The total of a weight over the tasks. */
  function Total<T>(tasks: seq<T>, w: T -> nat): nat {
    if tasks == [] then 0 else w(tasks[0]) + Total(tasks[1..], w)
  }

  lemma {:induction false} TotalUpdate<T>(tasks: seq<T>, i: nat, t: T, w: T -> nat)
    requires i < |tasks|
    ensures Total(tasks[i := t], w) + w(tasks[i]) == Total(tasks, w) + w(t)
  {
    if i == 0 {
      assert tasks[0 := t][1..] == tasks[1..];
    } else {
      assert tasks[i := t][1..] == tasks[1..][i - 1 := t];
      TotalUpdate(tasks[1..], i - 1, t, w);
    }
  }

  /** A weight of at most m totals at most m a task, and falls short if one task does. */
  lemma {:induction false} TotalBound<T>(tasks: seq<T>, w: T -> nat, m: nat)
    requires forall i :: 0 <= i < |tasks| ==> w(tasks[i]) <= m
    ensures Total(tasks, w) <= m * |tasks|
    ensures forall i :: 0 <= i < |tasks| && w(tasks[i]) < m ==> Total(tasks, w) < m * |tasks|
  {
    if tasks != [] {
      assert forall i :: 0 <= i < |tasks[1..]| ==> tasks[1..][i] == tasks[i + 1];
      TotalBound(tasks[1..], w, m);
      assert m * |tasks| == m + m * |tasks[1..]|;
      forall i | 0 <= i < |tasks| && w(tasks[i]) < m ensures Total(tasks, w) < m * |tasks| {
        if i > 0 {
          assert w(tasks[1..][i - 1]) < m;
        }
      }
    }
  }

  lemma {:induction false} TotalConstant<T>(tasks: seq<T>, w: T -> nat, m: nat)
    requires forall i :: 0 <= i < |tasks| ==> w(tasks[i]) == m
    ensures Total(tasks, w) == m * |tasks|
  {
    if tasks != [] {
      assert forall i :: 0 <= i < |tasks[1..]| ==> tasks[1..][i] == tasks[i + 1];
      TotalConstant(tasks[1..], w, m);
      assert m * |tasks| == m + m * |tasks[1..]|;
    }
  }

  /** A weight that is the sum of two totals the sum. */
  lemma {:induction false} TotalSum<T>(tasks: seq<T>, a: T -> nat, b: T -> nat, w: T -> nat)
    requires forall i :: 0 <= i < |tasks| ==> w(tasks[i]) == a(tasks[i]) + b(tasks[i])
    ensures Total(tasks, w) == Total(tasks, a) + Total(tasks, b)
  {
    if tasks != [] {
      assert forall i :: 0 <= i < |tasks[1..]| ==> tasks[1..][i] == tasks[i + 1];
      TotalSum(tasks[1..], a, b, w);
    }
  }
}
