/** The run test `check_consecutive_n(line, n)`: does a line of flags hold `n`
    true values in a row? `is_match` calls it with `n = 3` on five-cell windows. */
module Runs {

  /** Positions `k .. k + n - 1` of `line` are all true. */
  predicate RunAt(line: seq<bool>, k: int, n: int)
    requires 0 <= k && k + n <= |line|
  {
    forall m :: k <= m < k + n ==> line[m]
  }

  /** Reference definition: `line` holds `n` consecutive true values somewhere. */
  predicate HasRun(line: seq<bool>, n: int)
  {
    exists k :: 0 <= k && k + n <= |line| && RunAt(line, k, n)
  }

  /** The counter scan of `check_consecutive_n`: `count` is the length of the
      current stretch of trues, reset to 0 by every false; the scan stops with
      true as soon as `count >= n`. For `n < 1` the first true already stops it. */
  method CheckConsecutiveN(line: seq<bool>, n: int) returns (found: bool)
    ensures n >= 1 ==> (found <==> HasRun(line, n))
    ensures n < 1 ==> (found <==> true in line)
  {
    ghost var w := if n >= 1 then n else 1;
    var count := 0;
    for p := 0 to |line|
      invariant 0 <= count <= p
      invariant count < w
      invariant forall m :: p - count <= m < p ==> line[m]
      invariant count < p ==> !line[p - count - 1]
      invariant forall k :: 0 <= k && k + w <= p ==> !RunAt(line, k, w)
    {
      if line[p] {
        count := count + 1;
        if count >= n {
          assert RunAt(line, p + 1 - w, w);
          assert line[p] == true;
          found := true;
          return;
        }
      } else {
        count := 0;
      }
    }
    if n < 1 {
      forall i | 0 <= i < |line|
        ensures !line[i]
      {
        assert !RunAt(line, i, 1);
      }
    }
    found := false;
  }

  /** A run of one is just a single true value. */
  lemma HasRunOne(line: seq<bool>)
    ensures HasRun(line, 1) <==> true in line
  {
    if true in line {
      var i :| 0 <= i < |line| && line[i];
      assert RunAt(line, i, 1);
    }
    if HasRun(line, 1) {
      var k :| 0 <= k && k + 1 <= |line| && RunAt(line, k, 1);
      assert line[k] in line;
    }
  }

  /** An empty or all-false line never holds a run of length at least one. */
  lemma NoTrueNoRun(line: seq<bool>, n: int)
    requires n >= 1
    requires !(true in line)
    ensures !HasRun(line, n)
  {
    forall k | 0 <= k && k + n <= |line|
      ensures !RunAt(line, k, n)
    {
      assert line[k] in line;
    }
  }

  /** Three sample lines: three trues; two pairs split by a false; five falses. */
  lemma RunExamples()
    ensures HasRun([true, true, true], 3)
    ensures !HasRun([true, true, false, true, true], 3)
    ensures !HasRun([false, false, false, false, false], 3)
  {
    assert RunAt([true, true, true], 0, 3);
    var split := [true, true, false, true, true];
    forall k | 0 <= k && k + 3 <= |split|
      ensures !RunAt(split, k, 3)
    {
      assert !split[2];
    }
    NoTrueNoRun([false, false, false, false, false], 3);
  }
}
