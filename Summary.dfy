/** The figures `updateStats` shows under the table. */
module Summary {
  import opened Tasks
  import opened Projection

  datatype Stats = Stats(total: nat, completed: nat, pending: int, progress: int)

  /** `Math.round(completed / total * 100)`, computed exactly on integers: the
      nearest whole percentage, halves rounded up, that is the `p` with
      `p - 1/2 <= 100 * completed / total < p + 1/2`. */
  function Percent(completed: nat, total: nat): (p: int)
    requires total > 0
    ensures 2 * total * p <= 200 * completed + total < 2 * total * (p + 1)
  {
    var n, d := 200 * completed + total, 2 * total;
    assert d * (n / d) + n % d == n && 0 <= n % d < d;
    assert d * (n / d + 1) == d * (n / d) + d;
    n / d
  }

  /** Scaling both sides of `a <= b` by `k`. */
  lemma {:induction false} ScaleLe(k: nat, a: int, b: int)
    requires a <= b
    ensures k * a <= k * b
    decreases k
  {
    if k > 0 {
      ScaleLe(k - 1, a, b);
      assert k * a == (k - 1) * a + a && k * b == (k - 1) * b + b;
    }
  }

  /** The percentage stays in 0..100 when `completed <= total`, and reaches the ends
      exactly at none and all. */
  lemma PercentRounds(completed: nat, total: nat)
    requires 0 < total
    ensures completed <= total ==> 0 <= Percent(completed, total) <= 100
    ensures completed == 0 ==> Percent(completed, total) == 0
    ensures completed == total ==> Percent(completed, total) == 100
  {
    var p, d := Percent(completed, total), 2 * total;
    assert d * (p + 1) == d * p + d;
    assert 0 <= p by {
      if p < 0 {
        ScaleLe(d, p, -1);
      }
    }
    if completed <= total {
      assert 200 * completed <= 200 * total;
      if p > 100 {
        ScaleLe(d, 101, p);
      }
    }
    if completed == 0 {
      if p > 0 {
        ScaleLe(d, 1, p);
      }
    }
    if completed == total {
      if p < 100 {
        ScaleLe(d, p, 99);
      }
    }
  }

  /** `updateStats`: total, completed and pending counts and the progress percentage
      (0 for an empty list). */
  function ComputeStats(ts: seq<Task>): (s: Stats)
    ensures s.total == |ts|
    ensures s.completed == |Where(ts, IsDone)|
    ensures s.pending == |Where(ts, IsPending)|
    ensures s.completed + s.pending == s.total
    ensures 0 <= s.progress <= 100
    ensures s.total == 0 ==> s.progress == 0
    ensures s.total > 0 ==> s.progress == Percent(s.completed, s.total)
    ensures s.total > 0 && s.completed == s.total ==> s.progress == 100
    ensures s.completed == 0 ==> s.progress == 0
  {
    var total := |ts|;
    var completed := |Where(ts, IsDone)|;
    WherePartition(ts, IsDone, IsPending);
    if total == 0 then Stats(total, completed, total - completed, 0)
    else
      PercentRounds(completed, total);
      Stats(total, completed, total - completed, Percent(completed, total))
  }
}
