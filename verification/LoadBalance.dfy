/** How good a least-loaded assignment is: Graham's bounds for jobs placed one by one, and for jobs placed largest first.

    A job is an index into `p`, an assignment gives each job a machine, and no optimal assignment is ever computed: the
    bounds hold against every assignment to the same number of machines. */
module LoadBalance {

  function Total(p: seq<real>, n: nat): real
    requires n <= |p|
  {
    if n == 0 then 0.0 else Total(p, n - 1) + p[n - 1]
  }

  /** The load of machine `k` from the first `n` jobs. */
  function Load(p: seq<real>, a: seq<nat>, k: nat, n: nat): real
    requires n <= |p| && n <= |a|
  {
    if n == 0 then 0.0 else Load(p, a, k, n - 1) + if a[n - 1] == k then p[n - 1] else 0.0
  }

  /** How many of the first `n` jobs are on machine `k`. */
  function Count(a: seq<nat>, k: nat, n: nat): nat
    requires n <= |a|
  {
    if n == 0 then 0 else Count(a, k, n - 1) + if a[n - 1] == k then 1 else 0
  }

  predicate Assignment(p: seq<real>, a: seq<nat>, m: nat) {
    |a| == |p| && forall j :: 0 <= j < |a| ==> a[j] < m
  }

  predicate NonNegative(p: seq<real>) {
    forall j :: 0 <= j < |p| ==> p[j] >= 0.0
  }

  /** Job `j` went to a machine of least load, the lowest such. */
  ghost predicate LeastLoaded(p: seq<real>, a: seq<nat>, m: nat, j: nat)
    requires j < |a| == |p|
  {
    forall k: nat :: k < m ==>
      Load(p, a, a[j], j) <= Load(p, a, k, j) && (k < a[j] ==> Load(p, a, a[j], j) < Load(p, a, k, j))
  }

  ghost predicate Greedy(p: seq<real>, a: seq<nat>, m: nat) {
    Assignment(p, a, m) && forall j {:trigger LeastLoaded(p, a, m, j)} :: 0 <= j < |p| ==> LeastLoaded(p, a, m, j)
  }

  predicate Descending(p: seq<real>) {
    forall i, j :: 0 <= i < j < |p| ==> p[i] >= p[j]
  }

  /** `bound` is at least the load of every machine. */
  predicate Bounds(p: seq<real>, a: seq<nat>, m: nat, bound: real)
    requires |a| == |p|
  {
    forall k: nat :: k < m ==> Load(p, a, k, |p|) <= bound
  }

  /** `cost` is at most `4/3 - 1/(3m)` times `best`. */
  predicate WithinFourThirds(m: nat, cost: real, best: real) {
    3.0 * m as real * cost <= (4 * m - 1) as real * best
  }

  /** `m` times `cost` is at most the total and `m - 1` times the largest job. */
  predicate WithinShare(m: nat, cost: real, total: real, largest: real) {
    m as real * cost <= total + (m - 1) as real * largest
  }

  // ---- placing one job after another ----

  method IndexOfLeast(costs: seq<real>) returns (least: nat)
    requires |costs| > 0
    ensures least < |costs|
    ensures forall k :: 0 <= k < |costs| ==> costs[least] <= costs[k] && (k < least ==> costs[least] < costs[k])
  {
    least := 0;
    for i := 1 to |costs|
      invariant least < i
      invariant forall k :: 0 <= k < i ==> costs[least] <= costs[k]
      invariant forall k :: 0 <= k < least ==> costs[least] < costs[k]
    {
      if costs[i] < costs[least] { least := i; }
    }
  }

  lemma {:induction false} LoadPrefix(p: seq<real>, q: seq<real>, a: seq<nat>, b: seq<nat>, k: nat, n: nat)
    requires n <= |p| && n <= |q| && n <= |a| && n <= |b|
    requires forall j :: 0 <= j < n ==> a[j] == b[j] && p[j] == q[j]
    ensures Load(p, a, k, n) == Load(q, b, k, n)
  {
    if n > 0 { LoadPrefix(p, q, a, b, k, n - 1); }
  }

  lemma StillLeast(p: seq<real>, a: seq<nat>, a': seq<nat>, m: nat, j: nat, least: nat, costs: seq<real>)
    requires |a| < |p| && a' == a + [least] && j <= |a| && least < m == |costs|
    requires j < |a| ==> LeastLoaded(p[..|a|], a, m, j)
    requires forall k: nat :: k < m ==> costs[k] == Load(p, a, k, |a|)
    requires forall k :: 0 <= k < m ==> costs[least] <= costs[k] && (k < least ==> costs[least] < costs[k])
    ensures LeastLoaded(p[..|a| + 1], a', m, j)
  {
    var q, n := p[..|a| + 1], |a|;
    forall k: nat | k < m || k == a'[j]
      ensures j < n ==> Load(q, a', k, j) == Load(p[..n], a, k, j)
      ensures j == n ==> Load(q, a', k, j) == Load(p, a, k, j)
    {
      if j < n { LoadPrefix(q, p[..n], a', a, k, j); } else { LoadPrefix(q, p, a', a, k, j); }
    }
    forall k: nat | k < m
      ensures Load(q, a', a'[j], j) <= Load(q, a', k, j) && (k < a'[j] ==> Load(q, a', a'[j], j) < Load(q, a', k, j))
    {
    }
  }

  // ---- sums over machines ----

  function MachineSum(p: seq<real>, a: seq<nat>, m: nat, n: nat): real
    requires n <= |p| && n <= |a|
  {
    if m == 0 then 0.0 else MachineSum(p, a, m - 1, n) + Load(p, a, m - 1, n)
  }

  /** The loads of the machines add up to all the jobs. */
  lemma {:induction false} LoadsAddUp(p: seq<real>, a: seq<nat>, m: nat, n: nat)
    requires Assignment(p, a, m) && n <= |p|
    ensures MachineSum(p, a, m, n) == Total(p, n)
  {
    if n == 0 {
      NoJobs(p, a, m);
    } else {
      LoadsAddUp(p, a, m, n - 1);
      OneMore(p, a, m, n - 1);
    }
  }

  lemma {:induction false} NoJobs(p: seq<real>, a: seq<nat>, m: nat)
    ensures MachineSum(p, a, m, 0) == 0.0
  {
    if m > 0 { NoJobs(p, a, m - 1); }
  }

  lemma {:induction false} OneMore(p: seq<real>, a: seq<nat>, m: nat, n: nat)
    requires n < |p| == |a|
    ensures MachineSum(p, a, m, n + 1) == MachineSum(p, a, m, n) + if a[n] < m then p[n] else 0.0
  {
    if m > 0 { OneMore(p, a, m - 1, n); }
  }

  lemma {:induction false} SumAtLeast(p: seq<real>, a: seq<nat>, m: nat, n: nat, c: real)
    requires n <= |p| && n <= |a| && forall k: nat :: k < m ==> Load(p, a, k, n) >= c
    ensures MachineSum(p, a, m, n) >= c * m as real
  {
    if m > 0 { SumAtLeast(p, a, m - 1, n, c); }
  }

  lemma {:induction false} SumAtMost(p: seq<real>, a: seq<nat>, m: nat, n: nat, c: real)
    requires n <= |p| && n <= |a| && forall k: nat :: k < m ==> Load(p, a, k, n) <= c
    ensures MachineSum(p, a, m, n) <= c * m as real
  {
    if m > 0 { SumAtMost(p, a, m - 1, n, c); }
  }

  lemma {:induction false} TotalGrows(p: seq<real>, i: nat, n: nat)
    requires NonNegative(p) && i <= n <= |p|
    ensures Total(p, i) <= Total(p, n)
  {
    if i < n { TotalGrows(p, i, n - 1); }
  }

  lemma {:induction false} LoadGrows(p: seq<real>, a: seq<nat>, k: nat, i: nat, n: nat)
    requires NonNegative(p) && i <= n <= |p| && |a| == |p|
    ensures 0.0 <= Load(p, a, k, i) <= Load(p, a, k, n)
  {
    if i < n {
      LoadGrows(p, a, k, i, n - 1);
    } else if i > 0 {
      LoadGrows(p, a, k, i - 1, i - 1);
    }
  }

  /** The last job on a loaded machine: after it the load does not change. */
  lemma {:induction false} LastJob(p: seq<real>, a: seq<nat>, k: nat, n: nat) returns (j: nat)
    requires n <= |p| && |a| == |p| && Load(p, a, k, n) > 0.0
    ensures j < n && a[j] == k && Load(p, a, k, n) == Load(p, a, k, j) + p[j]
  {
    if a[n - 1] == k { j := n - 1; } else { j := LastJob(p, a, k, n - 1); }
  }

  // ---- placing jobs one by one ----

  /** When the last job `j` of a machine arrived, every machine had at least this one's load. */
  lemma LastJobBound(p: seq<real>, a: seq<nat>, m: nat, k: nat, j: nat)
    requires NonNegative(p) && Greedy(p, a, m) && k < m && j < |p| && a[j] == k
    requires Load(p, a, k, |p|) == Load(p, a, k, j) + p[j]
    ensures WithinShare(m, Load(p, a, k, |p|), Total(p, |p|), p[j])
  {
    assert Load(p, a, k, j) * m as real <= Total(p, j) by {
      assert LeastLoaded(p, a, m, j);
      OthersLoaded(p, a, m, k, j);
    }
    assert Total(p, j) + p[j] <= Total(p, |p|) by {
      TotalGrows(p, j + 1, |p|);
    }
    Spread(m, Load(p, a, k, j), p[j], Load(p, a, k, |p|), Total(p, j), Total(p, |p|));
  }

  lemma OthersLoaded(p: seq<real>, a: seq<nat>, m: nat, k: nat, j: nat)
    requires Assignment(p, a, m) && j < |p| && a[j] == k && LeastLoaded(p, a, m, j)
    ensures Load(p, a, k, j) * m as real <= Total(p, j)
  {
    SumAtLeast(p, a, m, j, Load(p, a, k, j));
    LoadsAddUp(p, a, m, j);
  }

  lemma Spread(m: nat, before: real, job: real, load: real, earlier: real, total: real)
    requires m > 0 && load == before + job && before * m as real <= earlier && earlier + job <= total
    ensures WithinShare(m, load, total, job)
  {
    assert m as real * (before + job) == before * m as real + m as real * job;
    assert (m - 1) as real * job == m as real * job - job;
  }

  /** Graham's bound for any order: `m` times a machine's load is at most the total and `m - 1` largest jobs. */
  lemma ListBound(p: seq<real>, a: seq<nat>, m: nat, k: nat, largest: real)
    requires NonNegative(p) && Greedy(p, a, m) && k < m && largest >= 0.0
    requires forall j :: 0 <= j < |p| ==> p[j] <= largest
    ensures WithinShare(m, Load(p, a, k, |p|), Total(p, |p|), largest)
  {
    TotalGrows(p, 0, |p|);
    LoadGrows(p, a, k, 0, |p|);
    if Load(p, a, k, |p|) > 0.0 {
      var j := LastJob(p, a, k, |p|);
      LastJobBound(p, a, m, k, j);
      Widen(m, Load(p, a, k, |p|), Total(p, |p|), p[j], largest);
    } else {
      Widen(m, 0.0, Total(p, |p|), 0.0, largest);
    }
  }

  lemma Widen(m: nat, load: real, total: real, job: real, largest: real)
    requires m > 0 && job <= largest && WithinShare(m, load, total, job)
    ensures WithinShare(m, load, total, largest)
  {
    Scale((m - 1) as real, job, largest);
  }

  lemma Scale(c: real, x: real, y: real)
    requires c >= 0.0 && x <= y
    ensures c * x <= c * y
  {
  }

  /** Every machine has a job if there are at least as many jobs as machines and every job takes time. */
  lemma NoneIdle(p: seq<real>, a: seq<nat>, m: nat, k: nat)
    requires Greedy(p, a, m) && k < m <= |p| && forall j :: 0 <= j < |p| ==> p[j] > 0.0
    ensures Load(p, a, k, |p|) > 0.0
  {
    LoadGrows(p, a, k, 0, |p|);
    if Load(p, a, k, |p|) == 0.0 {
      var ones := seq(|p|, j => 1.0);
      forall i: nat | i < m ensures Load(ones, a, i, |p|) <= 1.0 {
        AtMostOne(p, a, m, k, i, |p|, ones);
      }
      Empty(p, a, k, |p|, ones);
      SumAtMost(ones, a, m, |p|, 1.0);
      SumWithout(ones, a, m, |p|, k);
      LoadsAddUp(ones, a, m, |p|);
      OnesTotal(ones, |p|);
      assert false;
    }
  }

  lemma {:induction false} OnesTotal(ones: seq<real>, n: nat)
    requires n <= |ones| && forall j :: 0 <= j < |ones| ==> ones[j] == 1.0
    ensures Total(ones, n) == n as real
  {
    if n > 0 { OnesTotal(ones, n - 1); }
  }

  /** While machine `k` is idle no machine gets a second job. */
  lemma {:induction false} AtMostOne(p: seq<real>, a: seq<nat>, m: nat, k: nat, i: nat, n: nat, ones: seq<real>)
    requires Greedy(p, a, m) && k < m && i < m && n <= |p| && forall j :: 0 <= j < |p| ==> p[j] > 0.0
    requires |ones| == |p| && forall j :: 0 <= j < |ones| ==> ones[j] == 1.0
    requires Load(p, a, k, n) == 0.0
    ensures Load(ones, a, i, n) <= 1.0 && (Load(ones, a, i, n) > 0.0 ==> Load(p, a, i, n) > 0.0)
  {
    if n > 0 {
      LoadGrows(p, a, k, n - 1, n);
      LoadGrows(p, a, i, n - 1, n);
      LoadGrows(ones, a, i, n - 1, n - 1);
      AtMostOne(p, a, m, k, i, n - 1, ones);
      assert LeastLoaded(p, a, m, n - 1);
    }
  }

  lemma {:induction false} Empty(p: seq<real>, a: seq<nat>, k: nat, n: nat, ones: seq<real>)
    requires n <= |p| == |a| == |ones| && (forall j :: 0 <= j < |p| ==> p[j] > 0.0) && Load(p, a, k, n) <= 0.0
    ensures Load(ones, a, k, n) == 0.0
  {
    if n > 0 {
      LoadGrows(p, a, k, n - 1, n - 1);
      Empty(p, a, k, n - 1, ones);
    }
  }

  lemma {:induction false} SumWithout(p: seq<real>, a: seq<nat>, m: nat, n: nat, k: nat)
    requires n <= |p| == |a| && k < m && Load(p, a, k, n) == 0.0
    requires forall i: nat :: i < m ==> Load(p, a, i, n) <= 1.0
    ensures MachineSum(p, a, m, n) <= (m - 1) as real
  {
    if k < m - 1 { SumWithout(p, a, m - 1, n, k); } else { SumAtMost(p, a, m - 1, n, 1.0); }
  }

  // ---- placing the largest first ----

  lemma {:induction false} LoadAtLeast(w: seq<real>, a: seq<nat>, k: nat, n: nat, c: real)
    requires n <= |w| == |a| && forall x :: 0 <= x < n && a[x] == k ==> w[x] >= c
    ensures Load(w, a, k, n) >= c * Count(a, k, n) as real
  {
    if n > 0 {
      LoadAtLeast(w, a, k, n - 1, c);
      OneMoreTimes(c, Count(a, k, n - 1));
    }
  }

  lemma OneMoreTimes(c: real, n: int)
    ensures c * (n + 1) as real == c * n as real + c
  {
  }

  lemma {:induction false} LoadAtMost(w: seq<real>, a: seq<nat>, k: nat, n: nat, c: real)
    requires n <= |w| == |a| && forall x :: 0 <= x < n && a[x] == k ==> w[x] <= c
    ensures Load(w, a, k, n) <= c * Count(a, k, n) as real
  {
    if n > 0 {
      LoadAtMost(w, a, k, n - 1, c);
      OneMoreTimes(c, Count(a, k, n - 1));
    }
  }

  /** A machine's load is at least one of its jobs and the least job as often as it has others. */
  lemma {:induction false} LoadWithOne(p: seq<real>, a: seq<nat>, k: nat, n: nat, x: nat, c: real)
    requires x < n <= |p| == |a| && a[x] == k && forall y :: 0 <= y < n ==> p[y] >= c
    ensures Load(p, a, k, n) >= p[x] + c * (Count(a, k, n) - 1) as real
  {
    if x == n - 1 {
      LoadAtLeast(p, a, k, n - 1, c);
    } else {
      LoadWithOne(p, a, k, n - 1, x, c);
      OneMoreTimes(c, Count(a, k, n - 1) - 1);
    }
  }

  lemma {:induction false} OnlyJob(p: seq<real>, a: seq<nat>, k: nat, n: nat, x: nat)
    requires x < n <= |p| == |a| && a[x] == k && Count(a, k, n) == 1
    ensures Load(p, a, k, n) == p[x]
  {
    if x == n - 1 { NoneOn(p, a, k, n - 1); } else { SomeOn(a, k, n - 1, x); OnlyJob(p, a, k, n - 1, x); }
  }

  lemma {:induction false} NoneOn(p: seq<real>, a: seq<nat>, k: nat, n: nat)
    requires n <= |p| == |a| && Count(a, k, n) == 0
    ensures Load(p, a, k, n) == 0.0
  {
    if n > 0 { NoneOn(p, a, k, n - 1); }
  }

  lemma {:induction false} SomeOn(a: seq<nat>, k: nat, n: nat, x: nat)
    requires x < n <= |a| && a[x] == k
    ensures Count(a, k, n) >= 1
  {
    if x < n - 1 { SomeOn(a, k, n - 1, x); }
  }

  /** A job that is alone on its machine before job `j` weighs two, every other job one. */
  function Weights(a: seq<nat>, j: nat): (w: seq<real>)
    requires j <= |a|
    ensures |w| == |a|
    ensures forall x :: 0 <= x < |a| ==> w[x] == if x < j && Count(a, a[x], j) == 1 then 2.0 else 1.0
  {
    seq(|a|, x requires 0 <= x < |a| => if x < j && Count(a, a[x], j) == 1 then 2.0 else 1.0)
  }

  /** Before job `j` every machine is loaded, so it has one job, of weight two, or at least two. */
  lemma GreedyWeighs(p: seq<real>, a: seq<nat>, k: nat, j: nat)
    requires j <= |p| == |a| && Load(p, a, k, j) > 0.0
    ensures Load(Weights(a, j), a, k, j) >= 2.0
  {
    if Count(a, k, j) == 0 {
      NoneOn(p, a, k, j);
    } else if Count(a, k, j) == 1 {
      LoadAtLeast(Weights(a, j), a, k, j, 2.0);
    } else {
      LoadAtLeast(Weights(a, j), a, k, j, 1.0);
    }
  }

  lemma TooMany(job: real, n: nat, load: real, best: real)
    requires 3.0 * job > best >= load >= job * n as real && best >= 0.0
    ensures n <= 2
  {
    if n >= 3 { Scale(job, 3.0, n as real); }
  }

  /** No machine of an assignment within `best` can carry more than weight two of jobs that are all over a third of
      `best`, if each job of weight two overflows `best` together with any other. */
  lemma OthersWeigh(p: seq<real>, w: seq<real>, b: seq<nat>, k: nat, j: nat, best: real)
    requires j < |p| == |b| == |w| && 3.0 * p[j] > best && Load(p, b, k, j + 1) <= best
    requires forall x :: 0 <= x <= j ==> p[x] >= p[j]
    requires forall x :: 0 <= x <= j ==> w[x] == 1.0 || (w[x] == 2.0 && p[x] + p[j] > best)
    requires best >= 0.0
    ensures Load(w, b, k, j + 1) <= 2.0
  {
    var n := Count(b, k, j + 1);
    LoadAtLeast(p, b, k, j + 1, p[j]);
    TooMany(p[j], n, Load(p, b, k, j + 1), best);
    if n == 2 {
      forall x | 0 <= x < j + 1 && b[x] == k ensures w[x] <= 1.0 {
        LoadWithOne(p, b, k, j + 1, x, p[j]);
      }
      LoadAtMost(w, b, k, j + 1, 1.0);
    } else {
      LoadAtMost(w, b, k, j + 1, 2.0);
    }
  }

  /** A last job over a third of what another assignment needs cannot make its machine exceed that. */
  lemma LargeLastJob(p: seq<real>, a: seq<nat>, b: seq<nat>, m: nat, k: nat, j: nat, best: real)
    requires NonNegative(p) && Descending(p) && Greedy(p, a, m) && Assignment(p, b, m) && Bounds(p, b, m, best)
    requires k < m && j < |p| && a[j] == k && 3.0 * p[j] > best && p[j] <= best
    ensures Load(p, a, k, j) + p[j] <= best
  {
    if Load(p, a, k, j) + p[j] > best {
      var w := Weights(a, j);
      assert LeastLoaded(p, a, m, j);
      forall i: nat | i < m ensures Load(w, a, i, j) >= 2.0 {
        GreedyWeighs(p, a, i, j);
      }
      SumAtLeast(w, a, m, j, 2.0);
      LoadsAddUp(w, a, m, j);
      forall x | 0 <= x <= j ensures w[x] == 1.0 || (w[x] == 2.0 && p[x] + p[j] > best) {
        if w[x] == 2.0 { OnlyJob(p, a, a[x], j, x); }
      }
      var n := j + 1;
      forall i: nat | i < m ensures Load(w, b, i, n) <= 2.0 {
        LoadGrows(p, b, i, n, |p|);
        OthersWeigh(p, w, b, i, j, best);
      }
      SumAtMost(w, b, m, n, 2.0);
      LoadsAddUp(w, b, m, n);
      assert false;
    }
  }

  lemma JobFits(p: seq<real>, b: seq<nat>, m: nat, best: real, j: nat)
    requires NonNegative(p) && Assignment(p, b, m) && Bounds(p, b, m, best) && j < |p|
    ensures p[j] <= best
  {
    LoadGrows(p, b, b[j], j, j);
    LoadGrows(p, b, b[j], j + 1, |p|);
  }

  /** Graham's bound for the largest job first: no machine's load exceeds `4/3 - 1/(3m)` times the largest load of any
      other assignment to `m` machines. */
  lemma LargestFirstBound(p: seq<real>, a: seq<nat>, b: seq<nat>, m: nat, k: nat, best: real)
    requires NonNegative(p) && Descending(p) && Greedy(p, a, m) && Assignment(p, b, m) && Bounds(p, b, m, best)
    requires k < m
    ensures WithinFourThirds(m, Load(p, a, k, |p|), best)
  {
    LoadGrows(p, b, k, 0, |p|);
    LoadGrows(p, a, k, 0, |p|);
    if Load(p, a, k, |p|) > 0.0 {
      var j := LastJob(p, a, k, |p|);
      JobFits(p, b, m, best, j);
      if 3.0 * p[j] > best {
        LargeLastJob(p, a, b, m, k, j, best);
        Within(m, Load(p, a, k, |p|), best);
      } else {
        SmallLastJob(p, a, b, m, k, j, best);
      }
    } else {
      Within(m, Load(p, a, k, |p|), best);
    }
  }

  lemma SmallLastJob(p: seq<real>, a: seq<nat>, b: seq<nat>, m: nat, k: nat, j: nat, best: real)
    requires NonNegative(p) && Greedy(p, a, m) && Assignment(p, b, m) && Bounds(p, b, m, best)
    requires k < m && j < |p| && a[j] == k && 3.0 * p[j] <= best
    requires Load(p, a, k, |p|) == Load(p, a, k, j) + p[j]
    ensures WithinFourThirds(m, Load(p, a, k, |p|), best)
  {
    TotalAtMost(p, b, m, best);
    LastJobBound(p, a, m, k, j);
    Combine(m, Load(p, a, k, |p|), Total(p, |p|), p[j], best);
  }

  lemma TotalAtMost(p: seq<real>, b: seq<nat>, m: nat, best: real)
    requires Assignment(p, b, m) && Bounds(p, b, m, best)
    ensures Total(p, |p|) <= best * m as real
  {
    SumAtMost(p, b, m, |p|, best);
    LoadsAddUp(p, b, m, |p|);
  }

  lemma Within(m: nat, load: real, best: real)
    requires m > 0 && load <= best && best >= 0.0
    ensures WithinFourThirds(m, load, best)
  {
    var machines := m as real;
    Scale(machines, load, best);
    Scale(best, 0.0, machines - 1.0);
    assert (4 * m - 1) as real * best == 3.0 * (machines * best) + best * (machines - 1.0);
  }

  lemma Combine(m: nat, load: real, total: real, job: real, best: real)
    requires m > 0 && WithinShare(m, load, total, job)
    requires total <= best * m as real && 3.0 * job <= best
    ensures WithinFourThirds(m, load, best)
  {
    var machines := m as real;
    Scale(machines - 1.0, 3.0 * job, best);
    assert (m - 1) as real * job == (machines - 1.0) * job;
    assert (machines - 1.0) * (3.0 * job) == 3.0 * ((machines - 1.0) * job);
    assert (4 * m - 1) as real * best == 3.0 * (machines * best) + (machines - 1.0) * best;
  }
}
