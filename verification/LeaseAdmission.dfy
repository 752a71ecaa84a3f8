/** Whether a claim fits its lease: the projected time of the claimed items on the profile's workers, longest item first to
    the least-loaded worker, stretched by the safety factor, with the margin still to spare.

    Durations are real numbers; the source's floating-point rounding is not modelled. */
module LeaseAdmission {
  import opened Wrappers
  import opened ControlTables
  import opened LoadBalance
  import Placement

  /** The settings a claim is admitted under: worker speed, safety factor, margin in seconds and number of workers. */
  datatype Admission = Admission(speed: real, factor: real, margin: real, workers: nat)

  predicate ValidAdmission(q: Admission) {
    q.speed > 0.0 && q.factor >= 1.0 && q.margin >= 0.0 && q.workers >= 1
  }

  // ---- where the settings come from ----

  datatype Profile = Profile(name: string, speed: real, factor: real, margin: real, instances: int, cores: int, taskCpus: int, memory: int,
                             reserve: int)

  /** What the caller gives beside the profile, or instead of it. */
  datatype Given = Given(speed: Option<real>, factor: Option<real>, margin: Option<real>, peak: Option<int>)

  predicate Conflicts(given: Option<real>, expected: real) {
    given.Some? && given.value != expected
  }

  function Min(a: int, b: int): int {
    if a < b then a else b
  }

  /** `_claim_admission_settings`: without a profile one worker under the values given; with one, as many workers as the
      instances' cores and memory are taken to allow. */
  function AdmissionSettings(profile: Option<Profile>, g: Given): (r: Result<Admission, ControlError>)
    ensures r.Ok? ==> r.value.speed > 0.0 && r.value.factor > 0.0 && r.value.margin > 0.0 && r.value.workers >= 1
    ensures r.Ok? && profile.Some? && g.peak.Some? ==> 1 <= g.peak.value <= profile.value.memory - profile.value.reserve
    ensures r == Err(LeaseBudget) ==>
      profile.Some? && g.peak.Some? && 1 <= g.peak.value && g.peak.value > profile.value.memory - profile.value.reserve
  {
    if profile.None? then
      if g.speed.None? || g.factor.None? || g.margin.None? || g.peak.Some? then Err(BadArgument)
      else if g.speed.value <= 0.0 || g.factor.value <= 0.0 || g.margin.value <= 0.0 then Err(BadArgument)
      else Ok(Admission(g.speed.value, g.factor.value, g.margin.value, 1))
    else
      var p := profile.value;
      if p.speed <= 0.0 || p.factor <= 0.0 || p.margin <= 0.0 || p.instances < 1 || p.cores < 1 || p.taskCpus < 1
         || p.instances * p.cores / p.taskCpus < 1
      then Err(BadArgument)
      else
        var workers := Min(p.instances, p.instances * p.cores / p.taskCpus);
        if g.peak.Some? && (g.peak.value < 1 || p.memory < 1 || p.reserve < 0) then Err(BadArgument)
        else if g.peak.Some? && g.peak.value > p.memory - p.reserve then Err(LeaseBudget)
        else if Conflicts(g.speed, p.speed) || Conflicts(g.factor, p.factor) || Conflicts(g.margin, p.margin)
           || !NonBlank(p.name)
        then Err(BadArgument)
        else
          var fitting := if g.peak.Some? then Min(workers, p.instances * ((p.memory - p.reserve) / g.peak.value)) else workers;
          WorkersFit(p, g);
          Ok(Admission(p.speed, p.factor, p.margin, fitting))
  }

  /** A measured size that fits one instance never lowers the number of workers, one at most an instance. */
  lemma WorkersFit(p: Profile, g: Given)
    requires p.instances >= 1
    ensures g.peak.Some? && 1 <= g.peak.value <= p.memory - p.reserve ==>
      p.instances * ((p.memory - p.reserve) / g.peak.value) >= p.instances
  {
    if g.peak.Some? && 1 <= g.peak.value <= p.memory - p.reserve {
      Placement.Share(p.memory - p.reserve, g.peak.value, 1);
      Placement.Grow(1, (p.memory - p.reserve) / g.peak.value, p.instances);
    }
  }

  /** The workers are as many as there are instances, or as many as the instances' cores together can serve if that is
      fewer.  Each then finds an instance that can host it exactly when a task needs no more CPUs than one instance has:
      the settings do not look at that, and count workers nobody can host when it fails. */
  lemma HostedIff(p: Profile, g: Given)
    requires AdmissionSettings(Some(p), g).Ok?
    ensures var n := AdmissionSettings(Some(p), g).value.workers;
            && (forall w: int :: w <= n <==> w <= p.instances && w * p.taskCpus <= p.instances * p.cores)
            && (n <= p.instances * (p.cores / p.taskCpus) <==> p.taskCpus <= p.cores)
  {
    WorkersCounted(p, g);
    MostWorkers(p);
    SomeHost(p);
  }

  const SMALL_INSTANCES := Profile("small", 1.0, 1.0, 1.0, 2, 1, 2, 1, 0)

  /** Two instances of one core are counted as one worker for tasks of two CPUs, which neither can host.  Such a profile has
      to be made by hand: `BuildProfile` makes none. */
  lemma UnhostableWorker()
    ensures var r := AdmissionSettings(Some(SMALL_INSTANCES), Given(None, None, None, None));
            r.Ok? && r.value.workers == 1 && SMALL_INSTANCES.cores < SMALL_INSTANCES.taskCpus
  {
    assert 2 * 1 / 2 == 1;
    assert "small"[0] == 's';
  }

  /** `build_profile_from_inventory`: the executors found must be those reviewed and have room for a task.  All workers of a
      profile built from an inventory can be hosted. */
  method BuildProfile(name: string, executors: seq<Placement.Executor>, taskCpus: int, cores: int, memory: int, reserve: int,
                      speed: real, factor: real, margin: real, peak: Option<int>, operatorCap: Option<int>, headroom: real)
    returns (r: Option<Profile>)
    ensures r.Some? ==>
      r.value == Profile(name, speed, factor, margin, |executors|, cores, taskCpus, memory, reserve)
    ensures r.Some? <==>
      && executors != [] && taskCpus in {1, 2, 4} && taskCpus <= cores
      && (forall i :: 0 <= i < |executors| ==> executors[i].cores == cores)
      && (operatorCap.Some? ==> operatorCap.value >= 1)
      && (peak.Some? ==>
            && Placement.Sane(taskCpus, headroom, peak.value)
            && forall i :: 0 <= i < |executors| ==> Placement.Safe(executors[i], taskCpus, headroom, peak.value))
    ensures r.Some? ==> forall g :: AdmissionSettings(r, g).Ok? ==>
      AdmissionSettings(r, g).value.workers <= r.value.instances * (r.value.cores / r.value.taskCpus)
  {
    if executors == [] || taskCpus !in {1, 2, 4} || taskCpus > cores { return None; }
    if exists i :: 0 <= i < |executors| && executors[i].cores != cores { return None; }
    SameCoresHaveSlots(executors, cores, taskCpus);
    var placement := Placement.PlanTaskWidth(executors, taskCpus, operatorCap, peak, headroom);
    if placement.None? { return None; }
    r := Some(Profile(name, speed, factor, margin, |executors|, cores, taskCpus, memory, reserve));
    forall g | AdmissionSettings(r, g).Ok?
      ensures AdmissionSettings(r, g).value.workers <= r.value.instances * (r.value.cores / r.value.taskCpus)
    {
      HostedIff(r.value, g);
    }
  }

  lemma {:induction false} SameCoresHaveSlots(executors: seq<Placement.Executor>, cores: int, taskCpus: int)
    requires 1 <= taskCpus <= cores && forall i :: 0 <= i < |executors| ==> executors[i].cores == cores
    ensures Placement.Slots(executors, taskCpus) >= |executors|
  {
    if executors != [] {
      SameCoresHaveSlots(executors[..|executors| - 1], cores, taskCpus);
      Placement.Share(cores, taskCpus, 1);
    }
  }

  function MostOf(p: Profile): int
    requires p.taskCpus >= 1
  {
    Min(p.instances, p.instances * p.cores / p.taskCpus)
  }

  lemma WorkersCounted(p: Profile, g: Given)
    requires AdmissionSettings(Some(p), g).Ok?
    ensures p.instances >= 1 && p.cores >= 1 && p.taskCpus >= 1 && MostOf(p) >= 1
    ensures AdmissionSettings(Some(p), g).value.workers == MostOf(p)
  {
    WorkersFit(p, g);
  }

  lemma MostWorkers(p: Profile)
    requires p.instances >= 1 && p.cores >= 1 && p.taskCpus >= 1
    ensures forall w: int :: w <= MostOf(p) <==> w <= p.instances && w * p.taskCpus <= p.instances * p.cores
  {
    var all := p.instances * p.cores;
    Placement.Grow(0, p.cores, p.instances);
    forall w: int ensures w <= MostOf(p) <==> w <= p.instances && w * p.taskCpus <= all {
      Placement.Share(all, p.taskCpus, w);
    }
  }

  lemma SomeHost(p: Profile)
    requires p.instances >= 1 && p.cores >= 1 && p.taskCpus >= 1 && MostOf(p) >= 1
    ensures MostOf(p) <= p.instances * (p.cores / p.taskCpus) <==> p.taskCpus <= p.cores
  {
    Placement.Share(p.cores, p.taskCpus, 1);
    var each := p.cores / p.taskCpus;
    if p.taskCpus <= p.cores { Placement.Grow(1, each, p.instances); } else { assert each * p.instances == 0; }
  }

  // ---- the order in which items are placed ----

  function Duration(work: map<WorkId, Work>, w: WorkId): real {
    if w in work then work[w].spec.duration else 0.0
  }

  function Durations(work: map<WorkId, Work>, ids: seq<WorkId>): (p: seq<real>)
    ensures |p| == |ids| && forall i :: 0 <= i < |p| ==> p[i] == Duration(work, ids[i])
  {
    seq(|ids|, i requires 0 <= i < |ids| => Duration(work, ids[i]))
  }

  /** Longest first, then by work id. */
  predicate PlacedBefore(work: map<WorkId, Work>, v: WorkId, w: WorkId) {
    Duration(work, v) > Duration(work, w) || (Duration(work, v) == Duration(work, w) && v <= w)
  }

  predicate LongestLeads(work: map<WorkId, Work>, ids: seq<WorkId>) {
    forall i, j :: 0 <= i < j < |ids| ==> PlacedBefore(work, ids[i], ids[j])
  }

  function Inserted(work: map<WorkId, Work>, ids: seq<WorkId>, w: WorkId): (out: seq<WorkId>)
    ensures multiset(out) == multiset(ids) + multiset{w}
  {
    if ids == [] || !PlacedBefore(work, ids[0], w) then [w] + ids
    else
      assert ids == [ids[0]] + ids[1..];
      [ids[0]] + Inserted(work, ids[1..], w)
  }

  /** `sorted(rows, key=(-duration, work_id))`. */
  function LongestFirst(work: map<WorkId, Work>, ids: seq<WorkId>): (out: seq<WorkId>)
    ensures |out| == |ids| && multiset(out) == multiset(ids)
  {
    if ids == [] then []
    else
      var n := |ids| - 1;
      assert ids == ids[..n] + [ids[n]];
      var out := Inserted(work, LongestFirst(work, ids[..n]), ids[n]);
      assert |multiset(out)| == |out| && |multiset(ids)| == |ids|;
      out
  }

  lemma {:induction false} InsertedLeads(work: map<WorkId, Work>, ids: seq<WorkId>, w: WorkId)
    requires LongestLeads(work, ids)
    ensures LongestLeads(work, Inserted(work, ids, w))
  {
    var out := Inserted(work, ids, w);
    if ids != [] && PlacedBefore(work, ids[0], w) {
      InsertedLeads(work, ids[1..], w);
      var rest := Inserted(work, ids[1..], w);
      forall j | 0 <= j < |rest| ensures PlacedBefore(work, ids[0], rest[j]) {
        assert rest[j] in multiset(rest);
        assert rest[j] in ids[1..] || rest[j] == w;
      }
    }
  }

  lemma {:induction false} LongestFirstLeads(work: map<WorkId, Work>, ids: seq<WorkId>)
    ensures LongestLeads(work, LongestFirst(work, ids))
    ensures Descending(Durations(work, LongestFirst(work, ids)))
  {
    if ids != [] {
      var n := |ids| - 1;
      LongestFirstLeads(work, ids[..n]);
      InsertedLeads(work, LongestFirst(work, ids[..n]), ids[n]);
    }
  }

  // ---- the makespan ----

  /** The lowest position of a least load. */
  function LeastOf(loads: seq<real>): (k: nat)
    requires loads != []
    ensures k < |loads| && forall j :: 0 <= j < |loads| ==> loads[k] <= loads[j] && (j < k ==> loads[k] < loads[j])
  {
    var n := |loads| - 1;
    if n == 0 then 0
    else
      var k := LeastOf(loads[..n]);
      if loads[n] < loads[k] then n else k
  }

  function MaxOf(loads: seq<real>): (c: real)
    requires loads != []
    ensures forall j :: 0 <= j < |loads| ==> loads[j] <= c
    ensures exists j :: 0 <= j < |loads| && loads[j] == c
  {
    var n := |loads| - 1;
    if n == 0 then loads[0]
    else
      var c := MaxOf(loads[..n]);
      assert forall j :: 0 <= j < n ==> loads[..n][j] == loads[j];
      if loads[n] > c then loads[n] else c
  }

  function Loads(p: seq<real>, a: seq<nat>, m: nat): (loads: seq<real>)
    requires |a| == |p|
    ensures |loads| == m && forall k: nat :: k < m ==> loads[k] == Load(p, a, k, |p|)
  {
    seq(m, k requires 0 <= k < m => Load(p, a, k, |p|))
  }

  /** Each job in turn to the least-loaded machine, the first such. */
  function Placed(p: seq<real>, m: nat): (a: seq<nat>)
    requires m > 0
    ensures |a| == |p|
  {
    if p == [] then []
    else
      var n := |p| - 1;
      var a := Placed(p[..n], m);
      a + [LeastOf(Loads(p[..n], a, m))]
  }

  function Makespan(p: seq<real>, m: nat): real
    requires m > 0
  {
    MaxOf(Loads(p, Placed(p, m), m))
  }

  lemma {:induction false} PlacedIsGreedy(p: seq<real>, m: nat)
    requires m > 0
    ensures Greedy(p, Placed(p, m), m)
  {
    if p != [] {
      var n := |p| - 1;
      var a, a' := Placed(p[..n], m), Placed(p, m);
      PlacedIsGreedy(p[..n], m);
      var costs := Loads(p[..n], a, m);
      forall k: nat | k < m ensures costs[k] == Load(p, a, k, n) {
        LoadPrefix(p[..n], p, a, a, k, n);
      }
      assert p[..n + 1] == p && p[..|a|] == p[..n];
      forall j | 0 <= j < |p| ensures LeastLoaded(p, a', m, j) {
        if j < n { assert LeastLoaded(p[..n], a, m, j); }
        StillLeast(p, a, a', m, j, LeastOf(costs), costs);
      }
    }
  }

  /** `_lpt_makespan_seconds`. */
  method LptMakespan(work: map<WorkId, Work>, ids: seq<WorkId>, workers: nat) returns (c: real)
    requires workers > 0
    ensures c == Makespan(Durations(work, LongestFirst(work, ids)), workers)
  {
    var ordered := LongestFirst(work, ids);
    ghost var p := Durations(work, ordered);
    var costs := seq(workers, _ => 0.0);
    for n := 0 to |ordered|
      invariant |costs| == workers && costs == Loads(p[..n], Placed(p[..n], workers), workers)
    {
      var target := IndexOfLeast(costs);
      PlacesNext(p, n, workers, costs, target);
      costs := costs[target := costs[target] + Duration(work, ordered[n])];
    }
    assert p[..|ordered|] == p;
    c := MaxOf(costs);
  }

  lemma PlacesNext(p: seq<real>, n: nat, m: nat, costs: seq<real>, target: nat)
    requires n < |p| && m > 0 && costs == Loads(p[..n], Placed(p[..n], m), m) && target < m
    requires forall k :: 0 <= k < m ==> costs[target] <= costs[k] && (k < target ==> costs[target] < costs[k])
    ensures Loads(p[..n + 1], Placed(p[..n + 1], m), m) == costs[target := costs[target] + p[n]]
  {
    var few, more := p[..n], p[..n + 1];
    var a, a' := Placed(few, m), Placed(more, m);
    assert more[..n] == few && LeastOf(costs) == target && a' == a + [target];
    ghost var next := n + 1;
    forall k: nat | k < m ensures Load(more, a', k, next) == costs[target := costs[target] + p[n]][k] {
      LoadPrefix(more, few, a', a, k, n);
    }
  }

  // ---- fitting the lease ----

  function Busy(n: nat, q: Admission): (m: nat)
    requires n > 0 && q.workers > 0
    ensures 0 < m <= q.workers && m <= n
  {
    if n < q.workers then n else q.workers
  }

  /** The time a worker is projected to take for `load` seconds of video. */
  function Projected(load: real, q: Admission): real
    requires ValidAdmission(q)
  {
    load / q.speed * q.factor
  }

  predicate Fits(work: map<WorkId, Work>, ids: seq<WorkId>, q: Admission, lease: real)
    requires ids != [] && ValidAdmission(q)
  {
    Projected(Makespan(Durations(work, LongestFirst(work, ids)), Busy(|ids|, q)), q) + q.margin < lease
  }

  method CheckFits(work: map<WorkId, Work>, ids: seq<WorkId>, q: Admission, lease: real) returns (ok: bool)
    requires ids != [] && ValidAdmission(q)
    ensures ok <==> Fits(work, ids, q, lease)
  {
    var makespan := LptMakespan(work, ids, Busy(|ids|, q));
    ok := Projected(makespan, q) + q.margin < lease;
  }

  lemma ProjectedGrows(x: real, y: real, q: Admission)
    requires ValidAdmission(q) && x <= y
    ensures Projected(x, q) <= Projected(y, q)
    ensures x >= 0.0 ==> Projected(x, q) >= x / q.speed >= 0.0
  {
    var u, v := x / q.speed, y / q.speed;
    assert u * q.speed == x && v * q.speed == y;
    assert u <= v by { if u > v { StrictScale(q.speed, v, u); } }
    Scale(q.factor, u, v);
    if x >= 0.0 {
      assert u >= 0.0 by { if u < 0.0 { StrictScale(q.speed, u, 0.0); } }
      Scale(u, 1.0, q.factor);
    }
  }

  lemma StrictScale(c: real, x: real, y: real)
    requires c > 0.0 && x < y
    ensures c * x < c * y
  {
  }

  /** Every item takes time. */
  predicate Timed(work: map<WorkId, Work>, ids: seq<WorkId>) {
    forall i :: 0 <= i < |ids| ==> ids[i] in work && work[ids[i]].spec.duration > 0.0
  }

  /** What is claimed can be done within the lease: some sharing-out of the items among the workers leaves every worker, even
      at the safety factor, done more than the margin before the lease runs out. */
  lemma FittingCanFinish(work: map<WorkId, Work>, ids: seq<WorkId>, q: Admission, lease: real) returns (a: seq<nat>)
    requires ids != [] && ValidAdmission(q) && Fits(work, ids, q, lease)
    ensures var p := Durations(work, LongestFirst(work, ids));
            && Assignment(p, a, Busy(|ids|, q))
            && forall k: nat :: k < Busy(|ids|, q) ==> Projected(Load(p, a, k, |p|), q) + q.margin < lease
  {
    var p, m := Durations(work, LongestFirst(work, ids)), Busy(|ids|, q);
    a := Placed(p, m);
    PlacedIsGreedy(p, m);
    forall k: nat | k < m ensures Projected(Load(p, a, k, |p|), q) + q.margin < lease {
      assert Loads(p, a, m)[k] <= Makespan(p, m);
      ProjectedGrows(Load(p, a, k, |p|), Makespan(p, m), q);
    }
  }

  /** The makespan is within `4/3 - 1/(3m)` of that of any other sharing-out of the same items. */
  lemma MakespanNearBest(work: map<WorkId, Work>, ids: seq<WorkId>, m: nat, b: seq<nat>, best: real)
    requires m > 0 && Timed(work, ids)
    requires Assignment(Durations(work, LongestFirst(work, ids)), b, m)
    requires Bounds(Durations(work, LongestFirst(work, ids)), b, m, best)
    ensures WithinFourThirds(m, Makespan(Durations(work, LongestFirst(work, ids)), m), best)
  {
    var ordered := LongestFirst(work, ids);
    var p := Durations(work, ordered);
    LongestFirstLeads(work, ids);
    PlacedIsGreedy(p, m);
    forall j | 0 <= j < |p| ensures p[j] >= 0.0 {
      assert ordered[j] in multiset(ordered);
      assert ordered[j] in ids;
    }
    var loads := Loads(p, Placed(p, m), m);
    var k :| 0 <= k < m && loads[k] == MaxOf(loads);
    LargestFirstBound(p, Placed(p, m), b, m, k, best);
  }

  /** A claim is refused only if every sharing-out of its items would take, for some worker, at least `3m / (4m - 1)` of the
      time the lease leaves after the margin: more than three quarters of it. */
  lemma RefusedNeedsMost(work: map<WorkId, Work>, ids: seq<WorkId>, q: Admission, lease: real, b: seq<nat>, best: real)
    requires ids != [] && ValidAdmission(q) && Timed(work, ids) && !Fits(work, ids, q, lease)
    requires Assignment(Durations(work, LongestFirst(work, ids)), b, Busy(|ids|, q))
    requires Bounds(Durations(work, LongestFirst(work, ids)), b, Busy(|ids|, q), best)
    ensures WithinFourThirds(Busy(|ids|, q), lease - q.margin, Projected(best, q))
  {
    var p, m := Durations(work, LongestFirst(work, ids)), Busy(|ids|, q);
    MakespanNearBest(work, ids, m, b, best);
    ScaleBound(m, Makespan(p, m), best, q);
    BoundShrinks(m, lease - q.margin, Projected(Makespan(p, m), q), Projected(best, q));
  }

  lemma BoundShrinks(m: nat, x: real, y: real, best: real)
    requires x <= y && WithinFourThirds(m, y, best)
    ensures WithinFourThirds(m, x, best)
  {
    Scale(3.0 * m as real, x, y);
  }

  lemma ScaleBound(m: nat, cost: real, best: real, q: Admission)
    requires m > 0 && ValidAdmission(q) && WithinFourThirds(m, cost, best)
    ensures WithinFourThirds(m, Projected(cost, q), Projected(best, q))
  {
    var s := q.factor / q.speed;
    ProjectedIsScaled(cost, q);
    ProjectedIsScaled(best, q);
    assert s >= 0.0 by { PositiveRatio(q); }
    Scale(s, 3.0 * m as real * cost, (4 * m - 1) as real * best);
    assert s * (3.0 * m as real * cost) == 3.0 * m as real * (s * cost);
    assert s * ((4 * m - 1) as real * best) == (4 * m - 1) as real * (s * best);
  }

  lemma PositiveRatio(q: Admission)
    requires ValidAdmission(q)
    ensures q.factor / q.speed >= 0.0
  {
  }

  lemma ProjectedIsScaled(x: real, q: Admission)
    requires ValidAdmission(q)
    ensures Projected(x, q) == q.factor / q.speed * x
  {
    var s, u := q.factor / q.speed, x / q.speed;
    assert s * q.speed == q.factor && u * q.speed == x;
    assert u * q.factor == u * (s * q.speed) == s * (u * q.speed) == s * x;
  }
}
