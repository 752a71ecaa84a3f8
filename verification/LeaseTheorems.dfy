/** What admission promises of the claims of a run beside doing claimed work within its lease: work is refused for the lease
    only if every way of doing it would take most of that lease. */
module LeaseTheorems {
  import opened Wrappers
  import opened Ordering
  import opened ControlTables
  import opened ControlSpec
  import opened ControlInvariant
  import opened ControlRuns
  import opened ClaimSelection
  import opened LeaseAdmission
  import opened ClaimRules
  import opened LoadBalance

  /** Every work item takes time. */
  ghost predicate Measured(s: Tables) {
    forall w :: w in s.work ==> s.work[w].spec.duration > 0.0
  }

  /** Only registering adds work, and it refuses work that takes none. */
  lemma StepMeasured(s: Tables, op: Op)
    requires Inv(s) && Enabled(s, op) && Measured(s)
    ensures Measured(Apply(s, op))
  {
    StepEvolves(s, op);
    var s' := Apply(s, op);
    forall w | w in s'.work ensures s'.work[w].spec.duration > 0.0 {
      if w in s.work {
        assert EvolvesWork(s, s', w);
      } else {
        NewWorkIsRegistered(s, op, w);
      }
    }
  }

  lemma NewWorkIsRegistered(s: Tables, op: Op, w: WorkId)
    requires Enabled(s, op) && w in Apply(s, op).work && w !in s.work
    ensures Apply(s, op).work[w].spec.duration > 0.0
  {
    match op {
      case Registers(requests, release, now) =>
        var first := FirstRequest(requests, w);
        assert Apply(s, op).work[w] == NewWork(first, now);
        assert requests[IndexOf(Ids(requests), w)] == first;
      case ClaimsWork(_) =>
      case Heartbeats(_, _, _) =>
      case Seals(_, _, _, _, _) =>
      case CommitsBatch(_, _) =>
      case Abandons(_, _) =>
      case Recovers(_) =>
      case RecoversExactly(_, _, _, _) =>
      case Replays(_, _, _, _, _, _) =>
      case Quarantines(_, _, _, _) =>
      case Reconciles(_) =>
    }
  }

  lemma {:induction false} RunMeasured(s: Tables, ops: seq<Op>)
    requires Inv(s) && RunEnabled(s, ops) && Measured(s)
    ensures Measured(Run(s, ops))
    decreases |ops|
  {
    if ops != [] {
      StepKeeps(s, ops[0]);
      StepMeasured(s, ops[0]);
      RunMeasured(Apply(s, ops[0]), ops[1..]);
    }
  }

  /** Work of `load` seconds takes at least `3m / (4m - 1)` of what the lease leaves after the margin. */
  predicate TakesMost(m: nat, load: real, speed: real, factor: real, margin: real, lease: int)
    requires speed > 0.0
  {
    3.0 * m as real * (lease as real - margin) <= (4 * m - 1) as real * (load / speed * factor)
  }

  /** Shared out so, some worker needs most of the lease. */
  ghost predicate SomeNeedsMost(work: map<WorkId, Work>, ids: seq<WorkId>, share: map<WorkId, nat>, m: nat, speed: real,
                                factor: real, margin: real, lease: int)
    requires speed > 0.0
  {
    exists k: nat :: k < m && TakesMost(m, LoadOf(work, ids, share, k), speed, factor, margin, lease)
  }

  /** However the items are shared out, some worker needs most of the lease, at the speed and with the safety factor and the
      margin of the profile, or without one of the caller. */
  ghost predicate NeedsMost(work: map<WorkId, Work>, ids: seq<WorkId>, q: ClaimRequest) {
    match q.profile
    case Some(p) =>
      && p.speed > 0.0
      && forall m: nat, share {:trigger Hosts(p, |ids|, m), Shares(ids, share, m)} :: Hosts(p, |ids|, m) && Shares(ids, share, m) ==>
           SomeNeedsMost(work, ids, share, m, p.speed, p.factor, p.margin, q.lease)
    case None =>
      && q.given.speed.Some? && q.given.speed.value > 0.0 && q.given.factor.Some? && q.given.margin.Some?
      && forall share {:trigger Shares(ids, share, 1)} :: Shares(ids, share, 1) ==>
           SomeNeedsMost(work, ids, share, 1, q.given.speed.value, q.given.factor.value, q.given.margin.value, q.lease)
  }

  /** A claim refused for its lease: the fewest of the best runtime's oldest items that it may take need most of the lease
      however they are shared out. */
  lemma RefusedNeedsMostOfTheLease(ops: seq<Op>, q: ClaimRequest, now: int) returns (k: RuntimeKey, least: seq<WorkId>)
    requires RunEnabled(EMPTY, ops) && 1 <= q.minItems && SoundSettings(q)
    requires Refuses(Run(EMPTY, ops), q, now, LeaseBudget)
    ensures |least| == q.minItems && BestQueue(Run(EMPTY, ops).work, q, now, k) && Head(Run(EMPTY, ops).work, q, now, k, least)
    ensures NeedsMost(Run(EMPTY, ops).work, least, q)
  {
    var s := Run(EMPTY, ops);
    EmptyHolds();
    RunMeasured(EMPTY, ops);
    SettingsFound(q);
    k, least :| BestQueue(s.work, q, now, k) && Head(s.work, q, now, k, least) && |least| == q.minItems && !InTime(s.work, least, q);
    LateNeedsMost(s.work, least, q, now, k);
  }

  lemma LateNeedsMost(work: map<WorkId, Work>, ids: seq<WorkId>, q: ClaimRequest, now: int, k: RuntimeKey)
    requires ids != [] && AdmissionOf(q).Ok? && Head(work, q, now, k, ids) && !InTime(work, ids, q)
    requires forall w :: w in work ==> work[w].spec.duration > 0.0
    ensures NeedsMost(work, ids, q)
  {
    var n := AdmissionOf(q).value;
    var busy := Busy(|ids|, n);
    SettingsNumbers(q);
    FitsIffInTime(work, ids, q);
    forall share | Shares(ids, share, busy)
      ensures SomeNeedsMost(work, ids, share, busy, n.speed, n.factor, n.margin, q.lease)
    {
      SharedNeedsMost(work, ids, n, q.lease, share);
    }
    if q.profile.Some? { HostsBusy(q.profile.value, |ids|, busy); }
  }

  lemma SharedNeedsMost(work: map<WorkId, Work>, ids: seq<WorkId>, n: Admission, lease: int, share: map<WorkId, nat>)
    requires ids != [] && ValidAdmission(n) && Timed(work, ids) && !Fits(work, ids, n, lease as real)
    requires Shares(ids, share, Busy(|ids|, n))
    ensures SomeNeedsMost(work, ids, share, Busy(|ids|, n), n.speed, n.factor, n.margin, lease)
  {
    var ordered, m := LongestFirst(work, ids), Busy(|ids|, n);
    var b := AssignmentOf(ids, ordered, share, m);
    var loads := Loads(Durations(work, ordered), b, m);
    var best := MaxOf(loads);
    var k :| 0 <= k < m && loads[k] == best;
    RefusedNeedsMost(work, ids, n, lease as real, b, best);
    LoadIsLoad(work, ids, ordered, share, b, k);
    MostOfTheLease(m, best, n, lease);
  }

  lemma MostOfTheLease(m: nat, load: real, n: Admission, lease: int)
    requires ValidAdmission(n) && WithinFourThirds(m, lease as real - n.margin, Projected(load, n))
    ensures TakesMost(m, load, n.speed, n.factor, n.margin, lease)
  {
  }

  /** Every share is an assignment of the items in any order. */
  lemma AssignmentOf(ids: seq<WorkId>, ordered: seq<WorkId>, share: map<WorkId, nat>, m: nat) returns (b: seq<nat>)
    requires multiset(ids) == multiset(ordered) && Shares(ids, share, m)
    ensures Agree(ordered, share, b) && forall j :: 0 <= j < |b| ==> b[j] < m
  {
    forall j | 0 <= j < |ordered| ensures ordered[j] in share && share[ordered[j]] < m {
      assert ordered[j] in multiset(ordered);
      assert ordered[j] in ids;
    }
    b := seq(|ordered|, j requires 0 <= j < |ordered| => share[ordered[j]]);
  }
}
