/** What a claim may take, from the request and the stored columns alone: which work waits, which of it comes first, how long
    it takes the workers, and the outcomes a claim can have. */
module ClaimRules {
  import opened Wrappers
  import opened Ordering
  import opened ControlTables
  import opened ControlSpec
  import opened ClaimSelection
  import opened LeaseAdmission
  import opened LoadBalance
  import Placement

  datatype ClaimRequest = ClaimRequest(owner: string, maxItems: nat, minItems: nat, lease: int, maxActive: Option<nat>,
                                       scope: Option<set<WorkId>>, release: Option<string>, profile: Option<Profile>,
                                       given: Given)

  const MAX_ITEMS := 100

  /** The arguments a claim is accepted with. */
  predicate ValidRequest(q: ClaimRequest) {
    && NonBlank(q.owner) && 1 <= q.minItems <= q.maxItems <= MAX_ITEMS && q.lease > 0
    && (q.maxActive.Some? ==> 1 <= q.maxActive.value <= MAX_ITEMS)
  }

  /** The settings the claim is admitted under. */
  function AdmissionOf(q: ClaimRequest): (r: Result<Admission, ControlError>)
    ensures r.Ok? ==> ValidAdmission(r.value)
  {
    var settings := AdmissionSettings(q.profile, q.given);
    if settings.Ok? && settings.value.factor < 1.0 then Err(BadArgument) else settings
  }

  // ---- the queue ----

  /** The work is ready, its time has come, and it is in the scope asked for. */
  predicate Waiting(work: map<WorkId, Work>, q: ClaimRequest, now: int, w: WorkId) {
    && w in work && work[w].status.Ready? && work[w].availableAt <= now
    && (q.scope.Some? ==> w in q.scope.value)
  }

  /** The waiting work of one runtime. */
  function Queue(work: map<WorkId, Work>, q: ClaimRequest, now: int, k: RuntimeKey): set<WorkId> {
    set w | w in work && Waiting(work, q, now, w) && work[w].spec.runtimeKey == k
  }

  /** Created earlier, or at the same time with the smaller id. */
  predicate Older(work: map<WorkId, Work>, v: WorkId, w: WorkId) {
    && v in work && w in work
    && (work[v].createdAt < work[w].createdAt || (work[v].createdAt == work[w].createdAt && v < w))
  }

  /** `xs` is the oldest waiting work of runtime `k`, oldest first. */
  ghost predicate Head(work: map<WorkId, Work>, q: ClaimRequest, now: int, k: RuntimeKey, xs: seq<WorkId>) {
    && (forall i :: 0 <= i < |xs| ==> Waiting(work, q, now, xs[i]) && work[xs[i]].spec.runtimeKey == k)
    && (forall i, j :: 0 <= i < j < |xs| ==> Older(work, xs[i], xs[j]))
    && (forall i, w :: 0 <= i < |xs| && w !in xs && Waiting(work, q, now, w) && work[w].spec.runtimeKey == k ==>
          Older(work, xs[i], w))
  }

  /** Some waiting work of runtime `k` was created before `w`, or at the same time and its runtime has the smaller key. */
  ghost predicate Ahead(work: map<WorkId, Work>, q: ClaimRequest, now: int, k: RuntimeKey, w: WorkId)
    requires w in work
  {
    exists v :: v in Queue(work, q, now, k)
                && (work[v].createdAt < work[w].createdAt
                    || (work[v].createdAt == work[w].createdAt && k <= work[w].spec.runtimeKey))
  }

  /** Of the runtimes with enough waiting work, `k` has the oldest. */
  ghost predicate BestQueue(work: map<WorkId, Work>, q: ClaimRequest, now: int, k: RuntimeKey) {
    && |Queue(work, q, now, k)| >= q.minItems
    && forall w {:trigger Ahead(work, q, now, k, w)} ::
         Waiting(work, q, now, w) && |Queue(work, q, now, work[w].spec.runtimeKey)| >= q.minItems ==> Ahead(work, q, now, k, w)
  }

  // ---- the time the work takes ----

  /** `n` items are spread over `m` workers: one each at most, and as many as there are instances and CPUs for. */
  predicate Hosts(p: Profile, n: nat, m: nat) {
    && 1 <= m <= n && m <= p.instances && m * p.taskCpus <= p.instances * p.cores
    && (m == n || m == p.instances || (m + 1) * p.taskCpus > p.instances * p.cores)
  }

  /** The largest load when the items are placed longest first, each on a least-loaded of `m` workers. */
  function LptTime(work: map<WorkId, Work>, ids: seq<WorkId>, m: nat): real
    requires m > 0
  {
    Makespan(Durations(work, LongestFirst(work, ids)), m)
  }

  /** Work of `load` seconds, at the speed and stretched by the safety factor, is done more than the margin before the lease ends. */
  predicate Done(load: real, speed: real, factor: real, margin: real, lease: int)
    requires speed > 0.0
  {
    load / speed * factor + margin < lease as real
  }

  /** Placed so, the items are done, at the speed and with the safety factor of the profile, or without one of the caller, more
      than the margin before the lease ends. */
  ghost predicate InTime(work: map<WorkId, Work>, ids: seq<WorkId>, q: ClaimRequest) {
    match q.profile
    case Some(p) =>
      && p.speed > 0.0
      && exists m: nat {:trigger Hosts(p, |ids|, m)} :: Hosts(p, |ids|, m)
           && Done(LptTime(work, ids, m), p.speed, p.factor, p.margin, q.lease)
    case None =>
      && q.given.speed.Some? && q.given.speed.value > 0.0 && q.given.factor.Some? && q.given.margin.Some?
      && Done(LptTime(work, ids, 1), q.given.speed.value, q.given.factor.value, q.given.margin.value, q.lease)
  }

  /** The work given to worker `k`. */
  function LoadOf(work: map<WorkId, Work>, ids: seq<WorkId>, share: map<WorkId, nat>, k: nat): real {
    if ids == [] then 0.0
    else
      var w := ids[|ids| - 1];
      LoadOf(work, ids[..|ids| - 1], share, k) +
      if w in work && w in share && share[w] == k then work[w].spec.duration else 0.0
  }

  /** Every item goes to one of `m` workers. */
  predicate Shares(ids: seq<WorkId>, share: map<WorkId, nat>, m: nat) {
    forall i :: 0 <= i < |ids| ==> ids[i] in share && share[ids[i]] < m
  }

  /** Shared out so, every worker is done in time. */
  ghost predicate AllDone(work: map<WorkId, Work>, ids: seq<WorkId>, share: map<WorkId, nat>, m: nat, speed: real, factor: real,
                          margin: real, lease: int)
    requires speed > 0.0
  {
    Shares(ids, share, m) && forall k: nat :: k < m ==> Done(LoadOf(work, ids, share, k), speed, factor, margin, lease)
  }

  /** The items can be shared out among the workers so that each is done, at the speed and with the safety factor of the
      profile, or without one of the caller, more than the margin before the lease ends. */
  ghost predicate CanBeDone(work: map<WorkId, Work>, ids: seq<WorkId>, q: ClaimRequest) {
    match q.profile
    case Some(p) =>
      && p.speed > 0.0
      && exists m: nat, share {:trigger Hosts(p, |ids|, m), Shares(ids, share, m)} ::
           Hosts(p, |ids|, m) && AllDone(work, ids, share, m, p.speed, p.factor, p.margin, q.lease)
    case None =>
      && q.given.speed.Some? && q.given.speed.value > 0.0 && q.given.factor.Some? && q.given.margin.Some?
      && exists share {:trigger Shares(ids, share, 1)} ::
           AllDone(work, ids, share, 1, q.given.speed.value, q.given.factor.value, q.given.margin.value, q.lease)
  }

  // ---- the outcomes ----

  /** The numbers of the profile are positive and its instances have room for a task. */
  predicate SoundProfile(p: Profile) {
    && p.speed > 0.0 && p.factor > 0.0 && p.margin > 0.0 && p.instances >= 1 && p.cores >= 1 && p.taskCpus >= 1
    && p.taskCpus <= p.instances * p.cores
  }

  /** What the caller gives beside a profile repeats the profile's numbers. */
  predicate Repeats(p: Profile, g: Given) {
    && (g.speed.Some? ==> g.speed.value == p.speed) && (g.factor.Some? ==> g.factor.value == p.factor)
    && (g.margin.Some? ==> g.margin.value == p.margin)
  }

  /** The peak memory asked for is more than one instance of a sound profile has left. */
  predicate TooBig(q: ClaimRequest) {
    && q.profile.Some? && SoundProfile(q.profile.value) && q.given.peak.Some? && q.given.peak.value >= 1
    && q.profile.value.memory >= 1 && q.profile.value.reserve >= 0
    && q.given.peak.value > q.profile.value.memory - q.profile.value.reserve
  }

  /** The settings a claim is accepted with: a sound named profile that nothing given differs from, or all three numbers. */
  predicate SoundSettings(q: ClaimRequest) {
    match q.profile
    case Some(p) =>
      && SoundProfile(p) && NonBlank(p.name) && p.factor >= 1.0 && Repeats(p, q.given)
      && (q.given.peak.Some? ==> p.memory >= 1 && p.reserve >= 0 && 1 <= q.given.peak.value <= p.memory - p.reserve)
    case None =>
      && q.given.speed.Some? && q.given.speed.value > 0.0 && q.given.factor.Some? && q.given.factor.value >= 1.0
      && q.given.margin.Some? && q.given.margin.value > 0.0 && q.given.peak.None?
  }

  function Running(batches: map<BatchId, Batch>): set<BatchId> {
    set b | b in batches && (batches[b].status.Leased? || batches[b].status.Sealed?)
  }

  /** As many batches are leased or sealed as the request allows. */
  predicate Capped(batches: map<BatchId, Batch>, q: ClaimRequest) {
    q.maxActive.Some? && |Running(batches)| >= q.maxActive.value
  }

  /** Some waiting work is of another release than the one insisted on. */
  predicate OtherWaits(work: map<WorkId, Work>, q: ClaimRequest, now: int) {
    q.release.Some? && exists w :: w in work && Waiting(work, q, now, w) && work[w].spec.release != q.release.value
  }

  /** No runtime has enough waiting work. */
  ghost predicate TooFew(work: map<WorkId, Work>, q: ClaimRequest, now: int) {
    forall k: RuntimeKey :: |Queue(work, q, now, k)| < q.minItems
  }

  /** The fewest items that may be claimed, the oldest of the best runtime, are not done in time. */
  ghost predicate TooLong(work: map<WorkId, Work>, q: ClaimRequest, now: int) {
    exists k, least {:trigger Head(work, q, now, k, least)} ::
      BestQueue(work, q, now, k) && Head(work, q, now, k, least) && |least| == q.minItems && !InTime(work, least, q)
  }

  /** The selected items are the oldest of the best runtime, within the limits asked for; they are done in time, as are the
      fewest of them that may be claimed, and more of the oldest would not be. */
  ghost predicate Takes(work: map<WorkId, Work>, q: ClaimRequest, now: int, k: RuntimeKey, selected: seq<WorkId>) {
    && BestQueue(work, q, now, k) && Head(work, q, now, k, selected) && q.minItems <= |selected| <= q.maxItems
    && InTime(work, selected[..q.minItems], q) && InTime(work, selected, q) && CanBeDone(work, selected, q)
    && forall more :: Head(work, q, now, k, more) && |selected| < |more| <= q.maxItems ==> !InTime(work, more, q)
  }

  /** What the request may lead to: a claim of that work, below the cap, of the release insisted on, for its owner and lease. */
  ghost predicate Grants(s: Tables, q: ClaimRequest, now: int, c: Claim) {
    && Claimable(s, c) && !Capped(s.batches, q) && !OtherWaits(s.work, q, now) && Takes(s.work, q, now, c.runtimeKey, c.selected)
    && c.owner == q.owner && c.now == now && c.lease == q.lease
  }

  /** The error a claim raises once its arguments are accepted, with its cause. */
  ghost predicate Refuses(s: Tables, q: ClaimRequest, now: int, e: ControlError) {
    && !Capped(s.batches, q)
    && if e.ImmutableConflict? then OtherWaits(s.work, q, now)
       else e.LeaseBudget? && !OtherWaits(s.work, q, now) && TooLong(s.work, q, now)
  }

  /** Nothing is claimed at the cap, or if too little waits. */
  ghost predicate NothingToClaim(s: Tables, q: ClaimRequest, now: int) {
    Capped(s.batches, q) || (!OtherWaits(s.work, q, now) && TooFew(s.work, q, now))
  }

  // ---- the settings are the request's ----

  /** Settings are found exactly if they are sound; otherwise the peak is too big or an argument is bad. */
  lemma SettingsFound(q: ClaimRequest)
    ensures AdmissionOf(q).Ok? <==> SoundSettings(q)
    ensures AdmissionOf(q) == Err(LeaseBudget) <==> TooBig(q)
    ensures AdmissionOf(q).Err? ==> AdmissionOf(q).error in {BadArgument, LeaseBudget}
  {
    if q.profile.Some? && q.profile.value.taskCpus >= 1 && q.profile.value.instances >= 1 && q.profile.value.cores >= 1 {
      var p := q.profile.value;
      Placement.Grow(0, p.cores, p.instances);
      Placement.Share(p.instances * p.cores, p.taskCpus, 1);
    }
  }

  /** The settings are the profile's numbers and its number of workers, or those given and one worker. */
  lemma SettingsNumbers(q: ClaimRequest)
    requires AdmissionOf(q).Ok?
    ensures var n := AdmissionOf(q).value;
            match q.profile
            case Some(p) =>
              && n.speed == p.speed && n.factor == p.factor && n.margin == p.margin
              && p.instances >= 1 && p.cores >= 1 && p.taskCpus >= 1 && n.workers == MostOf(p)
            case None =>
              && q.given.speed.Some? && q.given.factor.Some? && q.given.margin.Some? && n.workers == 1
              && n.speed == q.given.speed.value && n.factor == q.given.factor.value && n.margin == q.given.margin.value
  {
    if q.profile.Some? { WorkersCounted(q.profile.value, q.given); }
  }

  lemma FitsIffDone(work: map<WorkId, Work>, ids: seq<WorkId>, n: Admission, lease: int)
    requires ids != [] && ValidAdmission(n)
    ensures Fits(work, ids, n, lease as real)
            <==> Done(LptTime(work, ids, Busy(|ids|, n)), n.speed, n.factor, n.margin, lease)
  {
  }

  /** Fitting the lease under the settings is being done in time under the request's own numbers. */
  lemma FitsIffInTime(work: map<WorkId, Work>, ids: seq<WorkId>, q: ClaimRequest)
    requires ids != [] && AdmissionOf(q).Ok?
    ensures Fits(work, ids, AdmissionOf(q).value, q.lease as real) <==> InTime(work, ids, q)
  {
    var n := AdmissionOf(q).value;
    SettingsNumbers(q);
    FitsIffDone(work, ids, n, q.lease);
    if q.profile.Some? {
      HostsBusy(q.profile.value, |ids|, Busy(|ids|, n));
    }
  }

  lemma HostsBusy(p: Profile, n: nat, busy: nat)
    requires n > 0 && p.instances >= 1 && p.cores >= 1 && p.taskCpus >= 1 && MostOf(p) >= 1
    requires busy == if n < MostOf(p) then n else MostOf(p)
    ensures Hosts(p, n, busy) && forall m: nat :: Hosts(p, n, m) ==> m == busy
  {
    forall m: nat ensures Hosts(p, n, m) <==> m == busy {
      OnlyBusy(p, n, m);
    }
  }

  lemma OnlyBusy(p: Profile, n: nat, m: nat)
    requires n > 0 && p.instances >= 1 && p.cores >= 1 && p.taskCpus >= 1 && MostOf(p) >= 1
    ensures Hosts(p, n, m) <==> m == if n < MostOf(p) then n else MostOf(p)
  {
    MostWorkers(p);
    assert m <= MostOf(p) <==> m <= p.instances && m * p.taskCpus <= p.instances * p.cores;
    assert m + 1 <= MostOf(p) <==> m + 1 <= p.instances && (m + 1) * p.taskCpus <= p.instances * p.cores;
  }

  // ---- loads do not depend on the order ----

  lemma {:induction false} LoadWithout(work: map<WorkId, Work>, ids: seq<WorkId>, share: map<WorkId, nat>, k: nat, i: nat)
    requires i < |ids|
    ensures LoadOf(work, ids, share, k) ==
            LoadOf(work, ids[..i] + ids[i + 1..], share, k) + LoadOf(work, [ids[i]], share, k)
  {
    var n := |ids| - 1;
    if i == n {
      assert ids[..i] + ids[i + 1..] == ids[..n];
      assert [ids[i]][..0] == [];
    } else {
      var fewer := ids[..i] + ids[i + 1..];
      assert fewer[..n - 1] == ids[..n][..i] + ids[..n][i + 1..] && fewer[n - 1] == ids[n];
      LoadWithout(work, ids[..n], share, k, i);
    }
  }

  lemma {:induction false} LoadPermutes(work: map<WorkId, Work>, xs: seq<WorkId>, ys: seq<WorkId>, share: map<WorkId, nat>, k: nat)
    requires multiset(xs) == multiset(ys)
    ensures LoadOf(work, xs, share, k) == LoadOf(work, ys, share, k)
    decreases |xs|
  {
    if xs == [] {
      assert |multiset(ys)| == 0;
    } else {
      var n := |xs| - 1;
      assert xs[n] in multiset(ys);
      var i :| 0 <= i < |ys| && ys[i] == xs[n];
      RemoveOne(xs, n);
      RemoveOne(ys, i);
      assert xs[..n] + xs[n + 1..] == xs[..n];
      CancelOne(multiset(xs[..n]), multiset(ys[..i] + ys[i + 1..]), xs[n]);
      LoadPermutes(work, xs[..n], ys[..i] + ys[i + 1..], share, k);
      LoadWithout(work, xs, share, k, n);
      LoadWithout(work, ys, share, k, i);
    }
  }

  /** The share and the assignment send each item to the same worker. */
  ghost predicate Agree(ids: seq<WorkId>, share: map<WorkId, nat>, a: seq<nat>) {
    |a| == |ids| && forall j :: 0 <= j < |ids| ==> ids[j] in share && share[ids[j]] == a[j]
  }

  lemma {:induction false} LoadsAgree(work: map<WorkId, Work>, ids: seq<WorkId>, share: map<WorkId, nat>, a: seq<nat>, k: nat, n: nat)
    requires n <= |ids| && Agree(ids, share, a) && forall i :: 0 <= i < |ids| ==> ids[i] in work
    ensures LoadOf(work, ids[..n], share, k) == Load(Durations(work, ids), a, k, n)
  {
    if n > 0 {
      LoadsAgree(work, ids, share, a, k, n - 1);
      assert ids[..n][..n - 1] == ids[..n - 1];
    }
  }

  /** The loads of a share are those of the assignment that agrees with it, in any order of the items. */
  lemma LoadIsLoad(work: map<WorkId, Work>, ids: seq<WorkId>, ordered: seq<WorkId>, share: map<WorkId, nat>, a: seq<nat>, k: nat)
    requires multiset(ids) == multiset(ordered) && Agree(ordered, share, a)
    requires forall i :: 0 <= i < |ids| ==> ids[i] in work
    ensures LoadOf(work, ids, share, k) == Load(Durations(work, ordered), a, k, |ordered|)
  {
    forall i | 0 <= i < |ordered| ensures ordered[i] in work {
      assert ordered[i] in multiset(ordered);
      assert ordered[i] in ids;
    }
    LoadsAgree(work, ordered, share, a, k, |ordered|);
    assert ordered[..|ordered|] == ordered;
    LoadPermutes(work, ids, ordered, share, k);
  }

  /** Every assignment of different items is a share. */
  lemma ShareOf(ids: seq<WorkId>, ordered: seq<WorkId>, a: seq<nat>) returns (share: map<WorkId, nat>)
    requires Distinct(ids) && multiset(ids) == multiset(ordered) && |a| == |ordered|
    ensures Agree(ordered, share, a)
    ensures forall m: nat :: (forall j :: 0 <= j < |a| ==> a[j] < m) ==> Shares(ids, share, m)
  {
    share := map w | w in ordered :: a[IndexOf(ordered, w)];
    forall i, j | 0 <= i < j < |ordered| ensures ordered[i] != ordered[j] {
      DistinctCount(ids, ordered[i]);
      SingleDiffers(ordered, i, j);
    }
    forall j | 0 <= j < |ordered| ensures share[ordered[j]] == a[j] { IndexOfDistinct(ordered, j); }
    forall i | 0 <= i < |ids| ensures ids[i] in share && share[ids[i]] in a {
      assert ids[i] in multiset(ids);
      assert ids[i] in ordered;
    }
  }

  lemma FittingShared(work: map<WorkId, Work>, ids: seq<WorkId>, n: Admission, lease: int) returns (share: map<WorkId, nat>)
    requires ids != [] && Distinct(ids) && ValidAdmission(n) && Fits(work, ids, n, lease as real)
    requires forall i :: 0 <= i < |ids| ==> ids[i] in work
    ensures AllDone(work, ids, share, Busy(|ids|, n), n.speed, n.factor, n.margin, lease)
  {
    var ordered, m := LongestFirst(work, ids), Busy(|ids|, n);
    var a := FittingCanFinish(work, ids, n, lease as real);
    share := ShareOf(ids, ordered, a);
    forall k: nat | k < m ensures Done(LoadOf(work, ids, share, k), n.speed, n.factor, n.margin, lease) {
      LoadDone(work, ids, ordered, share, a, k, n, lease);
    }
  }

  lemma LoadDone(work: map<WorkId, Work>, ids: seq<WorkId>, ordered: seq<WorkId>, share: map<WorkId, nat>, a: seq<nat>, k: nat,
                 n: Admission, lease: int)
    requires multiset(ids) == multiset(ordered) && Agree(ordered, share, a) && forall i :: 0 <= i < |ids| ==> ids[i] in work
    requires ValidAdmission(n) && Projected(Load(Durations(work, ordered), a, k, |ordered|), n) + n.margin < lease as real
    ensures Done(LoadOf(work, ids, share, k), n.speed, n.factor, n.margin, lease)
  {
    LoadIsLoad(work, ids, ordered, share, a, k);
  }

  /** What is done in time can be shared out so that every worker is done in time. */
  lemma InTimeCanBeDone(work: map<WorkId, Work>, ids: seq<WorkId>, q: ClaimRequest)
    requires ids != [] && Distinct(ids) && AdmissionOf(q).Ok? && InTime(work, ids, q)
    requires forall i :: 0 <= i < |ids| ==> ids[i] in work
    ensures CanBeDone(work, ids, q)
  {
    var n := AdmissionOf(q).value;
    FitsIffInTime(work, ids, q);
    var share := FittingShared(work, ids, n, q.lease);
    SharedCanBeDone(work, ids, q, share);
  }

  lemma SharedCanBeDone(work: map<WorkId, Work>, ids: seq<WorkId>, q: ClaimRequest, share: map<WorkId, nat>)
    requires ids != [] && AdmissionOf(q).Ok?
    requires var n := AdmissionOf(q).value; AllDone(work, ids, share, Busy(|ids|, n), n.speed, n.factor, n.margin, q.lease)
    ensures CanBeDone(work, ids, q)
  {
    SettingsNumbers(q);
    if q.profile.Some? { HostsBusy(q.profile.value, |ids|, Busy(|ids|, AdmissionOf(q).value)); }
  }

  // ---- the oldest first ----

  /** Waiting work of the runtime that is not before position `i` of a head is at it or younger. */
  lemma NextOfHead(work: map<WorkId, Work>, q: ClaimRequest, now: int, k: RuntimeKey, xs: seq<WorkId>, i: nat, w: WorkId)
    requires Head(work, q, now, k, xs) && i < |xs| && forall j :: 0 <= j < i ==> xs[j] != w
    requires Waiting(work, q, now, w) && work[w].spec.runtimeKey == k
    ensures xs[i] == w || Older(work, xs[i], w)
  {
    if w in xs {
      var j :| 0 <= j < |xs| && xs[j] == w;
    }
  }

  /** The oldest are determined: of two heads of one queue the shorter begins the longer. */
  lemma {:induction false} HeadsAgree(work: map<WorkId, Work>, q: ClaimRequest, now: int, k: RuntimeKey, xs: seq<WorkId>,
                                      ys: seq<WorkId>, n: nat)
    requires Head(work, q, now, k, xs) && Head(work, q, now, k, ys) && n <= |xs| && n <= |ys|
    ensures xs[..n] == ys[..n]
  {
    if n > 0 {
      HeadsAgree(work, q, now, k, xs, ys, n - 1);
      var i := n - 1;
      forall j | 0 <= j < i ensures xs[j] == ys[j] { assert xs[..i][j] == ys[..i][j]; }
      NextOfHead(work, q, now, k, xs, i, ys[i]);
      NextOfHead(work, q, now, k, ys, i, xs[i]);
      assert xs[..n] == xs[..i] + [xs[i]] && ys[..n] == ys[..i] + [ys[i]];
    }
  }

  /** A head is no longer than its queue. */
  lemma HeadFits(work: map<WorkId, Work>, q: ClaimRequest, now: int, k: RuntimeKey, xs: seq<WorkId>)
    requires Head(work, q, now, k, xs)
    ensures |xs| <= |Queue(work, q, now, k)| && Distinct(xs)
  {
    var listed := set i | 0 <= i < |xs| :: xs[i];
    assert Distinct(xs);
    ItemsCounted(xs);
    assert listed <= Queue(work, q, now, k);
    SubsetSize(listed, Queue(work, q, now, k));
  }

  /** What the selection works on is the queue. */
  lemma QueueIsOfRuntime(work: map<WorkId, Work>, q: ClaimRequest, now: int, k: RuntimeKey)
    ensures OfRuntime(work, EligibleSet(work, now, q.scope), k) == Queue(work, q, now, k)
  {
  }

  lemma NoneIsTooFew(work: map<WorkId, Work>, q: ClaimRequest, now: int)
    requires 1 <= q.minItems && forall k: RuntimeKey :: !Candidate(work, EligibleSet(work, now, q.scope), q.minItems, k)
    ensures TooFew(work, q, now)
  {
    forall k: RuntimeKey ensures |Queue(work, q, now, k)| < q.minItems {
      QueueIsOfRuntime(work, q, now, k);
      assert !Candidate(work, EligibleSet(work, now, q.scope), q.minItems, k);
    }
  }

  lemma BestIsBest(work: map<WorkId, Work>, q: ClaimRequest, now: int, k: RuntimeKey)
    requires 1 <= q.minItems && BestRuntime(work, EligibleSet(work, now, q.scope), q.minItems, k)
    ensures BestQueue(work, q, now, k)
  {
    var eligible := EligibleSet(work, now, q.scope);
    QueueIsOfRuntime(work, q, now, k);
    var first :| OldestOf(work, eligible, k, first) &&
      forall k': RuntimeKey, first' :: Candidate(work, eligible, q.minItems, k') && OldestOf(work, eligible, k', first') ==>
        first < first' || (first == first' && k <= k');
    forall w | Waiting(work, q, now, w) && |Queue(work, q, now, work[w].spec.runtimeKey)| >= q.minItems
      ensures Ahead(work, q, now, k, w)
    {
      var k' := work[w].spec.runtimeKey;
      QueueIsOfRuntime(work, q, now, k');
      var u := OldestOfQueue(work, q, now, k');
      assert OldestOf(work, eligible, k', work[u].createdAt);
    }
  }

  lemma OldestIsHead(work: map<WorkId, Work>, q: ClaimRequest, now: int, k: RuntimeKey, oldest: seq<WorkId>, n: nat)
    requires n <= |oldest|
    requires OldestFirst(work, OfRuntime(work, EligibleSet(work, now, q.scope), k), q.maxItems, oldest)
    ensures Head(work, q, now, k, oldest[..n])
  {
    QueueIsOfRuntime(work, q, now, k);
    var xs := oldest[..n];
    forall j | 0 <= j < n ensures oldest[j] in xs { assert xs[j] == oldest[j]; }
    forall i, w | 0 <= i < |xs| && w !in xs && Waiting(work, q, now, w) && work[w].spec.runtimeKey == k
      ensures Older(work, xs[i], w)
    {
      assert xs[i] == oldest[i] && xs[i] in xs;
      if w in oldest {
        var j :| 0 <= j < |oldest| && oldest[j] == w;
      }
    }
  }

  /** The longest admissible prefix of the oldest is what may be taken. */
  lemma PrefixIsTaken(work: map<WorkId, Work>, q: ClaimRequest, now: int, k: RuntimeKey, oldest: seq<WorkId>, n: nat)
    requires 1 <= q.minItems <= q.maxItems && AdmissionOf(q).Ok?
    requires BestQueue(work, q, now, k)
    requires OldestFirst(work, OfRuntime(work, EligibleSet(work, now, q.scope), k), q.maxItems, oldest)
    requires q.minItems <= |oldest| && Fits(work, oldest[..q.minItems], AdmissionOf(q).value, q.lease as real)
    requires LargestAdmissible(work, oldest, q.minItems, AdmissionOf(q).value, q.lease as real, n)
    ensures Takes(work, q, now, k, oldest[..n])
  {
    var selected := oldest[..n];
    OldestIsHead(work, q, now, k, oldest, n);
    assert selected[..q.minItems] == oldest[..q.minItems];
    PrefixInTime(work, q, now, k, selected);
    AllMoreIsLate(work, q, now, k, oldest, n);
  }

  lemma AllMoreIsLate(work: map<WorkId, Work>, q: ClaimRequest, now: int, k: RuntimeKey, oldest: seq<WorkId>, n: nat)
    requires 1 <= q.minItems <= |oldest| && AdmissionOf(q).Ok?
    requires OldestFirst(work, OfRuntime(work, EligibleSet(work, now, q.scope), k), q.maxItems, oldest)
    requires LargestAdmissible(work, oldest, q.minItems, AdmissionOf(q).value, q.lease as real, n)
    ensures forall more :: Head(work, q, now, k, more) && n < |more| <= q.maxItems ==> !InTime(work, more, q)
  {
    forall more | Head(work, q, now, k, more) && n < |more| <= q.maxItems ensures !InTime(work, more, q) {
      MoreIsLate(work, q, now, k, oldest, n, more);
    }
  }

  lemma PrefixInTime(work: map<WorkId, Work>, q: ClaimRequest, now: int, k: RuntimeKey, xs: seq<WorkId>)
    requires 1 <= q.minItems <= |xs| && AdmissionOf(q).Ok? && Head(work, q, now, k, xs)
    requires Fits(work, xs[..q.minItems], AdmissionOf(q).value, q.lease as real)
    requires Fits(work, xs, AdmissionOf(q).value, q.lease as real)
    ensures InTime(work, xs[..q.minItems], q) && InTime(work, xs, q) && CanBeDone(work, xs, q)
  {
    HeadFits(work, q, now, k, xs);
    assert InTime(work, xs[..q.minItems], q) by { FitsIffInTime(work, xs[..q.minItems], q); }
    assert InTime(work, xs, q) by { FitsIffInTime(work, xs, q); }
    assert CanBeDone(work, xs, q) by { InTimeCanBeDone(work, xs, q); }
  }

  lemma MoreIsLate(work: map<WorkId, Work>, q: ClaimRequest, now: int, k: RuntimeKey, oldest: seq<WorkId>, n: nat, more: seq<WorkId>)
    requires 1 <= q.minItems <= |oldest| && AdmissionOf(q).Ok?
    requires OldestFirst(work, OfRuntime(work, EligibleSet(work, now, q.scope), k), q.maxItems, oldest)
    requires LargestAdmissible(work, oldest, q.minItems, AdmissionOf(q).value, q.lease as real, n)
    requires Head(work, q, now, k, more) && n < |more| <= q.maxItems
    ensures !InTime(work, more, q)
  {
    QueueIsOfRuntime(work, q, now, k);
    HeadFits(work, q, now, k, more);
    assert oldest[..|oldest|] == oldest && more[..|more|] == more;
    OldestIsHead(work, q, now, k, oldest, |oldest|);
    HeadsAgree(work, q, now, k, oldest, more, |more|);
    FitsIffInTime(work, more, q);
  }

  /** Too little of the oldest fitting is a claim that takes too long. */
  lemma LeastIsTooLong(work: map<WorkId, Work>, q: ClaimRequest, now: int, k: RuntimeKey, oldest: seq<WorkId>)
    requires 1 <= q.minItems <= |oldest| && AdmissionOf(q).Ok?
    requires BestQueue(work, q, now, k)
    requires OldestFirst(work, OfRuntime(work, EligibleSet(work, now, q.scope), k), q.maxItems, oldest)
    requires !Fits(work, oldest[..q.minItems], AdmissionOf(q).value, q.lease as real)
    ensures TooLong(work, q, now)
  {
    OldestIsHead(work, q, now, k, oldest, q.minItems);
    FitsIffInTime(work, oldest[..q.minItems], q);
  }

  // ---- the outcomes exclude each other ----

  /** The oldest work of the best runtime comes before that of any other with enough. */
  lemma BestLeads(work: map<WorkId, Work>, q: ClaimRequest, now: int, k: RuntimeKey, j: RuntimeKey, u: WorkId, w: WorkId)
    requires BestQueue(work, q, now, k) && |Queue(work, q, now, j)| >= q.minItems && w in Queue(work, q, now, j)
    requires u in work && forall v :: v in Queue(work, q, now, k) ==> work[u].createdAt <= work[v].createdAt
    ensures work[u].createdAt < work[w].createdAt || (work[u].createdAt == work[w].createdAt && k <= j)
  {
    assert Ahead(work, q, now, k, w);
  }

  lemma OldestOfQueue(work: map<WorkId, Work>, q: ClaimRequest, now: int, k: RuntimeKey) returns (u: WorkId)
    requires Queue(work, q, now, k) != {}
    ensures u in Queue(work, q, now, k) && forall v :: v in Queue(work, q, now, k) ==> work[u].createdAt <= work[v].createdAt
  {
    LeastExists(Queue(work, q, now, k), v => if v in work then work[v].createdAt else 0);
    u :| u in Queue(work, q, now, k) && forall v :: v in Queue(work, q, now, k) ==> work[u].createdAt <= work[v].createdAt;
  }

  lemma BestIsUnique(work: map<WorkId, Work>, q: ClaimRequest, now: int, k: RuntimeKey, j: RuntimeKey)
    requires 1 <= q.minItems && BestQueue(work, q, now, k) && BestQueue(work, q, now, j)
    ensures k == j
  {
    var u := OldestOfQueue(work, q, now, k);
    var w := OldestOfQueue(work, q, now, j);
    BestLeads(work, q, now, k, j, u, w);
    BestLeads(work, q, now, j, k, w, u);
  }

  /** A claim is granted, refused or comes to nothing, for one reason only. */
  lemma OutcomesExclude(s: Tables, q: ClaimRequest, now: int, c: Claim, e: ControlError)
    requires 1 <= q.minItems
    ensures !(Grants(s, q, now, c) && Refuses(s, q, now, e))
    ensures !(Grants(s, q, now, c) && NothingToClaim(s, q, now))
    ensures !(Refuses(s, q, now, e) && NothingToClaim(s, q, now))
  {
    if Takes(s.work, q, now, c.runtimeKey, c.selected) && TooLong(s.work, q, now) {
      TakenIsNotTooLong(s.work, q, now, c.runtimeKey, c.selected);
    }
  }

  lemma TakenIsNotTooLong(work: map<WorkId, Work>, q: ClaimRequest, now: int, k: RuntimeKey, selected: seq<WorkId>)
    requires 1 <= q.minItems && Takes(work, q, now, k, selected)
    ensures !TooLong(work, q, now)
  {
    forall j, least | BestQueue(work, q, now, j) && Head(work, q, now, j, least) && |least| == q.minItems
      ensures InTime(work, least, q)
    {
      BestIsUnique(work, q, now, k, j);
      HeadsAgree(work, q, now, k, least, selected, q.minItems);
      assert least[..q.minItems] == least;
    }
  }
}
