/** The store used through its methods: performing operations on it is taking the steps of a run, so what is proved of
    runs holds of the store. */
module ControlClient {
  import opened Wrappers
  import opened Ordering
  import opened ControlTables
  import opened ControlSpec
  import opened ControlInvariant
  import opened ControlRuns
  import opened ControlStore
  import opened ClaimRules

  /** The expectations of a quarantine are a mapping from work ids. */
  predicate MappingGiven(op: Op) {
    op.Quarantines? ==> forall i, j :: 0 <= i < j < |op.expected| ==> op.expected[i].work != op.expected[j].work
  }

  /** Performs one operation and drops its reply. */
  method Perform(store: Store, op: Op)
    requires store.Valid() && Enabled(store.Contents(), op) && MappingGiven(op)
    modifies store
    ensures store.Valid() && store.Contents() == old(Apply(store.Contents(), op))
    ensures old(Inv(store.Contents())) ==> Inv(store.Contents())
  {
    ghost var s := store.Contents();
    match op {
      case Registers(requests, release, now) => var _ := store.RegisterMany(requests, release, now);
      case Recovers(t) => var _ := store.Recover(t);
      case Replays(w, operator, reason, additional, id, now) =>
        var _ := store.Replay(w, operator, reason, additional, id, now);
      case Quarantines(es, actor, explanation, now) => var _ := store.Quarantine(es, actor, explanation, now);
      case Reconciles(t) => var _ := store.Reconcile(t);
      case _ => PerformOnBatch(store, op);
    }
    if Inv(s) { StepKeeps(s, op); }
  }

  /** Performs an operation on one batch. */
  method PerformOnBatch(store: Store, op: Op)
    requires store.Valid() && Enabled(store.Contents(), op)
    requires op.ClaimsWork? || op.Heartbeats? || op.Seals? || op.CommitsBatch? || op.Abandons? || op.RecoversExactly?
    modifies store
    ensures store.Valid() && store.Contents() == old(Apply(store.Contents(), op))
  {
    match op {
      case ClaimsWork(c) => store.Lease(c);
      case Heartbeats(env, extension, now) => var _ := store.HeartbeatProcess(env, extension, now);
      case Seals(b, outputs, envelope, membership, now) => var _ := store.SealBatch(b, outputs, envelope, membership, now);
      case CommitsBatch(b, now) => var _ := store.CommitBatch(b, now);
      case Abandons(d, now) => var _ := store.AbandonFailedClaim(d, now);
      case RecoversExactly(p, t, skew, staged) => var _ := store.RecoverExact(p, t, skew, staged);
    }
  }

  /** What the public claim does is one step of a run, or nothing, and the claimed work can be done within its lease. */
  method PerformClaim(store: Store, q: ClaimRequest, now: int, batch: BatchId, ids: seq<AttemptId>)
    returns (claimed: Option<Claim>)
    requires Inv(store.Contents())
    requires |ids| == MAX_ITEMS && Distinct(ids) && forall i :: 0 <= i < |ids| ==> ids[i] !in store.attempts
    requires batch !in store.batches
    modifies store
    ensures Inv(store.Contents())
    ensures claimed.None? ==> store.Contents() == old(store.Contents())
    ensures claimed.Some? ==> old(Enabled(store.Contents(), ClaimsWork(claimed.value)))
                              && store.Contents() == old(Apply(store.Contents(), ClaimsWork(claimed.value)))
    ensures claimed.Some? ==>
      && old(Head(store.work, q, now, claimed.value.runtimeKey, claimed.value.selected))
      && q.minItems <= |claimed.value.selected| <= q.maxItems && old(CanBeDone(store.work, claimed.value.selected, q))
  {
    ghost var s := store.Contents();
    InvIsWellFormed(s);
    var r := store.Claim(q, now, batch, ids);
    claimed := if r.Ok? then r.value else None;
    if claimed.Some? { ClaimIsStep(s, claimed.value); }
  }

  lemma ClaimIsStep(s: Tables, c: Claim)
    requires Inv(s) && Claimable(s, c)
    ensures Enabled(s, ClaimsWork(c)) && Apply(s, ClaimsWork(c)) == ClaimTables(s, c) && Inv(ClaimTables(s, c))
  {
    StepKeeps(s, ClaimsWork(c));
  }

  /** Any run can be carried out on a new store and ends in that run's tables, which meet the invariant. */
  method PerformAll(ops: seq<Op>) returns (store: Store)
    requires RunEnabled(EMPTY, ops) && forall k :: 0 <= k < |ops| ==> MappingGiven(ops[k])
    ensures fresh(store) && store.Valid() && store.Contents() == Run(EMPTY, ops) && Inv(store.Contents())
  {
    store := new Store();
    EmptyHolds();
    for k := 0 to |ops|
      invariant fresh(store) && store.Valid() && Inv(store.Contents())
      invariant RunEnabled(store.Contents(), ops[k..]) && Run(store.Contents(), ops[k..]) == Run(EMPTY, ops)
    {
      assert ops[k..][0] == ops[k] && ops[k..][1..] == ops[k + 1..];
      Perform(store, ops[k]);
    }
  }
}
