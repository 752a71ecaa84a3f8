/** The control store as it runs: each operation loads rows, updates them in loops, and replaces its tables at the end.
    Every method ends in exactly the state and reply that the specification of its operation gives, so the lemmas about
    runs hold of it.  The methods ask only that references between tables resolve; the full invariant is not assumed. */
module ControlStore {
  import opened Wrappers
  import opened Ordering
  import opened ControlTables
  import opened ControlSpec
  import opened ClaimLoops
  import opened LeaseLoops
  import opened RecoveryLoops
  import opened AuditLoops
  import opened CommitLoops
  import opened ClaimSelection
  import opened LeaseAdmission
  import opened ClaimRules
  import opened ControlEffects
  import opened ControlRefusals

  class Store {
    var work: map<WorkId, Work>
    var attempts: map<AttemptId, Attempt>
    var batches: map<BatchId, Batch>
    var members: set<Member>
    var publications: seq<Publication>
    var replays: map<ReplayId, Replay>
    var findings: map<FindingKey, Finding>

    function Contents(): Tables
      reads this
    {
      Tables(work, attempts, batches, members, publications, replays, findings)
    }

    ghost predicate Valid()
      reads this
    {
      WellFormed(Contents())
    }

    constructor ()
      ensures Valid() && Contents() == EMPTY
    {
      work, attempts, batches, members := map[], map[], map[], {};
      publications, replays, findings := [], map[], map[];
    }

    /** Registers each distinct work item once and tells its row; a repeat must carry the same content. */
    method RegisterMany(requests: seq<Request>, release: Option<string>, now: int)
      returns (r: Result<seq<Registered>, ControlError>)
      requires Valid()
      modifies this`work
      ensures Valid() && Outcome(Contents(), r) == old(Register(Contents(), requests, release, now))
      ensures r.Ok? <==> SoundRequests(requests) && old(Compatible(Contents(), requests, release))
      ensures r.Ok? ==> AfterRegister(old(Contents()), Contents(), requests, now) && TellsInOrder(Contents(), requests, r.value)
    {
      RegistrationMeans(Contents(), requests, release, now);
      if BadRequests(requests) { return Err(BadArgument); }
      if OtherRelease(requests, release) { return Err(ImmutableConflict); }
      var firsts := FirstRequests(requests);
      if firsts.None? { return Err(ImmutableConflict); }
      var rows := AddWork(work, requests, firsts.value, now);
      if rows.None? { return Err(ImmutableConflict); }
      RegisterWellFormed(Contents(), requests, release, now);
      work := rows.value.0;
      r := Ok(rows.value.1);
    }

    /** Claims the longest admissible oldest-first prefix of the best runtime's eligible work, or nothing. */
    method Claim(q: ClaimRequest, now: int, batch: BatchId, ids: seq<AttemptId>)
      returns (r: Result<Option<ControlSpec.Claim>, ControlError>)
      requires Valid()
      requires |ids| == MAX_ITEMS && Distinct(ids) && forall i :: 0 <= i < |ids| ==> ids[i] !in attempts
      requires batch !in batches && forall m :: m in members ==> m.batch != batch
      modifies this`work, this`batches, this`members, this`attempts
      ensures Valid()
      ensures r == Err(BadArgument) <==> !ValidRequest(q) || !(SoundSettings(q) || TooBig(q))
      ensures r.Err? && !r.error.BadArgument? ==>
        Contents() == old(Contents()) && ((TooBig(q) && r.error.LeaseBudget?) || old(Refuses(Contents(), q, now, r.error)))
      ensures !(r.Ok? && r.value.Some?) ==> Contents() == old(Contents())
      ensures r == Ok(None) ==> old(NothingToClaim(Contents(), q, now))
      ensures r.Ok? && r.value.Some? ==>
        && old(Grants(Contents(), q, now, r.value.value)) && r.value.value.batch == batch && r.value.value.attempts <= ids
        && Contents() == old(ClaimTables(Contents(), r.value.value))
        && AfterClaim(old(Contents()), Contents(), r.value.value)
    {
      if !ValidRequest(q) { return Err(BadArgument); }
      SettingsFound(q);
      var settings := AdmissionOf(q);
      if settings.Err? { return Err(settings.error); }
      r := ClaimUnder(q, settings.value, now, batch, ids);
    }

    /** The claim once its arguments are accepted, under the lock. */
    method ClaimUnder(q: ClaimRequest, settings: Admission, now: int, batch: BatchId, ids: seq<AttemptId>)
      returns (r: Result<Option<ControlSpec.Claim>, ControlError>)
      requires Valid() && ValidRequest(q) && AdmissionOf(q) == Ok(settings)
      requires |ids| == MAX_ITEMS && Distinct(ids) && forall i :: 0 <= i < |ids| ==> ids[i] !in attempts
      requires batch !in batches && forall m :: m in members ==> m.batch != batch
      modifies this`work, this`batches, this`members, this`attempts
      ensures Valid()
      ensures r.Err? ==> Contents() == old(Contents()) && old(Refuses(Contents(), q, now, r.error))
      ensures r == Ok(None) ==> Contents() == old(Contents()) && old(NothingToClaim(Contents(), q, now))
      ensures r.Ok? && r.value.Some? ==>
        && old(Grants(Contents(), q, now, r.value.value)) && r.value.value.batch == batch && r.value.value.attempts <= ids
        && Contents() == old(ClaimTables(Contents(), r.value.value))
        && AfterClaim(old(Contents()), Contents(), r.value.value)
    {
      if q.maxActive.Some? {
        var active := CountActive(batches);
        if active >= q.maxActive.value { return Ok(None); }
      }
      if OtherWaits(work, q, now) { return Err(ImmutableConflict); }
      var chosen := ChooseWork(work, q, settings, now);
      if chosen.Err? { return Err(LeaseBudget); }
      if chosen.value.None? { return Ok(None); }
      var runtime, selected := chosen.value.value.0, chosen.value.value.1;
      var c := ControlSpec.Claim.Claim(q.owner, runtime, now, q.lease, batch, selected, ids[..|selected|]);
      TakenIsClaimable(Contents(), q, ids, c);
      assert Grants(Contents(), q, now, c);
      Lease(c);
      r := Ok(Some(c));
    }

    /** Writes the lease of the selected work: work rows, the batch, its members and their attempts. */
    method Lease(c: ControlSpec.Claim)
      requires Valid() && Claimable(Contents(), c)
      modifies this`work, this`batches, this`members, this`attempts
      ensures Valid() && Contents() == old(ClaimTables(Contents(), c))
      ensures AfterClaim(old(Contents()), Contents(), c)
    {
      ClaimEffect(Contents(), c);
      var workRows := LeaseWork(work, c);
      var memberRows, attemptRows := AddMembers(Contents(), c);
      ClaimWellFormed(Contents(), c);
      var batchRow := NewBatch(ClaimItems(Contents(), c), c);
      work := workRows;
      batches := batches[c.batch := batchRow];
      members := memberRows;
      attempts := attemptRows;
    }

    /** Extends the lease of a live batch, its attempts and the work they hold. */
    method HeartbeatProcess(env: ProcessEnvelope, extension: int, now: int) returns (r: Result<(), ControlError>)
      requires Valid()
      modifies this`batches, this`attempts, this`work
      ensures Valid() && Outcome(Contents(), r) == old(Heartbeat(Contents(), env, extension, now))
      ensures r.Ok? <==> extension > 0 && old(Heartbeatable(Contents(), env, now))
      ensures r.Ok? ==> AfterHeartbeat(old(Contents()), Contents(), env.batch, extension, now)
    {
      HeartbeatAccepts(Contents(), env, extension, now);
      if Heartbeat(Contents(), env, extension, now).reply.Ok? { HeartbeatEffect(Contents(), env, extension, now); }
      if extension <= 0 { return Err(BadArgument); }
      var verified := VerifyProcessBatch(Contents(), env);
      if verified.Err? { return Err(verified.error); }
      var batch := verified.value;
      if !batch.status.Leased? || batch.leaseExpires <= now { return Err(LeaseLost); }
      var expires := if batch.leaseExpires >= now + extension then batch.leaseExpires else now + extension;
      var attemptRows := RenewAttempts(attempts, env.items, expires);
      var workRows, changed := RenewWork(work, env.items, expires, now);
      if changed != |env.items| { return Err(LeaseLost); }
      HeartbeatWellFormed(Contents(), env, expires, now);
      batches := batches[env.batch := batch.(leaseExpires := expires)];
      attempts := attemptRows;
      work := workRows;
      r := Ok(());
    }

    /** Records the outputs of a live batch; sealing a sealed batch again must repeat the same outputs. */
    method SealBatch(b: BatchId, outputs: seq<Output>, envelope: Envelope, membership: seq<ClaimItem>, now: int)
      returns (r: Result<(), ControlError>)
      requires Valid()
      modifies this`batches, this`attempts
      ensures Valid() && Outcome(Contents(), r) == old(Seal(Contents(), b, outputs, envelope, membership, now))
      ensures r.Ok? && old(b in batches && batches[b].status.Leased?) ==> AfterSeal(old(Contents()), Contents(), b, outputs, now)
      ensures old(b in batches && batches[b].status.Sealed?) ==>
        Contents() == old(Contents()) && (r.Ok? <==> OncePerItem(outputs) && old(Identifies(Contents(), b, envelope, membership))
                                                     && old(RecordedOutputs(Contents(), b, outputs)))
    {
      SealAccepts(Contents(), b, outputs, envelope, membership, now);
      if Seal(Contents(), b, outputs, envelope, membership, now).reply.Ok? && batches[b].status.Leased? {
        SealEffect(Contents(), b, outputs, envelope, membership, now);
      }
      if !OutputsDistinct(outputs) { return Err(BatchValidation); }
      if b !in batches { return Err(KeyMissing); }
      var batch := batches[b];
      if batch.envelope != envelope || batch.membership != membership { return Err(BatchValidation); }
      if batch.status.Sealed? {
        if RecordedTuples(Contents(), b) != SuppliedTuples(outputs) { return Err(ImmutableConflict); }
        return Ok(());
      }
      if !batch.status.Leased? || batch.leaseExpires <= now { return Err(LeaseLost); }
      var expected := MemberPairs(Contents(), b);
      if |outputs| != |expected| || OutputPairs(outputs) != expected { return Err(BatchValidation); }
      var rows := SealAttempts(Contents(), outputs, now);
      if rows.None? { return Err(LeaseLost); }
      SealWellFormed(Contents(), b, outputs, now);
      batches := batches[b := batch.(status := BatchStatus.Sealed, sealedAt := Some(now))];
      attempts := rows.value;
      r := Ok(());
    }

    /** Publishes the successes of a live sealed batch in work-id order and returns their sequences; a committed batch
        returns the sequences it has. */
    method CommitBatch(b: BatchId, now: int) returns (r: Result<seq<int>, ControlError>)
      requires Valid()
      modifies this`batches, this`attempts, this`work, this`publications
      ensures Valid() && Outcome(Contents(), r) == old(Commit(Contents(), b, now))
      ensures r.Ok? && !old(batches[b].status.Committed?) ==>
        AfterCommit(old(Contents()), Contents(), b, now) && TellsSequences(old(Contents()), Contents(), r.value)
    {
      if Commit(Contents(), b, now).reply.Ok? && !batches[b].status.Committed? { CommitEffect(Contents(), b, now); }
      if b !in batches { return Err(KeyMissing); }
      var batch := batches[b];
      if batch.status.Committed? {
        var sequences := SortSequences(publications, b);
        assert BatchPublications(Contents(), b) == PublishedBy(publications, b);
        return Ok(sequences);
      }
      if !batch.status.Sealed? || batch.leaseExpires <= now { return Err(LeaseLost); }
      if |BatchAttempts(Contents(), b)| != batch.itemCount { return Err(BatchValidation); }
      var committed := CommitRows(Contents(), b, now);
      if committed.None? { return Err(LeaseLost); }
      CommitWellFormed(Contents(), b, now);
      batches := batches[b := batch.(status := BatchStatus.Committed, committedAt := Some(now))];
      attempts := committed.value.attempts;
      work := committed.value.work;
      publications := committed.value.publications;
      r := Ok(committed.value.sequences);
    }

    /** Gives back, on an operator's word, the work of a claim that produced nothing. */
    method AbandonFailedClaim(d: Abandonment, now: int) returns (r: Result<bool, ControlError>)
      requires Valid()
      modifies this`work, this`attempts, this`batches
      ensures Valid() && Outcome(Contents(), r) == old(Abandon(Contents(), d, now))
      ensures r == Ok(false) <==> old(NamesClaim(Contents(), d) && batches[d.batch].status.Leased? && Abandonable(Contents(), d))
      ensures r == Ok(false) ==> AfterAbandon(old(Contents()), Contents(), d, now)
    {
      AbandonAccepts(Contents(), d, now);
      r := CheckAbandon(d, now);
      if r == Ok(false) {
        AbandonEffect(Contents(), d, now);
        GiveBack(d, now);
      }
    }

    /** Whether the claim may be given back: true if it already is. */
    method CheckAbandon(d: Abandonment, ghost now: int) returns (r: Result<bool, ControlError>)
      ensures r == Abandon(Contents(), d, now).reply
      ensures r == Ok(false) ==> d.batch in batches && AbandonError(Contents(), d.owner, d.envelope.items).None?
    {
      if !NonBlank(d.operator) || !NonBlank(d.reason) || !NonBlank(d.job) || !NonBlank(d.owner) { return Err(BadArgument); }
      if d.batch !in batches { return Err(KeyMissing); }
      var batch := batches[d.batch];
      if batch.owner != d.owner || batch.envelope != d.envelope { return Err(LeaseLost); }
      if !EnvelopeVerifies(d.envelope, d.batch) { return Err(BatchValidation); }
      if batch.status.Expired? { return Ok(true); }
      if !batch.status.Leased? { return Err(BatchValidation); }
      var verified := VerifyProcessBatch(Contents(), Verified(d.batch, d.envelope));
      if verified.Err? { return Err(verified.error); }
      if d.staged { return Err(BatchValidation); }
      if exists p, i :: 0 <= p < |publications| && 0 <= i < |d.envelope.items| &&
                        publications[p].work == d.envelope.items[i].work
      {
        return Err(BatchValidation);
      }
      var e := AbandonError(Contents(), d.owner, d.envelope.items);
      r := if e.Some? then Err(e.value) else Ok(false);
    }

    /** Writes the rows of a claim given back. */
    method GiveBack(d: Abandonment, now: int)
      requires Valid() && d.batch in batches && AbandonError(Contents(), d.owner, d.envelope.items).None?
      modifies this`work, this`attempts, this`batches
      ensures Valid() && Contents() == old(AbandonTables(Contents(), d, now))
    {
      var workRows, attemptRows := AbandonRows(Contents(), d, now);
      AbandonWellFormed(Contents(), d, now);
      work := workRows;
      attempts := attemptRows;
      batches := batches[d.batch := batches[d.batch].(status := BatchStatus.Expired)];
    }

    /** Takes back every lease that has expired at `t`. */
    method Recover(t: int) returns (report: RecoveryReport)
      requires Valid()
      modifies this`work, this`attempts, this`batches
      ensures Valid() && Outcome(Contents(), Ok(report)) == old(ControlSpec.Recover(Contents(), t))
      ensures AfterRecover(old(Contents()), Contents(), t) && Reports(old(Contents()), Contents(), t, report)
    {
      RecoverEffect(Contents(), t);
      var workRows, attemptRows, retried, dead := RecoverRows(Contents(), t);
      var batchRows := RecoverBatches(batches, t);
      ghost var s := Contents();
      RecoverWellFormed(s, t);
      work := workRows;
      attempts := attemptRows;
      batches := batchRows;
      assert Contents() == RecoverTables(s, t);
      assert DoomedWorks(s, t) == set w | w in OverdueWorks(s, t) && RetryStatus(s.work[w]).Dead?;
      report := RecoveryReport(retried + dead, retried, dead);
    }

    /** Recovers one exhausted claim under exact stored identities. */
    method RecoverExact(p: ExactClaim, t: int, skew: int, staged: bool) returns (r: Result<bool, ControlError>)
      requires Valid()
      modifies this`work, this`batches, this`attempts
      ensures Valid() && Outcome(Contents(), r) == old(ControlSpec.RecoverExact(Contents(), p, t, skew, staged))
      ensures r != Ok(false) ==> Contents() == old(Contents())
      ensures r == Ok(false) ==> AfterRecoverExact(old(Contents()), Contents(), p, t)
    {
      if ControlSpec.RecoverExact(Contents(), p, t, skew, staged).reply == Ok(false) {
        RecoverExactEffect(Contents(), p, t, skew, staged);
      }
      if skew < 0 || t < p.leaseExpires + skew { return Err(LeaseLost); }
      if p.fence < 1 { return Err(BatchValidation); }
      if p.work !in work || p.batch !in batches || p.attempt !in attempts { return Err(KeyMissing); }
      if |BatchMembers(Contents(), p.batch)| != 1 { return Err(BatchValidation); }
      if ExactTerminal(Contents(), p) { return Ok(true); }
      if !ExactLive(Contents(), p) { return Err(LeaseLost); }
      if !ExactEnvelope(p) || staged { return Err(BatchValidation); }
      RecoverExactWellFormed(Contents(), p, t);
      work := work[p.work := ClearedRow(work[p.work], WorkStatus.Dead, t).(
                               availableAt := t, lastError := Some(LeaseExpiredAfterValidationFailure))];
      batches := batches[p.batch := batches[p.batch].(status := BatchStatus.Expired)];
      attempts := attempts[p.attempt := attempts[p.attempt].(status := AttemptStatus.Expired,
                                                             recoveryOutcome := Some(WorkStatus.Dead))];
      r := Ok(false);
    }

    /** Makes a work item claimable again as a new generation. */
    method Replay(w: WorkId, operator: string, reason: string, additional: int, id: ReplayId, now: int)
      returns (r: Result<int, ControlError>)
      requires Valid()
      modifies this`work, this`replays
      ensures Valid() && Outcome(Contents(), r) == old(ReplayWork(Contents(), w, operator, reason, additional, id, now))
      ensures r.Err? ==> Contents() == old(Contents())
      ensures r.Ok? ==> AfterReplay(old(Contents()), Contents(), w, operator, reason, additional, id, now, r.value)
    {
      if ReplayWork(Contents(), w, operator, reason, additional, id, now).reply.Ok? {
        ReplayEffect(Contents(), w, operator, reason, additional, id, now);
      }
      if additional < 1 { return Err(BadArgument); }
      if w !in work { return Err(KeyMissing); }
      if work[w].status.Leased? { return Err(LeaseLost); }
      if !NonBlank(operator) || !NonBlank(reason) { return Err(BadArgument); }
      ReplayWellFormed(Contents(), w, operator, reason, additional, id, now);
      var row := ReplayedRow(work[w], additional, id, now);
      work := work[w := row];
      replays := replays[id := ControlTables.Replay(w, operator, reason, row.replayGeneration, now)];
      r := Ok(row.replayGeneration);
    }

    /** Kills ready work of an obsolete release. */
    method Quarantine(es: seq<Expectation>, actor: string, explanation: string, now: int) returns (r: Result<(), ControlError>)
      requires Valid()
      requires forall i, j :: 0 <= i < j < |es| ==> es[i].work != es[j].work
      modifies this`work
      ensures Valid() && Outcome(Contents(), r) == old(ControlSpec.Quarantine(Contents(), es, actor, explanation, now))
      ensures r.Ok? ==> AfterQuarantine(old(Contents()), Contents(), es, actor, explanation, now)
    {
      if ControlSpec.Quarantine(Contents(), es, actor, explanation, now).reply.Ok? {
        QuarantineEffect(Contents(), es, actor, explanation, now);
      }
      if es == [] || !NonBlank(actor) || !NonBlank(explanation) { return Err(BadArgument); }
      if exists i :: 0 <= i < |es| && es[i].work !in work { return Err(KeyMissing); }
      var rows := QuarantineRows(work, es, actor, explanation, now);
      if rows.Err? { return Err(rows.error); }
      QuarantineWellFormed(Contents(), es, actor, explanation, now);
      work := rows.value;
      r := Ok(());
    }

    /** Records what looks wrong, closes what no longer does, and returns what stays open. */
    method Reconcile(t: int) returns (open: set<FindingKey>)
      requires Valid()
      modifies this`findings
      ensures Valid() && Outcome(Contents(), Ok(open)) == old(ControlSpec.Reconcile(Contents(), t))
      ensures AfterReconcile(old(Contents()), Contents(), t, open)
    {
      ReconcileEffect(Contents(), t);
      var detected := Detect(Contents(), t);
      var rows := UpdateFindings(findings, detected, t);
      ghost var s := Contents();
      ReconcileWellFormed(s, t);
      UpdatedAll(s, t, rows);
      findings := rows;
      open := set k | k in findings && findings[k].resolvedAt.None?;
      assert Contents() == ReconcileTables(s, t);
    }
  }

  lemma RegistrationMeans(s: Tables, requests: seq<Request>, release: Option<string>, now: int)
    ensures var o := Register(s, requests, release, now);
            && (o.reply.Ok? <==> SoundRequests(requests) && Compatible(s, requests, release))
            && (o.reply.Ok? ==> AfterRegister(s, o.tables, requests, now) && TellsInOrder(o.tables, requests, o.reply.value))
  {
    RegisterAccepts(s, requests, release, now);
    if Register(s, requests, release, now).reply.Ok? { RegisterEffect(s, requests, release, now); }
  }

  method CountActive(batches: map<BatchId, Batch>) returns (n: nat)
    ensures n == |Running(batches)|
  {
    n := 0;
    var todo := batches.Keys;
    ghost var active := Running(batches);
    assert active - todo == {};
    while todo != {}
      invariant todo <= batches.Keys && n == |active - todo|
      decreases |todo|
    {
      var b :| b in todo;
      CountOne(active, todo, b);
      todo := todo - {b};
      if ActiveBatch(batches[b]) { n := n + 1; }
    }
    assert active - todo == active;
  }

  /** The runtime and its work to claim; None if there is not enough, an error if too little of it is done in time. */
  method ChooseWork(work: map<WorkId, Work>, q: ClaimRequest, settings: Admission, now: int)
    returns (r: Result<Option<(RuntimeKey, seq<WorkId>)>, ControlError>)
    requires 1 <= q.minItems <= q.maxItems && AdmissionOf(q) == Ok(settings)
    ensures r.Err? ==> r.error.LeaseBudget? && TooLong(work, q, now)
    ensures r == Ok(None) ==> TooFew(work, q, now)
    ensures r.Ok? && r.value.Some? ==> Takes(work, q, now, r.value.value.0, r.value.value.1)
  {
    var eligible := EligibleSet(work, now, q.scope);
    var runtime := ChooseRuntime(work, eligible, q.minItems);
    if runtime.None? {
      NoneIsTooFew(work, q, now);
      return Ok(None);
    }
    BestIsBest(work, q, now, runtime.value);
    var selected := ChooseOldest(work, q, settings, now, runtime.value);
    if selected.None? { return Err(LeaseBudget); }
    r := Ok(Some((runtime.value, selected.value)));
  }

  /** The longest admissible beginning of the runtime's oldest work. */
  method ChooseOldest(work: map<WorkId, Work>, q: ClaimRequest, settings: Admission, now: int, k: RuntimeKey)
    returns (r: Option<seq<WorkId>>)
    requires 1 <= q.minItems <= q.maxItems && AdmissionOf(q) == Ok(settings)
    requires BestQueue(work, q, now, k)
    ensures r.None? ==> TooLong(work, q, now)
    ensures r.Some? ==> Takes(work, q, now, k, r.value)
  {
    var oldest := TakeOldest(work, OfRuntime(work, EligibleSet(work, now, q.scope), k), q.maxItems);
    QueueIsOfRuntime(work, q, now, k);
    var n := AdmissiblePrefix(work, oldest, q.minItems, settings, q.lease as real);
    if n.None? {
      LeastIsTooLong(work, q, now, k, oldest);
      return None;
    }
    PrefixIsTaken(work, q, now, k, oldest, n.value);
    r := Some(oldest[..n.value]);
  }

  lemma TakenIsClaimable(s: Tables, q: ClaimRequest, ids: seq<AttemptId>, c: Claim)
    requires 1 <= q.minItems && Takes(s.work, q, c.now, c.runtimeKey, c.selected)
    requires |c.selected| <= |ids| && c.attempts == ids[..|c.selected|]
    requires Distinct(ids) && forall i :: 0 <= i < |ids| ==> ids[i] !in s.attempts
    requires c.batch !in s.batches && forall m :: m in s.members ==> m.batch != c.batch
    ensures Claimable(s, c)
  {
    HeadFits(s.work, q, c.now, c.runtimeKey, c.selected);
  }
}
