/** Operations that move a whole batch: its row, its attempts and the work they hold change together, so every
    operation on leases keeps the invariant. */
module ControlBatches {
  import opened Wrappers
  import opened Ordering
  import opened ControlTables
  import opened ControlSpec
  import opened ControlInvariant

  /** The claim an attempt or a batch records is never rewritten. */
  ghost predicate SameClaims(s: Tables, s': Tables) {
    && s'.attempts.Keys == s.attempts.Keys && s'.batches.Keys == s.batches.Keys && s'.members == s.members
    && (forall a {:trigger SameClaimAttempt(s, s', a)} :: a in s.attempts ==> SameClaimAttempt(s, s', a))
    && (forall b {:trigger SameClaimBatch(s, s', b)} :: b in s.batches ==> SameClaimBatch(s, s', b))
  }

  ghost predicate SameClaimAttempt(s: Tables, s': Tables, a: AttemptId)
    requires a in s.attempts && a in s'.attempts
  {
    && s'.attempts[a].work == s.attempts[a].work && s'.attempts[a].batch == s.attempts[a].batch
    && s'.attempts[a].fence == s.attempts[a].fence && s'.attempts[a].payload == s.attempts[a].payload
  }

  ghost predicate SameClaimBatch(s: Tables, s': Tables, b: BatchId)
    requires b in s.batches && b in s'.batches
  {
    && s'.batches[b].membership == s.batches[b].membership && s'.batches[b].itemCount == s.batches[b].itemCount
    && s'.batches[b].envelope == s.batches[b].envelope && s'.batches[b].owner == s.batches[b].owner
  }

  lemma SameClaimsKeep(s: Tables, s': Tables)
    requires BatchInv(s) && FenceInv(s) && SameClaims(s, s')
    ensures BatchInv(s') && FenceInv(s')
    ensures forall w :: AttemptsOfWork(s', w) == AttemptsOfWork(s, w)
  {
    forall a | a in s.attempts ensures SameClaimAttempt(s, s', a) {}
    forall b | b in s'.batches ensures BatchRow(s', b) {
      assert BatchRow(s, b) && SameClaimBatch(s, s', b);
    }
  }

  /** Publications stay valid when no attempt gains or loses success. */
  lemma SameSuccessesKeep(s: Tables, s': Tables)
    requires PublicationInv(s) && SameClaims(s, s') && s'.publications == s.publications
    requires forall a :: a in s.attempts ==> (s'.attempts[a].status.Succeeded? <==> s.attempts[a].status.Succeeded?)
    requires forall a :: a in s.attempts && s.attempts[a].status.Succeeded? ==> s'.attempts[a] == s.attempts[a]
    ensures PublicationInv(s')
  {
    forall i | 0 <= i < |s'.publications| ensures PublicationRow(s', i) {
      assert PublicationRow(s, i);
      assert SameClaimAttempt(s, s', s.publications[i].attempt);
    }
  }

  /** An envelope that lists exactly the attempts of an active batch names its attempts and the work they hold. */
  lemma EnvelopeNamesBatch(s: Tables, b: BatchId, items: seq<ClaimItem>)
    requires LeaseInv(s) && b in s.batches && ActiveBatch(s.batches[b])
    requires BatchItems(s, b) == (set i | 0 <= i < |items| :: items[i])
    ensures forall a :: a in s.attempts ==>
      (NamesAttempt(items, a) <==> s.attempts[a].batch == b)
    ensures forall w :: w in s.work ==> (Renewable(s.work[w], w, items) <==> HeldBy(s, b, w))
    ensures forall w :: w in s.work ==> (NamesWork(items, w) <==> HeldBy(s, b, w))
    ensures forall i :: 0 <= i < |items| ==> items[i].attempt in s.attempts && items[i].work in s.work
  {
    forall i | 0 <= i < |items|
      ensures items[i].attempt in s.attempts && s.attempts[items[i].attempt].batch == b
      ensures items[i] == ItemOf(items[i].attempt, s.attempts[items[i].attempt])
      ensures items[i].work in s.work && HeldBy(s, b, items[i].work)
      ensures s.work[items[i].work].leaseAttempt == Some(items[i].attempt) && s.work[items[i].work].fence == items[i].fence
    {
      assert items[i] in BatchItems(s, b);
      assert AttemptRow(s, items[i].attempt);
      assert LeaseRow(s, items[i].work);
    }
    forall a | a in s.attempts && s.attempts[a].batch == b
      ensures exists i :: 0 <= i < |items| && items[i].attempt == a && items[i].work == s.attempts[a].work
    {
      assert ItemOf(a, s.attempts[a]) in BatchItems(s, b);
    }
    forall w | w in s.work
      ensures Renewable(s.work[w], w, items) <==> HeldBy(s, b, w)
      ensures NamesWork(items, w) <==> HeldBy(s, b, w)
    {
      assert LeaseRow(s, w);
      var item := ItemFor(items, w);
      if item.Some? { var i :| 0 <= i < |items| && items[i] == item.value; }
    }
  }

  /** Batches in `bs` end together: their attempts stop being active and the work they held is released. */
  ghost predicate Releases(s: Tables, s': Tables, bs: set<BatchId>) {
    && SameClaims(s, s') && s'.work.Keys == s.work.Keys
    && (forall b {:trigger ReleasesBatch(s, s', bs, b)} :: b in s.batches ==> ReleasesBatch(s, s', bs, b))
    && (forall a {:trigger ReleasesAttempt(s, s', bs, a)} :: a in s.attempts ==> ReleasesAttempt(s, s', bs, a))
    && (forall w {:trigger ReleasesWork(s, s', bs, w)} :: w in s.work ==> ReleasesWork(s, s', bs, w))
  }

  ghost predicate ReleasesBatch(s: Tables, s': Tables, bs: set<BatchId>, b: BatchId)
    requires b in s.batches && b in s'.batches
  {
    if b in bs then ActiveBatch(s.batches[b]) && !ActiveBatch(s'.batches[b]) else s'.batches[b] == s.batches[b]
  }

  ghost predicate ReleasesAttempt(s: Tables, s': Tables, bs: set<BatchId>, a: AttemptId)
    requires a in s.attempts && a in s'.attempts
  {
    if s.attempts[a].batch !in bs then s'.attempts[a] == s.attempts[a]
    else
      && s.attempts[a].batch in s'.batches
      && StatusAgrees(s'.attempts[a].status, s'.batches[s.attempts[a].batch].status)
      && s'.attempts[a].terminalSucceeded == s.attempts[a].terminalSucceeded
      && (s'.attempts[a].status.Succeeded? ==> s.attempts[a].terminalSucceeded == Some(true))
      && (s'.attempts[a].status.Failed? ==> s.attempts[a].terminalSucceeded != Some(true))
  }

  ghost predicate ReleasesWork(s: Tables, s': Tables, bs: set<BatchId>, w: WorkId)
    requires w in s.work && w in s'.work
  {
    if Held(s, bs, w) then Released(s.work[w], s'.work[w]) else s'.work[w] == s.work[w]
  }

  ghost predicate Held(s: Tables, bs: set<BatchId>, w: WorkId)
    requires w in s.work
  {
    s.work[w].leaseAttempt.Some? && s.work[w].leaseAttempt.value in s.attempts &&
    s.attempts[s.work[w].leaseAttempt.value].batch in bs
  }

  ghost predicate Released(before: Work, after: Work) {
    && after.leaseOwner.None? && after.leaseAttempt.None? && after.leaseExpires.None? && !after.status.Leased?
    && after.fence >= before.fence && after.spec == before.spec
    && after.attemptCount == before.attemptCount && after.maxAttempts == before.maxAttempts
    && after.replayGeneration == before.replayGeneration
  }

  lemma ReleaseKeepsLeases(s: Tables, s': Tables, bs: set<BatchId>)
    requires LeaseInv(s) && Releases(s, s', bs)
    ensures LeaseInv(s')
  {
    forall w | w in s'.work ensures LeaseRow(s', w) {
      assert LeaseRow(s, w) && ReleasesWork(s, s', bs, w);
      if s.work[w].leaseAttempt.Some? {
        var a := s.work[w].leaseAttempt.value;
        assert AttemptRow(s, a) && ReleasesAttempt(s, s', bs, a) && ReleasesBatch(s, s', bs, s.attempts[a].batch);
      }
    }
    forall a | a in s'.attempts ensures AttemptRow(s', a) {
      assert AttemptRow(s, a) && ReleasesAttempt(s, s', bs, a) && SameClaimAttempt(s, s', a);
      assert ReleasesBatch(s, s', bs, s.attempts[a].batch);
      assert LeaseRow(s, s.attempts[a].work) && ReleasesWork(s, s', bs, s.attempts[a].work);
    }
  }

  /** Releasing without publishing keeps everything. */
  lemma ReleaseKeeps(s: Tables, s': Tables, bs: set<BatchId>)
    requires Inv(s) && Releases(s, s', bs) && s'.publications == s.publications
    requires forall a :: a in s.attempts && s.attempts[a].batch in bs ==> !s'.attempts[a].status.Succeeded?
    requires forall w :: w in s.work && Held(s, bs, w) ==>
      && !s'.work[w].status.Succeeded?
      && s'.work[w].committedAttempt == s.work[w].committedAttempt
      && s'.work[w].publicationSequence == s.work[w].publicationSequence
      && (s'.work[w].status.Ready? ==> s.work[w].attemptCount < s.work[w].maxAttempts || s'.work[w].fence > s.work[w].fence)
    ensures Inv(s')
  {
    ReleaseKeepsLeases(s, s', bs);
    SameClaimsKeep(s, s');
    forall a | a in s.attempts
      ensures s'.attempts[a].status.Succeeded? <==> s.attempts[a].status.Succeeded?
      ensures s.attempts[a].status.Succeeded? ==> s'.attempts[a] == s.attempts[a]
    {
      assert AttemptRow(s, a) && ReleasesAttempt(s, s', bs, a) && ReleasesBatch(s, s', bs, s.attempts[a].batch);
    }
    SameSuccessesKeep(s, s');
    forall w | w in s'.work ensures BudgetRow(s', w) && PointerRow(s', w) {
      assert LeaseRow(s, w) && BudgetRow(s, w) && PointerRow(s, w) && ReleasesWork(s, s', bs, w);
      RowsCarry(s, s', w);
    }
  }

  lemma RecoverKeeps(s: Tables, t: int)
    requires Inv(s)
    ensures Inv(Recover(s, t).tables)
    ensures Releases(s, Recover(s, t).tables, OverdueBatches(s, t))
  {
    var s' := Recover(s, t).tables;
    var bs := OverdueBatches(s, t);
    RecoverReleases(s, t);
    RecoverByBatch(s, t);
    forall a | a in s.attempts && s.attempts[a].batch in bs ensures !s'.attempts[a].status.Succeeded? {
      assert RecoversAttempt(s, a, t);
    }
    ReleaseKeeps(s, s', bs);
  }

  lemma RecoverReleases(s: Tables, t: int)
    requires LeaseInv(s)
    ensures Releases(s, RecoverTables(s, t), OverdueBatches(s, t))
  {
    RecoverByBatch(s, t);
    ExpiryReleases(s, RecoverTables(s, t), OverdueBatches(s, t));
  }

  /** Expiring whole batches, and releasing exactly the work their attempts hold, is a release. */
  lemma ExpiryReleases(s: Tables, s': Tables, bs: set<BatchId>)
    requires s'.members == s.members && s'.batches.Keys == s.batches.Keys
    requires s'.attempts.Keys == s.attempts.Keys && s'.work.Keys == s.work.Keys
    requires forall b :: b in s.batches && b in bs ==> ActiveBatch(s.batches[b])
    requires forall a :: a in s.attempts && s.attempts[a].batch in bs ==> s.attempts[a].batch in s.batches
    requires forall b :: b in s.batches ==>
      s'.batches[b] == if b in bs then s.batches[b].(status := BatchStatus.Expired) else s.batches[b]
    requires forall a :: a in s.attempts ==>
      s'.attempts[a] == if s.attempts[a].batch in bs
                        then s.attempts[a].(status := AttemptStatus.Expired, recoveryOutcome := s'.attempts[a].recoveryOutcome)
                        else s.attempts[a]
    requires forall w :: w in s.work && Held(s, bs, w) ==> Released(s.work[w], s'.work[w])
    requires forall w :: w in s.work && !Held(s, bs, w) ==> s'.work[w] == s.work[w]
    ensures Releases(s, s', bs)
  {
    forall a | a in s.attempts ensures SameClaimAttempt(s, s', a) {}
    forall b | b in s.batches ensures SameClaimBatch(s, s', b) && ReleasesBatch(s, s', bs, b) {}
    assert SameClaims(s, s');
    forall a | a in s.attempts ensures ReleasesAttempt(s, s', bs, a) {}
    forall w | w in s.work ensures ReleasesWork(s, s', bs, w) {}
  }

  ghost function OverdueBatches(s: Tables, t: int): set<BatchId> {
    set b | b in s.batches && ActiveBatch(s.batches[b]) && s.batches[b].leaseExpires <= t
  }

  /** Recovery looks at work rows, attempts and batches separately, and takes back whole batches all the same: an
      attempt or a work item is recovered exactly when its batch is. */
  lemma RecoverByBatch(s: Tables, t: int)
    requires LeaseInv(s)
    ensures forall a :: a in s.attempts ==> (RecoversAttempt(s, a, t) <==> s.attempts[a].batch in OverdueBatches(s, t))
    ensures forall w :: w in s.work ==> (Overdue(s.work[w], t) <==> Held(s, OverdueBatches(s, t), w))
  {
    var bs := OverdueBatches(s, t);
    forall a | a in s.attempts ensures RecoversAttempt(s, a, t) <==> s.attempts[a].batch in bs {
      assert AttemptRow(s, a) && LeaseRow(s, s.attempts[a].work);
    }
    forall w | w in s.work ensures Overdue(s.work[w], t) <==> Held(s, bs, w) {
      assert LeaseRow(s, w);
      if s.work[w].leaseAttempt.Some? { assert AttemptRow(s, s.work[w].leaseAttempt.value); }
    }
  }

  lemma AbandonKeeps(s: Tables, d: Abandonment, now: int)
    requires Inv(s)
    ensures Inv(Abandon(s, d, now).tables)
    ensures Abandon(s, d, now).reply == Ok(false) ==> Releases(s, AbandonTables(s, d, now), {d.batch})
  {
    if Abandon(s, d, now).reply == Ok(false) {
      AbandonReleases(s, d, now);
      AbandonRows(s, d, now);
      ReleaseKeeps(s, AbandonTables(s, d, now), {d.batch});
    }
  }

  /** Abandoning touches exactly the batch's attempts and the work they hold. */
  lemma AbandonRows(s: Tables, d: Abandonment, now: int)
    requires LeaseInv(s) && d.batch in s.batches && ActiveBatch(s.batches[d.batch])
    requires BatchItems(s, d.batch) == (set i | 0 <= i < |d.envelope.items| :: d.envelope.items[i])
    ensures var s' := AbandonTables(s, d, now);
            && (forall w :: w in s.work ==> s'.work[w] == if Held(s, {d.batch}, w)
                  then AbandonedRow(s.work[w], Abandoned(d.operator, d.reason, d.job), now) else s.work[w])
            && (forall a :: a in s.attempts ==> s'.attempts[a] == if s.attempts[a].batch == d.batch
                  then s.attempts[a].(status := AttemptStatus.Expired, recoveryOutcome := Some(WorkStatus.Ready))
                  else s.attempts[a])
  {
    EnvelopeNamesBatch(s, d.batch, d.envelope.items);
    forall w | w in s.work ensures Held(s, {d.batch}, w) <==> HeldBy(s, d.batch, w) {
      assert LeaseRow(s, w);
    }
  }

  lemma AbandonReleases(s: Tables, d: Abandonment, now: int)
    requires LeaseInv(s) && d.batch in s.batches && ActiveBatch(s.batches[d.batch])
    requires BatchItems(s, d.batch) == (set i | 0 <= i < |d.envelope.items| :: d.envelope.items[i])
    ensures Releases(s, AbandonTables(s, d, now), {d.batch})
  {
    AbandonRows(s, d, now);
    ExpiryReleases(s, AbandonTables(s, d, now), {d.batch});
  }

  lemma RecoverExactKeeps(s: Tables, p: ExactClaim, t: int, skew: int, staged: bool)
    requires Inv(s)
    ensures Inv(RecoverExact(s, p, t, skew, staged).tables)
    ensures RecoverExact(s, p, t, skew, staged).reply == Ok(false) ==> Releases(s, RecoverExactTables(s, p, t), {p.batch})
  {
    if RecoverExact(s, p, t, skew, staged).reply == Ok(false) {
      ExactHolds(s, p);
      ExpiryReleases(s, RecoverExactTables(s, p, t), {p.batch});
      ReleaseKeeps(s, RecoverExactTables(s, p, t), {p.batch});
    }
  }

  /** A live exact claim is the whole of its batch. */
  lemma ExactHolds(s: Tables, p: ExactClaim)
    requires LeaseInv(s) && BatchInv(s) && p.work in s.work && p.batch in s.batches && p.attempt in s.attempts
    requires |BatchMembers(s, p.batch)| == 1 && ExactLive(s, p)
    ensures forall a :: a in s.attempts ==> (s.attempts[a].batch == p.batch <==> a == p.attempt)
    ensures forall w :: w in s.work ==> (Held(s, {p.batch}, w) <==> w == p.work)
  {
    SingleMember(s, p.batch);
    forall a | a in s.attempts ensures s.attempts[a].batch == p.batch <==> a == p.attempt {
      assert p.attempt in BatchAttempts(s, p.batch);
      assert s.attempts[a].batch == p.batch ==> a in BatchAttempts(s, p.batch);
    }
    forall w | w in s.work ensures Held(s, {p.batch}, w) <==> w == p.work {
      assert LeaseRow(s, w);
    }
  }

  /** A batch with one member row has one attempt. */
  lemma SingleMember(s: Tables, b: BatchId)
    requires BatchInv(s) && b in s.batches && |BatchMembers(s, b)| == 1
    ensures forall a1, a2 :: a1 in BatchAttempts(s, b) && a2 in BatchAttempts(s, b) ==> a1 == a2
  {
    var batch := s.batches[b];
    assert BatchRow(s, b);
    if |batch.membership| >= 2 {
      var m0, m1 := Member(b, 0, batch.membership[0]), Member(b, 1, batch.membership[1]);
      assert {m0, m1} <= BatchMembers(s, b) && |{m0, m1}| == 2;
      SubsetSize({m0, m1}, BatchMembers(s, b));
      assert false;
    }
  }

  /** Rewriting leases in place, without ending any, keeps everything else. */
  lemma RewriteKeeps(s: Tables, s': Tables)
    requires Inv(s) && LeaseInv(s') && SameClaims(s, s') && s'.publications == s.publications
    requires forall a :: a in s.attempts && s.attempts[a].status.Succeeded? ==> s'.attempts[a] == s.attempts[a]
    requires forall a :: a in s.attempts && s'.attempts[a].status.Succeeded? ==> s.attempts[a].status.Succeeded?
    requires s'.work.Keys == s.work.Keys
    requires forall w :: w in s.work ==>
      s'.work[w] == s.work[w].(leaseExpires := s'.work[w].leaseExpires, updatedAt := s'.work[w].updatedAt)
    ensures Inv(s')
  {
    SameClaimsKeep(s, s');
    SameSuccessesKeep(s, s');
    forall w | w in s'.work ensures BudgetRow(s', w) && PointerRow(s', w) {
      assert BudgetRow(s, w) && PointerRow(s, w);
      RowsCarry(s, s', w);
    }
  }

  lemma HeartbeatKeeps(s: Tables, env: ProcessEnvelope, extension: int, now: int)
    requires Inv(s)
    ensures Inv(Heartbeat(s, env, extension, now).tables)
  {
    if Heartbeat(s, env, extension, now).reply.Ok? {
      var b := s.batches[env.batch];
      var expires := if b.leaseExpires >= now + extension then b.leaseExpires else now + extension;
      HeartbeatRows(s, env, expires, now);
      RewriteKeeps(s, HeartbeatTables(s, env, expires, now));
    }
  }

  lemma HeartbeatRows(s: Tables, env: ProcessEnvelope, expires: int, now: int)
    requires LeaseInv(s) && env.batch in s.batches && s.batches[env.batch].status.Leased?
    requires BatchItems(s, env.batch) == (set i | 0 <= i < |env.items| :: env.items[i])
    ensures var s' := HeartbeatTables(s, env, expires, now);
            && LeaseInv(s') && SameClaims(s, s')
            && (forall a :: a in s.attempts && s.attempts[a].batch != env.batch ==> s'.attempts[a] == s.attempts[a])
            && (forall a :: a in s.attempts ==> s'.attempts[a].status == s.attempts[a].status)
            && (forall a :: a in s.attempts && s.attempts[a].batch == env.batch ==> s.attempts[a].status.Leased?)
  {
    var s' := HeartbeatTables(s, env, expires, now);
    EnvelopeNamesBatch(s, env.batch, env.items);
    RenewedLeases(s, s', env.batch, expires);
    forall a | a in s.attempts && s.attempts[a].batch == env.batch ensures s.attempts[a].status.Leased? {
      assert AttemptRow(s, a);
    }
  }

  /** Giving a leased batch, its attempts and the work they hold one new expiry keeps the leases. */
  lemma RenewedLeases(s: Tables, s': Tables, b: BatchId, expires: int)
    requires LeaseInv(s) && b in s.batches && s.batches[b].status.Leased?
    requires s'.batches == s.batches[b := s.batches[b].(leaseExpires := expires)]
    requires s'.members == s.members && s'.attempts.Keys == s.attempts.Keys && s'.work.Keys == s.work.Keys
    requires forall a :: a in s.attempts ==>
      s'.attempts[a] == if s.attempts[a].batch == b then s.attempts[a].(leaseExpires := expires) else s.attempts[a]
    requires forall w :: w in s.work && !HeldBy(s, b, w) ==> s'.work[w] == s.work[w]
    requires forall w :: w in s.work && HeldBy(s, b, w) ==>
      s'.work[w] == s.work[w].(leaseExpires := Some(expires), updatedAt := s'.work[w].updatedAt)
    ensures LeaseInv(s') && SameClaims(s, s')
  {
    forall a | a in s.attempts ensures SameClaimAttempt(s, s', a) {}
    forall c | c in s.batches ensures SameClaimBatch(s, s', c) {}
    forall w | w in s'.work ensures LeaseRow(s', w) {
      assert LeaseRow(s, w);
    }
    forall a | a in s'.attempts ensures AttemptRow(s', a) {
      assert AttemptRow(s, a);
    }
  }

  lemma SealKeeps(s: Tables, b: BatchId, outputs: seq<Output>, envelope: Envelope, membership: seq<ClaimItem>, now: int)
    requires Inv(s)
    ensures Inv(Seal(s, b, outputs, envelope, membership, now).tables)
  {
    if Seal(s, b, outputs, envelope, membership, now).tables != s {
      SealRows(s, b, outputs, now);
      RewriteKeeps(s, SealTables(s, b, outputs, now));
    }
  }

  lemma SealRows(s: Tables, b: BatchId, outputs: seq<Output>, now: int)
    requires LeaseInv(s) && BatchInv(s) && b in s.batches && s.batches[b].status.Leased?
    requires OutputPairs(outputs) == MemberPairs(s, b)
    ensures var s' := SealTables(s, b, outputs, now);
            && LeaseInv(s') && SameClaims(s, s')
            && (forall a :: a in s.attempts && s.attempts[a].batch != b ==> s'.attempts[a] == s.attempts[a])
            && (forall a :: a in s.attempts && s.attempts[a].batch == b ==>
                  s.attempts[a].status.Leased? && s'.attempts[a].status.Sealed?)
  {
    var s' := SealTables(s, b, outputs, now);
    OutputsNameBatch(s, b, outputs);
    forall a | a in s.attempts ensures SameClaimAttempt(s, s', a) {}
    forall c | c in s.batches ensures SameClaimBatch(s, s', c) {}
    forall a | a in s.attempts && s.attempts[a].batch == b ensures s.attempts[a].status.Leased? {
      assert AttemptRow(s, a);
    }
    forall w | w in s'.work ensures LeaseRow(s', w) {
      assert LeaseRow(s, w);
    }
    forall a | a in s'.attempts ensures AttemptRow(s', a) {
      assert AttemptRow(s, a);
    }
  }

  /** Outputs whose identities are the batch's member rows cover exactly the batch's attempts. */
  lemma OutputsNameBatch(s: Tables, b: BatchId, outputs: seq<Output>)
    requires BatchInv(s) && b in s.batches && OutputPairs(outputs) == MemberPairs(s, b)
    ensures forall a :: a in s.attempts ==> (a in AttemptsOf(outputs) <==> s.attempts[a].batch == b)
    ensures forall i :: 0 <= i < |outputs| ==>
      outputs[i].attempt in s.attempts && s.attempts[outputs[i].attempt].work == outputs[i].work
  {
    assert BatchRow(s, b);
    var ms := s.batches[b].membership;
    forall i | 0 <= i < |outputs|
      ensures outputs[i].attempt in s.attempts && s.attempts[outputs[i].attempt].batch == b
      ensures s.attempts[outputs[i].attempt].work == outputs[i].work
    {
      assert (outputs[i].work, outputs[i].attempt) in MemberPairs(s, b);
    }
    forall a | a in s.attempts && s.attempts[a].batch == b ensures a in AttemptsOf(outputs) {
      var i :| 0 <= i < |ms| && ms[i].attempt == a;
      assert Member(b, i, ms[i]) in s.members;
      assert (ms[i].work, ms[i].attempt) in OutputPairs(outputs);
      var j :| 0 <= j < |outputs| && (outputs[j].work, outputs[j].attempt) == (ms[i].work, ms[i].attempt);
      assert AttemptsOf(outputs)[j] == a;
    }
    forall a | a in AttemptsOf(outputs) ensures a in s.attempts && s.attempts[a].batch == b {
      var j :| 0 <= j < |outputs| && AttemptsOf(outputs)[j] == a;
    }
  }
}
