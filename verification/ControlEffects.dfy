/** What each operation that succeeds leaves in the tables, column by column.  Nothing here is said through the functions
    that compute the rows: each predicate names the columns that change, and says that every other column and row stays. */
module ControlEffects {
  import opened Wrappers
  import opened Ordering
  import opened ControlTables
  import opened ControlSpec

  predicate Unleased(row: Work) {
    row.leaseOwner.None? && row.leaseAttempt.None? && row.leaseExpires.None?
  }

  /** Attempt `a` of batch `b` holds work `w`: the work is leased to it at its fence. */
  predicate HoldsWork(s: Tables, b: BatchId, a: AttemptId, w: WorkId) {
    && a in s.attempts && s.attempts[a].batch == b && s.attempts[a].work == w
    && w in s.work && s.work[w].status.Leased? && s.work[w].leaseAttempt == Some(a) && s.work[w].fence == s.attempts[a].fence
  }

  /** Some attempt of batch `b` holds work `w`. */
  predicate Held(s: Tables, b: BatchId, w: WorkId) {
    w in s.work && s.work[w].leaseAttempt.Some? && HoldsWork(s, b, s.work[w].leaseAttempt.value, w)
  }

  // ---- register_many ----

  /** The row of work registered for the first time. */
  predicate FreshWork(row: Work, spec: WorkSpec, available: Option<int>, now: int) {
    && row.spec == spec && row.status.Ready? && row.availableAt == (if available.Some? then available.value else now)
    && row.attemptCount == 0 && row.maxAttempts == spec.originalMaxAttempts && row.fence == 0
    && Unleased(row) && row.committedAttempt.None? && row.publicationSequence.None?
    && row.replayGeneration == 0 && row.lastReplay.None? && row.lastError.None?
    && row.createdAt == now && row.updatedAt == now
  }

  /** Request `i` is the first for its work item. */
  predicate First(requests: seq<Request>, i: nat)
    requires i < |requests|
  {
    forall j :: 0 <= j < i ==> requests[j].work != requests[i].work
  }

  /** A new item gets its row from its first request. */
  predicate AddsWork(s: Tables, s': Tables, requests: seq<Request>, i: nat, now: int)
    requires i < |requests|
  {
    First(requests, i) && requests[i].work !in s.work ==>
      requests[i].work in s'.work && FreshWork(s'.work[requests[i].work], requests[i].spec, requests[i].availableAt, now)
  }

  ghost predicate AfterRegister(s: Tables, s': Tables, requests: seq<Request>, now: int) {
    && s' == s.(work := s'.work)
    && (forall w :: w in s'.work ==> w in s.work || exists i :: 0 <= i < |requests| && requests[i].work == w)
    && (forall w :: w in s.work ==> w in s'.work && s'.work[w] == s.work[w])
    && (forall i {:trigger AddsWork(s, s', requests, i, now)} :: 0 <= i < |requests| ==> AddsWork(s, s', requests, i, now))
  }

  /** A line of the reply tells the columns of the row. */
  predicate Tells(s: Tables, line: Registered) {
    && line.work in s.work
    && (var row := s.work[line.work];
        && line.spec == row.spec && line.status == row.status
        && line.attemptCount == row.attemptCount && line.maxAttempts == row.maxAttempts
        && line.committedAttempt == row.committedAttempt && line.publicationSequence == row.publicationSequence
        && line.lastReplay == row.lastReplay)
  }

  /** The positions of the first request of each item, in order. */
  ghost predicate Firsts(requests: seq<Request>, at: seq<nat>) {
    && (forall k :: 0 <= k < |at| ==> at[k] < |requests| && First(requests, at[k]))
    && (forall j, k :: 0 <= j < k < |at| ==> at[j] < at[k])
    && (forall i :: 0 <= i < |requests| && First(requests, i) ==> i in at)
  }

  /** One line for each item, in the order of the first requests. */
  ghost predicate TellsInOrder(s': Tables, requests: seq<Request>, reply: seq<Registered>) {
    && (forall k :: 0 <= k < |reply| ==> Tells(s', reply[k]))
    && exists at {:trigger Firsts(requests, at)} :: Firsts(requests, at) && |at| == |reply|
         && forall k :: 0 <= k < |at| ==> reply[k].work == requests[at[k]].work
  }

  lemma RegisterEffect(s: Tables, requests: seq<Request>, release: Option<string>, now: int)
    requires Register(s, requests, release, now).reply.Ok?
    ensures AfterRegister(s, Register(s, requests, release, now).tables, requests, now)
    ensures TellsInOrder(Register(s, requests, release, now).tables, requests, Register(s, requests, release, now).reply.value)
  {
    var rows, reply := RegisteredRows(s.work, requests, now), Registrations(s.work, FirstOnes(requests), now);
    var s' := s.(work := rows);
    forall w | w in rows && w !in s.work ensures exists i :: 0 <= i < |requests| && requests[i].work == w {
      var i :| 0 <= i < |requests| && Ids(requests)[i] == w;
      assert requests[i].work == w;
    }
    forall i | 0 <= i < |requests| ensures AddsWork(s, s', requests, i, now) {
      if First(requests, i) { FirstRow(s.work, requests, i, now); }
    }
    var at := FirstPositions(requests);
    forall k | 0 <= k < |reply| ensures Tells(s', reply[k]) && reply[k].work == requests[at[k]].work {
      FirstRow(s.work, requests, at[k], now);
    }
  }

  lemma FirstRow(work: map<WorkId, Work>, requests: seq<Request>, i: nat, now: int)
    requires i < |requests| && First(requests, i)
    ensures requests[i].work in RegisteredRows(work, requests, now)
    ensures RegisteredRows(work, requests, now)[requests[i].work] ==
            if requests[i].work in work then work[requests[i].work] else NewWork(requests[i], now)
  {
    assert Ids(requests)[i] == requests[i].work;
    FirstFound(Ids(requests), i);
  }

  lemma FirstFound(ids: seq<WorkId>, i: nat)
    requires i < |ids| && forall j :: 0 <= j < i ==> ids[j] != ids[i]
    ensures IndexOf(ids, ids[i]) == i
  {
  }

  lemma {:induction false} FirstPositions(requests: seq<Request>) returns (at: seq<nat>)
    ensures Firsts(requests, at) && |at| == |FirstOnes(requests)|
    ensures forall k :: 0 <= k < |at| ==> FirstOnes(requests)[k] == requests[at[k]]
  {
    at := [];
    if requests != [] {
      var n := |requests| - 1;
      var few := requests[..n];
      var before := FirstPositions(few);
      IdsFound(few, requests[n].work);
      at := if requests[n].work in Ids(few) then before else before + [n];
      FirstsGrow(few, requests, before, at);
    }
  }

  lemma FirstsGrow(few: seq<Request>, requests: seq<Request>, before: seq<nat>, at: seq<nat>)
    requires |requests| == |few| + 1 && few == requests[..|few|] && Firsts(few, before)
    requires at == if First(requests, |few|) then before + [|few|] else before
    ensures Firsts(requests, at)
  {
    forall i | 0 <= i < |few| ensures First(requests, i) <==> First(few, i) {
      forall j | 0 <= j <= i ensures few[j] == requests[j] {}
    }
    forall i | 0 <= i < |requests| && First(requests, i) ensures i in at {
      if i < |few| { assert i in before; } else { assert at[|before|] == i; }
    }
  }

  lemma IdsFound(requests: seq<Request>, w: WorkId)
    ensures w in Ids(requests) <==> exists j :: 0 <= j < |requests| && requests[j].work == w
  {
    if j :| 0 <= j < |requests| && requests[j].work == w { assert Ids(requests)[j] == w; }
  }

  // ---- claim ----

  /** The work of item `i` is leased under a new fence. */
  predicate LeasesItem(s: Tables, s': Tables, c: Claim, i: nat)
    requires i < |c.selected| && i < |c.attempts|
  {
    var w := c.selected[i];
    && w in s.work && w in s'.work
    && s'.work[w] == s.work[w].(status := WorkStatus.Leased, attemptCount := s.work[w].attemptCount + 1,
                                fence := s.work[w].fence + 1, leaseOwner := Some(c.owner),
                                leaseAttempt := Some(c.attempts[i]), leaseExpires := Some(c.now + c.lease),
                                updatedAt := c.now)
  }

  /** A new attempt records the work of item `i` at its new fence, and no output. */
  predicate AddsAttempt(s: Tables, s': Tables, c: Claim, i: nat)
    requires i < |c.selected| && i < |c.attempts|
  {
    var w, a := c.selected[i], c.attempts[i];
    && w in s.work && a !in s.attempts && a in s'.attempts
    && s'.attempts[a] == Attempt(w, c.batch, s.work[w].fence + 1, AttemptStatus.Leased, c.now + c.lease,
                                 s.work[w].spec.payload, None, None, None, None, None, c.now, None)
  }

  /** The batch lists item `i`, and a member row repeats it. */
  predicate ListsItem(s: Tables, s': Tables, c: Claim, i: nat)
    requires i < |c.selected| && i < |c.attempts| && c.batch in s'.batches
  {
    var w, items := c.selected[i], s'.batches[c.batch].membership;
    && w in s.work && i < |items|
    && items[i] == ClaimItem(w, c.attempts[i], s.work[w].fence + 1, s.work[w].spec.payload)
    && Member(c.batch, i, items[i]) in s'.members
  }

  /** The new batch, its envelope and nothing else among the batches and members. */
  ghost predicate AddsBatch(s: Tables, s': Tables, c: Claim) {
    && c.batch !in s.batches && c.batch in s'.batches && s'.batches == s.batches[c.batch := s'.batches[c.batch]]
    && (var batch := s'.batches[c.batch];
        && batch.owner == c.owner && batch.runtimeKey == c.runtimeKey && batch.status.Leased?
        && batch.leaseExpires == c.now + c.lease && batch.itemCount == |batch.membership| == |c.selected|
        && batch.createdAt == c.now && batch.sealedAt.None? && batch.committedAt.None?
        && batch.envelope == Envelope(c.batch, c.owner, c.runtimeKey, c.now, c.now + c.lease, batch.membership)
        && s.members <= s'.members
        && forall m :: m in s'.members && m !in s.members ==>
             m.batch == c.batch && m.ordinal < |c.selected| && m.item == batch.membership[m.ordinal])
  }

  ghost predicate AfterClaim(s: Tables, s': Tables, c: Claim) {
    && |c.attempts| == |c.selected| && AddsBatch(s, s', c)
    && s' == s.(work := s'.work, attempts := s'.attempts, batches := s'.batches, members := s'.members)
    && (forall i {:trigger LeasesItem(s, s', c, i)} :: 0 <= i < |c.selected| ==> LeasesItem(s, s', c, i))
    && (forall i {:trigger AddsAttempt(s, s', c, i)} :: 0 <= i < |c.selected| ==> AddsAttempt(s, s', c, i))
    && (forall i {:trigger ListsItem(s, s', c, i)} :: 0 <= i < |c.selected| ==> ListsItem(s, s', c, i))
    && s'.work.Keys == s.work.Keys && (forall w :: w in s.work && w !in c.selected ==> s'.work[w] == s.work[w])
    && (forall a :: a in s'.attempts <==> a in s.attempts || a in c.attempts)
    && (forall a :: a in s.attempts ==> s'.attempts[a] == s.attempts[a])
  }

  lemma ClaimEffect(s: Tables, c: Claim)
    requires Claimable(s, c)
    ensures AfterClaim(s, ClaimTables(s, c), c)
  {
    var s' := ClaimTables(s, c);
    forall i | 0 <= i < |c.selected| ensures LeasesItem(s, s', c, i) && AddsAttempt(s, s', c, i) && ListsItem(s, s', c, i) {
      ClaimsItem(s, s', c, i);
    }
    AddsItsBatch(s, s', c);
  }

  ghost predicate ClaimColumns(s: Tables, s': Tables, c: Claim)
    requires Claimable(s, c)
  {
    && s'.work == (map w | w in s.work :: ClaimedWork(s.work[w], c, w))
    && s'.batches == s.batches[c.batch := NewBatch(ClaimItems(s, c), c)]
    && s'.members == s.members + (set i | 0 <= i < |c.selected| :: Member(c.batch, i, ClaimedItem(s, c, i)))
    && s'.attempts == s.attempts + (map a | a in c.attempts :: ClaimedAttempt(s, c, a))
  }

  lemma ClaimsItem(s: Tables, s': Tables, c: Claim, i: nat)
    requires Claimable(s, c) && i < |c.selected| && ClaimColumns(s, s', c)
    ensures LeasesItem(s, s', c, i) && AddsAttempt(s, s', c, i) && ListsItem(s, s', c, i)
  {
    var w, a := c.selected[i], c.attempts[i];
    IndexOfDistinct(c.selected, i);
    IndexOfDistinct(c.attempts, i);
    assert s'.work[w] == LeasedRow(s.work[w], c, a);
    assert s'.attempts[a] == NewAttempt(ClaimedItem(s, c, i), c);
    assert ClaimItems(s, c)[i] == ClaimedItem(s, c, i);
  }

  lemma AddsItsBatch(s: Tables, s': Tables, c: Claim)
    requires Claimable(s, c) && ClaimColumns(s, s', c)
    ensures AddsBatch(s, s', c)
  {
    forall m | m in s'.members && m !in s.members
      ensures m.batch == c.batch && m.ordinal < |c.selected| && m.item == ClaimItems(s, c)[m.ordinal]
    {
      var i :| 0 <= i < |c.selected| && m == Member(c.batch, i, ClaimedItem(s, c, i));
    }
  }

  // ---- heartbeat_process ----

  /** The batch, its attempts and the work they hold get one later expiry: the old one or the extension from now. */
  ghost predicate AfterHeartbeat(s: Tables, s': Tables, b: BatchId, extension: int, now: int) {
    && b in s.batches && b in s'.batches
    && var before, after := s.batches[b].leaseExpires, s'.batches[b].leaseExpires;
       && before <= after && now + extension <= after && (after == before || after == now + extension)
       && s' == s.(batches := s'.batches, attempts := s'.attempts, work := s'.work)
       && s'.batches == s.batches[b := s.batches[b].(leaseExpires := after)]
       && s'.attempts.Keys == s.attempts.Keys && s'.work.Keys == s.work.Keys
       && (forall a :: a in s.attempts ==>
             s'.attempts[a] == if s.attempts[a].batch == b then s.attempts[a].(leaseExpires := after) else s.attempts[a])
       && (forall w :: w in s.work ==>
             s'.work[w] == if Held(s, b, w) then s.work[w].(leaseExpires := Some(after), updatedAt := now) else s.work[w])
  }

  lemma HeartbeatEffect(s: Tables, env: ProcessEnvelope, extension: int, now: int)
    requires Heartbeat(s, env, extension, now).reply.Ok?
    ensures AfterHeartbeat(s, Heartbeat(s, env, extension, now).tables, env.batch, extension, now)
    ensures forall a :: a in s.attempts && s.attempts[a].batch == env.batch ==> Held(s, env.batch, s.attempts[a].work)
  {
    forall a | a in s.attempts && s.attempts[a].batch == env.batch ensures Held(s, env.batch, s.attempts[a].work) {
      assert a in BatchAttempts(s, env.batch);
    }
    forall a | a in s.attempts ensures NamesAttempt(env.items, a) <==> s.attempts[a].batch == env.batch {
      NamesItsAttempts(s, env, a);
    }
    forall w | w in s.work ensures Renewable(s.work[w], w, env.items) <==> Held(s, env.batch, w) {
      RenewsTheHeld(s, env, w);
    }
  }

  ghost predicate ItemsOfBatch(s: Tables, env: ProcessEnvelope) {
    && BatchItems(s, env.batch) == (set i | 0 <= i < |env.items| :: env.items[i])
    && forall a :: a in BatchAttempts(s, env.batch) ==> Fenced(s, a)
  }

  lemma NamesItsAttempts(s: Tables, env: ProcessEnvelope, a: AttemptId)
    requires ItemsOfBatch(s, env) && a in s.attempts
    ensures NamesAttempt(env.items, a) <==> s.attempts[a].batch == env.batch
  {
    if s.attempts[a].batch == env.batch {
      assert ItemOf(a, s.attempts[a]) in BatchItems(s, env.batch);
      var i :| 0 <= i < |env.items| && env.items[i] == ItemOf(a, s.attempts[a]);
    }
    if NamesAttempt(env.items, a) {
      var i :| 0 <= i < |env.items| && env.items[i].attempt == a;
      assert env.items[i] in BatchItems(s, env.batch);
    }
  }

  lemma RenewsTheHeld(s: Tables, env: ProcessEnvelope, w: WorkId)
    requires ItemsOfBatch(s, env) && w in s.work
    ensures Renewable(s.work[w], w, env.items) <==> Held(s, env.batch, w)
  {
    var item := ItemFor(env.items, w);
    if item.Some? {
      assert item.value in BatchItems(s, env.batch);
      var a :| a in s.attempts && s.attempts[a].batch == env.batch && ItemOf(a, s.attempts[a]) == item.value;
      assert a in BatchAttempts(s, env.batch);
    }
    if Held(s, env.batch, w) {
      var a := s.work[w].leaseAttempt.value;
      assert ItemOf(a, s.attempts[a]) in BatchItems(s, env.batch);
      var i :| 0 <= i < |env.items| && env.items[i] == ItemOf(a, s.attempts[a]);
    }
  }

  // ---- seal_batch ----

  /** The attempt of output `o` records it. */
  ghost predicate RecordsOutput(s: Tables, s': Tables, o: Output, now: int) {
    && o.attempt in s.attempts && o.attempt in s'.attempts
    && s'.attempts[o.attempt] ==
       s.attempts[o.attempt].(status := AttemptStatus.Sealed, outputPath := Some(o.path), outputSha := Some(o.sha),
                              terminalSucceeded := Some(o.succeeded), records := Some(o.records), sealedAt := Some(now))
  }

  ghost predicate AfterSeal(s: Tables, s': Tables, b: BatchId, outputs: seq<Output>, now: int) {
    && b in s.batches && s' == s.(attempts := s'.attempts, batches := s'.batches)
    && s'.batches == s.batches[b := s.batches[b].(status := BatchStatus.Sealed, sealedAt := Some(now))]
    && s'.attempts.Keys == s.attempts.Keys
    && (forall i {:trigger outputs[i]} :: 0 <= i < |outputs| ==> RecordsOutput(s, s', outputs[i], now))
    && (forall a :: a in s.attempts && (forall i :: 0 <= i < |outputs| ==> outputs[i].attempt != a) ==>
          s'.attempts[a] == s.attempts[a])
  }

  lemma SealEffect(s: Tables, b: BatchId, outputs: seq<Output>, envelope: Envelope, membership: seq<ClaimItem>, now: int)
    requires Seal(s, b, outputs, envelope, membership, now).reply.Ok? && s.batches[b].status.Leased?
    ensures AfterSeal(s, Seal(s, b, outputs, envelope, membership, now).tables, b, outputs, now)
  {
    var ids := AttemptsOf(outputs);
    forall i | 0 <= i < |outputs| ensures outputs[i].attempt in ids && IndexOf(ids, outputs[i].attempt) == i {
      assert ids[i] == outputs[i].attempt;
      IndexOfDistinct(ids, i);
    }
    forall a | a in ids ensures exists i :: 0 <= i < |outputs| && outputs[i].attempt == a {
      var i :| 0 <= i < |ids| && ids[i] == a;
    }
  }

  // ---- commit_batch ----

  /** What the work of a failed attempt, or of an expired lease, becomes: dead once its attempts are used up, else ready. */
  predicate Retried(row: Work, row': Work, why: Note, now: int) {
    row' == row.(status := if row.attemptCount >= row.maxAttempts then WorkStatus.Dead else WorkStatus.Ready,
                 availableAt := now, leaseOwner := None, leaseAttempt := None, leaseExpires := None,
                 lastError := Some(why), updatedAt := now)
  }

  /** The work of a successful attempt points to it and to its publication. */
  predicate Advanced(row: Work, row': Work, p: Publication, now: int) {
    row' == row.(status := WorkStatus.Succeeded, committedAttempt := Some(p.attempt), publicationSequence := Some(p.sequence),
                 leaseOwner := None, leaseAttempt := None, leaseExpires := None, updatedAt := now)
  }

  /** Publication `k` is that of attempt `a` and repeats what the attempt recorded. */
  predicate Publishes(s: Tables, s': Tables, a: AttemptId, k: int, now: int) {
    && a in s.attempts && 0 <= k < |s'.publications|
    && (var p, row := s'.publications[k], s.attempts[a];
        && p.attempt == a && p.work == row.work && p.batch == row.batch
        && p.outputPath == row.outputPath && p.outputSha == row.outputSha && p.publishedAt == now)
  }

  /** A successful attempt of the committed batch is published and its work points to the publication. */
  ghost predicate CommitsSuccess(s: Tables, s': Tables, a: AttemptId, now: int)
    requires a in s.attempts
  {
    var w := s.attempts[a].work;
    && a in s'.attempts && w in s.work && w in s'.work && s'.attempts[a] == s.attempts[a].(status := AttemptStatus.Succeeded)
    && exists k :: |s.publications| <= k < |s'.publications| && Publishes(s, s', a, k, now)
                   && Advanced(s.work[w], s'.work[w], s'.publications[k], now)
  }

  /** Any other attempt of it fails, and its work is tried again or dead. */
  predicate CommitsFailure(s: Tables, s': Tables, a: AttemptId, now: int)
    requires a in s.attempts
  {
    var w := s.attempts[a].work;
    && a in s'.attempts && w in s.work && w in s'.work && s'.attempts[a] == s.attempts[a].(status := AttemptStatus.Failed)
    && Retried(s.work[w], s'.work[w], ProcessingFailed, now)
  }

  ghost predicate CommitsOne(s: Tables, s': Tables, a: AttemptId, now: int)
    requires a in s.attempts
  {
    if s.attempts[a].terminalSucceeded == Some(true) then CommitsSuccess(s, s', a, now) else CommitsFailure(s, s', a, now)
  }

  /** Work that no attempt of the batch has is left alone. */
  predicate LeavesWork(s: Tables, s': Tables, b: BatchId, w: WorkId) {
    w in s.work && w in s'.work &&
    ((forall a :: a in s.attempts && s.attempts[a].batch == b ==> s.attempts[a].work != w) ==> s'.work[w] == s.work[w])
  }

  /** New publication `k` is that of a successful attempt of the batch. */
  predicate NewPublication(s: Tables, s': Tables, b: BatchId, k: int, now: int)
    requires 0 <= k < |s'.publications|
  {
    var a := s'.publications[k].attempt;
    && a in s.attempts && s.attempts[a].batch == b && s.attempts[a].terminalSucceeded == Some(true)
    && Publishes(s, s', a, k, now)
  }

  /** The new publications follow every earlier sequence without a gap, in the order of their works. */
  ghost predicate NextSequences(before: seq<Publication>, after: seq<Publication>) {
    && before <= after
    && (forall k :: |before| < k < |after| ==> after[k].sequence == after[k - 1].sequence + 1 && after[k - 1].work < after[k].work)
    && (|before| < |after| ==>
          && (forall j :: 0 <= j < |before| ==> before[j].sequence < after[|before|].sequence)
          && if before == [] then after[0].sequence == 1
             else exists j :: 0 <= j < |before| && before[j].sequence + 1 == after[|before|].sequence)
  }

  ghost predicate AfterCommit(s: Tables, s': Tables, b: BatchId, now: int) {
    && b in s.batches
    && s' == s.(batches := s'.batches, attempts := s'.attempts, work := s'.work, publications := s'.publications)
    && s'.batches == s.batches[b := s.batches[b].(status := BatchStatus.Committed, committedAt := Some(now))]
    && s'.attempts.Keys == s.attempts.Keys && s'.work.Keys == s.work.Keys
    && (forall a {:trigger CommitsOne(s, s', a, now)} :: a in s.attempts && s.attempts[a].batch == b ==> CommitsOne(s, s', a, now))
    && (forall a :: a in s.attempts && s.attempts[a].batch != b ==> s'.attempts[a] == s.attempts[a])
    && (forall w {:trigger LeavesWork(s, s', b, w)} :: w in s.work ==> LeavesWork(s, s', b, w))
    && NextSequences(s.publications, s'.publications)
    && (forall k {:trigger NewPublication(s, s', b, k, now)} :: |s.publications| <= k < |s'.publications| ==>
          NewPublication(s, s', b, k, now))
  }

  /** The reply is the sequences of the new publications. */
  ghost predicate TellsSequences(s: Tables, s': Tables, reply: seq<int>) {
    && |s'.publications| == |s.publications| + |reply|
    && forall i :: 0 <= i < |reply| ==> reply[i] == s'.publications[|s.publications| + i].sequence
  }

  lemma CommitEffect(s: Tables, b: BatchId, now: int)
    requires WellFormed(s) && Commit(s, b, now).reply.Ok? && !s.batches[b].status.Committed?
    ensures AfterCommit(s, Commit(s, b, now).tables, b, now)
    ensures TellsSequences(s, Commit(s, b, now).tables, Commit(s, b, now).reply.value)
  {
    assert Commit(s, b, now) == Outcome(CommitTables(s, b, now), Ok(CommitSequences(s, b)));
    CommitTablesEffect(s, b, now);
  }

  lemma CommitTablesEffect(s: Tables, b: BatchId, now: int)
    requires WellFormed(s) && b in s.batches && Committable(s, b)
    ensures AfterCommit(s, CommitTables(s, b, now), b, now)
    ensures TellsSequences(s, CommitTables(s, b, now), CommitSequences(s, b))
  {
    SuccessesFound(s, b);
    CommitRowsHold(s, b, now);
    RowsCommitted(s, CommitTables(s, b, now), b, Successes(s, b), CommitSequences(s, b), now);
  }

  lemma RowsCommitted(s: Tables, s': Tables, b: BatchId, succ: seq<AttemptId>, reply: seq<int>, now: int)
    requires WellFormed(s) && b in s.batches && Committable(s, b) && SuccessesOf(s, b, succ) && CommitRowsOf(s, s', b, succ, now)
    requires s' == s.(batches := s'.batches, attempts := s'.attempts, work := s'.work, publications := s'.publications)
    requires s'.batches == s.batches[b := s.batches[b].(status := BatchStatus.Committed, committedAt := Some(now))]
    requires |reply| == |succ| && forall i :: 0 <= i < |reply| ==> reply[i] == MaxSequence(s.publications) + 1 + i
    ensures AfterCommit(s, s', b, now) && TellsSequences(s, s', reply)
  {
    AttemptsCommitted(s, s', b, succ, now);
    PublicationsCommitted(s, s', b, succ, now);
    SequencesTold(s, s', succ, reply, now);
    SequencesFollow(s, s', b, succ, now);
  }

  /** The batch's successful attempts, each once, in the order of their works. */
  ghost predicate SuccessesOf(s: Tables, b: BatchId, succ: seq<AttemptId>) {
    && (forall i :: 0 <= i < |succ| ==> succ[i] in s.attempts && s.attempts[succ[i]].batch == b
                                        && s.attempts[succ[i]].terminalSucceeded == Some(true))
    && (forall a :: a in s.attempts && s.attempts[a].batch == b && s.attempts[a].terminalSucceeded == Some(true) ==> a in succ)
    && (forall i, j :: 0 <= i < j < |succ| ==> succ[i] != succ[j] && s.attempts[succ[i]].work <= s.attempts[succ[j]].work)
  }

  /** Publication `i` of those a commit appends for them. */
  ghost predicate Appended(s: Tables, s': Tables, succ: seq<AttemptId>, i: nat, now: int)
    requires i < |succ|
  {
    && succ[i] in s.attempts && |s'.publications| == |s.publications| + |succ|
    && s'.publications[|s.publications| + i] ==
       PublicationOf(succ[i], s.attempts[succ[i]], MaxSequence(s.publications) + 1 + i, now)
  }

  /** The rows a commit writes for them. */
  ghost predicate CommitRowsOf(s: Tables, s': Tables, b: BatchId, succ: seq<AttemptId>, now: int) {
    && s'.work.Keys == s.work.Keys && s'.attempts.Keys == s.attempts.Keys
    && (forall w :: w in s.work ==> s'.work[w] == CommittedWork(s, b, succ, MaxSequence(s.publications), now, w))
    && (forall a :: a in s.attempts ==> s'.attempts[a] == CommittedAttempt(s.attempts[a], b))
    && |s'.publications| == |s.publications| + |succ| && s.publications <= s'.publications
    && forall i {:trigger Appended(s, s', succ, i, now)} :: 0 <= i < |succ| ==> Appended(s, s', succ, i, now)
  }

  lemma SuccessesFound(s: Tables, b: BatchId)
    ensures SuccessesOf(s, b, Successes(s, b))
  {
    var succ := Successes(s, b);
    forall i | 0 <= i < |succ|
      ensures succ[i] in s.attempts && s.attempts[succ[i]].batch == b && s.attempts[succ[i]].terminalSucceeded == Some(true)
    {
      assert succ[i] in SuccessSet(s, b);
    }
    forall i, j | 0 <= i < j < |succ| ensures succ[i] != succ[j] && s.attempts[succ[i]].work <= s.attempts[succ[j]].work {
      assert WorkKey(s)(succ[i]) <= WorkKey(s)(succ[j]);
    }
    forall a | a in s.attempts && s.attempts[a].batch == b && s.attempts[a].terminalSucceeded == Some(true) ensures a in succ {
      assert a in SuccessSet(s, b);
    }
  }

  lemma CommitRowsHold(s: Tables, b: BatchId, now: int)
    requires b in s.batches
    ensures CommitRowsOf(s, CommitTables(s, b, now), b, Successes(s, b), now)
  {
    var s', succ := CommitTables(s, b, now), Successes(s, b);
    AppendedAll(s, s', succ, now);
  }

  lemma AppendedAll(s: Tables, s': Tables, succ: seq<AttemptId>, now: int)
    requires forall i :: 0 <= i < |succ| ==> succ[i] in s.attempts
    requires s'.publications == s.publications + NewPublications(s, succ, MaxSequence(s.publications), now)
    ensures |s'.publications| == |s.publications| + |succ| && s.publications <= s'.publications
    ensures forall i {:trigger Appended(s, s', succ, i, now)} :: 0 <= i < |succ| ==> Appended(s, s', succ, i, now)
  {
    var added := NewPublications(s, succ, MaxSequence(s.publications), now);
    forall i | 0 <= i < |succ| ensures Appended(s, s', succ, i, now) {
      assert s'.publications[|s.publications| + i] == added[i];
    }
  }

  lemma AttemptsCommitted(s: Tables, s': Tables, b: BatchId, succ: seq<AttemptId>, now: int)
    requires WellFormed(s) && Committable(s, b) && SuccessesOf(s, b, succ) && CommitRowsOf(s, s', b, succ, now)
    ensures forall a :: a in s.attempts && s.attempts[a].batch == b ==> CommitsOne(s, s', a, now)
    ensures forall w :: w in s.work ==> LeavesWork(s, s', b, w)
  {
    forall a | a in s.attempts && s.attempts[a].batch == b ensures CommitsOne(s, s', a, now) {
      var w := s.attempts[a].work;
      assert Fenced(s, a) && HeldBy(s, b, w);
      if a in succ { SuccessCommitted(s, s', b, succ, IndexOf(succ, a), now); }
    }
    forall w | w in s.work ensures LeavesWork(s, s', b, w) {
      assert HeldBy(s, b, w) ==> s.work[w].leaseAttempt.value in s.attempts;
    }
  }

  lemma SuccessCommitted(s: Tables, s': Tables, b: BatchId, succ: seq<AttemptId>, i: nat, now: int)
    requires i < |succ| && Appended(s, s', succ, i, now) && IndexOf(succ, succ[i]) == i
    requires s.attempts[succ[i]].batch == b && s.attempts[succ[i]].terminalSucceeded == Some(true)
    requires succ[i] in s'.attempts && s'.attempts[succ[i]] == CommittedAttempt(s.attempts[succ[i]], b)
    requires var w := s.attempts[succ[i]].work;
             && w in s.work && w in s'.work && HeldBy(s, b, w) && s.work[w].leaseAttempt == Some(succ[i])
             && s'.work[w] == CommittedWork(s, b, succ, MaxSequence(s.publications), now, w)
    ensures CommitsSuccess(s, s', succ[i], now)
  {
    var a, k := succ[i], |s.publications| + i;
    var w := s.attempts[a].work;
    assert Publishes(s, s', a, k, now);
    PointerAdvanced(s.work[w], s'.work[w], s'.publications[k], now);
  }

  lemma PointerAdvanced(row: Work, row': Work, p: Publication, now: int)
    requires row' == SucceededRow(row, p.attempt, p.sequence, now)
    ensures Advanced(row, row', p, now)
  {
  }

  lemma PublicationsCommitted(s: Tables, s': Tables, b: BatchId, succ: seq<AttemptId>, now: int)
    requires SuccessesOf(s, b, succ) && |s'.publications| == |s.publications| + |succ|
    requires forall i {:trigger Appended(s, s', succ, i, now)} :: 0 <= i < |succ| ==> Appended(s, s', succ, i, now)
    ensures forall k :: |s.publications| <= k < |s'.publications| ==> NewPublication(s, s', b, k, now)
  {
    forall k | |s.publications| <= k < |s'.publications| ensures NewPublication(s, s', b, k, now) {
      ghost var i := k - |s.publications|;
      assert Appended(s, s', succ, i, now) && |s.publications| + i == k;
    }
  }

  lemma SequencesTold(s: Tables, s': Tables, succ: seq<AttemptId>, reply: seq<int>, now: int)
    requires |s'.publications| == |s.publications| + |succ| && |reply| == |succ|
    requires forall i :: 0 <= i < |reply| ==> reply[i] == MaxSequence(s.publications) + 1 + i
    requires forall i {:trigger Appended(s, s', succ, i, now)} :: 0 <= i < |succ| ==> Appended(s, s', succ, i, now)
    ensures TellsSequences(s, s', reply)
  {
    forall i | 0 <= i < |reply| ensures reply[i] == s'.publications[|s.publications| + i].sequence {
      assert Appended(s, s', succ, i, now);
    }
  }

  lemma SequencesFollow(s: Tables, s': Tables, b: BatchId, succ: seq<AttemptId>, now: int)
    requires Committable(s, b) && SuccessesOf(s, b, succ)
    requires s.publications <= s'.publications && |s'.publications| == |s.publications| + |succ|
    requires forall i {:trigger Appended(s, s', succ, i, now)} :: 0 <= i < |succ| ==> Appended(s, s', succ, i, now)
    ensures NextSequences(s.publications, s'.publications)
  {
    var before, after, n := s.publications, s'.publications, |s.publications|;
    forall k | n < k < |after| ensures after[k].sequence == after[k - 1].sequence + 1 && after[k - 1].work < after[k].work {
      ghost var i := k - n;
      ghost var j := i - 1;
      assert Appended(s, s', succ, i, now) && Appended(s, s', succ, j, now) && n + i == k && n + j == k - 1;
      assert Fenced(s, succ[i]) && Fenced(s, succ[j]);
    }
    if n < |after| {
      assert Appended(s, s', succ, 0, now) && n + 0 == n;
      if before != [] { MaxIsReached(before); }
    }
  }

  lemma {:induction false} MaxIsReached(publications: seq<Publication>)
    requires publications != []
    ensures exists j :: 0 <= j < |publications| && publications[j].sequence == MaxSequence(publications)
  {
    var n := |publications| - 1;
    if n > 0 && MaxSequence(publications) == MaxSequence(publications[..n]) {
      MaxIsReached(publications[..n]);
      var j :| 0 <= j < n && publications[..n][j].sequence == MaxSequence(publications[..n]);
      assert publications[j] == publications[..n][j];
    } else {
      assert publications[n].sequence == MaxSequence(publications);
    }
  }

  // ---- abandon_failed_claim ----

  ghost predicate AfterAbandon(s: Tables, s': Tables, d: Abandonment, now: int) {
    && d.batch in s.batches && s' == s.(batches := s'.batches, attempts := s'.attempts, work := s'.work)
    && s'.batches == s.batches[d.batch := s.batches[d.batch].(status := BatchStatus.Expired)]
    && s'.attempts.Keys == s.attempts.Keys && s'.work.Keys == s.work.Keys
    && (forall a :: a in s.attempts ==>
          s'.attempts[a] ==
          if s.attempts[a].batch == d.batch
          then s.attempts[a].(status := AttemptStatus.Expired, recoveryOutcome := Some(WorkStatus.Ready)) else s.attempts[a])
    && (forall w :: w in s.work ==>
          s'.work[w] ==
          if Held(s, d.batch, w)
          then s.work[w].(status := WorkStatus.Ready, availableAt := now, fence := s.work[w].fence + 1,
                          leaseOwner := None, leaseAttempt := None, leaseExpires := None,
                          lastError := Some(Abandoned(d.operator, d.reason, d.job)), updatedAt := now)
          else s.work[w])
  }

  lemma AbandonEffect(s: Tables, d: Abandonment, now: int)
    requires Abandon(s, d, now).reply == Ok(false)
    ensures AfterAbandon(s, Abandon(s, d, now).tables, d, now)
  {
    var env := Verified(d.batch, d.envelope);
    forall a | a in s.attempts ensures NamesAttempt(env.items, a) <==> s.attempts[a].batch == d.batch {
      NamesItsAttempts(s, env, a);
    }
    forall w | w in s.work ensures NamesWork(env.items, w) <==> Held(s, d.batch, w) {
      NamesTheHeld(s, env, w);
    }
  }

  lemma NamesTheHeld(s: Tables, env: ProcessEnvelope, w: WorkId)
    requires ItemsOfBatch(s, env) && w in s.work
    ensures NamesWork(env.items, w) <==> Held(s, env.batch, w)
  {
    if NamesWork(env.items, w) {
      var i :| 0 <= i < |env.items| && env.items[i].work == w;
      assert env.items[i] in BatchItems(s, env.batch);
      var a :| a in s.attempts && s.attempts[a].batch == env.batch && ItemOf(a, s.attempts[a]) == env.items[i];
      assert a in BatchAttempts(s, env.batch);
    }
    if Held(s, env.batch, w) {
      var a := s.work[w].leaseAttempt.value;
      assert ItemOf(a, s.attempts[a]) in BatchItems(s, env.batch);
      var i :| 0 <= i < |env.items| && env.items[i] == ItemOf(a, s.attempts[a]);
    }
  }

  // ---- recover ----

  /** The lease of work `w` has run out at `t`. */
  predicate Lapsed(s: Tables, w: WorkId, t: int) {
    w in s.work && s.work[w].status.Leased? && s.work[w].leaseExpires.Some? && s.work[w].leaseExpires.value <= t
  }

  /** Work whose lease has run out is tried again or dead, other work is left alone. */
  predicate RecoversWork(s: Tables, s': Tables, w: WorkId, t: int) {
    && w in s.work && w in s'.work
    && if Lapsed(s, w, t) then Retried(s.work[w], s'.work[w], LeaseExpired, t) else s'.work[w] == s.work[w]
  }

  /** An attempt that is still active and whose work names it and has lapsed expires with what became of its work. */
  predicate ExpiresAttempt(s: Tables, s': Tables, a: AttemptId, t: int) {
    && a in s.attempts && a in s'.attempts
    && (var row := s.attempts[a];
        if (row.status.Leased? || row.status.Sealed?) && Lapsed(s, row.work, t) && s.work[row.work].leaseAttempt == Some(a) then
          && row.work in s'.work
          && s'.attempts[a] == row.(status := AttemptStatus.Expired, recoveryOutcome := Some(s'.work[row.work].status))
        else s'.attempts[a] == row)
  }

  predicate ExpiresBatch(s: Tables, s': Tables, b: BatchId, t: int) {
    && b in s.batches && b in s'.batches
    && s'.batches[b] == if (s.batches[b].status.Leased? || s.batches[b].status.Sealed?) && s.batches[b].leaseExpires <= t
                        then s.batches[b].(status := BatchStatus.Expired) else s.batches[b]
  }

  ghost predicate AfterRecover(s: Tables, s': Tables, t: int) {
    && s' == s.(batches := s'.batches, attempts := s'.attempts, work := s'.work)
    && s'.batches.Keys == s.batches.Keys && s'.attempts.Keys == s.attempts.Keys && s'.work.Keys == s.work.Keys
    && (forall w {:trigger RecoversWork(s, s', w, t)} :: w in s.work ==> RecoversWork(s, s', w, t))
    && (forall a {:trigger ExpiresAttempt(s, s', a, t)} :: a in s.attempts ==> ExpiresAttempt(s, s', a, t))
    && (forall b {:trigger ExpiresBatch(s, s', b, t)} :: b in s.batches ==> ExpiresBatch(s, s', b, t))
  }

  /** The work whose lease had run out and that now has the given status. */
  function Became(s: Tables, s': Tables, t: int, status: WorkStatus): set<WorkId> {
    set w | w in s.work && Lapsed(s, w, t) && w in s'.work && s'.work[w].status == status
  }

  /** The report counts the work whose lease had run out by what it became: ready or dead, and nothing else. */
  predicate Reports(s: Tables, s': Tables, t: int, report: RecoveryReport) {
    && report.retried == |Became(s, s', t, WorkStatus.Ready)|
    && report.dead == |Became(s, s', t, WorkStatus.Dead)|
    && report.expired == report.retried + report.dead
    && forall w :: w in s.work && Lapsed(s, w, t) ==> w in Became(s, s', t, WorkStatus.Ready) || w in Became(s, s', t, WorkStatus.Dead)
  }

  lemma RecoverEffect(s: Tables, t: int)
    ensures AfterRecover(s, Recover(s, t).tables, t)
    ensures Reports(s, Recover(s, t).tables, t, Recover(s, t).reply.value)
  {
    var s' := RecoverTables(s, t);
    forall w | w in s.work ensures RecoversWork(s, s', w, t) {}
    forall a | a in s.attempts ensures ExpiresAttempt(s, s', a, t) { AttemptExpires(s, a, t); }
    forall b | b in s.batches ensures ExpiresBatch(s, s', b, t) {}
    RecoveredCounted(s, s', t);
  }

  lemma AttemptExpires(s: Tables, a: AttemptId, t: int)
    requires a in s.attempts
    ensures ExpiresAttempt(s, RecoverTables(s, t), a, t)
  {
  }

  lemma RecoveredCounted(s: Tables, s': Tables, t: int)
    requires s'.work.Keys == s.work.Keys && forall w :: w in s.work ==> s'.work[w] == RecoveredWork(s.work[w], t)
    ensures OverdueWorks(s, t) == Became(s, s', t, WorkStatus.Ready) + Became(s, s', t, WorkStatus.Dead)
    ensures |OverdueWorks(s, t)| == |Became(s, s', t, WorkStatus.Ready)| + |Became(s, s', t, WorkStatus.Dead)|
    ensures Became(s, s', t, WorkStatus.Dead) == set w | w in OverdueWorks(s, t) && RetryStatus(s.work[w]).Dead?
  {
    var ready, dead := Became(s, s', t, WorkStatus.Ready), Became(s, s', t, WorkStatus.Dead);
    assert ready + dead == OverdueWorks(s, t) && ready !! dead;
  }

  // ---- recover_exact ----

  ghost predicate AfterRecoverExact(s: Tables, s': Tables, p: ExactClaim, t: int) {
    && p.work in s.work && p.batch in s.batches && p.attempt in s.attempts
    && s' == s.(batches := s'.batches, attempts := s'.attempts, work := s'.work)
    && s'.batches == s.batches[p.batch := s.batches[p.batch].(status := BatchStatus.Expired)]
    && s'.attempts == s.attempts[p.attempt := s.attempts[p.attempt].(status := AttemptStatus.Expired,
                                                                     recoveryOutcome := Some(WorkStatus.Dead))]
    && s'.work == s.work[p.work := s.work[p.work].(status := WorkStatus.Dead, availableAt := t, leaseOwner := None,
                                                   leaseAttempt := None, leaseExpires := None, updatedAt := t,
                                                   lastError := Some(LeaseExpiredAfterValidationFailure))]
  }

  lemma RecoverExactEffect(s: Tables, p: ExactClaim, t: int, skew: int, staged: bool)
    requires RecoverExact(s, p, t, skew, staged).reply == Ok(false)
    ensures AfterRecoverExact(s, RecoverExact(s, p, t, skew, staged).tables, p, t)
  {
  }

  // ---- replay ----

  ghost predicate AfterReplay(s: Tables, s': Tables, w: WorkId, operator: string, reason: string, additional: int, id: ReplayId,
                              now: int, generation: int)
  {
    && w in s.work && w in s'.work && s' == s.(work := s'.work, replays := s'.replays)
    && var row, row' := s.work[w], s'.work[w];
       && generation == row.replayGeneration + 1
       && s'.work == s.work[w := row']
       && row' == row.(status := WorkStatus.Ready, maxAttempts := row'.maxAttempts, availableAt := now, committedAttempt := None,
                       publicationSequence := None, replayGeneration := generation, lastReplay := Some(id), updatedAt := now)
       && row'.maxAttempts >= row.maxAttempts && row'.maxAttempts >= row.attemptCount + additional
       && (row'.maxAttempts == row.maxAttempts || row'.maxAttempts == row.attemptCount + additional)
       && s'.replays == s.replays[id := Replay(w, operator, reason, generation, now)]
  }

  lemma ReplayEffect(s: Tables, w: WorkId, operator: string, reason: string, additional: int, id: ReplayId, now: int)
    requires ReplayWork(s, w, operator, reason, additional, id, now).reply.Ok?
    ensures var o := ReplayWork(s, w, operator, reason, additional, id, now);
            AfterReplay(s, o.tables, w, operator, reason, additional, id, now, o.reply.value)
  {
  }

  // ---- quarantine ----

  /** The expected item is dead with the operator's marker: as it was, if it had been marked so before, else from now. */
  predicate Marks(row: Work, row': Work, e: Expectation, actor: string, explanation: string, now: int) {
    var marker := Some(Quarantined(actor, explanation, e.digest));
    if row.status.Dead? && row.lastError == marker then row' == row
    else row' == row.(status := WorkStatus.Dead, availableAt := now, lastError := marker, updatedAt := now)
  }

  ghost predicate AfterQuarantine(s: Tables, s': Tables, es: seq<Expectation>, actor: string, explanation: string, now: int) {
    && s' == s.(work := s'.work) && s'.work.Keys == s.work.Keys
    && (forall i :: 0 <= i < |es| ==> es[i].work in s.work && Marks(s.work[es[i].work], s'.work[es[i].work], es[i], actor, explanation, now))
    && (forall w :: w in s.work && (forall i :: 0 <= i < |es| ==> es[i].work != w) ==> s'.work[w] == s.work[w])
  }

  lemma QuarantineEffect(s: Tables, es: seq<Expectation>, actor: string, explanation: string, now: int)
    requires Quarantine(s, es, actor, explanation, now).reply.Ok?
    requires forall i, j :: 0 <= i < j < |es| ==> es[i].work != es[j].work
    ensures AfterQuarantine(s, Quarantine(s, es, actor, explanation, now).tables, es, actor, explanation, now)
  {
    forall i | 0 <= i < |es| ensures ExpectationFor(es, es[i].work) == Some(es[i]) {
      var e := ExpectationFor(es, es[i].work);
      assert e.Some?;
      var j :| 0 <= j < |es| && es[j] == e.value;
    }
  }

  // ---- reconcile ----

  /** The committed pointer of work `w` does not name the last publication of `w`, by a succeeded attempt. */
  ghost predicate PointsNowhere(s: Tables, w: WorkId) {
    && w in s.work && s.work[w].committedAttempt.Some?
    && var a := s.work[w].committedAttempt.value;
       !(a in s.attempts && s.attempts[a].status.Succeeded? &&
         exists i :: 0 <= i < |s.publications| && s.publications[i].work == w && s.publications[i].attempt == a
                     && forall j :: i < j < |s.publications| ==> s.publications[j].work != w)
  }

  /** What reconciliation finds at `t`. */
  ghost predicate Found(s: Tables, k: FindingKey, t: int) {
    match k.kind
    case InvalidCommittedPointer => PointsNowhere(s, k.work)
    case ExpiredLease => Lapsed(s, k.work, t)
  }

  ghost predicate FindingAfter(s: Tables, s': Tables, k: FindingKey, t: int) {
    if Found(s, k, t) then
      && k in s'.findings
      && s'.findings[k] == Finding(if k in s.findings then s.findings[k].firstSeen else t, t, None)
    else if k in s.findings then
      && k in s'.findings
      && s'.findings[k] == if s.findings[k].resolvedAt.Some? then s.findings[k] else s.findings[k].(resolvedAt := Some(t))
    else k !in s'.findings
  }

  ghost predicate AfterReconcile(s: Tables, s': Tables, t: int, open: set<FindingKey>) {
    && s' == s.(findings := s'.findings)
    && (forall k {:trigger FindingAfter(s, s', k, t)} :: FindingAfter(s, s', k, t))
    && (forall k :: k in open <==> Found(s, k, t))
  }

  lemma ReconcileEffect(s: Tables, t: int)
    ensures AfterReconcile(s, Reconcile(s, t).tables, t, Reconcile(s, t).reply.value)
  {
    forall k ensures Detected(s, k, t) <==> Found(s, k, t) {
      if k.kind.InvalidCommittedPointer? && k.work in s.work { BrokenIsNowhere(s, k.work); }
    }
  }

  lemma BrokenIsNowhere(s: Tables, w: WorkId)
    requires w in s.work
    ensures PointerBroken(s, s.work[w], w) <==> PointsNowhere(s, w)
  {
    var last := LastPublication(s.publications, w);
    if last.Some? {
      var i :| 0 <= i < |s.publications| && s.publications[i] == last.value && s.publications[i].work == w &&
        forall j :: i < j < |s.publications| ==> s.publications[j].work != w;
      forall k | 0 <= k < |s.publications| && s.publications[k].work == w
                 && forall j :: k < j < |s.publications| ==> s.publications[j].work != w
        ensures k == i
      {
      }
    }
  }
}
