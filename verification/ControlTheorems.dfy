/** The promises of the control plane, stated over whole runs. */
module ControlTheorems {
  import opened Wrappers
  import opened Ordering
  import opened ControlTables
  import opened ControlSpec
  import opened ControlInvariant
  import opened ControlBatches
  import opened ControlPublishing
  import opened ControlRuns

  // ---- fencing ----

  /** A work item never has two attempts that could still publish, and the one it has carries the work's own fence,
      expiry and owner. */
  lemma OneLiveAttempt(s: Tables, a1: AttemptId, a2: AttemptId)
    requires Inv(s) && a1 in s.attempts && a2 in s.attempts
    requires Active(s.attempts[a1]) && Active(s.attempts[a2]) && s.attempts[a1].work == s.attempts[a2].work
    ensures a1 == a2
    ensures s.attempts[a1].work in s.work && s.work[s.attempts[a1].work].fence == s.attempts[a1].fence
    ensures s.work[s.attempts[a1].work].leaseExpires == Some(s.attempts[a1].leaseExpires)
  {
    assert AttemptRow(s, a1) && AttemptRow(s, a2) && LeaseRow(s, s.attempts[a1].work);
  }

  /** Along a run, an attempt claimed later carries a strictly higher fence than any earlier attempt of its work. */
  lemma FencesIncrease(s: Tables, ops: seq<Op>, earlier: AttemptId, later: AttemptId)
    requires Inv(s) && RunEnabled(s, ops)
    requires earlier in s.attempts && later in Run(s, ops).attempts && later !in s.attempts
    requires Run(s, ops).attempts[later].work == s.attempts[earlier].work
    ensures s.attempts[earlier].fence < Run(s, ops).attempts[later].fence
  {
    RunEvolves(s, ops);
    assert AttemptRow(s, earlier) && NewFence(s, Run(s, ops), later);
  }

  /** Once an attempt is terminal its row is the same in every later state; likewise a committed or expired batch. */
  lemma TerminalForever(s: Tables, ops: seq<Op>, a: AttemptId, b: BatchId)
    requires Inv(s) && RunEnabled(s, ops) && a in s.attempts && b in s.batches
    ensures var s' := Run(s, ops);
            && a in s'.attempts && (!Active(s.attempts[a]) ==> s'.attempts[a] == s.attempts[a])
            && b in s'.batches && (!ActiveBatch(s.batches[b]) ==> s'.batches[b] == s.batches[b])
  {
    RunEvolves(s, ops);
    assert EvolvesAttempt(s, Run(s, ops), a) && EvolvesBatch(s, Run(s, ops), b);
  }

  /** A driver whose batch has expired can never heartbeat, seal or commit again, whatever happens in between and
      whatever the clock says. */
  lemma ExpiredIsFenced(s: Tables, ops: seq<Op>, b: BatchId, env: ProcessEnvelope, extension: int,
                        outputs: seq<Output>, envelope: Envelope, membership: seq<ClaimItem>, now: int)
    requires Inv(s) && RunEnabled(s, ops) && b in s.batches && s.batches[b].status.Expired? && env.batch == b
    ensures var s' := Run(s, ops);
            && Heartbeat(s', env, extension, now).reply.Err?
            && Seal(s', b, outputs, envelope, membership, now).reply.Err?
            && Commit(s', b, now).reply == Err(LeaseLost)
  {
    RunEvolves(s, ops);
    assert EvolvesBatch(s, Run(s, ops), b);
  }

  // ---- recovery moves whole batches ----

  /** `recover` takes back all of a batch or none of it: attempts, the work they hold and the batch row together. */
  lemma RecoverAllOrNone(s: Tables, t: int, b: BatchId)
    requires Inv(s) && b in s.batches && ActiveBatch(s.batches[b])
    ensures var s' := Recover(s, t).tables;
            if s.batches[b].leaseExpires <= t then
              && s'.batches[b].status.Expired?
              && (forall a :: a in s.attempts && s.attempts[a].batch == b ==>
                    && s'.attempts[a].status.Expired? && s.attempts[a].work in s'.work
                    && s'.work[s.attempts[a].work].leaseAttempt.None?
                    && (s'.work[s.attempts[a].work].status.Ready? || s'.work[s.attempts[a].work].status.Dead?)
                    && s'.attempts[a].recoveryOutcome == Some(s'.work[s.attempts[a].work].status))
            else
              && s'.batches[b] == s.batches[b]
              && (forall a :: a in s.attempts && s.attempts[a].batch == b ==>
                    && s'.attempts[a] == s.attempts[a] && s.attempts[a].work in s'.work
                    && s'.work[s.attempts[a].work] == s.work[s.attempts[a].work])
  {
    RecoverByBatch(s, t);
    forall a | a in s.attempts && s.attempts[a].batch == b
      ensures s.attempts[a].work in s.work && s.work[s.attempts[a].work].leaseAttempt == Some(a)
      ensures RecoversAttempt(s, a, t) <==> s.batches[b].leaseExpires <= t
      ensures Overdue(s.work[s.attempts[a].work], t) <==> s.batches[b].leaseExpires <= t
    {
      assert AttemptRow(s, a) && LeaseRow(s, s.attempts[a].work);
    }
  }

  // ---- publications ----

  /** Publication sequences are exactly 1..n in append order, and each is one more than the last. */
  lemma SequencesAreConsecutive(s: Tables, i: int)
    requires Inv(s) && 0 <= i < |s.publications|
    ensures s.publications[i].sequence == i + 1 && MaxSequence(s.publications) == |s.publications|
  {
    assert PublicationRow(s, i);
    NextSequence(s);
  }

  /** For every work item there is at most one publication per generation, and the committed attempt and the sequence
      are set exactly when the item has succeeded. */
  lemma OnePublicationPerGeneration(ops: seq<Op>, w: WorkId)
    requires RunEnabled(EMPTY, ops) && w in Run(EMPTY, ops).work
    ensures var s := Run(EMPTY, ops); var row := s.work[w];
            && |PublicationsOf(s, w)| <= row.replayGeneration + (if row.status.Succeeded? then 1 else 0)
            && (row.committedAttempt.Some? <==> row.status.Succeeded?)
            && (row.publicationSequence.Some? <==> row.status.Succeeded?)
  {
    EmptyHolds();
    RunKeeps(EMPTY, ops);
    assert PointerRow(Run(EMPTY, ops), w);
  }

  /** A batch publishes all of its successes or nothing: it has a publication for exactly its successful attempts once
      it is committed, and none before or if it expires. */
  lemma BatchPublishesTogether(s: Tables, b: BatchId)
    requires Inv(s) && b in s.batches
    ensures s.batches[b].status.Committed? ==>
      forall a :: a in s.attempts && s.attempts[a].batch == b ==>
        (s.attempts[a].terminalSucceeded == Some(true) <==>
         exists i :: 0 <= i < |s.publications| && s.publications[i].attempt == a)
    ensures !s.batches[b].status.Committed? ==> forall i :: 0 <= i < |s.publications| ==> s.publications[i].batch != b
  {
    forall a | a in s.attempts && s.attempts[a].batch == b && s.batches[b].status.Committed?
      ensures s.attempts[a].terminalSucceeded == Some(true) <==>
              exists i :: 0 <= i < |s.publications| && s.publications[i].attempt == a
    {
      assert AttemptRow(s, a);
      if i :| 0 <= i < |s.publications| && s.publications[i].attempt == a { assert PublicationRow(s, i); }
    }
    forall i | 0 <= i < |s.publications| ensures s.batches[b].status.Committed? || s.publications[i].batch != b {
      assert PublicationRow(s, i) && AttemptRow(s, s.publications[i].attempt);
    }
  }

  /** The publications of a committed batch are fixed for good. */
  lemma CommittedPublicationsFixed(s: Tables, s': Tables, b: BatchId)
    requires Inv(s) && Inv(s') && Evolves(s, s') && b in s.batches && s.batches[b].status.Committed?
    ensures BatchPublications(s', b) == BatchPublications(s, b)
  {
    assert EvolvesBatch(s, s', b);
    forall i | 0 <= i < |s'.publications| && s'.publications[i].batch == b ensures i < |s.publications| {
      LatePublication(s, s', b, i);
    }
    forall i | 0 <= i < |s.publications| ensures s'.publications[i] == s.publications[i] {}
  }

  lemma LatePublication(s: Tables, s': Tables, b: BatchId, i: int)
    requires Inv(s) && Inv(s') && Evolves(s, s') && b in s.batches && s.batches[b].status.Committed?
    requires 0 <= i < |s'.publications| && s'.publications[i].batch == b
    ensures i < |s.publications|
  {
    var a := s'.publications[i].attempt;
    assert PublicationRow(s', i) && EvolvesBatch(s, s', b) && BatchRow(s', b) && BatchRow(s, b);
    assert a in s.attempts && s.attempts[a].batch == b;
    assert AttemptRow(s, a) && EvolvesAttempt(s, s', a);
    var j :| 0 <= j < |s.publications| && s.publications[j].attempt == a;
    assert s'.publications[j] == s.publications[j];
  }

  /** What a commit returned, it returns again after any later operations, and changes nothing. */
  lemma CommitIsIdempotent(s: Tables, b: BatchId, now: int, ops: seq<Op>, later: int)
    requires Inv(s) && Commit(s, b, now).reply.Ok? && RunEnabled(Commit(s, b, now).tables, ops)
    ensures var s' := Run(Commit(s, b, now).tables, ops);
            Commit(s', b, later) == Outcome(s', Commit(s, b, now).reply)
  {
    CommitKeeps(s, b, now);
    CommitReply(s, b, now);
    RunEvolves(Commit(s, b, now).tables, ops);
    ReplyStays(Commit(s, b, now).tables, Run(Commit(s, b, now).tables, ops), b, later);
  }

  lemma ReplyStays(s: Tables, s': Tables, b: BatchId, later: int)
    requires Inv(s) && Inv(s') && Evolves(s, s') && b in s.batches && s.batches[b].status.Committed?
    ensures Commit(s', b, later) == Outcome(s', Ok(SortedBy(BatchPublications(s, b), x => x)))
  {
    assert EvolvesBatch(s, s', b);
    CommittedPublicationsFixed(s, s', b);
  }

  /** A commit's reply is its batch's sequences in ascending order. */
  lemma CommitReply(s: Tables, b: BatchId, now: int)
    requires Inv(s) && Commit(s, b, now).reply.Ok?
    ensures var s1 := Commit(s, b, now).tables;
            && b in s1.batches && s1.batches[b].status.Committed?
            && Commit(s, b, now).reply == Ok(SortedBy(BatchPublications(s1, b), x => x))
  {
    if !s.batches[b].status.Committed? {
      var s1, succ := CommitTables(s, b, now), Successes(s, b);
      NextSequence(s);
      CommitTablesCommit(s, b, now);
      CommitPublicationSet(s, s1, b, succ, now);
      Consecutive(|s.publications|, CommitSequences(s, b), BatchPublications(s1, b));
    }
  }

  lemma CommitPublicationSet(s: Tables, s1: Tables, b: BatchId, succ: seq<AttemptId>, now: int)
    requires Inv(s) && Commits(s, s1, b, succ, now) && s.batches[b].status.Sealed?
    ensures forall x :: x in BatchPublications(s1, b) <==> |s.publications| < x <= |s.publications| + |succ|
  {
    BatchPublishesTogether(s, b);
    forall i | 0 <= i < |s1.publications|
      ensures s1.publications[i].sequence == i + 1 && (s1.publications[i].batch == b <==> i >= |s.publications|)
    {
      CommitPublicationRow(s, s1, b, succ, now, i);
      if i < |s.publications| { assert s1.publications[i] == s.publications[i]; }
      else {
        var a := s1.publications[i].attempt;
        assert a in succ && CommitsPublication(s, s1, succ, now, i - |s.publications|);
      }
    }
    forall x | |s.publications| < x <= |s.publications| + |succ| ensures x in BatchPublications(s1, b) {
      assert s1.publications[x - 1].sequence == x;
    }
  }

  // ---- reconciliation ----

  /** In a state that meets the invariant no committed pointer is ever reported broken. */
  lemma NoBrokenPointer(s: Tables, w: WorkId)
    requires Inv(s) && w in s.work
    ensures !PointerBroken(s, s.work[w], w)
  {
    var row := s.work[w];
    assert PointerRow(s, w);
    if row.committedAttempt.Some? {
      var q := row.publicationSequence.value - 1;
      assert PublicationRow(s, q);
      var last := LastPublication(s.publications, w);
      var i :| 0 <= i < |s.publications| && s.publications[i] == last.value && s.publications[i].work == w &&
        forall j :: i < j < |s.publications| ==> s.publications[j].work != w;
      assert i == q;
    }
  }

  /** Reconciling right after recovering at the same instant leaves no open finding. */
  lemma RecoverThenReconcileIsQuiet(s: Tables, t: int)
    requires Inv(s)
    ensures Reconcile(Recover(s, t).tables, t).reply == Ok({})
  {
    var s' := Recover(s, t).tables;
    RecoverKeeps(s, t);
    forall w | w in s'.work ensures !PointerBroken(s', s'.work[w], w) {
      NoBrokenPointer(s', w);
    }
    forall w | w in s'.work ensures !Overdue(s'.work[w], t) {}
    QuietWhenNothingIsDetected(s', t);
  }

  /** Reconciliation closes every finding it does not detect again. */
  lemma QuietWhenNothingIsDetected(s: Tables, t: int)
    requires forall w :: w in s.work ==> !PointerBroken(s, s.work[w], w) && !Overdue(s.work[w], t)
    ensures Reconcile(s, t).reply == Ok({})
  {
    assert DetectedKeys(s, t) == {};
    assert OpenFindings(ReconcileTables(s, t).findings) == {};
  }
}
