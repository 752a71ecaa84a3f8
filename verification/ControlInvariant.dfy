/** The facts that hold between the control store's tables after every operation, and the proof that every
    operation keeps them, whatever the clock says. */
module ControlInvariant {
  import opened Wrappers
  import opened Ordering
  import opened ControlTables
  import opened ControlSpec

  /** A work item is leased exactly when it names an active attempt of its own, at its own fence, whose expiry and
      owner it shares. */
  ghost predicate LeaseRow(s: Tables, w: WorkId)
    requires w in s.work
  {
    var row := s.work[w];
    && (row.status.Leased? <==> row.leaseAttempt.Some?)
    && (row.leaseOwner.Some? <==> row.leaseAttempt.Some?)
    && (row.leaseExpires.Some? <==> row.leaseAttempt.Some?)
    && (row.leaseAttempt.Some? ==>
          var a := row.leaseAttempt.value;
          && a in s.attempts && s.attempts[a].work == w && Active(s.attempts[a])
          && s.attempts[a].fence == row.fence && row.leaseExpires == Some(s.attempts[a].leaseExpires)
          && s.attempts[a].batch in s.batches && row.leaseOwner == Some(s.batches[s.attempts[a].batch].owner))
  }

  predicate StatusAgrees(attempt: AttemptStatus, batch: BatchStatus) {
    match batch
    case Leased => attempt.Leased?
    case Sealed => attempt.Sealed?
    case Committed => attempt.Succeeded? || attempt.Failed?
    case Expired => attempt.Expired?
  }

  /** An attempt's status follows its batch; while it is active its work names it and its batch shares its expiry. */
  ghost predicate AttemptRow(s: Tables, a: AttemptId)
    requires a in s.attempts
  {
    var row := s.attempts[a];
    && row.work in s.work && row.batch in s.batches
    && 1 <= row.fence <= s.work[row.work].fence
    && row.payload == s.work[row.work].spec.payload
    && StatusAgrees(row.status, s.batches[row.batch].status)
    && (Active(row) ==> s.work[row.work].leaseAttempt == Some(a) && row.leaseExpires == s.batches[row.batch].leaseExpires)
    && (row.status.Leased? ==> row.outputPath.None? && row.outputSha.None? && row.terminalSucceeded.None?)
    && (row.status.Succeeded? ==> row.terminalSucceeded == Some(true))
    && (row.status.Failed? ==> row.terminalSucceeded != Some(true))
  }

  ghost predicate LeaseInv(s: Tables) {
    && (forall w {:trigger LeaseRow(s, w)} :: w in s.work ==> LeaseRow(s, w))
    && (forall a {:trigger AttemptRow(s, a)} :: a in s.attempts ==> AttemptRow(s, a))
  }

  /** A batch's membership, envelope, member rows and attempts all record the same claim. */
  ghost predicate BatchRow(s: Tables, b: BatchId)
    requires b in s.batches
  {
    var batch := s.batches[b];
    && |batch.membership| > 0 && batch.itemCount == |batch.membership|
    && (forall i, j :: 0 <= i < j < |batch.membership| ==>
          batch.membership[i].work != batch.membership[j].work && batch.membership[i].attempt != batch.membership[j].attempt)
    && batch.envelope.items == batch.membership && batch.envelope.batch == b && batch.envelope.owner == batch.owner
    && (forall i :: 0 <= i < |batch.membership| ==>
          var item := batch.membership[i];
          item.attempt in s.attempts && s.attempts[item.attempt].batch == b && item == ItemOf(item.attempt, s.attempts[item.attempt]))
    && (forall a :: a in s.attempts && s.attempts[a].batch == b ==>
          exists i :: 0 <= i < |batch.membership| && batch.membership[i].attempt == a)
    && (forall m :: m in s.members && m.batch == b ==>
          m.ordinal < |batch.membership| && m.item == batch.membership[m.ordinal])
    && (forall i :: 0 <= i < |batch.membership| ==> Member(b, i, batch.membership[i]) in s.members)
  }

  ghost predicate BatchInv(s: Tables) {
    && (forall b {:trigger BatchRow(s, b)} :: b in s.batches ==> BatchRow(s, b))
    && (forall m :: m in s.members ==> m.batch in s.batches)
  }

  /** Two attempts of one work item never carry the same fence. */
  ghost predicate FenceInv(s: Tables) {
    forall a1, a2 :: a1 in s.attempts && a2 in s.attempts && a1 != a2 && s.attempts[a1].work == s.attempts[a2].work ==>
      s.attempts[a1].fence != s.attempts[a2].fence
  }

  /** The fence counts claims and abandons, so `fence - attemptCount` is the number of abandons. */
  ghost predicate BudgetRow(s: Tables, w: WorkId)
    requires w in s.work
  {
    var row := s.work[w];
    && row.attemptCount == |AttemptsOfWork(s, w)| && row.attemptCount <= row.fence
    && 1 <= row.maxAttempts && 0 <= row.replayGeneration
    && row.attemptCount <= row.maxAttempts + (row.fence - row.attemptCount)
    && (row.status.Ready? ==> row.attemptCount < row.maxAttempts + (row.fence - row.attemptCount))
  }

  ghost predicate BudgetInv(s: Tables) {
    forall w {:trigger BudgetRow(s, w)} :: w in s.work ==> BudgetRow(s, w)
  }

  ghost function PublicationsOf(s: Tables, w: WorkId): set<int> {
    set i | 0 <= i < |s.publications| && s.publications[i].work == w
  }

  /** A pointer is set exactly on succeeded work; it names the last publication of that work; and there is at most one
      publication for each generation. */
  ghost predicate PointerRow(s: Tables, w: WorkId)
    requires w in s.work
  {
    var row := s.work[w];
    && (row.status.Succeeded? <==> row.committedAttempt.Some?)
    && (row.status.Succeeded? <==> row.publicationSequence.Some?)
    && (row.status.Succeeded? ==>
          var q := row.publicationSequence.value - 1;
          && 0 <= q < |s.publications| && s.publications[q].work == w
          && s.publications[q].attempt == row.committedAttempt.value
          && (forall i :: q < i < |s.publications| ==> s.publications[i].work != w))
    && |PublicationsOf(s, w)| <= row.replayGeneration + (if row.status.Succeeded? then 1 else 0)
  }

  /** Publication `i` has sequence `i + 1` and repeats what its succeeded attempt recorded. */
  ghost predicate PublicationRow(s: Tables, i: int)
    requires 0 <= i < |s.publications|
  {
    var p := s.publications[i];
    && p.sequence == i + 1
    && p.attempt in s.attempts && s.attempts[p.attempt].status.Succeeded?
    && p.work == s.attempts[p.attempt].work && p.batch == s.attempts[p.attempt].batch
    && p.outputPath == s.attempts[p.attempt].outputPath && p.outputSha == s.attempts[p.attempt].outputSha
  }

  ghost predicate PublicationInv(s: Tables) {
    && (forall i {:trigger PublicationRow(s, i)} :: 0 <= i < |s.publications| ==> PublicationRow(s, i))
    && (forall i, j :: 0 <= i < j < |s.publications| ==> s.publications[i].attempt != s.publications[j].attempt)
    && (forall a :: a in s.attempts && s.attempts[a].status.Succeeded? ==>
          exists i :: 0 <= i < |s.publications| && s.publications[i].attempt == a)
  }

  ghost predicate PointerInv(s: Tables) {
    forall w {:trigger PointerRow(s, w)} :: w in s.work ==> PointerRow(s, w)
  }

  ghost predicate Inv(s: Tables) {
    && LeaseInv(s)
    && BatchInv(s)
    && FenceInv(s)
    && BudgetInv(s)
    && PublicationInv(s)
    && PointerInv(s)
  }

  lemma InvIsWellFormed(s: Tables)
    requires LeaseInv(s)
    ensures WellFormed(s)
  {
    forall w | w in s.work ensures WorkLinked(s, w) {
      assert LeaseRow(s, w);
    }
    forall a | a in s.attempts ensures s.attempts[a].work in s.work {
      assert AttemptRow(s, a);
    }
  }

  lemma EmptyHolds()
    ensures Inv(EMPTY)
  {
  }

  // ---- rows that an operation leaves alone ----

  /** Nothing but work rows outside the lease changes: what register, replay and quarantine need. */
  lemma WorkOnlyKeeps(s: Tables, s': Tables)
    requires Inv(s)
    requires s'.attempts == s.attempts && s'.batches == s.batches && s'.members == s.members
    requires s'.publications == s.publications
    requires s.work.Keys <= s'.work.Keys
    requires forall w :: w in s.work ==>
      && s'.work[w].spec == s.work[w].spec && s'.work[w].fence == s.work[w].fence
      && s'.work[w].leaseAttempt == s.work[w].leaseAttempt && s'.work[w].leaseExpires == s.work[w].leaseExpires
      && s'.work[w].leaseOwner == s.work[w].leaseOwner
      && (s'.work[w].status.Leased? <==> s.work[w].status.Leased?)
      && s'.work[w].attemptCount == s.work[w].attemptCount
    requires forall w :: w in s'.work && w !in s.work ==>
      s'.work[w].leaseAttempt.None? && s'.work[w].leaseExpires.None? && s'.work[w].leaseOwner.None?
      && !s'.work[w].status.Leased?
    ensures LeaseInv(s') && BatchInv(s') && FenceInv(s') && PublicationInv(s')
    ensures forall w :: AttemptsOfWork(s', w) == AttemptsOfWork(s, w) && PublicationsOf(s', w) == PublicationsOf(s, w)
  {
    forall w | w in s'.work ensures LeaseRow(s', w) {
      if w in s.work { assert LeaseRow(s, w); }
    }
    forall a | a in s'.attempts ensures AttemptRow(s', a) {
      assert AttemptRow(s, a);
    }
    forall b | b in s'.batches ensures BatchRow(s', b) {
      assert BatchRow(s, b);
    }
    forall i | 0 <= i < |s'.publications| ensures PublicationRow(s', i) {
      assert PublicationRow(s, i);
    }
  }

  /** Budget and pointer facts carry over to a row whose counters they mention are kept. */
  lemma RowsCarry(s: Tables, s': Tables, w: WorkId)
    requires w in s.work && w in s'.work && BudgetRow(s, w) && PointerRow(s, w)
    requires AttemptsOfWork(s', w) == AttemptsOfWork(s, w) && s'.publications == s.publications
    requires s'.work[w].attemptCount == s.work[w].attemptCount && s'.work[w].fence >= s.work[w].fence
    requires s'.work[w].maxAttempts >= s.work[w].maxAttempts
    requires s'.work[w].status.Ready? ==>
      s.work[w].status.Ready? || s'.work[w].attemptCount < s'.work[w].maxAttempts || s'.work[w].fence > s.work[w].fence
    requires
      || (s'.work[w].replayGeneration == s.work[w].replayGeneration
          && s'.work[w].status.Succeeded? == s.work[w].status.Succeeded?
          && s'.work[w].committedAttempt == s.work[w].committedAttempt
          && s'.work[w].publicationSequence == s.work[w].publicationSequence)
      || (s'.work[w].replayGeneration == s.work[w].replayGeneration + 1 && !s'.work[w].status.Succeeded?
          && s'.work[w].committedAttempt.None? && s'.work[w].publicationSequence.None?)
    ensures BudgetRow(s', w) && PointerRow(s', w)
  {
  }

  lemma RegisterKeeps(s: Tables, requests: seq<Request>, release: Option<string>, now: int)
    requires Inv(s)
    ensures Inv(Register(s, requests, release, now).tables)
  {
    var s' := Register(s, requests, release, now).tables;
    if s' != s {
      WorkOnlyKeeps(s, s');
      forall w | w in s'.work ensures BudgetRow(s', w) && PointerRow(s', w) {
        if w in s.work { RowsCarry(s, s', w); } else { UnknownWorkIsUnused(s, w); }
      }
    }
  }

  lemma UnknownWorkIsUnused(s: Tables, w: WorkId)
    requires LeaseInv(s) && PublicationInv(s) && w !in s.work
    ensures AttemptsOfWork(s, w) == {} && PublicationsOf(s, w) == {}
  {
    forall a | a in s.attempts ensures s.attempts[a].work != w { assert AttemptRow(s, a); }
    forall i | 0 <= i < |s.publications| ensures s.publications[i].work != w {
      assert PublicationRow(s, i);
      assert AttemptRow(s, s.publications[i].attempt);
    }
  }

  lemma ReplayKeeps(s: Tables, w: WorkId, operator: string, reason: string, additional: int, id: ReplayId, now: int)
    requires Inv(s)
    ensures Inv(ReplayWork(s, w, operator, reason, additional, id, now).tables)
  {
    var s' := ReplayWork(s, w, operator, reason, additional, id, now).tables;
    if s' != s {
      WorkOnlyKeeps(s, s') by { assert LeaseRow(s, w); }
      forall v | v in s'.work ensures BudgetRow(s', v) && PointerRow(s', v) { RowsCarry(s, s', v); }
    }
  }

  lemma QuarantineKeeps(s: Tables, es: seq<Expectation>, actor: string, explanation: string, now: int)
    requires Inv(s)
    ensures Inv(Quarantine(s, es, actor, explanation, now).tables)
  {
    var s' := Quarantine(s, es, actor, explanation, now).tables;
    if s' != s {
      QuarantineRows(s, es, actor, explanation, now);
      assert s'.work.Keys == s.work.Keys;
      WorkOnlyKeeps(s, s');
      forall w | w in s'.work ensures BudgetRow(s', w) && PointerRow(s', w) { RowsCarry(s, s', w); }
    }
  }

  /** A successful quarantine only turns ready work dead. */
  lemma QuarantineRows(s: Tables, es: seq<Expectation>, actor: string, explanation: string, now: int)
    requires Quarantine(s, es, actor, explanation, now).reply.Ok?
    ensures var s' := QuarantineTables(s, es, actor, explanation, now);
            forall w :: w in s.work ==>
              || s'.work[w] == s.work[w]
              || (s.work[w].status.Ready? && s.work[w].committedAttempt.None? && s'.work[w].status.Dead? &&
                  s'.work[w] == s.work[w].(status := WorkStatus.Dead, availableAt := now,
                                           lastError := s'.work[w].lastError, updatedAt := now))
  {
  }

  lemma ReconcileKeeps(s: Tables, t: int)
    requires Inv(s)
    ensures Inv(Reconcile(s, t).tables)
  {
    var s' := Reconcile(s, t).tables;
    WorkOnlyKeeps(s, s');
    forall w | w in s'.work ensures BudgetRow(s', w) && PointerRow(s', w) { RowsCarry(s, s', w); }
  }
}
