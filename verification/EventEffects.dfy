/** What each kind of worker command leaves in the two rows, and exactly when it is taken, column by column.  Nothing here is said
    through the functions that compute the target rows. */
module EventEffects {
  import opened Wrappers
  import opened WorkerEvents

  // ---- the rows left ----

  /** The column holds the value; null is a column that is missing. */
  predicate Holds(facts: map<Column, Value>, column: Column, v: Option<Value>) {
    if v.Some? then column in facts && facts[column] == v.value else column !in facts
  }

  predicate Kept(facts: map<Column, Value>, facts': map<Column, Value>, column: Column) {
    Holds(facts', column, if column in facts then Some(facts[column]) else None)
  }

  /** A column an update gives is set, but a heartbeat time is always the command's; a completion time is set with success. */
  predicate UpdatedAt(c: Command, updates: Updates, facts: map<Column, Value>, facts': map<Column, Value>, column: Column) {
    if column == LastHeartbeatAt && LastHeartbeatAt in updates.columns then Holds(facts', column, Some(Time(c.createdAt)))
    else if column == CompletedAt && updates.status == Some(Status.Succeeded) then Holds(facts', column, Some(Time(c.createdAt)))
    else if column in updates.columns then Holds(facts', column, updates.columns[column])
    else Kept(facts, facts', column)
  }

  ghost predicate SetsUpdates(c: Command, updates: Updates, facts: map<Column, Value>, facts': map<Column, Value>) {
    forall column {:trigger UpdatedAt(c, updates, facts, facts', column)} :: UpdatedAt(c, updates, facts, facts', column)
  }

  /** A heartbeat moves both rows to its status and renews the lease, never shortening it. */
  ghost predicate HeartbeatLeaves(c: Command, work: Work, attempt: Attempt, work': Work, attempt': Attempt)
    requires c.kind.Heartbeat?
  {
    && work' == work.(status := c.kind.status, lastHeartbeat := Some(c.createdAt), expires := work'.expires)
    && work'.expires.Some? && work'.expires.value >= c.createdAt + 60 * c.leaseMinutes
    && (work.expires.Some? ==> work'.expires.value >= work.expires.value)
    && (work'.expires.value == c.createdAt + 60 * c.leaseMinutes || work'.expires == work.expires)
    && attempt' == attempt.(status := c.kind.status, facts := attempt'.facts)
    && SetsUpdates(c, c.kind.updates.(columns := c.kind.updates.columns[LastHeartbeatAt := None]), attempt.facts, attempt'.facts)
  }

  /** An update changes the attempt row alone. */
  ghost predicate UpdateLeaves(c: Command, work: Work, attempt: Attempt, work': Work, attempt': Attempt)
    requires c.kind.AttemptUpdate?
  {
    && work' == work
    && attempt' == attempt.(status := if c.kind.updates.status.Some? then c.kind.updates.status.value else attempt.status,
                            facts := attempt'.facts)
    && SetsUpdates(c, c.kind.updates, attempt.facts, attempt'.facts)
  }

  /** A commit points the work at the attempt, once, and ends its lease. */
  predicate CommitLeaves(c: Command, work: Work, attempt: Attempt, work': Work, attempt': Attempt) {
    && attempt' == attempt
    && if work.status.Succeeded? && work.committed == Some(c.attempt) then work' == work
       else work' == work.(status := Status.Succeeded, committed := Some(c.attempt), completedAt := Some(c.createdAt),
                           notBefore := None, owner := None, dispatcher := None, acquired := None, expires := None,
                           errorCategory := None, errorType := None, errorMessage := None)
  }

  /** Minutes until the retry after the `n`th attempt: 1, 2, 4, 8, 16, 32, and then an hour. */
  predicate RetryMinutes(n: int, minutes: int) {
    minutes == (if n <= 1 then 1 else if n == 2 then 2 else if n == 3 then 4 else if n == 4 then 8 else if n == 5 then 16
                else if n == 6 then 32 else 60)
  }

  /** Failed work is dead-lettered once its attempts are used up, else waits for a retry if the failure allows one, else has
      failed for good.  It has a retry time and a new place in the queue exactly when it waits. */
  ghost predicate FailureLeavesWork(c: Command, work: Work, work': Work)
    requires c.kind.Failure?
  {
    && work' == work.(status := work'.status, owner := None, dispatcher := None, acquired := None, expires := None,
                      notBefore := work'.notBefore, queueEntered := work'.queueEntered,
                      errorCategory := Some(c.kind.category), errorType := Some(c.kind.kind), errorMessage := Some(c.kind.message))
    && (work'.status.DeadLettered? <==> work.attemptCount >= work.maxAttempts)
    && (work'.status.RetryWait? <==> work.attemptCount < work.maxAttempts && c.kind.retryable)
    && (work'.status.TerminalFailed? <==> work.attemptCount < work.maxAttempts && !c.kind.retryable)
    && (if work'.status.RetryWait? then
          && (exists minutes :: RetryMinutes(work.attemptCount, minutes) && work'.notBefore == Some(c.createdAt + 60 * minutes))
          && work'.queueEntered == Some(c.createdAt)
        else work'.notBefore.None? && work'.queueEntered == work.queueEntered)
  }

  /** The attempt ends like its work, or with its lease lost if it lost it and the work waits; the failure is recorded. */
  ghost predicate FailureLeavesAttempt(c: Command, status: Status, attempt: Attempt, attempt': Attempt)
    requires c.kind.Failure?
  {
    && attempt' == attempt.(status := if status.RetryWait? && c.kind.leaseLost then Status.LeaseLost else status,
                            facts := attempt'.facts)
    && Holds(attempt'.facts, ErrorCategory, Some(Text(c.kind.category))) && Holds(attempt'.facts, ErrorType, Some(Text(c.kind.kind)))
    && Holds(attempt'.facts, ErrorMessage, Some(Text(c.kind.message))) && Holds(attempt'.facts, Retryable, Some(Flag(c.kind.retryable)))
    && Holds(attempt'.facts, ProcessedFrames, c.kind.frames) && Holds(attempt'.facts, ProcessingSeconds, c.kind.seconds)
    && Holds(attempt'.facts, CompletedAt, Some(Time(c.createdAt)))
    && Kept(attempt.facts, attempt'.facts, LastHeartbeatAt) && Kept(attempt.facts, attempt'.facts, InferenceStartedAt)
    && forall name: string {:trigger Column(name)} :: Kept(attempt.facts, attempt'.facts, Column(name))
  }

  ghost predicate FailureLeaves(c: Command, work: Work, attempt: Attempt, work': Work, attempt': Attempt)
    requires c.kind.Failure?
  {
    FailureLeavesWork(c, work, work') && FailureLeavesAttempt(c, work'.status, attempt, attempt')
  }

  /** Released work waits for a retry at once and has its attempt back. */
  predicate ReleaseLeavesWork(c: Command, work: Work, work': Work) {
    && work' == work.(status := Status.RetryWait, attemptCount := work'.attemptCount, notBefore := Some(c.createdAt),
                      owner := None, dispatcher := None, acquired := None, expires := None,
                      errorCategory := None, errorType := None, errorMessage := None)
    && work'.attemptCount >= 0 && (work'.attemptCount == work.attemptCount - 1 || (work.attemptCount <= 0 && work'.attemptCount == 0))
  }

  /** The attempt is released, with the reason. */
  ghost predicate ReleaseLeavesAttempt(c: Command, attempt: Attempt, attempt': Attempt)
    requires c.kind.Release?
  {
    && attempt' == attempt.(status := Status.Released, facts := attempt'.facts)
    && Holds(attempt'.facts, CompletedAt, Some(Time(c.createdAt))) && Holds(attempt'.facts, Retryable, Some(Flag(true)))
    && Holds(attempt'.facts, ErrorCategory, Some(Text("WORKER_BUDGET")))
    && Holds(attempt'.facts, ErrorType, Some(Text("WorkerLifetimeReached")))
    && Holds(attempt'.facts, ErrorMessage, Some(Text(c.kind.reason)))
    && Kept(attempt.facts, attempt'.facts, LastHeartbeatAt) && Kept(attempt.facts, attempt'.facts, InferenceStartedAt)
    && Kept(attempt.facts, attempt'.facts, ProcessedFrames) && Kept(attempt.facts, attempt'.facts, ProcessingSeconds)
    && forall name: string {:trigger Column(name)} :: Kept(attempt.facts, attempt'.facts, Column(name))
  }

  /** A release that was taken before leaves everything as it is. */
  ghost predicate ReleaseLeaves(c: Command, work: Work, attempt: Attempt, work': Work, attempt': Attempt)
    requires c.kind.Release?
  {
    && ReleaseLeavesAttempt(c, attempt, attempt')
    && if ReleasedBefore(c, work, attempt) then work' == work && attempt' == attempt else ReleaseLeavesWork(c, work, work')
  }

  /** The attempt is as this release leaves it and the work waits without a lease from the same time. */
  ghost predicate ReleasedBefore(c: Command, work: Work, attempt: Attempt)
    requires c.kind.Release?
  {
    && ReleaseLeavesAttempt(c, attempt, attempt) && work.status.RetryWait? && work.notBefore == Some(c.createdAt)
    && work.owner.None? && work.dispatcher.None? && work.acquired.None? && work.expires.None?
  }

  /** A claim binds the attempt to the execution. */
  predicate ClaimLeaves(c: Command, work: Work, attempt: Attempt, work': Work, attempt': Attempt) {
    work' == work && attempt' == attempt.(execution := Some(c.execution))
  }

  /** What an accepted command leaves in the two rows. */
  ghost predicate Leaves(c: Command, work: Work, attempt: Attempt, work': Work, attempt': Attempt) {
    match c.kind
    case ClaimExecution => ClaimLeaves(c, work, attempt, work', attempt')
    case Heartbeat(_, _) => HeartbeatLeaves(c, work, attempt, work', attempt')
    case AttemptUpdate(_) => UpdateLeaves(c, work, attempt, work', attempt')
    case Commit => CommitLeaves(c, work, attempt, work', attempt')
    case Failure(_, _, _, _, _, _, _) => FailureLeaves(c, work, attempt, work', attempt')
    case Release(_) => ReleaseLeaves(c, work, attempt, work', attempt')
  }

  // ---- when a command is taken ----

  /** The attempt is of the command's work, and both rows are of its capture and of one named configuration. */
  predicate SameItem(c: Command, work: Work, attempt: Attempt) {
    && attempt.work == c.work && work.captureDate == c.captureDate && attempt.captureDate == c.captureDate
    && work.config == attempt.config && |work.config| > 0
  }

  predicate Busy(status: Status) {
    status.Leased? || status.Staging? || status.Running? || status.Writing?
  }

  /** The work is uncommitted, busy, and leased to the command's attempt by the attempt's dispatcher. */
  predicate HoldsLease(c: Command, work: Work, attempt: Attempt) {
    work.committed.None? && work.owner == Some(c.attempt) && work.dispatcher == attempt.dispatcher && Busy(work.status)
  }

  /** The command was given since the lease was acquired, and not in the future. */
  predicate Timely(c: Command, work: Work, now: int) {
    work.acquired.Some? && work.acquired.value <= c.createdAt && c.createdAt <= now
  }

  /** It is timely and the lease had not ended when it was given and has not ended now. */
  predicate InLease(c: Command, work: Work, now: int) {
    Timely(c, work, now) && work.expires.Some? && c.createdAt < work.expires.value && now < work.expires.value
  }

  /** The status stays or moves one step on from leased through staging and running to writing. */
  predicate Moves(before: Status, after: Status) {
    || (before == after && Busy(before)) || (before.Leased? && after.Staging?) || (before.Staging? && after.Running?)
    || (before.Running? && after.Writing?)
  }

  ghost predicate HeartbeatTaken(c: Command, work: Work, attempt: Attempt, now: int)
    requires c.kind.Heartbeat?
  {
    && HoldsLease(c, work, attempt)
    && (HeartbeatLeaves(c, work, attempt, work, attempt)
        || (InLease(c, work, now) && Moves(work.status, c.kind.status) && Moves(attempt.status, c.kind.status)
            && (work.lastHeartbeat.Some? ==> work.lastHeartbeat.value <= c.createdAt)))
  }

  /** A succeeded attempt takes only the update that completed it, while its work is still writing; a busy one only updates that
      leave its status alone or complete it while it is writing. */
  ghost predicate UpdateTaken(c: Command, work: Work, attempt: Attempt, now: int)
    requires c.kind.AttemptUpdate?
  {
    var target := c.kind.updates.status;
    && HoldsLease(c, work, attempt)
    && if attempt.status.Succeeded? then
         && work.status.Writing? && target == Some(Status.Succeeded) && UpdateLeaves(c, work, attempt, work, attempt)
       else
         && InLease(c, work, now) && Busy(attempt.status) && attempt.status == work.status
         && (target.None? || target.value == attempt.status || (target.value.Succeeded? && work.status.Writing?))
         && (CompletedAt in c.kind.updates.columns ==> target == Some(Status.Succeeded))
  }

  predicate CommitTaken(c: Command, work: Work, attempt: Attempt, now: int) {
    && attempt.status.Succeeded?
    && ((work.status.Succeeded? && work.committed == Some(c.attempt))
        || (HoldsLease(c, work, attempt) && InLease(c, work, now) && work.status.Writing?))
  }

  /** A failure is taken after the lease has ended too, and again after its attempt row was written. */
  ghost predicate FailureTaken(c: Command, work: Work, attempt: Attempt, now: int)
    requires c.kind.Failure?
  {
    && work.committed.None?
    && (FailureLeaves(c, work, attempt, work, attempt)
        || (HoldsLease(c, work, attempt) && Timely(c, work, now)
            && (Busy(attempt.status) || exists work' :: FailureLeaves(c, work, attempt, work', attempt))))
  }

  /** Only an attempt that has not started is released; again after its row was written. */
  ghost predicate ReleaseTaken(c: Command, work: Work, attempt: Attempt, now: int)
    requires c.kind.Release?
  {
    || ReleasedBefore(c, work, attempt)
    || (&& HoldsLease(c, work, attempt) && work.status.Leased? && InferenceStartedAt !in attempt.facts
        && ((InLease(c, work, now) && attempt.status.Leased?)
            || (Timely(c, work, now) && ReleaseLeavesAttempt(c, attempt, attempt))))
  }

  predicate ClaimTaken(c: Command, work: Work, attempt: Attempt, now: int) {
    && HoldsLease(c, work, attempt) && InLease(c, work, now) && work.status.Leased? && attempt.status.Leased?
    && (attempt.execution.Some? ==> attempt.execution.value == c.execution)
  }

  /** A command is of the item, and of the execution that claimed its attempt unless it is the claim. */
  ghost predicate Taken(c: Command, work: Work, attempt: Attempt, now: int) {
    && SameItem(c, work, attempt) && (c.kind.ClaimExecution? || attempt.execution == Some(c.execution))
    && match c.kind
       case ClaimExecution => ClaimTaken(c, work, attempt, now)
       case Heartbeat(_, _) => HeartbeatTaken(c, work, attempt, now)
       case AttemptUpdate(_) => UpdateTaken(c, work, attempt, now)
       case Commit => CommitTaken(c, work, attempt, now)
       case Failure(_, _, _, _, _, _, _) => FailureTaken(c, work, attempt, now)
       case Release(_) => ReleaseTaken(c, work, attempt, now)
  }

  // ---- setting columns ----

  /** The column is set if a value is given for it, and is otherwise kept. */
  predicate SetAt(facts: map<Column, Value>, columns: Columns, facts': map<Column, Value>, column: Column) {
    if column in columns then Holds(facts', column, columns[column]) else Kept(facts, facts', column)
  }

  lemma SetHolds(facts: map<Column, Value>, columns: Columns, column: Column)
    ensures SetAt(facts, columns, Set(facts, columns), column)
  {
  }

  /** Only one map has every column so. */
  lemma SetUnique(facts: map<Column, Value>, columns: Columns, facts': map<Column, Value>)
    requires forall column {:trigger SetAt(facts, columns, facts', column)} :: SetAt(facts, columns, facts', column)
    ensures facts' == Set(facts, columns)
  {
    var target := Set(facts, columns);
    forall column ensures (column in facts' <==> column in target) && (column in facts' ==> facts'[column] == target[column]) {
      assert SetAt(facts, columns, facts', column);
      SetHolds(facts, columns, column);
    }
  }

  // ---- failures ----

  function FailureFacts(c: Command): Columns
    requires c.kind.Failure?
  {
    map[ErrorCategory := Some(Text(c.kind.category)), ErrorType := Some(Text(c.kind.kind)),
        ErrorMessage := Some(Text(c.kind.message)), Retryable := Some(Flag(c.kind.retryable)),
        ProcessedFrames := c.kind.frames, ProcessingSeconds := c.kind.seconds, CompletedAt := Some(Time(c.createdAt))]
  }

  lemma RetryDelay(n: int)
    ensures RetryMinutes(n, Delay(n))
  {
    assert Power(0) == 1 && Power(1) == 2 && Power(2) == 4;
    assert Power(3) == 8 && Power(4) == 16 && Power(5) == 32 && Power(6) == 64;
  }

  lemma FailureWork(c: Command, work: Work)
    requires c.kind.Failure?
    ensures FailureLeavesWork(c, work, FailedWork(c, work))
  {
    RetryDelay(work.attemptCount);
    assert RetryMinutes(work.attemptCount, Delay(work.attemptCount));
  }

  /** The attempt left by a failure is exactly the planner's. */
  lemma FailureAttempt(c: Command, work: Work, attempt: Attempt, attempt': Attempt)
    requires c.kind.Failure?
    ensures FailureLeavesAttempt(c, FailedStatus(c, work), attempt, attempt') <==> attempt' == FailedAttempt(c, work, attempt)
  {
    var facts, facts', columns := attempt.facts, attempt'.facts, FailureFacts(c);
    if FailureLeavesAttempt(c, FailedStatus(c, work), attempt, attempt') {
      forall column ensures SetAt(facts, columns, facts', column) {
        if column.Column? { assert Kept(facts, facts', Column(column.name)); }
      }
      SetUnique(facts, columns, facts');
    }
    if attempt' == FailedAttempt(c, work, attempt) {
      forall column ensures SetAt(facts, columns, facts', column) { SetHolds(facts, columns, column); }
      FailureSets(c, FailedStatus(c, work), attempt, attempt');
    }
  }

  lemma FailureSets(c: Command, status: Status, attempt: Attempt, attempt': Attempt)
    requires c.kind.Failure?
    requires attempt' == attempt.(status := if status.RetryWait? && c.kind.leaseLost then Status.LeaseLost else status,
                                  facts := attempt'.facts)
    requires forall column {:trigger SetAt(attempt.facts, FailureFacts(c), attempt'.facts, column)} ::
               SetAt(attempt.facts, FailureFacts(c), attempt'.facts, column)
    ensures FailureLeavesAttempt(c, status, attempt, attempt')
  {
    var facts, facts', columns := attempt.facts, attempt'.facts, FailureFacts(c);
    assert SetAt(facts, columns, facts', ErrorCategory) && SetAt(facts, columns, facts', ErrorType);
    assert SetAt(facts, columns, facts', ErrorMessage) && SetAt(facts, columns, facts', Retryable);
    assert SetAt(facts, columns, facts', ProcessedFrames) && SetAt(facts, columns, facts', ProcessingSeconds);
    assert SetAt(facts, columns, facts', CompletedAt) && SetAt(facts, columns, facts', LastHeartbeatAt);
    assert SetAt(facts, columns, facts', InferenceStartedAt);
    forall name: string ensures Kept(facts, facts', Column(name)) { assert SetAt(facts, columns, facts', Column(name)); }
  }

  // ---- releases ----

  function ReleaseFacts(c: Command): Columns
    requires c.kind.Release?
  {
    map[CompletedAt := Some(Time(c.createdAt)), Retryable := Some(Flag(true)),
        ErrorCategory := Some(Text("WORKER_BUDGET")), ErrorType := Some(Text("WorkerLifetimeReached")),
        ErrorMessage := Some(Text(c.kind.reason))]
  }

  lemma ReleaseAttempt(c: Command, attempt: Attempt, attempt': Attempt)
    requires c.kind.Release?
    ensures ReleaseLeavesAttempt(c, attempt, attempt') <==> attempt' == ReleasedAttempt(c, attempt)
  {
    var facts, facts', columns := attempt.facts, attempt'.facts, ReleaseFacts(c);
    if ReleaseLeavesAttempt(c, attempt, attempt') {
      forall column ensures SetAt(facts, columns, facts', column) {
        if column.Column? { assert Kept(facts, facts', Column(column.name)); }
      }
      SetUnique(facts, columns, facts');
    }
    if attempt' == ReleasedAttempt(c, attempt) {
      forall column ensures SetAt(facts, columns, facts', column) { SetHolds(facts, columns, column); }
      ReleaseSets(c, attempt, attempt');
    }
  }

  lemma ReleaseSets(c: Command, attempt: Attempt, attempt': Attempt)
    requires c.kind.Release? && attempt' == attempt.(status := Status.Released, facts := attempt'.facts)
    requires forall column {:trigger SetAt(attempt.facts, ReleaseFacts(c), attempt'.facts, column)} ::
               SetAt(attempt.facts, ReleaseFacts(c), attempt'.facts, column)
    ensures ReleaseLeavesAttempt(c, attempt, attempt')
  {
    var facts, facts', columns := attempt.facts, attempt'.facts, ReleaseFacts(c);
    assert SetAt(facts, columns, facts', ErrorCategory) && SetAt(facts, columns, facts', ErrorType);
    assert SetAt(facts, columns, facts', ErrorMessage) && SetAt(facts, columns, facts', Retryable);
    assert SetAt(facts, columns, facts', ProcessedFrames) && SetAt(facts, columns, facts', ProcessingSeconds);
    assert SetAt(facts, columns, facts', CompletedAt) && SetAt(facts, columns, facts', LastHeartbeatAt);
    assert SetAt(facts, columns, facts', InferenceStartedAt);
    forall name: string ensures Kept(facts, facts', Column(name)) { assert SetAt(facts, columns, facts', Column(name)); }
  }

  // ---- updates and heartbeats ----

  lemma UpdateSets(c: Command, updates: Updates, facts: map<Column, Value>, facts': map<Column, Value>)
    ensures SetsUpdates(c, updates, facts, facts') <==> facts' == Set(facts, AttemptColumns(c, updates))
  {
    var columns := AttemptColumns(c, updates);
    if SetsUpdates(c, updates, facts, facts') {
      forall column ensures SetAt(facts, columns, facts', column) {
        assert UpdatedAt(c, updates, facts, facts', column);
      }
      SetUnique(facts, columns, facts');
    }
    if facts' == Set(facts, columns) {
      forall column ensures UpdatedAt(c, updates, facts, facts', column) { SetHolds(facts, columns, column); }
    }
  }

  lemma BeatColumns(c: Command)
    requires c.kind.Heartbeat?
    ensures AttemptColumns(c, c.kind.updates.(columns := c.kind.updates.columns[LastHeartbeatAt := None]))
            == AttemptColumns(c, c.kind.updates)[LastHeartbeatAt := Some(Time(c.createdAt))]
  {
  }

  /** The rows left by a heartbeat are exactly the planner's. */
  lemma HeartbeatRows(c: Command, work: Work, attempt: Attempt, work': Work, attempt': Attempt)
    requires c.kind.Heartbeat?
    ensures HeartbeatLeaves(c, work, attempt, work', attempt')
            <==> work' == BeatWork(c, work) && attempt' == BeatAttempt(c, attempt)
  {
    BeatColumns(c);
    UpdateSets(c, c.kind.updates.(columns := c.kind.updates.columns[LastHeartbeatAt := None]), attempt.facts, attempt'.facts);
  }

  lemma UpdateRow(c: Command, attempt: Attempt, work: Work, attempt': Attempt)
    requires c.kind.AttemptUpdate?
    ensures UpdateLeaves(c, work, attempt, work, attempt') <==> attempt' == UpdateTarget(c, attempt)
  {
    UpdateSets(c, c.kind.updates, attempt.facts, attempt'.facts);
  }

  // ---- every accepted command ----

  /** An accepted command leaves the rows its kind says. */
  lemma CommandLeaves(c: Command, work: Work, attempt: Attempt, now: int)
    requires PlanFor(c, work, attempt, now).Accepted?
    ensures var p := PlanFor(c, work, attempt, now); Leaves(c, work, attempt, p.work, p.attempt)
  {
    var p := PlanFor(c, work, attempt, now);
    match c.kind
    case ClaimExecution =>
    case Heartbeat(_, _) => HeartbeatRows(c, work, attempt, p.work, p.attempt);
    case AttemptUpdate(_) => UpdateRow(c, attempt, work, p.attempt);
    case Commit =>
    case Failure(_, _, _, _, _, _, _) =>
      FailureWork(c, work);
      FailureAttempt(c, work, attempt, p.attempt);
    case Release(_) =>
      ReleaseAttempt(c, attempt, p.attempt);
      ReleaseAttempt(c, attempt, attempt);
  }

  lemma HeartbeatAccepted(c: Command, work: Work, attempt: Attempt, now: int)
    requires c.kind.Heartbeat? && IdentityHolds(c, work, attempt) && attempt.execution == Some(c.execution)
    ensures PlanFor(c, work, attempt, now).Accepted? <==> HeartbeatTaken(c, work, attempt, now)
  {
    HeartbeatRows(c, work, attempt, work, attempt);
  }

  lemma UpdateAccepted(c: Command, work: Work, attempt: Attempt, now: int)
    requires c.kind.AttemptUpdate? && IdentityHolds(c, work, attempt) && attempt.execution == Some(c.execution)
    ensures PlanFor(c, work, attempt, now).Accepted? <==> UpdateTaken(c, work, attempt, now)
  {
    UpdateRow(c, attempt, work, attempt);
    if UpdateTarget(c, attempt) == attempt && c.kind.updates.status == Some(Status.Succeeded) {
      assert SetAt(attempt.facts, AttemptColumns(c, c.kind.updates), attempt.facts, CompletedAt) by {
        SetHolds(attempt.facts, AttemptColumns(c, c.kind.updates), CompletedAt);
      }
    }
  }

  lemma FailureAccepted(c: Command, work: Work, attempt: Attempt, now: int)
    requires c.kind.Failure? && IdentityHolds(c, work, attempt) && attempt.execution == Some(c.execution)
    ensures PlanFor(c, work, attempt, now).Accepted? <==> FailureTaken(c, work, attempt, now)
  {
    FailureWork(c, work);
    FailureAttempt(c, work, attempt, attempt);
    forall work' ensures FailureLeaves(c, work, attempt, work', attempt)
                         <==> work' == FailedWork(c, work) && attempt == FailedAttempt(c, work, attempt)
    {
      if FailureLeavesWork(c, work, work') { FailureWorkUnique(c, work, work'); }
    }
    assert FailureLeaves(c, work, attempt, FailedWork(c, work), attempt) <==> attempt == FailedAttempt(c, work, attempt);
  }

  lemma FailureWorkUnique(c: Command, work: Work, work': Work)
    requires c.kind.Failure? && FailureLeavesWork(c, work, work')
    ensures work' == FailedWork(c, work)
  {
    RetryDelay(work.attemptCount);
  }

  lemma ReleaseAccepted(c: Command, work: Work, attempt: Attempt, now: int)
    requires c.kind.Release? && IdentityHolds(c, work, attempt) && attempt.execution == Some(c.execution)
    ensures PlanFor(c, work, attempt, now).Accepted? <==> ReleaseTaken(c, work, attempt, now)
  {
    ReleaseAttempt(c, attempt, attempt);
  }

  /** A command is accepted exactly when it is one that is taken. */
  lemma AcceptedIffTaken(c: Command, work: Work, attempt: Attempt, now: int)
    ensures PlanFor(c, work, attempt, now).Accepted? <==> Taken(c, work, attempt, now)
  {
    if IdentityHolds(c, work, attempt) && attempt.execution == Some(c.execution) {
      match c.kind
      case ClaimExecution =>
      case Heartbeat(_, _) => HeartbeatAccepted(c, work, attempt, now);
      case AttemptUpdate(_) => UpdateAccepted(c, work, attempt, now);
      case Commit =>
      case Failure(_, _, _, _, _, _, _) => FailureAccepted(c, work, attempt, now);
      case Release(_) => ReleaseAccepted(c, work, attempt, now);
    }
  }
}
