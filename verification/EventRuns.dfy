/** What any run of worker commands keeps true of the work and attempt tables. */
module EventRuns {
  import opened Wrappers
  import opened WorkerEvents
  import opened EventEffects
  import opened EventLog

  /** An uncommitted leased work item is in step with the attempt that owns it: they share an active status, or the
      attempt has succeeded and the work is writing.  A committed work item has succeeded, is unleased, and its attempt
      is a succeeded attempt of it. */
  ghost predicate InStep(store: Store, w: WorkId)
    requires w in store.works
  {
    var work := store.works[w];
    && (work.committed.Some? ==>
          var a := work.committed.value;
          && work.status.Succeeded? && work.owner.None?
          && a in store.attempts && store.attempts[a].work == w && store.attempts[a].status.Succeeded?)
    && (work.owner.Some? ==>
          var a := work.owner.value;
          && Active(work.status)
          && a in store.attempts && store.attempts[a].work == w
          && (store.attempts[a].status == work.status || (store.attempts[a].status.Succeeded? && work.status.Writing?)))
  }

  ghost predicate AllInStep(store: Store) {
    forall w {:trigger InStep(store, w)} :: w in store.works ==> InStep(store, w)
  }

  /** An accepted command keeps the pair of rows it reads in step. */
  lemma PlanKeepsStep(c: Command, work: Work, attempt: Attempt, now: int)
    requires PlanFor(c, work, attempt, now).Accepted?
    ensures var p := PlanFor(c, work, attempt, now);
            && p.attempt.work == attempt.work
            && (p == Accepted(attempt, work) || work.committed.None?)
            && (p == Accepted(attempt, work) || work.owner == Some(c.attempt))
            && (p.work.owner.Some? ==> p.work.owner == work.owner && p.work.committed == work.committed)
            && (work.owner == Some(c.attempt) && work.committed.None?
                && (attempt.status == work.status || (attempt.status.Succeeded? && work.status.Writing?)) ==>
                  && (p.work.owner.Some? ==> Active(p.work.status) && (p.attempt.status == p.work.status
                                             || (p.attempt.status.Succeeded? && p.work.status.Writing?)))
                  && (p.work.committed.Some? ==> p.work.committed == Some(c.attempt) && p.work.status.Succeeded?
                                                 && p.work.owner.None? && p.attempt.status.Succeeded?))
  {
  }

  lemma StepKeepsStep(log: Log, e: Event, now: int)
    requires AllInStep(log.store)
    ensures AllInStep(Step(log, e, now).store)
  {
    var p := Decide(log.store, log.receipts, e, now);
    var after := Step(log, e, now).store;
    if !Acknowledged(log.receipts, e.id) && p.Accepted? {
      PlanKeepsStep(e.command.value, log.store.works[e.work], log.store.attempts[e.attempt], now);
      assert InStep(log.store, e.work);
      forall w | w in after.works ensures InStep(after, w) {
        assert InStep(log.store, w);
      }
    }
  }

  /** Whatever commands arrive, in whatever order and at whatever times, works and their attempts stay in step. */
  lemma {:induction false} RunsStayInStep(log: Log, events: seq<Event>, clock: EventId -> int)
    requires AllInStep(log.store)
    ensures AllInStep(Steps(log, events, clock).store)
  {
    if events != [] {
      var n := |events| - 1;
      RunsStayInStep(log, events[..n], clock);
      StepKeepsStep(Steps(log, events[..n], clock), events[n], clock(events[n].id));
    }
  }

  /** No later command changes a committed work item or the attempt it points to. */
  lemma {:induction false} CommitIsFinal(log: Log, events: seq<Event>, clock: EventId -> int, w: WorkId)
    requires AllInStep(log.store) && w in log.store.works && log.store.works[w].committed.Some?
    ensures var a, after := log.store.works[w].committed.value, Steps(log, events, clock).store;
            && w in after.works && after.works[w] == log.store.works[w]
            && a in log.store.attempts && a in after.attempts && after.attempts[a] == log.store.attempts[a]
            && after.attempts[a].status.Succeeded?
  {
    assert InStep(log.store, w);
    if events != [] {
      var n := |events| - 1;
      CommitIsFinal(log, events[..n], clock, w);
      RunsStayInStep(log, events[..n], clock);
      var before, e := Steps(log, events[..n], clock), events[n];
      assert InStep(before.store, w);
      var p := Decide(before.store, before.receipts, e, clock(e.id));
      if p.Accepted? {
        PlanKeepsStep(e.command.value, before.store.works[e.work], before.store.attempts[e.attempt], clock(e.id));
      }
    }
  }

  // ---- what the columns hold ----

  /** The value is of the kind its column is read as, and in its range. */
  predicate SoundValue(column: Column, v: Value) {
    match column
    case CompletedAt => v.Time?
    case LastHeartbeatAt => v.Time?
    case InferenceStartedAt => v.Time?
    case Retryable => v.Flag?
    case ErrorCategory => v.Text? && NonBlank(v.text)
    case ErrorType => v.Text? && NonBlank(v.text)
    case ErrorMessage => v.Text?
    case ProcessedFrames => v.Whole? && 0 <= v.count < 0x8000_0000_0000_0000
    case ProcessingSeconds => v.Number? && v.amount >= 0.0
    case Column(_) => true
  }

  predicate SoundFacts(facts: map<Column, Value>) {
    forall column :: column in facts ==> SoundValue(column, facts[column])
  }

  predicate SoundAttempt(row: Attempt) {
    && (row.execution.Some? ==> NonBlank(row.execution.value))
    && SoundFacts(row.facts)
  }

  predicate SoundWork(row: Work) {
    && (row.errorCategory.Some? ==> NonBlank(row.errorCategory.value)) && (row.errorType.Some? ==> NonBlank(row.errorType.value))
  }

  predicate Sound(store: Store) {
    && (forall a :: a in store.attempts ==> SoundAttempt(store.attempts[a]))
    && (forall w :: w in store.works ==> SoundWork(store.works[w]))
  }

  /** The rows a valid command leaves hold what their columns may hold. */
  lemma LeavesSound(e: Event, work: Work, attempt: Attempt, work': Work, attempt': Attempt)
    requires e.command.Some? && ValidCommand(e, e.command.value) && SoundWork(work) && SoundAttempt(attempt)
    requires Leaves(e.command.value, work, attempt, work', attempt')
    ensures SoundWork(work') && SoundAttempt(attempt')
  {
    var c := e.command.value;
    forall column | column in attempt'.facts ensures SoundValue(column, attempt'.facts[column]) {
      match c.kind
      case ClaimExecution =>
      case Heartbeat(_, updates) =>
        UpdateSound(c, updates.(columns := updates.columns[LastHeartbeatAt := None]), attempt.facts, attempt'.facts, column);
      case AttemptUpdate(updates) => UpdateSound(c, updates, attempt.facts, attempt'.facts, column);
      case Commit =>
      case Failure(_, _, _, _, _, _, _) => FailureSound(e, work'.status, attempt, attempt', column);
      case Release(_) => ReleaseSound(c, attempt, attempt', column);
    }
  }

  lemma UpdateSound(c: Command, updates: Updates, facts: map<Column, Value>, facts': map<Column, Value>, column: Column)
    requires ValidUpdates(updates) && SoundFacts(facts) && SetsUpdates(c, updates, facts, facts') && column in facts'
    ensures SoundValue(column, facts'[column])
  {
    assert UpdatedAt(c, updates, facts, facts', column);
  }

  lemma FailureSound(e: Event, status: Status, attempt: Attempt, attempt': Attempt, column: Column)
    requires e.command.Some? && ValidCommand(e, e.command.value) && e.command.value.kind.Failure?
    requires SoundFacts(attempt.facts) && FailureLeavesAttempt(e.command.value, status, attempt, attempt') && column in attempt'.facts
    ensures SoundValue(column, attempt'.facts[column])
  {
    if column.Column? { assert Kept(attempt.facts, attempt'.facts, Column(column.name)); }
  }

  lemma ReleaseSound(c: Command, attempt: Attempt, attempt': Attempt, column: Column)
    requires c.kind.Release? && SoundFacts(attempt.facts) && ReleaseLeavesAttempt(c, attempt, attempt') && column in attempt'.facts
    ensures SoundValue(column, attempt'.facts[column])
  {
    BudgetIsNamed();
    if column.Column? { assert Kept(attempt.facts, attempt'.facts, Column(column.name)); }
  }

  lemma BudgetIsNamed()
    ensures NonBlank("WORKER_BUDGET") && NonBlank("WorkerLifetimeReached")
  {
    assert "WORKER_BUDGET"[0] == 'W' && "WorkerLifetimeReached"[0] == 'W';
  }

  lemma StepKeepsSound(log: Log, log': Log, e: Event, now: int)
    requires Sound(log.store) && StepsTo(log, log', e, now)
    ensures Sound(log'.store)
  {
    if log' != log && Takes(log.store, log.receipts, e, now) {
      LeavesSound(e, log.store.works[e.work], log.store.attempts[e.attempt], log'.store.works[e.work], log'.store.attempts[e.attempt]);
    }
  }

  /** Whatever rows of the inbox are drained, attempts hold values of the right kind and range in every column, and what failed is
      never recorded without a category and a type. */
  lemma {:induction false} ColumnsStaySound(log: Log, events: seq<Event>, clock: EventId -> int)
    requires Sound(log.store)
    ensures Sound(Steps(log, events, clock).store)
  {
    if events != [] {
      var n := |events| - 1;
      ColumnsStaySound(log, events[..n], clock);
      StepIsTaken(Steps(log, events[..n], clock), events[n], clock(events[n].id));
      StepKeepsSound(Steps(log, events[..n], clock), Steps(log, events, clock), events[n], clock(events[n].id));
    }
  }

  /** An applied command is of the event's own rows and execution: the attempt is one of the work and is bound to the execution,
      a commit points the work at the event's attempt, and a heartbeat's lease runs past the command. */
  lemma AppliedIsOwn(store: Store, store': Store, receipts: seq<Receipt>, e: Event, now: int)
    requires Takes(store, receipts, e, now) && Writes(store, store', e, true)
    ensures store'.attempts[e.attempt].work == e.work && store'.attempts[e.attempt].execution == Some(e.execution)
    ensures NonBlank(e.execution)
    ensures e.command.value.kind.Commit? ==> store'.works[e.work].committed == Some(e.attempt)
    ensures e.command.value.kind.Heartbeat? ==>
      store'.works[e.work].expires.Some? && store'.works[e.work].expires.value > e.command.value.createdAt
  {
  }

  /** Heartbeats and updates never record an error, and heartbeats never a completion. */
  lemma ErrorsComeFromFailures(store: Store, store': Store, receipts: seq<Receipt>, e: Event, now: int, column: Column)
    requires Takes(store, receipts, e, now) && Writes(store, store', e, true)
    requires e.command.value.kind.Heartbeat? || e.command.value.kind.AttemptUpdate?
    requires column in {Retryable, ErrorCategory, ErrorType, ErrorMessage} || (column == CompletedAt && e.command.value.kind.Heartbeat?)
    ensures var facts, facts' := store.attempts[e.attempt].facts, store'.attempts[e.attempt].facts;
            column !in facts' || (column in facts && facts'[column] == facts[column])
  {
    var c := e.command.value;
    var facts, facts' := store.attempts[e.attempt].facts, store'.attempts[e.attempt].facts;
    match c.kind
    case Heartbeat(_, updates) =>
      assert ValidUpdates(updates) && UpdatedAt(c, updates.(columns := updates.columns[LastHeartbeatAt := None]), facts, facts', column);
    case AttemptUpdate(updates) => assert ValidUpdates(updates) && UpdatedAt(c, updates, facts, facts', column);
  }
}
