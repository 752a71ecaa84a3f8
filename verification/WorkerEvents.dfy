/** Worker commands and the planners that decide what each one changes.

    A planner reads one work row and one attempt row and either rejects or gives the two rows as they should become.
    The source's planners return the changed columns; here they return the whole target row, so "the stored row already
    has these values" is equality with the target.  Times are whole seconds. */
module WorkerEvents {
  import opened Wrappers

  type WorkId = nat
  type AttemptId = nat
  type EventId = nat

  const MINUTE := 60

  datatype Status = Leased | Staging | Running | Writing | Succeeded | Released | RetryWait | LeaseLost | DeadLettered |
    TerminalFailed | Other(name: string)

  datatype Value = Text(text: string) | Time(at: int) | Whole(count: int) | Number(amount: real) | Flag(on: bool)

  /** Attempt columns that a command's payload may set; a column missing from a row's map is null. */
  datatype Column = CompletedAt | LastHeartbeatAt | InferenceStartedAt | Retryable | ErrorCategory | ErrorType |
    ErrorMessage | ProcessedFrames | ProcessingSeconds | Column(name: string)

  type Columns = map<Column, Option<Value>>

  datatype Work = Work(captureDate: int, config: string, status: Status, attemptCount: int, maxAttempts: int,
                       owner: Option<AttemptId>, dispatcher: Option<string>, acquired: Option<int>, expires: Option<int>,
                       lastHeartbeat: Option<int>, committed: Option<AttemptId>, completedAt: Option<int>,
                       notBefore: Option<int>, queueEntered: Option<int>, errorCategory: Option<string>,
                       errorType: Option<string>, errorMessage: Option<string>)

  datatype Attempt = Attempt(work: WorkId, captureDate: int, config: string, status: Status, execution: Option<string>,
                             dispatcher: Option<string>, facts: map<Column, Value>)

  datatype Updates = Updates(status: Option<Status>, columns: Columns)

  datatype Kind =
    | ClaimExecution
    | Heartbeat(status: Status, updates: Updates)
    | AttemptUpdate(updates: Updates)
    | Commit
    | Failure(category: string, kind: string, message: string, retryable: bool, leaseLost: bool,
              frames: Option<Value>, seconds: Option<Value>)
    | Release(reason: string)

  datatype Command = Command(work: WorkId, attempt: AttemptId, execution: string, captureDate: int, createdAt: int,
                             leaseMinutes: int, kind: Kind)

  datatype Plan = Rejected | Accepted(attempt: Attempt, work: Work)

  // ---- rows and columns ----

  predicate Active(s: Status) {
    s.Leased? || s.Staging? || s.Running? || s.Writing?
  }

  function Rank(s: Status): int
    requires Active(s)
  {
    match s
    case Leased => 0
    case Staging => 1
    case Running => 2
    case Writing => 3
  }

  function Get(facts: map<Column, Value>, c: Column): Option<Value> {
    if c in facts then Some(facts[c]) else None
  }

  function Set(facts: map<Column, Value>, columns: Columns): map<Column, Value> {
    map c | c in facts.Keys + columns.Keys && (c in columns ==> columns[c].Some?) ::
      if c in columns then columns[c].value else facts[c]
  }

  /** Setting columns gives them their values, and setting them again changes nothing. */
  lemma SetColumns(facts: map<Column, Value>, columns: Columns)
    ensures forall c :: Get(Set(facts, columns), c) == if c in columns then columns[c] else Get(facts, c)
    ensures Set(Set(facts, columns), columns) == Set(facts, columns)
  {
  }

  function Updated(row: Attempt, status: Status, columns: Columns): Attempt {
    row.(status := status, facts := Set(row.facts, columns))
  }

  function Unleased(row: Work): Work {
    row.(owner := None, dispatcher := None, acquired := None, expires := None)
  }

  // ---- the shared guards ----

  predicate IdentityHolds(c: Command, work: Work, attempt: Attempt) {
    && attempt.work == c.work
    && work.captureDate == attempt.captureDate == c.captureDate
    && work.config != "" && work.config == attempt.config
  }

  predicate Owns(c: Command, work: Work, attempt: Attempt) {
    && work.committed.None?
    && work.owner == Some(c.attempt)
    && work.dispatcher == attempt.dispatcher
    && Active(work.status)
  }

  predicate After(c: Command, acquired: Option<int>) {
    acquired.Some? && c.createdAt >= acquired.value
  }

  predicate Live(c: Command, work: Work, now: int) {
    && work.expires.Some? && work.expires.value > now && work.expires.value > c.createdAt
    && After(c, work.acquired)
    && c.createdAt <= now
  }

  predicate Transition(current: Status, target: Status) {
    Active(current) && Active(target) && 0 <= Rank(target) - Rank(current) <= 1
  }

  // ---- the planners ----

  function AttemptColumns(c: Command, updates: Updates): Columns {
    var heard := if LastHeartbeatAt in updates.columns then updates.columns[LastHeartbeatAt := Some(Time(c.createdAt))]
                 else updates.columns;
    if updates.status == Some(Status.Succeeded) then heard[CompletedAt := Some(Time(c.createdAt))] else heard
  }

  function BeatAttempt(c: Command, attempt: Attempt): Attempt
    requires c.kind.Heartbeat?
  {
    Updated(attempt, c.kind.status, AttemptColumns(c, c.kind.updates)[LastHeartbeatAt := Some(Time(c.createdAt))])
  }

  function BeatWork(c: Command, work: Work): Work
    requires c.kind.Heartbeat?
  {
    var renewed := c.createdAt + MINUTE * c.leaseMinutes;
    work.(status := c.kind.status, lastHeartbeat := Some(c.createdAt),
          expires := Some(if work.expires.Some? && work.expires.value > renewed then work.expires.value else renewed))
  }

  function PlanHeartbeat(c: Command, work: Work, attempt: Attempt, now: int): Plan
    requires c.kind.Heartbeat?
  {
    var attempt', work' := BeatAttempt(c, attempt), BeatWork(c, work);
    if work' == work && attempt' == attempt then Accepted(attempt, work)
    else if !Live(c, work, now) || !Transition(work.status, c.kind.status) || !Transition(attempt.status, c.kind.status)
            || (work.lastHeartbeat.Some? && c.createdAt < work.lastHeartbeat.value) || work'.expires.value <= now
    then Rejected
    else Accepted(attempt', work')
  }

  function UpdateTarget(c: Command, attempt: Attempt): Attempt
    requires c.kind.AttemptUpdate?
  {
    var updates := c.kind.updates;
    Updated(attempt, if updates.status.Some? then updates.status.value else attempt.status, AttemptColumns(c, updates))
  }

  function PlanUpdate(c: Command, work: Work, attempt: Attempt, now: int): Plan
    requires c.kind.AttemptUpdate?
  {
    var updates, target := c.kind.updates, UpdateTarget(c, attempt);
    if attempt.status.Succeeded? then
      if work.status.Writing? && updates.status == Some(Status.Succeeded) && target == attempt
         && Get(attempt.facts, CompletedAt) == Some(Time(c.createdAt))
      then Accepted(attempt, work) else Rejected
    else if !Live(c, work, now) || !Active(attempt.status) || attempt.status != work.status
            || !(target.status == attempt.status || (target.status.Succeeded? && work.status.Writing?))
            || !(CompletedAt !in AttemptColumns(c, updates) || target.status.Succeeded?)
    then Rejected
    else Accepted(target, work)
  }

  function CommittedWork(c: Command, work: Work): Work {
    Unleased(work).(status := Status.Succeeded, committed := Some(c.attempt), completedAt := Some(c.createdAt), notBefore := None,
                    errorCategory := None, errorType := None, errorMessage := None)
  }

  function PlanCommit(c: Command, work: Work, attempt: Attempt, now: int): Plan {
    if !attempt.status.Succeeded? then Rejected
    else if work.status.Succeeded? && work.committed == Some(c.attempt) then Accepted(attempt, work)
    else if !Owns(c, work, attempt) || !Live(c, work, now) || !work.status.Writing? then Rejected
    else Accepted(attempt, CommittedWork(c, work))
  }

  function Power(n: nat): nat {
    if n == 0 then 1 else 2 * Power(n - 1)
  }

  /** The retry delay in minutes: doubling with each attempt, at most an hour. */
  function Delay(attemptCount: int): int {
    var step := if attemptCount - 1 <= 0 then 0 else if attemptCount - 1 < 6 then attemptCount - 1 else 6;
    if Power(step) < 60 then Power(step) else 60
  }

  function FailedStatus(c: Command, work: Work): Status
    requires c.kind.Failure?
  {
    if work.attemptCount >= work.maxAttempts then Status.DeadLettered
    else if c.kind.retryable then Status.RetryWait
    else Status.TerminalFailed
  }

  function FailedAttempt(c: Command, work: Work, attempt: Attempt): Attempt
    requires c.kind.Failure?
  {
    var status := FailedStatus(c, work);
    Updated(attempt, if status.RetryWait? && c.kind.leaseLost then Status.LeaseLost else status,
            map[ErrorCategory := Some(Text(c.kind.category)), ErrorType := Some(Text(c.kind.kind)),
                ErrorMessage := Some(Text(c.kind.message)), Retryable := Some(Flag(c.kind.retryable)),
                ProcessedFrames := c.kind.frames, ProcessingSeconds := c.kind.seconds,
                CompletedAt := Some(Time(c.createdAt))])
  }

  function FailedWork(c: Command, work: Work): Work
    requires c.kind.Failure?
  {
    var status := FailedStatus(c, work);
    Unleased(work).(status := status,
                    notBefore := if status.RetryWait? then Some(c.createdAt + MINUTE * Delay(work.attemptCount)) else None,
                    queueEntered := if status.RetryWait? then Some(c.createdAt) else work.queueEntered,
                    errorCategory := Some(c.kind.category), errorType := Some(c.kind.kind),
                    errorMessage := Some(c.kind.message))
  }

  function PlanFailure(c: Command, work: Work, attempt: Attempt, now: int): Plan
    requires c.kind.Failure?
  {
    var attempt', work' := FailedAttempt(c, work, attempt), FailedWork(c, work);
    if work.committed.Some? then Rejected
    else if work' == work && attempt' == attempt then Accepted(attempt, work)
    else if !Owns(c, work, attempt) || c.createdAt > now || !After(c, work.acquired)
            || !(Active(attempt.status) || attempt' == attempt)
    then Rejected
    else Accepted(attempt', work')
  }

  function ReleasedAttempt(c: Command, attempt: Attempt): Attempt
    requires c.kind.Release?
  {
    Updated(attempt, Status.Released,
            map[CompletedAt := Some(Time(c.createdAt)), Retryable := Some(Flag(true)),
                ErrorCategory := Some(Text("WORKER_BUDGET")), ErrorType := Some(Text("WorkerLifetimeReached")),
                ErrorMessage := Some(Text(c.kind.reason))])
  }

  function ReleasedWork(c: Command, work: Work): Work {
    Unleased(work).(status := Status.RetryWait, attemptCount := if work.attemptCount - 1 > 0 then work.attemptCount - 1 else 0,
                    notBefore := Some(c.createdAt), errorCategory := None, errorType := None, errorMessage := None)
  }

  function PlanRelease(c: Command, work: Work, attempt: Attempt, now: int): Plan
    requires c.kind.Release?
  {
    var attempt', work' := ReleasedAttempt(c, attempt), ReleasedWork(c, work);
    var applied := attempt' == attempt;
    if applied && work.status.RetryWait? && work.owner.None? && work.dispatcher.None? && work.acquired.None?
       && work.expires.None? && work.notBefore == Some(c.createdAt)
    then Accepted(attempt, work)
    else if !Owns(c, work, attempt) then Rejected
    else if !(if applied then c.createdAt <= now && After(c, work.acquired) else Live(c, work, now)) then Rejected
    else if !work.status.Leased? || !(attempt.status.Leased? || applied)
            || Get(attempt.facts, InferenceStartedAt).Some?
    then Rejected
    else Accepted(attempt', work')
  }

  function PlanClaim(c: Command, work: Work, attempt: Attempt, now: int): Plan {
    if !Owns(c, work, attempt) || !Live(c, work, now) || !work.status.Leased? || !attempt.status.Leased?
       || !(attempt.execution.None? || attempt.execution == Some(c.execution))
    then Rejected
    else Accepted(attempt.(execution := Some(c.execution)), work)
  }

  function PlanFor(c: Command, work: Work, attempt: Attempt, now: int): Plan {
    if !IdentityHolds(c, work, attempt) then Rejected
    else if c.kind.ClaimExecution? then PlanClaim(c, work, attempt, now)
    else if attempt.execution != Some(c.execution) then Rejected
    else if c.kind.Commit? then PlanCommit(c, work, attempt, now)
    else if c.kind.Failure? then PlanFailure(c, work, attempt, now)
    else if c.kind.Release? then PlanRelease(c, work, attempt, now)
    else if !Owns(c, work, attempt) then Rejected
    else if c.kind.Heartbeat? then PlanHeartbeat(c, work, attempt, now)
    else PlanUpdate(c, work, attempt, now)
  }

  // ---- replay safety ----

  /** The clock decides only whether a command is accepted, never what it changes. */
  lemma TargetsIgnoreTheClock(c: Command, work: Work, attempt: Attempt, t1: int, t2: int)
    requires PlanFor(c, work, attempt, t1).Accepted? && PlanFor(c, work, attempt, t2).Accepted?
    ensures PlanFor(c, work, attempt, t1) == PlanFor(c, work, attempt, t2)
  {
  }

  /** Planning again, at time `t`, where planning at `now` gave `p`: the same change again or nothing, and certainly
      acceptance if the clock reads the same. */
  ghost predicate ReplaySafe(p: Plan, now: int, again: Plan, t: int) {
    p.Accepted? && (again.Accepted? ==> again == p) && (t == now ==> again.Accepted?)
  }

  lemma UpdatedTwice(row: Attempt, status: Status, columns: Columns)
    ensures Updated(Updated(row, status, columns), status, columns) == Updated(row, status, columns)
  {
    SetColumns(row.facts, columns);
  }

  lemma HeartbeatReplays(c: Command, work: Work, attempt: Attempt, now: int, t: int)
    requires c.kind.Heartbeat? && PlanFor(c, work, attempt, now).Accepted?
    ensures var p := PlanFor(c, work, attempt, now);
            && ReplaySafe(p, now, PlanFor(c, work, p.attempt, t), t)
            && PlanFor(c, p.work, p.attempt, t) == p
  {
    UpdatedTwice(attempt, c.kind.status, AttemptColumns(c, c.kind.updates)[LastHeartbeatAt := Some(Time(c.createdAt))]);
  }

  lemma UpdateReplays(c: Command, work: Work, attempt: Attempt, now: int, t: int)
    requires c.kind.AttemptUpdate? && PlanFor(c, work, attempt, now).Accepted?
    ensures var p := PlanFor(c, work, attempt, now);
            p.work == work && ReplaySafe(p, now, PlanFor(c, work, p.attempt, t), t)
  {
    var updates := c.kind.updates;
    var status := if updates.status.Some? then updates.status.value else attempt.status;
    UpdatedTwice(attempt, status, AttemptColumns(c, updates));
    SetColumns(attempt.facts, AttemptColumns(c, updates));
  }

  lemma FailureReplays(c: Command, work: Work, attempt: Attempt, now: int, t: int)
    requires c.kind.Failure? && PlanFor(c, work, attempt, now).Accepted?
    ensures var p := PlanFor(c, work, attempt, now);
            && ReplaySafe(p, now, PlanFor(c, work, p.attempt, t), t)
            && PlanFor(c, p.work, p.attempt, t) == p
  {
    var columns := map[ErrorCategory := Some(Text(c.kind.category)), ErrorType := Some(Text(c.kind.kind)),
                       ErrorMessage := Some(Text(c.kind.message)), Retryable := Some(Flag(c.kind.retryable)),
                       ProcessedFrames := c.kind.frames, ProcessingSeconds := c.kind.seconds,
                       CompletedAt := Some(Time(c.createdAt))];
    UpdatedTwice(attempt, FailedAttempt(c, work, attempt).status, columns);
  }

  /** A release lowers the attempt count once, however often it is replayed. */
  lemma ReleaseReplays(c: Command, work: Work, attempt: Attempt, now: int, t: int)
    requires c.kind.Release? && PlanFor(c, work, attempt, now).Accepted?
    ensures var p := PlanFor(c, work, attempt, now);
            && ReplaySafe(p, now, PlanFor(c, work, p.attempt, t), t)
            && PlanFor(c, p.work, p.attempt, t) == p
            && (work.status.Leased? ==> p.work.attemptCount == if work.attemptCount > 1 then work.attemptCount - 1 else 0)
  {
    var columns := map[CompletedAt := Some(Time(c.createdAt)), Retryable := Some(Flag(true)),
                       ErrorCategory := Some(Text("WORKER_BUDGET")), ErrorType := Some(Text("WorkerLifetimeReached")),
                       ErrorMessage := Some(Text(c.kind.reason))];
    UpdatedTwice(attempt, Status.Released, columns);
    SetColumns(attempt.facts, columns);
  }

  /** Stopping after the attempt write, or after both writes, and planning the same command again at any time `t` leads
      to the rows the first plan wanted, or changes nothing. */
  lemma CommandReplays(c: Command, work: Work, attempt: Attempt, now: int, t: int)
    requires PlanFor(c, work, attempt, now).Accepted?
    ensures var p := PlanFor(c, work, attempt, now);
            && ReplaySafe(p, now, PlanFor(c, work, p.attempt, t), t)
            && ReplaySafe(p, now, PlanFor(c, p.work, p.attempt, t), t)
  {
    match c.kind
    case ClaimExecution =>
    case Heartbeat(_, _) => HeartbeatReplays(c, work, attempt, now, t);
    case AttemptUpdate(_) => UpdateReplays(c, work, attempt, now, t);
    case Commit =>
    case Failure(_, _, _, _, _, _, _) => FailureReplays(c, work, attempt, now, t);
    case Release(_) => ReleaseReplays(c, work, attempt, now, t);
  }

  // ---- the clock window ----

  /** An accepted command that finds its work done already, and so does not look at the clock. */
  predicate Settled(c: Command, work: Work, attempt: Attempt) {
    match c.kind
    case ClaimExecution => false
    case Heartbeat(_, _) => BeatWork(c, work) == work && BeatAttempt(c, attempt) == attempt
    case AttemptUpdate(_) => attempt.status.Succeeded?
    case Commit => work.status.Succeeded?
    case Failure(_, _, _, _, _, _, _) => FailedWork(c, work) == work && FailedAttempt(c, work, attempt) == attempt
    case Release(_) => work.status.RetryWait?
  }

  /** Failures, and releases whose attempt row is written, are taken after the lease has run out. */
  predicate NeedsLease(c: Command, attempt: Attempt) {
    !c.kind.Failure? && !(c.kind.Release? && ReleasedAttempt(c, attempt) == attempt)
  }

  /** The clock readings at which a command that is acceptable at all is accepted. */
  predicate InWindow(c: Command, work: Work, attempt: Attempt, t: int) {
    || Settled(c, work, attempt)
    || (c.createdAt <= t && (NeedsLease(c, attempt) ==> work.expires.Some? && t < work.expires.value))
  }

  lemma ClockWindow(c: Command, work: Work, attempt: Attempt, now: int, t: int)
    requires PlanFor(c, work, attempt, now).Accepted?
    ensures PlanFor(c, work, attempt, t).Accepted? <==> InWindow(c, work, attempt, t)
  {
  }

  /** A command that changes both rows and is stopped after the attempt write: planned again it is rejected exactly when the
      clock is behind the command, or it is a heartbeat whose lease has run out meanwhile. */
  lemma StuckHalfway(c: Command, work: Work, attempt: Attempt, now: int, t: int)
    requires var p := PlanFor(c, work, attempt, now); p.Accepted? && p.attempt != attempt && p.work != work
    ensures var p := PlanFor(c, work, attempt, now);
            PlanFor(c, work, p.attempt, t).Rejected? <==>
              t < c.createdAt || (c.kind.Heartbeat? && work.expires.Some? && work.expires.value <= t)
  {
    var p := PlanFor(c, work, attempt, now);
    CommandReplays(c, work, attempt, now, now);
    ClockWindow(c, work, p.attempt, now, t);
    if c.kind.Failure? { FailureReplays(c, work, attempt, now, now); }
    if c.kind.Release? { ReleaseReplays(c, work, attempt, now, now); }
  }

  /** A command stopped after both writes: planned again it is rejected exactly when it is a claim, or an update that does not
      finish the attempt, and the clock is behind it or its lease has run out. */
  lemma StuckUnacknowledged(c: Command, work: Work, attempt: Attempt, now: int, t: int)
    requires PlanFor(c, work, attempt, now).Accepted?
    ensures var p := PlanFor(c, work, attempt, now);
            PlanFor(c, p.work, p.attempt, t).Rejected? <==>
              && (c.kind.ClaimExecution? || (c.kind.AttemptUpdate? && !p.attempt.status.Succeeded?))
              && (t < c.createdAt || (work.expires.Some? && work.expires.value <= t))
  {
    var p := PlanFor(c, work, attempt, now);
    CommandReplays(c, work, attempt, now, now);
    ClockWindow(c, p.work, p.attempt, now, t);
    if c.kind.Heartbeat? { HeartbeatReplays(c, work, attempt, now, t); }
    if c.kind.AttemptUpdate? { UpdateReplays(c, work, attempt, now, t); }
    if c.kind.Failure? { FailureReplays(c, work, attempt, now, t); }
    if c.kind.Release? { ReleaseReplays(c, work, attempt, now, t); }
  }

  const HELD := Work(0, "config", Status.Leased, 1, 3, Some(0), Some("d"), Some(0), Some(10), None, None, None, None, None, None,
                     None, None)
  const HOLDER := Attempt(0, 0, "config", Status.Leased, Some("x"), Some("d"), map[])
  const BEAT := Command(0, 0, "x", 0, 5, 1, Heartbeat(Status.Leased, Updates(None, map[])))

  /** A heartbeat taken at time 5 that changes both rows; stopped between its two writes until the lease has run out, at time
      10, it is rejected. */
  lemma HeartbeatGetsStuck()
    ensures var p := PlanFor(BEAT, HELD, HOLDER, 5);
            && p.Accepted? && p.attempt != HOLDER && p.work != HELD
            && PlanFor(BEAT, HELD, p.attempt, 10).Rejected? && PlanFor(BEAT, HELD, p.attempt, 9) == p
  {
    var p := PlanFor(BEAT, HELD, HOLDER, 5);
    SetColumns(HOLDER.facts, map[LastHeartbeatAt := Some(Time(5))]);
    assert BeatWork(BEAT, HELD).expires == Some(65);
    assert LastHeartbeatAt !in HOLDER.facts && Get(p.attempt.facts, LastHeartbeatAt) == Some(Time(5));
    HeartbeatReplays(BEAT, HELD, HOLDER, 5, 9);
    StuckHalfway(BEAT, HELD, HOLDER, 5, 9);
    StuckHalfway(BEAT, HELD, HOLDER, 5, 10);
  }
}
