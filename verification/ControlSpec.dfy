/** What each control-store operation does to the tables, as functions of the tables and the arguments.

    An operation that raises leaves the tables as they were, because it replaces tables only at its end. */
module ControlSpec {
  import opened Wrappers
  import opened Ordering
  import opened ControlTables

  datatype Outcome<+R> = Outcome(tables: Tables, reply: Result<R, ControlError>)

  // ---- register_many ----

  ghost predicate RequestsConflict(requests: seq<Request>) {
    exists i, j :: 0 <= i < j < |requests| && requests[i].work == requests[j].work && requests[i].spec != requests[j].spec
  }

  ghost predicate TableConflicts(work: map<WorkId, Work>, requests: seq<Request>) {
    exists i :: 0 <= i < |requests| && requests[i].work in work && work[requests[i].work].spec != requests[i].spec
  }

  function Ids(requests: seq<Request>): (ids: seq<WorkId>)
    ensures |ids| == |requests| && forall i :: 0 <= i < |ids| ==> ids[i] == requests[i].work
  {
    seq(|requests|, i requires 0 <= i < |requests| => requests[i].work)
  }

  function NewWork(request: Request, now: int): Work {
    Work(request.spec, WorkStatus.Ready, 0, request.spec.originalMaxAttempts, 0,
         if request.availableAt.Some? then request.availableAt.value else now,
         None, None, None, None, None, 0, None, None, now, now)
  }

  function FirstRequest(requests: seq<Request>, w: WorkId): Request
    requires w in Ids(requests)
  {
    requests[IndexOf(Ids(requests), w)]
  }

  /** The first request of each id, in order. */
  function FirstOnes(requests: seq<Request>): (firsts: seq<Request>) {
    if requests == [] then []
    else
      var n := |requests| - 1;
      FirstOnes(requests[..n]) + (if requests[n].work in Ids(requests[..n]) then [] else [requests[n]])
  }

  /** Known ids keep their rows; a new id gets the row of its first request. */
  ghost function RegisteredRows(work: map<WorkId, Work>, requests: seq<Request>, now: int): map<WorkId, Work> {
    work + (map w | w in Ids(requests) && w !in work :: NewWork(FirstRequest(requests, w), now))
  }

  /** What registering tells the caller of one work item. */
  datatype Registered = Registered(work: WorkId, spec: WorkSpec, status: WorkStatus, attemptCount: int, maxAttempts: int,
                                   committedAttempt: Option<AttemptId>, publicationSequence: Option<int>,
                                   lastReplay: Option<ReplayId>)

  function RegisteredOf(w: WorkId, row: Work): Registered {
    Registered(w, row.spec, row.status, row.attemptCount, row.maxAttempts, row.committedAttempt, row.publicationSequence,
               row.lastReplay)
  }

  function Registration(work: map<WorkId, Work>, first: Request, now: int): Registered {
    RegisteredOf(first.work, if first.work in work then work[first.work] else NewWork(first, now))
  }

  function Registrations(work: map<WorkId, Work>, firsts: seq<Request>, now: int): (r: seq<Registered>)
    ensures |r| == |firsts| && forall i :: 0 <= i < |r| ==> r[i] == Registration(work, firsts[i], now)
  {
    seq(|firsts|, i requires 0 <= i < |firsts| => Registration(work, firsts[i], now))
  }

  /** What `normalize_registration_requests` refuses of the budget and duration columns. */
  predicate BadRequests(requests: seq<Request>) {
    requests == [] ||
    exists i :: 0 <= i < |requests| && (!(1 <= requests[i].spec.originalMaxAttempts <= 100) || requests[i].spec.duration <= 0.0)
  }

  predicate OtherRelease(requests: seq<Request>, release: Option<string>) {
    release.Some? && exists i :: 0 <= i < |requests| && requests[i].spec.release != release.value
  }

  ghost function Register(s: Tables, requests: seq<Request>, release: Option<string>, now: int): Outcome<seq<Registered>> {
    if BadRequests(requests) then Outcome(s, Err(BadArgument))
    else if OtherRelease(requests, release) then Outcome(s, Err(ImmutableConflict))
    else if RequestsConflict(requests) || TableConflicts(s.work, requests) then Outcome(s, Err(ImmutableConflict))
    else Outcome(s.(work := RegisteredRows(s.work, requests, now)), Ok(Registrations(s.work, FirstOnes(requests), now)))
  }

  // ---- claim ----

  datatype Claim = Claim(owner: string, runtimeKey: RuntimeKey, now: int, lease: int, batch: BatchId,
                         selected: seq<WorkId>, attempts: seq<AttemptId>)

  /** The selection is claimable and the generated ids are new. */
  ghost predicate Claimable(s: Tables, c: Claim) {
    && |c.selected| > 0 && |c.attempts| == |c.selected|
    && Distinct(c.selected) && Distinct(c.attempts)
    && (forall i :: 0 <= i < |c.selected| ==> c.selected[i] in s.work && s.work[c.selected[i]].status.Ready?)
    && (forall i :: 0 <= i < |c.attempts| ==> c.attempts[i] !in s.attempts)
    && c.batch !in s.batches
    && (forall m :: m in s.members ==> m.batch != c.batch)
  }

  function ClaimedItem(s: Tables, c: Claim, i: nat): ClaimItem
    requires i < |c.selected| == |c.attempts| && c.selected[i] in s.work
  {
    ClaimItem(c.selected[i], c.attempts[i], s.work[c.selected[i]].fence + 1, s.work[c.selected[i]].spec.payload)
  }

  function ClaimItems(s: Tables, c: Claim): (items: seq<ClaimItem>)
    requires |c.selected| == |c.attempts| && forall i :: 0 <= i < |c.selected| ==> c.selected[i] in s.work
    ensures |items| == |c.selected|
    ensures forall i :: 0 <= i < |items| ==> items[i] == ClaimedItem(s, c, i)
  {
    seq(|c.selected|, i requires 0 <= i < |c.selected| => ClaimedItem(s, c, i))
  }

  function LeasedRow(row: Work, c: Claim, attempt: AttemptId): Work {
    row.(status := WorkStatus.Leased, attemptCount := row.attemptCount + 1, fence := row.fence + 1,
         leaseOwner := Some(c.owner), leaseAttempt := Some(attempt), leaseExpires := Some(c.now + c.lease),
         updatedAt := c.now)
  }

  function NewAttempt(item: ClaimItem, c: Claim): Attempt {
    Attempt(item.work, c.batch, item.fence, AttemptStatus.Leased, c.now + c.lease, item.payload,
            None, None, None, None, None, c.now, None)
  }

  function NewBatch(items: seq<ClaimItem>, c: Claim): Batch {
    Batch(c.owner, c.runtimeKey, BatchStatus.Leased, c.now + c.lease, |items|, items,
          Envelope(c.batch, c.owner, c.runtimeKey, c.now, c.now + c.lease, items), c.now, None, None)
  }

  function ClaimedWork(row: Work, c: Claim, w: WorkId): Work
    requires |c.attempts| == |c.selected|
  {
    if w in c.selected then LeasedRow(row, c, c.attempts[IndexOf(c.selected, w)]) else row
  }

  function ClaimedAttempt(s: Tables, c: Claim, a: AttemptId): Attempt
    requires |c.selected| == |c.attempts| && forall i :: 0 <= i < |c.selected| ==> c.selected[i] in s.work
    requires a in c.attempts
  {
    NewAttempt(ClaimedItem(s, c, IndexOf(c.attempts, a)), c)
  }

  ghost function ClaimTables(s: Tables, c: Claim): Tables
    requires Claimable(s, c)
  {
    s.(work := map w | w in s.work :: ClaimedWork(s.work[w], c, w),
       batches := s.batches[c.batch := NewBatch(ClaimItems(s, c), c)],
       members := s.members + (set i | 0 <= i < |c.selected| :: Member(c.batch, i, ClaimedItem(s, c, i))),
       attempts := s.attempts + (map a | a in c.attempts :: ClaimedAttempt(s, c, a)))
  }

  // ---- heartbeat_process ----

  /** `_verified_process_batch`: the caller's envelope is the recorded one and, while the batch is active, every
      attempt still holds its work. */
  function VerifyProcessBatch(s: Tables, env: ProcessEnvelope): Result<Batch, ControlError> {
    if env.batch !in s.batches then Err(KeyMissing)
    else
      var batch := s.batches[env.batch];
      if batch.envelope != env.envelope || batch.membership != env.membership then Err(BatchValidation)
      else if BatchItems(s, env.batch) != (set i | 0 <= i < |env.items| :: env.items[i]) then Err(LeaseLost)
      else if ActiveBatch(batch) && !(forall a :: a in BatchAttempts(s, env.batch) ==> Fenced(s, a)) then Err(LeaseLost)
      else Ok(batch)
  }

  /** The first item of the envelope that names work `w`. */
  function ItemFor(items: seq<ClaimItem>, w: WorkId): Option<ClaimItem> {
    FirstWith(items, (item: ClaimItem) => item.work, w)
  }

  /** Heartbeat extends the lease of work row `row` exactly when the envelope's item for it still holds it. */
  predicate Renewable(row: Work, w: WorkId, items: seq<ClaimItem>) {
    var item := ItemFor(items, w);
    && item.Some?
    && row.status.Leased?
    && row.leaseAttempt == Some(item.value.attempt)
    && row.fence == item.value.fence
  }

  function RenewedWorks(work: map<WorkId, Work>, items: seq<ClaimItem>): set<WorkId> {
    set w | w in work && Renewable(work[w], w, items)
  }

  predicate NamesAttempt(items: seq<ClaimItem>, a: AttemptId) {
    exists i :: 0 <= i < |items| && items[i].attempt == a
  }

  predicate NamesWork(items: seq<ClaimItem>, w: WorkId) {
    exists i :: 0 <= i < |items| && items[i].work == w
  }

  function RenewedAttempt(row: Attempt, a: AttemptId, items: seq<ClaimItem>, expires: int): Attempt {
    if NamesAttempt(items, a) then row.(leaseExpires := expires) else row
  }

  function RenewedWork(row: Work, w: WorkId, items: seq<ClaimItem>, expires: int, now: int): Work {
    if Renewable(row, w, items) then row.(leaseExpires := Some(expires), updatedAt := now) else row
  }

  ghost function HeartbeatTables(s: Tables, env: ProcessEnvelope, expires: int, now: int): Tables
    requires env.batch in s.batches
  {
    s.(batches := s.batches[env.batch := s.batches[env.batch].(leaseExpires := expires)],
       attempts := map a | a in s.attempts :: RenewedAttempt(s.attempts[a], a, env.items, expires),
       work := map w | w in s.work :: RenewedWork(s.work[w], w, env.items, expires, now))
  }

  ghost function Heartbeat(s: Tables, env: ProcessEnvelope, extension: int, now: int): Outcome<()> {
    var verified := VerifyProcessBatch(s, env);
    if extension <= 0 then Outcome(s, Err(BadArgument))
    else if verified.Err? then Outcome(s, Err(verified.error))
    else if !verified.value.status.Leased? || verified.value.leaseExpires <= now then Outcome(s, Err(LeaseLost))
    else if |RenewedWorks(s.work, env.items)| != |env.items| then Outcome(s, Err(LeaseLost))
    else
      var expires := if verified.value.leaseExpires >= now + extension then verified.value.leaseExpires else now + extension;
      Outcome(HeartbeatTables(s, env, expires, now), Ok(()))
  }

  // ---- seal_batch ----

  predicate OutputsDistinct(outputs: seq<Output>) {
    forall i, j :: 0 <= i < j < |outputs| ==> outputs[i].work != outputs[j].work || outputs[i].attempt != outputs[j].attempt
  }

  datatype SealedTuple = SealedTuple(work: WorkId, attempt: AttemptId, path: Option<string>, sha: Option<string>,
                                     succeeded: bool, records: Option<string>)

  function RecordedTuple(a: AttemptId, row: Attempt): SealedTuple {
    SealedTuple(row.work, a, row.outputPath, row.outputSha, row.terminalSucceeded == Some(true), row.records)
  }

  function SuppliedTuple(o: Output): SealedTuple {
    SealedTuple(o.work, o.attempt, Some(o.path), Some(o.sha), o.succeeded, Some(o.records))
  }

  function RecordedTuples(s: Tables, b: BatchId): set<SealedTuple> {
    set a | a in s.attempts && s.attempts[a].batch == b :: RecordedTuple(a, s.attempts[a])
  }

  function SuppliedTuples(outputs: seq<Output>): set<SealedTuple> {
    set i | 0 <= i < |outputs| :: SuppliedTuple(outputs[i])
  }

  function MemberPairs(s: Tables, b: BatchId): set<(WorkId, AttemptId)> {
    set m | m in s.members && m.batch == b :: (m.item.work, m.item.attempt)
  }

  function OutputPairs(outputs: seq<Output>): set<(WorkId, AttemptId)> {
    set i | 0 <= i < |outputs| :: (outputs[i].work, outputs[i].attempt)
  }

  /** An output's attempt is leased and its work is leased to that attempt at the same fence. */
  ghost predicate Sealable(s: Tables, o: Output) {
    && o.attempt in s.attempts && o.work in s.work
    && s.attempts[o.attempt].status.Leased?
    && s.work[o.work].status.Leased?
    && s.work[o.work].leaseAttempt == Some(o.attempt)
    && s.work[o.work].fence == s.attempts[o.attempt].fence
  }

  function AttemptsOf(outputs: seq<Output>): (ids: seq<AttemptId>)
    ensures |ids| == |outputs| && forall i :: 0 <= i < |ids| ==> ids[i] == outputs[i].attempt
  {
    seq(|outputs|, i requires 0 <= i < |outputs| => outputs[i].attempt)
  }

  ghost predicate AllSealable(s: Tables, outputs: seq<Output>) {
    && Distinct(AttemptsOf(outputs))
    && (forall i :: 0 <= i < |outputs| ==> Sealable(s, outputs[i]))
  }

  function SealedRow(row: Attempt, o: Output, now: int): Attempt {
    row.(status := AttemptStatus.Sealed, outputPath := Some(o.path), outputSha := Some(o.sha),
         terminalSucceeded := Some(o.succeeded), records := Some(o.records), sealedAt := Some(now))
  }

  function SealedAttempt(row: Attempt, a: AttemptId, outputs: seq<Output>, now: int): Attempt {
    if a in AttemptsOf(outputs) then SealedRow(row, outputs[IndexOf(AttemptsOf(outputs), a)], now) else row
  }

  ghost function SealTables(s: Tables, b: BatchId, outputs: seq<Output>, now: int): Tables
    requires b in s.batches
  {
    s.(attempts := map a | a in s.attempts :: SealedAttempt(s.attempts[a], a, outputs, now),
       batches := s.batches[b := s.batches[b].(status := BatchStatus.Sealed, sealedAt := Some(now))])
  }

  ghost function Seal(s: Tables, b: BatchId, outputs: seq<Output>, envelope: Envelope, membership: seq<ClaimItem>,
                      now: int): Outcome<()>
  {
    if !OutputsDistinct(outputs) then Outcome(s, Err(BatchValidation))
    else if b !in s.batches then Outcome(s, Err(KeyMissing))
    else
      var batch := s.batches[b];
      if batch.envelope != envelope || batch.membership != membership then Outcome(s, Err(BatchValidation))
      else if batch.status.Sealed? then
        if RecordedTuples(s, b) != SuppliedTuples(outputs) then Outcome(s, Err(ImmutableConflict)) else Outcome(s, Ok(()))
      else if !batch.status.Leased? || batch.leaseExpires <= now then Outcome(s, Err(LeaseLost))
      else if |outputs| != |MemberPairs(s, b)| || OutputPairs(outputs) != MemberPairs(s, b) then
        Outcome(s, Err(BatchValidation))
      else if !AllSealable(s, outputs) then Outcome(s, Err(LeaseLost))
      else Outcome(SealTables(s, b, outputs, now), Ok(()))
  }

  // ---- commit_batch ----

  ghost predicate Committable(s: Tables, b: BatchId) {
    forall a :: a in s.attempts && s.attempts[a].batch == b ==> s.attempts[a].status.Sealed? && Fenced(s, a)
  }

  function MaxSequence(publications: seq<Publication>): (m: int)
    ensures forall i :: 0 <= i < |publications| ==> publications[i].sequence <= m
  {
    if publications == [] then 0
    else
      var rest := MaxSequence(publications[..|publications| - 1]);
      var last := publications[|publications| - 1].sequence;
      if |publications| == 1 || last > rest then last else rest
  }

  function WorkKey(s: Tables): AttemptId -> int {
    a => if a in s.attempts then s.attempts[a].work else 0
  }

  function SuccessSet(s: Tables, b: BatchId): set<AttemptId> {
    set a | a in s.attempts && s.attempts[a].batch == b && s.attempts[a].terminalSucceeded == Some(true)
  }

  /** The batch's successful attempts, in the order their work ids are processed. */
  ghost function Successes(s: Tables, b: BatchId): (succ: seq<AttemptId>)
    ensures forall i :: 0 <= i < |succ| ==> succ[i] in s.attempts
  {
    var succ := SortedBy(SuccessSet(s, b), WorkKey(s));
    assert forall i :: 0 <= i < |succ| ==> succ[i] in SuccessSet(s, b);
    succ
  }

  function PublicationOf(a: AttemptId, row: Attempt, sequence: int, now: int): Publication {
    Publication(sequence, row.work, a, row.batch, row.outputPath, row.outputSha, now)
  }

  ghost function NewPublications(s: Tables, succ: seq<AttemptId>, base: int, now: int): (p: seq<Publication>)
    requires forall i :: 0 <= i < |succ| ==> succ[i] in s.attempts
    ensures |p| == |succ|
    ensures forall i :: 0 <= i < |succ| ==> p[i] == PublicationOf(succ[i], s.attempts[succ[i]], base + 1 + i, now)
  {
    seq(|succ|, i requires 0 <= i < |succ| => PublicationOf(succ[i], s.attempts[succ[i]], base + 1 + i, now))
  }

  function ClearedRow(row: Work, status: WorkStatus, now: int): Work {
    row.(status := status, leaseOwner := None, leaseAttempt := None, leaseExpires := None, updatedAt := now)
  }

  /** What exhausting or not exhausting the attempt budget leads to. */
  function RetryStatus(row: Work): WorkStatus {
    if row.attemptCount >= row.maxAttempts then WorkStatus.Dead else WorkStatus.Ready
  }

  function SucceededRow(row: Work, a: AttemptId, sequence: int, now: int): Work {
    ClearedRow(row, WorkStatus.Succeeded, now).(committedAttempt := Some(a), publicationSequence := Some(sequence))
  }

  function FailedRow(row: Work, now: int): Work {
    ClearedRow(row, RetryStatus(row), now).(availableAt := now, lastError := Some(ProcessingFailed))
  }

  /** Work item `w` is leased to an attempt of batch `b`. */
  ghost predicate HeldBy(s: Tables, b: BatchId, w: WorkId)
    requires w in s.work
  {
    && s.work[w].leaseAttempt.Some? && s.work[w].leaseAttempt.value in s.attempts
    && s.attempts[s.work[w].leaseAttempt.value].batch == b
    && s.attempts[s.work[w].leaseAttempt.value].work == w
  }

  function CommittedAttempt(row: Attempt, b: BatchId): Attempt {
    if row.batch != b then row
    else row.(status := if row.terminalSucceeded == Some(true) then AttemptStatus.Succeeded else AttemptStatus.Failed)
  }

  ghost function CommittedWork(s: Tables, b: BatchId, succ: seq<AttemptId>, base: int, now: int, w: WorkId): Work
    requires w in s.work
  {
    if !HeldBy(s, b, w) then s.work[w]
    else
      var a := s.work[w].leaseAttempt.value;
      if a in succ then SucceededRow(s.work[w], a, base + 1 + IndexOf(succ, a), now) else FailedRow(s.work[w], now)
  }

  ghost function CommitTables(s: Tables, b: BatchId, now: int): Tables
    requires b in s.batches
  {
    var succ := Successes(s, b);
    var base := MaxSequence(s.publications);
    s.(batches := s.batches[b := s.batches[b].(status := BatchStatus.Committed, committedAt := Some(now))],
       attempts := map a | a in s.attempts :: CommittedAttempt(s.attempts[a], b),
       work := map w | w in s.work :: CommittedWork(s, b, succ, base, now, w),
       publications := s.publications + NewPublications(s, succ, base, now))
  }

  ghost function BatchPublications(s: Tables, b: BatchId): set<int> {
    set i | 0 <= i < |s.publications| && s.publications[i].batch == b :: s.publications[i].sequence
  }

  ghost function Numbers(base: int, n: nat): (q: seq<int>)
    ensures |q| == n && forall i :: 0 <= i < n ==> q[i] == base + 1 + i
  {
    seq(n, i => base + 1 + i)
  }

  ghost function CommitSequences(s: Tables, b: BatchId): (q: seq<int>)
    ensures |q| == |Successes(s, b)|
  {
    Numbers(MaxSequence(s.publications), |Successes(s, b)|)
  }

  ghost function Commit(s: Tables, b: BatchId, now: int): Outcome<seq<int>> {
    if b !in s.batches then Outcome(s, Err(KeyMissing))
    else if s.batches[b].status.Committed? then Outcome(s, Ok(SortedBy(BatchPublications(s, b), x => x)))
    else if !s.batches[b].status.Sealed? || s.batches[b].leaseExpires <= now then Outcome(s, Err(LeaseLost))
    else if |BatchAttempts(s, b)| != s.batches[b].itemCount then Outcome(s, Err(BatchValidation))
    else if !Committable(s, b) then Outcome(s, Err(LeaseLost))
    else Outcome(CommitTables(s, b, now), Ok(CommitSequences(s, b)))
  }

  // ---- abandon_failed_claim ----

  datatype Abandonment = Abandonment(batch: BatchId, owner: string, envelope: Envelope, job: string,
                                     operator: string, reason: string, staged: bool)

  /** The identities an envelope must have to be read back as a claim. */
  predicate EnvelopeVerifies(envelope: Envelope, b: BatchId) {
    && envelope.batch == b && |envelope.items| > 0
    && (forall i, j :: 0 <= i < j < |envelope.items| ==>
          envelope.items[i].work != envelope.items[j].work || envelope.items[i].attempt != envelope.items[j].attempt)
  }

  function Verified(b: BatchId, envelope: Envelope): ProcessEnvelope {
    ProcessEnvelope(b, envelope, envelope.items, envelope.items)
  }

  function AbandonItemError(s: Tables, owner: string, item: ClaimItem): Option<ControlError> {
    if item.work !in s.work || item.attempt !in s.attempts then Some(KeyMissing)
    else
      var row, attempt := s.work[item.work], s.attempts[item.attempt];
      if !row.status.Leased? || row.leaseOwner != Some(owner) || row.leaseAttempt != Some(item.attempt)
         || row.fence != item.fence || !attempt.status.Leased?
      then Some(LeaseLost)
      else if row.committedAttempt.Some? || attempt.outputPath.Some? || attempt.outputSha.Some?
              || attempt.terminalSucceeded.Some?
      then Some(BatchValidation)
      else None
  }

  function AbandonError(s: Tables, owner: string, items: seq<ClaimItem>): (e: Option<ControlError>)
    ensures e.None? <==> forall i :: 0 <= i < |items| ==> AbandonItemError(s, owner, items[i]).None?
  {
    if items == [] then None
    else
      var e := AbandonItemError(s, owner, items[0]);
      if e.Some? then e else AbandonError(s, owner, items[1..])
  }

  function AbandonedRow(row: Work, marker: Note, now: int): Work {
    ClearedRow(row, WorkStatus.Ready, now).(availableAt := now, fence := row.fence + 1, lastError := Some(marker))
  }

  function AbandonedWork(row: Work, w: WorkId, items: seq<ClaimItem>, marker: Note, now: int): Work {
    if NamesWork(items, w) then AbandonedRow(row, marker, now) else row
  }

  function AbandonedAttempt(row: Attempt, a: AttemptId, items: seq<ClaimItem>): Attempt {
    if NamesAttempt(items, a) then row.(status := AttemptStatus.Expired, recoveryOutcome := Some(WorkStatus.Ready)) else row
  }

  ghost function AbandonTables(s: Tables, d: Abandonment, now: int): Tables
    requires d.batch in s.batches
  {
    var items := d.envelope.items;
    var marker := Abandoned(d.operator, d.reason, d.job);
    s.(work := map w | w in s.work :: AbandonedWork(s.work[w], w, items, marker, now),
       attempts := map a | a in s.attempts :: AbandonedAttempt(s.attempts[a], a, items),
       batches := s.batches[d.batch := s.batches[d.batch].(status := BatchStatus.Expired)])
  }

  /** The reply says whether the batch had already been abandoned or recovered. */
  ghost function Abandon(s: Tables, d: Abandonment, now: int): Outcome<bool> {
    if !NonBlank(d.operator) || !NonBlank(d.reason) || !NonBlank(d.job) || !NonBlank(d.owner) then Outcome(s, Err(BadArgument))
    else if d.batch !in s.batches then Outcome(s, Err(KeyMissing))
    else
      var batch := s.batches[d.batch];
      if batch.owner != d.owner || batch.envelope != d.envelope then Outcome(s, Err(LeaseLost))
      else if !EnvelopeVerifies(d.envelope, d.batch) then Outcome(s, Err(BatchValidation))
      else if batch.status.Expired? then Outcome(s, Ok(true))
      else if !batch.status.Leased? then Outcome(s, Err(BatchValidation))
      else
        var verified := VerifyProcessBatch(s, Verified(d.batch, d.envelope));
        if verified.Err? then Outcome(s, Err(verified.error))
        else if d.staged then Outcome(s, Err(BatchValidation))
        else if exists p, i :: 0 <= p < |s.publications| && 0 <= i < |d.envelope.items| &&
                               s.publications[p].work == d.envelope.items[i].work
        then Outcome(s, Err(BatchValidation))
        else
          var e := AbandonError(s, d.owner, d.envelope.items);
          if e.Some? then Outcome(s, Err(e.value)) else Outcome(AbandonTables(s, d, now), Ok(false))
  }

  // ---- recover ----

  predicate Overdue(row: Work, t: int) {
    row.status.Leased? && row.leaseExpires.Some? && row.leaseExpires.value <= t
  }

  function RecoveredRow(row: Work, t: int): Work {
    ClearedRow(row, RetryStatus(row), t).(availableAt := t, lastError := Some(LeaseExpired))
  }

  predicate RecoversAttempt(s: Tables, a: AttemptId, t: int)
    requires a in s.attempts
  {
    var row := s.attempts[a];
    Active(row) && row.work in s.work && s.work[row.work].leaseAttempt == Some(a) && Overdue(s.work[row.work], t)
  }

  function OverdueWorks(s: Tables, t: int): set<WorkId> {
    set w | w in s.work && Overdue(s.work[w], t)
  }

  function RecoveredWork(row: Work, t: int): Work {
    if Overdue(row, t) then RecoveredRow(row, t) else row
  }

  function RecoveredAttempt(s: Tables, a: AttemptId, t: int): Attempt
    requires a in s.attempts
  {
    if RecoversAttempt(s, a, t)
    then s.attempts[a].(status := AttemptStatus.Expired, recoveryOutcome := Some(RetryStatus(s.work[s.attempts[a].work])))
    else s.attempts[a]
  }

  function RecoveredBatch(row: Batch, t: int): Batch {
    if ActiveBatch(row) && row.leaseExpires <= t then row.(status := BatchStatus.Expired) else row
  }

  ghost function RecoverTables(s: Tables, t: int): Tables {
    s.(work := map w | w in s.work :: RecoveredWork(s.work[w], t),
       attempts := map a | a in s.attempts :: RecoveredAttempt(s, a, t),
       batches := map b | b in s.batches :: RecoveredBatch(s.batches[b], t))
  }

  datatype RecoveryReport = RecoveryReport(expired: int, retried: int, dead: int)

  ghost function Recover(s: Tables, t: int): Outcome<RecoveryReport> {
    var dead := set w | w in OverdueWorks(s, t) && RetryStatus(s.work[w]).Dead?;
    Outcome(RecoverTables(s, t), Ok(RecoveryReport(|OverdueWorks(s, t)|, |OverdueWorks(s, t)| - |dead|, |dead|)))
  }

  // ---- recover_exact ----

  datatype ExactClaim = ExactClaim(work: WorkId, batch: BatchId, attempt: AttemptId, owner: string, fence: int,
                                   leaseExpires: int, envelope: Envelope, membership: seq<ClaimItem>)

  function AttemptsOfWork(s: Tables, w: WorkId): set<AttemptId> {
    set a | a in s.attempts && s.attempts[a].work == w
  }

  predicate HasPublication(s: Tables, w: WorkId) {
    exists i :: 0 <= i < |s.publications| && s.publications[i].work == w
  }

  predicate ExactMember(s: Tables, p: ExactClaim)
    requires p.work in s.work
  {
    forall m :: m in BatchMembers(s, p.batch) ==>
      m.item == ClaimItem(p.work, p.attempt, p.fence, s.work[p.work].spec.payload)
  }

  /** The claim was already recovered to DEAD. */
  predicate ExactTerminal(s: Tables, p: ExactClaim)
    requires p.work in s.work && p.batch in s.batches && p.attempt in s.attempts
  {
    var work, batch, attempt := s.work[p.work], s.batches[p.batch], s.attempts[p.attempt];
    && work.status.Dead? && batch.status.Expired? && attempt.status.Expired?
    && attempt.recoveryOutcome == Some(WorkStatus.Dead)
    && batch.owner == p.owner && work.fence == p.fence && attempt.fence == p.fence
    && ExactMember(s, p)
    && batch.leaseExpires == p.leaseExpires && attempt.leaseExpires == p.leaseExpires
    && batch.envelope == p.envelope && batch.membership == p.membership
    && work.leaseOwner.None? && work.leaseAttempt.None? && work.leaseExpires.None? && work.committedAttempt.None?
    && !HasPublication(s, p.work) && |AttemptsOfWork(s, p.work)| == 1
  }

  /** The claim is live, exhausted, and every stored identity is the one given. */
  predicate ExactLive(s: Tables, p: ExactClaim)
    requires p.work in s.work && p.batch in s.batches && p.attempt in s.attempts
  {
    var work, batch, attempt := s.work[p.work], s.batches[p.batch], s.attempts[p.attempt];
    && work.status.Leased? && batch.status.Leased? && attempt.status.Leased?
    && work.leaseOwner == Some(p.owner) && work.leaseAttempt == Some(p.attempt)
    && attempt.work == p.work && attempt.batch == p.batch
    && work.fence == p.fence && attempt.fence == p.fence
    && ExactMember(s, p)
    && work.leaseExpires == Some(p.leaseExpires) && batch.leaseExpires == p.leaseExpires
    && attempt.leaseExpires == p.leaseExpires
    && batch.envelope == p.envelope && batch.membership == p.membership
    && work.attemptCount >= work.maxAttempts && work.committedAttempt.None?
    && !HasPublication(s, p.work) && |AttemptsOfWork(s, p.work)| == 1
  }

  predicate ExactEnvelope(p: ExactClaim) {
    && p.envelope.batch == p.batch && p.envelope.owner == p.owner && p.envelope.items == p.membership
    && |p.envelope.items| == 1 && p.envelope.items[0].attempt == p.attempt
  }

  ghost function RecoverExactTables(s: Tables, p: ExactClaim, t: int): Tables
    requires p.work in s.work && p.batch in s.batches && p.attempt in s.attempts
  {
    s.(attempts := s.attempts[p.attempt := s.attempts[p.attempt].(status := AttemptStatus.Expired,
                                                                  recoveryOutcome := Some(WorkStatus.Dead))],
       batches := s.batches[p.batch := s.batches[p.batch].(status := BatchStatus.Expired)],
       work := s.work[p.work := ClearedRow(s.work[p.work], WorkStatus.Dead, t).(
                                  availableAt := t, lastError := Some(LeaseExpiredAfterValidationFailure))])
  }

  /** The reply says whether the recovery had already happened. */
  ghost function RecoverExact(s: Tables, p: ExactClaim, t: int, skew: int, staged: bool): Outcome<bool> {
    if skew < 0 || t < p.leaseExpires + skew then Outcome(s, Err(LeaseLost))
    else if p.fence < 1 then Outcome(s, Err(BatchValidation))
    else if p.work !in s.work || p.batch !in s.batches || p.attempt !in s.attempts then Outcome(s, Err(KeyMissing))
    else if |BatchMembers(s, p.batch)| != 1 then Outcome(s, Err(BatchValidation))
    else if ExactTerminal(s, p) then Outcome(s, Ok(true))
    else if !ExactLive(s, p) then Outcome(s, Err(LeaseLost))
    else if !ExactEnvelope(p) || staged then Outcome(s, Err(BatchValidation))
    else Outcome(RecoverExactTables(s, p, t), Ok(false))
  }

  // ---- replay ----

  function ReplayedRow(row: Work, additional: int, id: ReplayId, now: int): Work {
    row.(status := WorkStatus.Ready,
         maxAttempts := if row.maxAttempts >= row.attemptCount + additional then row.maxAttempts
                        else row.attemptCount + additional,
         availableAt := now, committedAttempt := None, publicationSequence := None,
         replayGeneration := row.replayGeneration + 1, lastReplay := Some(id), updatedAt := now)
  }

  function ReplayWork(s: Tables, w: WorkId, operator: string, reason: string, additional: int, id: ReplayId,
                      now: int): Outcome<int>
  {
    if additional < 1 then Outcome(s, Err(BadArgument))
    else if w !in s.work then Outcome(s, Err(KeyMissing))
    else if s.work[w].status.Leased? then Outcome(s, Err(LeaseLost))
    else if !NonBlank(operator) || !NonBlank(reason) then Outcome(s, Err(BadArgument))
    else
      var row := ReplayedRow(s.work[w], additional, id, now);
      Outcome(s.(work := s.work[w := row],
                 replays := s.replays[id := Replay(w, operator, reason, row.replayGeneration, now)]),
              Ok(row.replayGeneration))
  }

  // ---- quarantine ----

  datatype Expectation = Expectation(work: WorkId, digest: string)

  function QuarantineMarker(e: Expectation, actor: string, explanation: string): Note {
    Quarantined(actor, explanation, e.digest)
  }

  predicate AlreadyQuarantined(row: Work, marker: Note) {
    row.status.Dead? && row.lastError == Some(marker)
  }

  function QuarantineItemError(row: Work, e: Expectation, marker: Note): Option<ControlError> {
    if row.spec.release != e.digest then Some(ImmutableConflict)
    else if AlreadyQuarantined(row, marker) then None
    else if !row.status.Ready? || row.committedAttempt.Some? then Some(NotEligible)
    else None
  }

  function QuarantineError(work: map<WorkId, Work>, es: seq<Expectation>, actor: string, explanation: string)
    : (r: Option<ControlError>)
    requires forall i :: 0 <= i < |es| ==> es[i].work in work
    ensures r.None? <==> forall i :: 0 <= i < |es| ==>
      QuarantineItemError(work[es[i].work], es[i], QuarantineMarker(es[i], actor, explanation)).None?
  {
    if es == [] then None
    else
      var e := QuarantineItemError(work[es[0].work], es[0], QuarantineMarker(es[0], actor, explanation));
      if e.Some? then e else QuarantineError(work, es[1..], actor, explanation)
  }

  function ExpectationFor(es: seq<Expectation>, w: WorkId): Option<Expectation> {
    FirstWith(es, (e: Expectation) => e.work, w)
  }

  function QuarantinedRow(row: Work, marker: Note, now: int): Work {
    if AlreadyQuarantined(row, marker) then row
    else row.(status := WorkStatus.Dead, availableAt := now, lastError := Some(marker), updatedAt := now)
  }

  function QuarantinedWork(row: Work, w: WorkId, es: seq<Expectation>, actor: string, explanation: string, now: int): Work {
    var e := ExpectationFor(es, w);
    if e.None? then row else QuarantinedRow(row, QuarantineMarker(e.value, actor, explanation), now)
  }

  ghost function QuarantineTables(s: Tables, es: seq<Expectation>, actor: string, explanation: string, now: int): Tables {
    s.(work := map w | w in s.work :: QuarantinedWork(s.work[w], w, es, actor, explanation, now))
  }

  ghost function Quarantine(s: Tables, es: seq<Expectation>, actor: string, explanation: string, now: int): Outcome<()> {
    if es == [] || !NonBlank(actor) || !NonBlank(explanation) then Outcome(s, Err(BadArgument))
    else if !(forall i :: 0 <= i < |es| ==> es[i].work in s.work) then Outcome(s, Err(KeyMissing))
    else
      var e := QuarantineError(s.work, es, actor, explanation);
      if e.Some? then Outcome(s, Err(e.value)) else Outcome(QuarantineTables(s, es, actor, explanation, now), Ok(()))
  }

  // ---- reconcile ----

  /** The last publication of a work item in table order. */
  function LastPublication(publications: seq<Publication>, w: WorkId): (r: Option<Publication>)
    ensures r.Some? ==> exists i :: 0 <= i < |publications| && publications[i] == r.value && publications[i].work == w &&
                          forall j :: i < j < |publications| ==> publications[j].work != w
    ensures r.None? ==> forall i :: 0 <= i < |publications| ==> publications[i].work != w
  {
    if publications == [] then None
    else
      var n := |publications| - 1;
      if publications[n].work == w then Some(publications[n]) else LastPublication(publications[..n], w)
  }

  predicate PointerBroken(s: Tables, row: Work, w: WorkId) {
    row.committedAttempt.Some? &&
    var publication := LastPublication(s.publications, w);
    || row.committedAttempt.value !in s.attempts
    || !s.attempts[row.committedAttempt.value].status.Succeeded?
    || publication.None?
    || publication.value.attempt != row.committedAttempt.value
  }

  predicate Detected(s: Tables, k: FindingKey, t: int) {
    k.work in s.work &&
    match k.kind
    case InvalidCommittedPointer => PointerBroken(s, s.work[k.work], k.work)
    case ExpiredLease => Overdue(s.work[k.work], t)
  }

  function DetectedKeys(s: Tables, t: int): (keys: set<FindingKey>)
    ensures forall k :: k in keys <==> Detected(s, k, t)
  {
    (set w | w in s.work && PointerBroken(s, s.work[w], w) :: FindingKey(InvalidCommittedPointer, w)) +
    (set w | w in s.work && Overdue(s.work[w], t) :: FindingKey(ExpiredLease, w))
  }

  function SeenAgain(f: Finding, t: int): Finding {
    f.(lastSeen := t, resolvedAt := None)
  }

  function Closed(f: Finding, t: int): Finding {
    if f.resolvedAt.None? then f.(resolvedAt := Some(t)) else f
  }

  ghost function ReconcileTables(s: Tables, t: int): Tables {
    s.(findings := map k | k in s.findings.Keys + DetectedKeys(s, t) ::
         if k in DetectedKeys(s, t)
         then (if k in s.findings then SeenAgain(s.findings[k], t) else Finding(t, t, None))
         else Closed(s.findings[k], t))
  }

  ghost function OpenFindings(findings: map<FindingKey, Finding>): set<FindingKey> {
    set k | k in findings && findings[k].resolvedAt.None?
  }

  /** The reply is the set of findings left open. */
  ghost function Reconcile(s: Tables, t: int): Outcome<set<FindingKey>> {
    Outcome(ReconcileTables(s, t), Ok(OpenFindings(ReconcileTables(s, t).findings)))
  }
}
