/** The rows of the control plane's Delta tables.

    A table whose rows carry a unique key is a map from that key; the store refuses to write a table with
    two rows of one key.  Publications are a sequence, because their append order is observed.  A digest is
    modelled by the content it was computed from, so equal digests mean equal contents.  Times are integers
    and no clock is assumed to be monotone. */
module ControlTables {
  import opened Wrappers

  type WorkId = nat      // text in the source; only equality and the ordering of work ids are used
  type AttemptId = nat
  type BatchId = nat
  type ReplayId = nat
  type RuntimeKey = nat  // text in the source; only equality and the ordering of runtime keys are used

  datatype WorkStatus = Ready | Leased | Succeeded | Dead
  datatype BatchStatus = Leased | Sealed | Committed | Expired
  datatype AttemptStatus = Leased | Sealed | Succeeded | Failed | Expired

  /** What a work item's `last_error` column may hold. */
  datatype Note =
    | ProcessingFailed
    | LeaseExpired
    | LeaseExpiredAfterValidationFailure
    | Abandoned(operator: string, reason: string, job: string)
    | Quarantined(actor: string, explanation: string, digest: string)

  /** The immutable part of a work item, compared when it is registered again. */
  datatype WorkSpec = WorkSpec(payload: string, runtimeKey: RuntimeKey, duration: real, config: string,
                               release: string, originalMaxAttempts: int)

  datatype Work = Work(spec: WorkSpec, status: WorkStatus, attemptCount: int, maxAttempts: int, fence: int,
                       availableAt: int, leaseOwner: Option<string>, leaseAttempt: Option<AttemptId>,
                       leaseExpires: Option<int>, committedAttempt: Option<AttemptId>,
                       publicationSequence: Option<int>, replayGeneration: int,
                       lastReplay: Option<ReplayId>, lastError: Option<Note>, createdAt: int, updatedAt: int)

  /** One line of a claim: what the envelope, the membership digest and the member rows all record. */
  datatype ClaimItem = ClaimItem(work: WorkId, attempt: AttemptId, fence: int, payload: string)

  /** The immutable, content-addressed claim envelope. */
  datatype Envelope = Envelope(batch: BatchId, owner: string, runtimeKey: RuntimeKey, claimedAt: int,
                               leaseExpires: int, items: seq<ClaimItem>)

  /** What a driver passes back: a verified envelope and the digests it claims to hold. */
  datatype ProcessEnvelope = ProcessEnvelope(batch: BatchId, envelope: Envelope,
                                             membership: seq<ClaimItem>, items: seq<ClaimItem>)

  datatype Batch = Batch(owner: string, runtimeKey: RuntimeKey, status: BatchStatus, leaseExpires: int,
                         itemCount: int, membership: seq<ClaimItem>, envelope: Envelope, createdAt: int,
                         sealedAt: Option<int>, committedAt: Option<int>)

  datatype Member = Member(batch: BatchId, ordinal: nat, item: ClaimItem)

  datatype Attempt = Attempt(work: WorkId, batch: BatchId, fence: int, status: AttemptStatus,
                             leaseExpires: int, payload: string, outputPath: Option<string>,
                             outputSha: Option<string>, terminalSucceeded: Option<bool>,
                             records: Option<string>, recoveryOutcome: Option<WorkStatus>,
                             createdAt: int, sealedAt: Option<int>)

  datatype Publication = Publication(sequence: int, work: WorkId, attempt: AttemptId, batch: BatchId,
                                     outputPath: Option<string>, outputSha: Option<string>, publishedAt: int)

  datatype Replay = Replay(work: WorkId, operator: string, reason: string, generation: int, requestedAt: int)

  datatype FindingKind = InvalidCommittedPointer | ExpiredLease
  datatype FindingKey = FindingKey(kind: FindingKind, work: WorkId)
  datatype Finding = Finding(firstSeen: int, lastSeen: int, resolvedAt: Option<int>)

  datatype Output = Output(work: WorkId, attempt: AttemptId, path: string, sha: string, succeeded: bool,
                           records: string)

  datatype Request = Request(work: WorkId, spec: WorkSpec, availableAt: Option<int>)

  datatype ControlError = BadArgument | KeyMissing | LeaseLost | BatchValidation | ImmutableConflict | NotEligible | LeaseBudget

  datatype Tables = Tables(work: map<WorkId, Work>, attempts: map<AttemptId, Attempt>,
                           batches: map<BatchId, Batch>, members: set<Member>,
                           publications: seq<Publication>, replays: map<ReplayId, Replay>,
                           findings: map<FindingKey, Finding>)

  const EMPTY := Tables(map[], map[], map[], {}, [], map[], map[])

  /** An attempt that still holds, or could still publish under, a lease. */
  predicate Active(a: Attempt) {
    a.status.Leased? || a.status.Sealed?
  }

  predicate ActiveBatch(b: Batch) {
    b.status.Leased? || b.status.Sealed?
  }

  function BatchAttempts(s: Tables, b: BatchId): set<AttemptId> {
    set a | a in s.attempts && s.attempts[a].batch == b
  }

  function ItemOf(a: AttemptId, row: Attempt): ClaimItem {
    ClaimItem(row.work, a, row.fence, row.payload)
  }

  function BatchItems(s: Tables, b: BatchId): set<ClaimItem> {
    set a | a in s.attempts && s.attempts[a].batch == b :: ItemOf(a, s.attempts[a])
  }

  function BatchMembers(s: Tables, b: BatchId): set<Member> {
    set m | m in s.members && m.batch == b
  }

  /** The work row still carries the lease and the fence of attempt `a`. */
  predicate Fenced(s: Tables, a: AttemptId)
    requires a in s.attempts
  {
    var row := s.attempts[a];
    && row.work in s.work
    && s.work[row.work].status.Leased?
    && s.work[row.work].leaseAttempt == Some(a)
    && s.work[row.work].fence == row.fence
  }

  /** A held lease has an expiry, and the attempt a lease names is a stored attempt of that work. */
  ghost predicate WorkLinked(s: Tables, w: WorkId)
    requires w in s.work
  {
    var row := s.work[w];
    && (row.status.Leased? ==> row.leaseExpires.Some?)
    && (row.leaseAttempt.Some? ==> row.leaseAttempt.value in s.attempts && s.attempts[row.leaseAttempt.value].work == w)
  }

  /** Referential facts the operations rely on when they look rows up. */
  ghost predicate WellFormed(s: Tables) {
    && (forall a :: a in s.attempts ==> s.attempts[a].work in s.work)
    && (forall w {:trigger WorkLinked(s, w)} :: w in s.work ==> WorkLinked(s, w))
  }
}
