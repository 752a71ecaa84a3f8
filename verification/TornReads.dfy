/** What the writer system promises in every interleaving: the lock excludes, the tables follow one sequential run, and
    a reader that takes its four snapshots at arbitrary moments sees one atomic state or raises. */
module TornReads {
  import opened Wrappers
  import opened Ordering
  import opened ControlTables
  import opened ControlSpec
  import opened ControlInvariant
  import opened ControlBatches
  import opened ControlPublishing
  import opened ControlRuns
  import opened GoldReader
  import opened WriterSystem

  /** The states of one execution and the steps between them. */
  ghost predicate IsTrace(ys: seq<Sys>, acts: seq<Action>) {
    && |ys| == |acts| + 1 && ys[0] == INITIAL
    && (forall i {:trigger Steps(ys, acts, i)} :: 0 <= i < |acts| ==> Steps(ys, acts, i))
  }

  ghost predicate Steps(ys: seq<Sys>, acts: seq<Action>, i: int)
    requires |ys| == |acts| + 1 && 0 <= i < |acts|
  {
    Guard(ys[i], acts[i]) && ys[i + 1] == Next(ys[i], acts[i])
  }

  lemma TraceInv(ys: seq<Sys>, acts: seq<Action>, i: nat)
    requires IsTrace(ys, acts) && i < |ys|
    ensures SysInv(ys[i])
  {
    TraceStart(ys[0]);
    var n := 0;
    while n < i
      invariant n <= i && SysInv(ys[n])
    {
      TraceStep(ys, acts, n);
      n := n + 1;
    }
  }

  lemma TraceStart(y: Sys)
    requires y == INITIAL
    ensures SysInv(y)
  {
    InitialInv();
  }

  lemma TraceStep(ys: seq<Sys>, acts: seq<Action>, i: nat)
    requires IsTrace(ys, acts) && i < |acts| && SysInv(ys[i])
    ensures SysInv(ys[i + 1])
  {
    assert Steps(ys, acts, i);
    StepInv(ys[i], acts[i], ys[i + 1]);
  }

  lemma StepInv(y: Sys, act: Action, y': Sys)
    requires SysInv(y) && Guard(y, act) && y' == Next(y, act)
    ensures SysInv(y')
  {
    SysStep(y, act);
  }

  // ---- the lock ----

  /** Two processes never stand between acquiring and clearing the lock at once, and the one that does is its stored
      owner, however many processes run and wherever others stopped. */
  lemma MutualExclusion(ys: seq<Sys>, acts: seq<Action>, i: nat, p: Token, q: Token)
    requires IsTrace(ys, acts) && i < |ys| && p in ys[i].pcs && q in ys[i].pcs
    requires Holds(ys[i].pcs[p], p) && Holds(ys[i].pcs[q], q)
    ensures p == q && ys[i].lock.owner == Some(p)
  {
    TraceInv(ys, acts, i);
    assert ProcessInv(ys[i], p) && ProcessInv(ys[i], q);
  }

  /** A process that timed out does not own the lock, and no process ever raises a lock error: release is always
      verified, even when a successor acquires before the check. */
  lemma TimeoutAndReleaseAreSafe(ys: seq<Sys>, acts: seq<Action>, i: nat, p: Token)
    requires IsTrace(ys, acts) && i < |ys| && p in ys[i].pcs
    ensures ys[i].pcs[p].TimedOut? ==> ys[i].lock.owner != Some(p)
    ensures !ys[i].pcs[p].LockError?
  {
    TraceInv(ys, acts, i);
    assert ProcessInv(ys[i], p);
  }

  /** Only the stored owner replaces tables, and a lock is taken away from a process only by its own release or by the
      operator once that process has stopped. */
  lemma OnlyTheOwnerActs(ys: seq<Sys>, acts: seq<Action>, i: nat, q: Token)
    requires IsTrace(ys, acts) && i < |acts|
    ensures ys[i + 1].tables != ys[i].tables ==> acts[i].Write? && ys[i].lock.owner == Some(acts[i].p)
    ensures ys[i].lock.owner == Some(q) && ys[i + 1].lock.owner != Some(q) ==>
      acts[i] == Clear(q) || (acts[i] == OperatorClear(q) && q in ys[i].pcs && ys[i].pcs[q].Stopped?)
    ensures acts[i].Clear? ==> ys[i].lock.owner == Some(acts[i].p)
  {
    TraceInv(ys, acts, i);
    assert Steps(ys, acts, i);
    OwnerActs(ys[i], acts[i], q);
  }

  lemma OwnerActs(y: Sys, act: Action, q: Token)
    requires LockInv(y) && Guard(y, act)
    ensures Next(y, act).tables != y.tables ==> act.Write? && y.lock.owner == Some(act.p)
    ensures y.lock.owner == Some(q) && Next(y, act).lock.owner != Some(q) ==>
      act == Clear(q) || (act == OperatorClear(q) && q in y.pcs && y.pcs[q].Stopped?)
    ensures act.Clear? ==> y.lock.owner == Some(act.p)
  {
    assert act.p in y.pcs ==> ProcessInv(y, act.p);
  }

  // ---- one sequential run ----

  /** The atomic state whose work table is in place: the one before the operation under way until its work table is
      written, the one after it from then on. */
  ghost function AtomicOf(y: Sys): Tables {
    match InFlight(y)
    case None => y.tables
    case Some(job) => if WorkTable in job.remaining then job.before else job.goal
  }

  /** The operations that lead to the atomic state: those begun so far, or all but the last of them. */
  ghost predicate LogOf(y: Sys, log: seq<Op>) {
    log == y.log || (y.log != [] && log == y.log[..|y.log| - 1])
  }

  lemma AtomicInv(y: Sys)
    requires SysInv(y)
    ensures var g := AtomicOf(y); Inv(g) && g.work == y.tables.work && exists log :: LogOf(y, log) && Sequential(log, g)
  {
    if InFlight(y).Some? {
      var job := InFlight(y).value;
      JobIsSequential(y, job);
      var log := if WorkTable in job.remaining then y.log[..|y.log| - 1] else y.log;
      assert LogOf(y, log) && Sequential(log, AtomicOf(y));
    } else {
      assert LogOf(y, y.log);
    }
  }

  lemma JobIsSequential(y: Sys, job: Job)
    requires JobInv(y, job)
    ensures Inv(job.before) && Inv(job.goal)
    ensures Sequential(y.log[..|y.log| - 1], job.before) && Sequential(y.log, job.goal)
  {
    var earlier := y.log[..|y.log| - 1];
    OneMoreStep(earlier, job.before, job.op);
    assert earlier + [job.op] == y.log;
    StepKeeps(job.before, job.op);
  }

  /** The writers' interleaving refines the sequential store: the atomic state is always the result of running, one
      after another, the operations begun so far or all but the last of them. */
  lemma AtomicStatesAreSequential(y: Sys)
    requires SysInv(y)
    ensures var g := AtomicOf(y);
            && Inv(g) && g.work == y.tables.work
            && exists log :: LogOf(y, log) && RunEnabled(EMPTY, log) && g == Run(EMPTY, log)
  {
    AtomicInv(y);
    var log :| LogOf(y, log) && Sequential(log, AtomicOf(y));
    SequentialIsRun(log, AtomicOf(y));
  }

  // ---- what readers can rely on ----

  /** Terminal attempts, finished batches and publications stay in place. */
  ghost predicate Frozen(t: Tables, t': Tables) {
    && (forall a {:trigger FrozenAttempt(t, t', a)} :: a in t.attempts ==> FrozenAttempt(t, t', a))
    && (forall b {:trigger FrozenBatch(t, t', b)} :: b in t.batches ==> FrozenBatch(t, t', b))
    && t.publications <= t'.publications
  }

  ghost predicate FrozenAttempt(t: Tables, t': Tables, a: AttemptId)
    requires a in t.attempts
  {
    Active(t.attempts[a]) || (a in t'.attempts && t'.attempts[a] == t.attempts[a])
  }

  ghost predicate FrozenBatch(t: Tables, t': Tables, b: BatchId)
    requires b in t.batches
  {
    ActiveBatch(t.batches[b]) || (b in t'.batches && t'.batches[b] == t.batches[b])
  }

  lemma FrozenTransitive(t0: Tables, t1: Tables, t2: Tables)
    requires Frozen(t0, t1) && Frozen(t1, t2)
    ensures Frozen(t0, t2)
  {
    forall a | a in t0.attempts ensures FrozenAttempt(t0, t2, a) {
      assert FrozenAttempt(t0, t1, a);
      if a in t1.attempts { assert FrozenAttempt(t1, t2, a); }
    }
    forall b | b in t0.batches ensures FrozenBatch(t0, t2, b) {
      assert FrozenBatch(t0, t1, b);
      if b in t1.batches { assert FrozenBatch(t1, t2, b); }
    }
  }

  lemma EvolutionFreezes(s: Tables, s': Tables)
    requires Evolves(s, s')
    ensures Frozen(s, s')
  {
    forall a | a in s.attempts ensures FrozenAttempt(s, s', a) { assert EvolvesAttempt(s, s', a); }
    forall b | b in s.batches ensures FrozenBatch(s, s', b) { assert EvolvesBatch(s, s', b); }
  }

  /** Replacing one more table freezes what was frozen. */
  lemma MixFreezes(before: Tables, goal: Tables, remaining: seq<Table>, t: Table)
    requires Frozen(before, goal)
    ensures Frozen(Mixed(before, goal, remaining), Replaced(Mixed(before, goal, remaining), goal, t))
    ensures Frozen(before, Mixed(before, goal, remaining))
  {
    var m := Mixed(before, goal, remaining);
    var m' := Replaced(m, goal, t);
    forall a | a in m.attempts ensures FrozenAttempt(m, m', a) {
      if a in before.attempts { assert FrozenAttempt(before, goal, a); }
    }
    forall b | b in m.batches ensures FrozenBatch(m, m', b) {
      if b in before.batches { assert FrozenBatch(before, goal, b); }
    }
    forall a | a in before.attempts ensures FrozenAttempt(before, m, a) { assert FrozenAttempt(before, goal, a); }
    forall b | b in before.batches ensures FrozenBatch(before, m, b) { assert FrozenBatch(before, goal, b); }
  }

  lemma JobFreezes(y: Sys, job: Job)
    requires JobInv(y, job)
    ensures Inv(job.before) && Inv(job.goal) && Frozen(job.before, job.goal)
  {
    StepKeeps(job.before, job.op);
    StepEvolves(job.before, job.op);
    EvolutionFreezes(job.before, job.goal);
  }

  lemma StepFreezes(y: Sys, act: Action)
    requires SysInv(y) && Guard(y, act)
    ensures Frozen(y.tables, Next(y, act).tables)
  {
    if act.Write? {
      var job := y.pcs[act.p].job;
      assert ProcessInv(y, act.p);
      assert InFlight(y) == Some(job);
      JobFreezes(y, job);
      MixFreezes(job.before, job.goal, job.remaining, job.remaining[0]);
    } else {
      assert Next(y, act).tables == y.tables;
    }
  }

  lemma TraceStepFreezes(ys: seq<Sys>, acts: seq<Action>, i: nat)
    requires IsTrace(ys, acts) && i < |acts|
    ensures Frozen(ys[i].tables, ys[i + 1].tables)
  {
    TraceInv(ys, acts, i);
    assert Steps(ys, acts, i);
    StepFreezes(ys[i], acts[i]);
  }

  lemma {:induction false} TraceFreezes(ys: seq<Sys>, acts: seq<Action>, i: nat, j: nat)
    requires IsTrace(ys, acts) && i <= j < |ys|
    ensures Frozen(ys[i].tables, ys[j].tables)
    decreases j - i
  {
    if i < j {
      TraceFreezes(ys, acts, i, j - 1);
      TraceStepFreezes(ys, acts, j - 1);
      FrozenTransitive(ys[i].tables, ys[j - 1].tables, ys[j].tables);
    }
  }

  // ---- pointers and publications at one moment ----

  /** Only a commit sets a pointer. */
  ghost predicate SamePointers(s: Tables, s': Tables) {
    forall w :: w in s'.work && s'.work[w].committedAttempt.Some? ==>
      w in s.work && s.work[w].committedAttempt == s'.work[w].committedAttempt
  }

  ghost predicate PointersKept(s: Tables, s': Tables) {
    SamePointers(s, s') && s'.publications == s.publications
  }

  lemma PointersOnlyByCommit(s: Tables, op: Op)
    requires Enabled(s, op) && !op.CommitsBatch?
    ensures PointersKept(s, Apply(s, op))
  {
    match op {
      case Registers(requests, release, now) => RegisterPointers(s, requests, release, now);
      case ClaimsWork(c) => ClaimPointers(s, c);
      case Heartbeats(env, extension, now) => HeartbeatPointers(s, env, extension, now);
      case Seals(b, outputs, envelope, membership, now) => SealPointers(s, b, outputs, envelope, membership, now);
      case Abandons(d, now) => AbandonPointers(s, d, now);
      case Recovers(t) => RecoverPointers(s, t);
      case RecoversExactly(p, t, skew, staged) => RecoverExactPointers(s, p, t, skew, staged);
      case Replays(w, operator, reason, additional, id, now) => ReplayPointers(s, w, operator, reason, additional, id, now);
      case Quarantines(es, actor, explanation, now) => QuarantinePointers(s, es, actor, explanation, now);
      case Reconciles(t) => ReconcilePointers(s, t);
    }
  }

  lemma RegisterPointers(s: Tables, requests: seq<Request>, release: Option<string>, now: int)
    ensures PointersKept(s, Register(s, requests, release, now).tables)
  {
  }

  lemma ClaimPointers(s: Tables, c: Claim)
    requires Claimable(s, c)
    ensures PointersKept(s, ClaimTables(s, c))
  {
  }

  lemma HeartbeatPointers(s: Tables, env: ProcessEnvelope, extension: int, now: int)
    ensures PointersKept(s, Heartbeat(s, env, extension, now).tables)
  {
  }

  lemma SealPointers(s: Tables, b: BatchId, outputs: seq<Output>, envelope: Envelope, membership: seq<ClaimItem>, now: int)
    ensures PointersKept(s, Seal(s, b, outputs, envelope, membership, now).tables)
  {
  }

  lemma AbandonPointers(s: Tables, d: Abandonment, now: int)
    ensures PointersKept(s, Abandon(s, d, now).tables)
  {
  }

  lemma RecoverPointers(s: Tables, t: int)
    ensures PointersKept(s, Recover(s, t).tables)
  {
  }

  lemma RecoverExactPointers(s: Tables, p: ExactClaim, t: int, skew: int, staged: bool)
    ensures PointersKept(s, RecoverExact(s, p, t, skew, staged).tables)
  {
  }

  lemma ReplayPointers(s: Tables, w: WorkId, operator: string, reason: string, additional: int, id: ReplayId, now: int)
    ensures PointersKept(s, ReplayWork(s, w, operator, reason, additional, id, now).tables)
  {
  }

  lemma QuarantinePointers(s: Tables, es: seq<Expectation>, actor: string, explanation: string, now: int)
    ensures PointersKept(s, Quarantine(s, es, actor, explanation, now).tables)
  {
  }

  lemma ReconcilePointers(s: Tables, t: int)
    ensures PointersKept(s, Reconcile(s, t).tables)
  {
  }

  /** A commit writes batches and attempts before work, and publications after it. */
  lemma CommitSuffix(op: Op, remaining: seq<Table>)
    requires op.CommitsBatch? && IsSuffix(remaining, WriteOrder(op))
    ensures WorkTable in remaining ==> PublicationsTable in remaining
    ensures WorkTable !in remaining ==> AttemptsTable !in remaining && BatchesTable !in remaining
    ensures WorkTable !in remaining ==> remaining == [] || remaining == [PublicationsTable]
  {
  }

  /** The attempt and batch rows that a committed pointer of `g` names are in the tables as they are in `g`. */
  ghost predicate PointerInPlace(g: Tables, t: Tables, w: WorkId)
    requires w in g.work && PointerBacked(g, w)
  {
    g.work[w].committedAttempt.Some? ==>
      var a := g.work[w].committedAttempt.value;
      && a in t.attempts && t.attempts[a] == g.attempts[a]
      && g.attempts[a].batch in t.batches && t.batches[g.attempts[a].batch] == g.batches[g.attempts[a].batch]
  }

  /** What a backed pointer names is not active, so it is the same in every later state. */
  lemma PointerFrozen(g: Tables, t: Tables, w: WorkId)
    requires w in g.work && PointerBacked(g, w) && Frozen(g, t)
    ensures PointerInPlace(g, t, w)
  {
    if g.work[w].committedAttempt.Some? {
      var a := g.work[w].committedAttempt.value;
      assert FrozenAttempt(g, t, a) && FrozenBatch(g, t, g.attempts[a].batch);
    }
  }

  /** A pointer that an operation does not move is backed by the same rows afterwards. */
  lemma PointerCarried(s: Tables, g: Tables, t: Tables, w: WorkId)
    requires w in s.work && w in g.work && PointerBacked(s, w) && PointerBacked(g, w)
    requires s.work[w].committedAttempt == g.work[w].committedAttempt && Frozen(s, g) && Frozen(s, t)
    ensures PointerInPlace(g, t, w)
  {
    PointerFrozen(s, g, w);
    PointerFrozen(s, t, w);
  }

  /** Every pointer in the work table is backed, at that very moment, by the attempt and batch rows it will keep. */
  lemma PointerBackedAtMoment(y: Sys, w: WorkId)
    requires SysInv(y) && w in y.tables.work && y.tables.work[w].committedAttempt.Some?
    ensures var g := AtomicOf(y);
            Inv(g) && g.work == y.tables.work && PointerBacked(g, w) && PointerInPlace(g, y.tables, w)
  {
    var g := AtomicOf(y);
    AtomicInv(y);
    InvBacksPointers(g, w);
    if InFlight(y).Some? { PointerBackedInFlight(y, InFlight(y).value, w); }
  }

  lemma PointerBackedInFlight(y: Sys, job: Job, w: WorkId)
    requires SysInv(y) && InFlight(y) == Some(job) && w in y.tables.work && y.tables.work[w].committedAttempt.Some?
    requires var g := AtomicOf(y); Inv(g) && g.work == y.tables.work && PointerBacked(g, w)
    ensures PointerInPlace(AtomicOf(y), y.tables, w)
  {
    var g := AtomicOf(y);
    JobFreezes(y, job);
    MixFreezes(job.before, job.goal, job.remaining, WorkTable);
    if job.op.CommitsBatch? { CommitSuffix(job.op, job.remaining); } else { PointersOnlyByCommit(job.before, job.op); }
    if WorkTable in job.remaining || !job.op.CommitsBatch? {
      InvBacksPointers(job.before, w);
      FrozenReflexive(job.before);
      PointerCarried(job.before, g, y.tables, w);
    }
  }

  lemma FrozenReflexive(t: Tables)
    ensures Frozen(t, t)
  {
  }

  /** Either the publications of the atomic state are in place, or they are the one table its commit has left to write. */
  ghost predicate Anchored(y: Sys, g: seq<Publication>) {
    || g <= y.tables.publications
    || (InFlight(y).Some? && InFlight(y).value.goal.publications == g
        && InFlight(y).value.remaining == [PublicationsTable] && InFlight(y).value.op.CommitsBatch?)
  }

  lemma AnchoredAtMoment(y: Sys)
    requires SysInv(y)
    ensures Anchored(y, AtomicOf(y).publications)
  {
    if InFlight(y).Some? {
      var job := InFlight(y).value;
      if job.op.CommitsBatch? { CommitSuffix(job.op, job.remaining); } else { PointersOnlyByCommit(job.before, job.op); }
    }
  }

  /** Until the commit writes its publications, no step touches it or the publications table. */
  lemma MidCommitStep(y: Sys, act: Action)
    requires LockInv(y) && Guard(y, act) && InFlight(y).Some?
    requires InFlight(y).value.remaining == [PublicationsTable] && InFlight(y).value.op.CommitsBatch?
    ensures var y' := Next(y, act);
            || (InFlight(y') == InFlight(y) && y'.tables == y.tables)
            || y'.tables.publications == InFlight(y).value.goal.publications
  {
    assert act.p in y.pcs ==> ProcessInv(y, act.p);
  }

  lemma AnchoredStep(y: Sys, act: Action, g: seq<Publication>)
    requires SysInv(y) && Guard(y, act) && Anchored(y, g)
    ensures Anchored(Next(y, act), g)
    ensures g <= Next(y, act).tables.publications || Next(y, act).tables.publications == y.tables.publications
  {
    if g <= y.tables.publications { StepFreezes(y, act); } else { MidCommitStep(y, act); }
  }

  lemma TraceAnchoredStep(ys: seq<Sys>, acts: seq<Action>, i: nat, g: seq<Publication>)
    requires IsTrace(ys, acts) && i < |acts| && Anchored(ys[i], g)
    ensures Anchored(ys[i + 1], g)
    ensures g <= ys[i + 1].tables.publications || ys[i + 1].tables.publications == ys[i].tables.publications
  {
    TraceInv(ys, acts, i);
    assert Steps(ys, acts, i);
    AnchoredStep(ys[i], acts[i], g);
  }

  lemma AnchoredAlong(ys: seq<Sys>, acts: seq<Action>, i: nat, j: nat)
    requires IsTrace(ys, acts) && i <= j < |ys|
    ensures Anchored(ys[j], AtomicOf(ys[i]).publications)
  {
    TraceInv(ys, acts, i);
    AnchoredAtMoment(ys[i]);
    AnchoredFrom(ys, acts, i, j, AtomicOf(ys[i]).publications);
  }

  lemma {:induction false} AnchoredFrom(ys: seq<Sys>, acts: seq<Action>, i: nat, j: nat, g: seq<Publication>)
    requires IsTrace(ys, acts) && i <= j < |ys| && Anchored(ys[i], g)
    ensures Anchored(ys[j], g)
    decreases j - i
  {
    if i < j {
      AnchoredFrom(ys, acts, i, j - 1, g);
      TraceAnchoredStep(ys, acts, j - 1, g);
    }
  }

  ghost predicate AttemptsDistinct(publications: seq<Publication>) {
    forall i, j :: 0 <= i < j < |publications| ==> publications[i].attempt != publications[j].attempt
  }

  /** The publications table at any moment is that of an atomic state, and it agrees with what it is anchored to. */
  lemma AnchoredPrefix(y: Sys, g: seq<Publication>)
    requires SysInv(y) && Anchored(y, g)
    ensures AttemptsDistinct(y.tables.publications)
    ensures g <= y.tables.publications || y.tables.publications <= g
  {
    if InFlight(y).Some? { JobFreezes(y, InFlight(y).value); }
  }

  /** The reader's verdict on one pointer, given rows that agree with an atomic state and publications that agree with
      its publications as far as they go. */
  lemma PointerVerdict(g: Tables, w: WorkId, attempts: map<AttemptId, Attempt>, batches: map<BatchId, Batch>,
                       publications: seq<Publication>)
    requires Inv(g) && w in g.work && g.work[w].committedAttempt.Some? && PointerBacked(g, w)
    requires var a := g.work[w].committedAttempt.value;
             && a in attempts && attempts[a] == g.attempts[a]
             && g.attempts[a].batch in batches && batches[g.attempts[a].batch] == g.batches[g.attempts[a].batch]
    requires AttemptsDistinct(publications)
    requires g.publications <= publications || publications <= g.publications
    ensures CheckedRow(w, g.work[w], attempts, batches, publications) ==
            if g.work[w].publicationSequence.value <= |publications| then Some(PointedRow(g, w)) else None
  {
    var a, q := g.work[w].committedAttempt.value, g.work[w].publicationSequence.value - 1;
    var last := LastFor(publications, w, a);
    if q < |publications| {
      assert publications[q] == g.publications[q];
      var i :| 0 <= i < |publications| && publications[i] == last.value;
      assert i == q;
    } else {
      forall i | 0 <= i < |publications| ensures publications[i].attempt != a {
        assert publications[i] == g.publications[i];
      }
    }
  }

  /** A pointer of the work snapshot whose publication the last snapshot does not reach. */
  ghost predicate Unpublished(g: Tables, publications: seq<Publication>) {
    exists w :: w in g.work && g.work[w].publicationSequence.Some? && g.work[w].publicationSequence.value > |publications|
  }

  /** Torn reads linearise or fail.  Whatever the writers do between the reader's four snapshots, and wherever any of them
      stopped, the reader returns exactly the rows of the one atomic state whose work table it read, or raises; and it
      raises exactly when its publications snapshot ends before one of that state's pointers. */
  lemma TornReadsLinearise(ys: seq<Sys>, acts: seq<Action>, i1: nat, i2: nat, i3: nat, i4: nat)
    requires IsTrace(ys, acts) && i1 <= i2 <= i3 <= i4 < |ys|
    ensures var g := AtomicOf(ys[i1]);
            var r := VisibleRows(ys[i1].tables.work, ys[i2].tables.attempts, ys[i3].tables.batches, ys[i4].tables.publications);
            && Inv(g) && g.work == ys[i1].tables.work && VisibleAt(g).Ok?
            && (r.Ok? ==> r == VisibleAt(g))
            && (r.Err? <==> Unpublished(g, ys[i4].tables.publications))
  {
    var g := AtomicOf(ys[i1]);
    var work, attempts := ys[i1].tables.work, ys[i2].tables.attempts;
    var batches, publications := ys[i3].tables.batches, ys[i4].tables.publications;
    TraceInv(ys, acts, i1);
    TraceInv(ys, acts, i4);
    AtomicInv(ys[i1]);
    AnchoredAlong(ys, acts, i1, i4);
    AnchoredPrefix(ys[i4], g.publications);
    ReaderAcceptsAtomicStates(g);
    forall w | w in work && work[w].committedAttempt.Some?
      ensures PointerBacked(g, w)
      ensures CheckedRow(w, work[w], attempts, batches, publications) ==
              if work[w].publicationSequence.value <= |publications| then Some(PointedRow(g, w)) else None
    {
      PointerBackedAtMoment(ys[i1], w);
      RowsStay(ys, acts, i1, i2, i3, w);
      PointerVerdict(g, w, attempts, batches, publications);
    }
    VerdictsDecide(g, attempts, batches, publications);
  }

  /** The attempt and batch rows behind a pointer are the same at every later moment. */
  lemma RowsStay(ys: seq<Sys>, acts: seq<Action>, i1: nat, i2: nat, i3: nat, w: WorkId)
    requires IsTrace(ys, acts) && i1 <= i2 <= i3 < |ys|
    requires w in ys[i1].tables.work && ys[i1].tables.work[w].committedAttempt.Some?
    ensures var g := AtomicOf(ys[i1]);
            && Inv(g) && g.work == ys[i1].tables.work && PointerBacked(g, w)
            && var a := g.work[w].committedAttempt.value;
               && a in ys[i2].tables.attempts && ys[i2].tables.attempts[a] == g.attempts[a]
               && g.attempts[a].batch in ys[i3].tables.batches
               && ys[i3].tables.batches[g.attempts[a].batch] == g.batches[g.attempts[a].batch]
  {
    TraceInv(ys, acts, i1);
    PointerBackedAtMoment(ys[i1], w);
    TraceFreezes(ys, acts, i1, i2);
    TraceFreezes(ys, acts, i1, i3);
    RowsInPlace(AtomicOf(ys[i1]), ys[i1].tables, ys[i2].tables, w);
    RowsInPlace(AtomicOf(ys[i1]), ys[i1].tables, ys[i3].tables, w);
  }

  lemma RowsInPlace(g: Tables, t: Tables, t': Tables, w: WorkId)
    requires w in g.work && PointerBacked(g, w) && PointerInPlace(g, t, w) && Frozen(t, t')
    ensures PointerInPlace(g, t', w)
  {
    if g.work[w].committedAttempt.Some? {
      var a := g.work[w].committedAttempt.value;
      assert FrozenAttempt(t, t', a) && FrozenBatch(t, t', g.attempts[a].batch);
    }
  }

  lemma VerdictsDecide(g: Tables, attempts: map<AttemptId, Attempt>, batches: map<BatchId, Batch>, publications: seq<Publication>)
    requires Inv(g)
    requires forall w :: w in g.work && g.work[w].committedAttempt.Some? ==>
      && PointerBacked(g, w)
      && CheckedRow(w, g.work[w], attempts, batches, publications) ==
         (if g.work[w].publicationSequence.value <= |publications| then Some(PointedRow(g, w)) else None)
    ensures var r := VisibleRows(g.work, attempts, batches, publications);
            && (r.Ok? ==> r == VisibleAt(g))
            && (r.Err? <==> Unpublished(g, publications))
  {
    ReaderAcceptsAtomicStates(g);
    forall w | w in g.work && g.work[w].publicationSequence.Some? ensures g.work[w].committedAttempt.Some? {
      assert PointerRow(g, w);
    }
    if AllPointersValid(g.work, attempts, batches, publications) {
      SameVerdictsSameRows(g.work, attempts, batches, publications, g.attempts, g.batches, g.publications);
    }
  }

  lemma SameVerdictsSameRows(work: map<WorkId, Work>, attempts: map<AttemptId, Attempt>, batches: map<BatchId, Batch>,
                             publications: seq<Publication>, attempts': map<AttemptId, Attempt>, batches': map<BatchId, Batch>,
                             publications': seq<Publication>)
    requires AllPointersValid(work, attempts, batches, publications) && AllPointersValid(work, attempts', batches', publications')
    requires forall w :: w in work && work[w].committedAttempt.Some? ==>
      CheckedRow(w, work[w], attempts, batches, publications) == CheckedRow(w, work[w], attempts', batches', publications')
    ensures VisibleRows(work, attempts, batches, publications) == VisibleRows(work, attempts', batches', publications')
  {
    assert VisibleSet(work, attempts, batches, publications) == VisibleSet(work, attempts', batches', publications');
  }

  // ---- batches are seen whole ----

  /** The rows show attempt `a` as the result of its work. */
  ghost predicate Shows(rows: seq<VisibleRow>, g: Tables, a: AttemptId)
    requires a in g.attempts
  {
    exists row :: row in rows && row.id == g.attempts[a].work && row.work.committedAttempt == Some(a) && row.attempt == g.attempts[a]
  }

  /** The work of attempt `a` has been replayed since `a` was published, or points to a later publication. */
  ghost predicate Superseded(g: Tables, a: AttemptId)
    requires a in g.attempts && g.attempts[a].work in g.work
  {
    var row := g.work[g.attempts[a].work];
    || row.publicationSequence.None?
    || exists i :: 0 <= i < |g.publications| && g.publications[i].attempt == a && i + 1 < row.publicationSequence.value
  }

  /** What the rows show of batch `b`: nothing unless it is committed, and of its successes exactly those their works still
      point to, which are all but the superseded ones. */
  ghost predicate SeenWhole(rows: seq<VisibleRow>, g: Tables, b: BatchId) {
    && (forall row :: row in rows && row.attempt.batch == b ==>
          b in g.batches && g.batches[b].status.Committed? && row.batch == g.batches[b])
    && (forall a {:trigger Shows(rows, g, a)} :: a in g.attempts && g.attempts[a].batch == b && g.attempts[a].status.Succeeded? ==>
          && g.attempts[a].work in g.work
          && (Shows(rows, g, a) <==> g.work[g.attempts[a].work].committedAttempt == Some(a))
          && (Shows(rows, g, a) <==> !Superseded(g, a)))
  }

  /** A read that is accepted shows every batch whole. */
  lemma BatchesAreSeenWhole(ys: seq<Sys>, acts: seq<Action>, i1: nat, i2: nat, i3: nat, i4: nat, b: BatchId)
    requires IsTrace(ys, acts) && i1 <= i2 <= i3 <= i4 < |ys|
    ensures var r := VisibleRows(ys[i1].tables.work, ys[i2].tables.attempts, ys[i3].tables.batches, ys[i4].tables.publications);
            r.Ok? ==> SeenWhole(r.value, AtomicOf(ys[i1]), b)
  {
    TornReadsLinearise(ys, acts, i1, i2, i3, i4);
    AtomicSeenWhole(AtomicOf(ys[i1]), b);
  }

  lemma AtomicSeenWhole(g: Tables, b: BatchId)
    requires Inv(g)
    ensures VisibleAt(g).Ok? && SeenWhole(VisibleAt(g).value, g, b)
  {
    ReaderAcceptsAtomicStates(g);
    var rows := VisibleAt(g).value;
    forall row | row in rows ensures IsPointed(g, row) {
      assert row in VisibleSet(g.work, g.attempts, g.batches, g.publications);
    }
    forall a | a in g.attempts && g.attempts[a].status.Succeeded?
      ensures g.attempts[a].work in g.work
      ensures Shows(rows, g, a) <==> g.work[g.attempts[a].work].committedAttempt == Some(a)
      ensures Shows(rows, g, a) <==> !Superseded(g, a)
    {
      assert AttemptRow(g, a);
      if g.work[g.attempts[a].work].committedAttempt == Some(a) {
        var row := PointedRow(g, g.attempts[a].work);
        assert row in VisibleSet(g.work, g.attempts, g.batches, g.publications);
        assert row in rows;
      }
      SupersededIff(g, a);
    }
  }

  ghost predicate IsPointed(g: Tables, row: VisibleRow) {
    row.id in g.work && PointerBacked(g, row.id) && g.work[row.id].committedAttempt.Some? && row == PointedRow(g, row.id)
  }

  lemma SupersededIff(g: Tables, a: AttemptId)
    requires Inv(g) && a in g.attempts && g.attempts[a].status.Succeeded? && g.attempts[a].work in g.work
    ensures Superseded(g, a) <==> g.work[g.attempts[a].work].committedAttempt != Some(a)
  {
    var w := g.attempts[a].work;
    assert PointerRow(g, w);
    var i :| 0 <= i < |g.publications| && g.publications[i].attempt == a;
    assert PublicationRow(g, i);
  }

  /** The reader can only be refused while, at its first snapshot, a commit has moved pointers it has not yet published. */
  lemma RefusedOnlyMidCommit(ys: seq<Sys>, acts: seq<Action>, i1: nat, i4: nat)
    requires IsTrace(ys, acts) && i1 <= i4 < |ys| && Unpublished(AtomicOf(ys[i1]), ys[i4].tables.publications)
    ensures InFlight(ys[i1]).Some? && InFlight(ys[i1]).value.op.CommitsBatch?
    ensures InFlight(ys[i1]).value.remaining == [PublicationsTable]
    ensures ys[i4].tables.publications == ys[i1].tables.publications
  {
    var g := AtomicOf(ys[i1]);
    TraceInv(ys, acts, i1);
    TraceInv(ys, acts, i4);
    AtomicInv(ys[i1]);
    AnchoredAtMoment(ys[i1]);
    AnchoredAlong(ys, acts, i1, i4);
    TraceFreezes(ys, acts, i1, i4);
    var w :| w in g.work && g.work[w].publicationSequence.Some? && g.work[w].publicationSequence.value > |ys[i4].tables.publications|;
    assert PointerRow(g, w);
    StillUnwritten(ys, acts, i1, i4);
  }

  /** While publications anchored to a state are missing, none have been written since. */
  lemma {:induction false} StillUnwritten(ys: seq<Sys>, acts: seq<Action>, i: nat, j: nat)
    requires IsTrace(ys, acts) && i <= j < |ys| && !(AtomicOf(ys[i]).publications <= ys[j].tables.publications)
    ensures ys[j].tables.publications == ys[i].tables.publications
    decreases j - i
  {
    if i < j {
      AnchoredAlong(ys, acts, i, j - 1);
      TraceAnchoredStep(ys, acts, j - 1, AtomicOf(ys[i]).publications);
      TraceStepFreezes(ys, acts, j - 1);
      StillUnwritten(ys, acts, i, j - 1);
    }
  }
}
