/** Runs of the control store: any sequence of operations, successful or not, at any clock readings. */
module ControlRuns {
  import opened Wrappers
  import opened Ordering
  import opened ControlTables
  import opened ControlSpec
  import opened ControlInvariant
  import opened ControlBatches
  import opened ControlPublishing

  datatype Op =
    | Registers(requests: seq<Request>, release: Option<string>, now: int)
    | ClaimsWork(claim: Claim)
    | Heartbeats(env: ProcessEnvelope, extension: int, now: int)
    | Seals(batch: BatchId, outputs: seq<Output>, envelope: Envelope, membership: seq<ClaimItem>, now: int)
    | CommitsBatch(batch: BatchId, now: int)
    | Abandons(abandonment: Abandonment, now: int)
    | Recovers(now: int)
    | RecoversExactly(exact: ExactClaim, now: int, skew: int, staged: bool)
    | Replays(work: WorkId, operator: string, reason: string, additional: int, id: ReplayId, now: int)
    | Quarantines(expected: seq<Expectation>, actor: string, explanation: string, now: int)
    | Reconciles(now: int)

  /** A claim is given as what the selection and the id generator produced; every other operation may be tried on any
      tables with any arguments. */
  ghost predicate Enabled(s: Tables, op: Op) {
    op.ClaimsWork? ==> Claimable(s, op.claim)
  }

  ghost function Apply(s: Tables, op: Op): Tables
    requires Enabled(s, op)
  {
    match op
    case Registers(requests, release, now) => Register(s, requests, release, now).tables
    case ClaimsWork(c) => ClaimTables(s, c)
    case Heartbeats(env, extension, now) => Heartbeat(s, env, extension, now).tables
    case Seals(b, outputs, envelope, membership, now) => Seal(s, b, outputs, envelope, membership, now).tables
    case CommitsBatch(b, now) => Commit(s, b, now).tables
    case Abandons(d, now) => Abandon(s, d, now).tables
    case Recovers(t) => Recover(s, t).tables
    case RecoversExactly(p, t, skew, staged) => RecoverExact(s, p, t, skew, staged).tables
    case Replays(w, operator, reason, additional, id, now) =>
      ReplayWork(s, w, operator, reason, additional, id, now).tables
    case Quarantines(es, actor, explanation, now) => Quarantine(s, es, actor, explanation, now).tables
    case Reconciles(t) => Reconcile(s, t).tables
  }

  ghost predicate RunEnabled(s: Tables, ops: seq<Op>)
    decreases |ops|
  {
    ops != [] ==> Enabled(s, ops[0]) && RunEnabled(Apply(s, ops[0]), ops[1..])
  }

  ghost function Run(s: Tables, ops: seq<Op>): Tables
    requires RunEnabled(s, ops)
    decreases |ops|
  {
    if ops == [] then s else Run(Apply(s, ops[0]), ops[1..])
  }

  // ---- the states of a run ----

  ghost predicate StepAt(states: seq<Tables>, ops: seq<Op>, i: int)
    requires |states| == |ops| + 1 && 0 <= i < |ops|
  {
    Enabled(states[i], ops[i]) && states[i + 1] == Apply(states[i], ops[i])
  }

  /** The states a run from the empty store goes through. */
  ghost predicate IsHistory(states: seq<Tables>, ops: seq<Op>) {
    && |states| == |ops| + 1 && states[0] == EMPTY
    && forall i {:trigger StepAt(states, ops, i)} :: 0 <= i < |ops| ==> StepAt(states, ops, i)
  }

  /** The operations, one after another from the empty store, end in tables `s`. */
  ghost predicate Sequential(ops: seq<Op>, s: Tables) {
    exists states {:trigger IsHistory(states, ops)} :: IsHistory(states, ops) && states[|ops|] == s
  }

  lemma NoSteps()
    ensures Sequential([], EMPTY)
  {
    assert IsHistory([EMPTY], []);
  }

  lemma OneMoreStep(ops: seq<Op>, s: Tables, op: Op)
    requires Sequential(ops, s) && Enabled(s, op)
    ensures Sequential(ops + [op], Apply(s, op))
  {
    var states :| IsHistory(states, ops) && states[|ops|] == s;
    var states', ops' := states + [Apply(s, op)], ops + [op];
    forall i | 0 <= i < |ops'| ensures StepAt(states', ops', i) {
      if i < |ops| { assert StepAt(states, ops, i); }
    }
    assert IsHistory(states', ops');
  }

  /** Those tables are where the run ends. */
  lemma SequentialIsRun(ops: seq<Op>, s: Tables)
    requires Sequential(ops, s)
    ensures RunEnabled(EMPTY, ops) && Run(EMPTY, ops) == s
  {
    var states :| IsHistory(states, ops) && states[|ops|] == s;
    HistoryIsRun(states, ops, |ops|);
    assert ops[..|ops|] == ops;
  }

  lemma {:induction false} HistoryIsRun(states: seq<Tables>, ops: seq<Op>, n: nat)
    requires IsHistory(states, ops) && n <= |ops|
    ensures RunEnabled(EMPTY, ops[..n]) && Run(EMPTY, ops[..n]) == states[n]
  {
    if n > 0 {
      HistoryIsRun(states, ops, n - 1);
      assert StepAt(states, ops, n - 1);
      RunAppend(EMPTY, ops[..n - 1], ops[n - 1]);
      assert ops[..n - 1] + [ops[n - 1]] == ops[..n];
    }
  }

  lemma {:induction false} RunAppend(s: Tables, ops: seq<Op>, op: Op)
    requires RunEnabled(s, ops) && Enabled(Run(s, ops), op)
    ensures RunEnabled(s, ops + [op]) && Run(s, ops + [op]) == Apply(Run(s, ops), op)
    decreases |ops|
  {
    if ops == [] {
      assert ops + [op] == [op];
    } else {
      RunAppend(Apply(s, ops[0]), ops[1..], op);
      assert (ops + [op])[0] == ops[0] && (ops + [op])[1..] == ops[1..] + [op];
    }
  }

  lemma StepKeeps(s: Tables, op: Op)
    requires Inv(s) && Enabled(s, op)
    ensures Inv(Apply(s, op))
  {
    match op {
      case Registers(requests, release, now) => RegisterKeeps(s, requests, release, now);
      case ClaimsWork(c) => ClaimKeeps(s, c);
      case Heartbeats(env, extension, now) => HeartbeatKeeps(s, env, extension, now);
      case Seals(b, outputs, envelope, membership, now) => SealKeeps(s, b, outputs, envelope, membership, now);
      case CommitsBatch(b, now) => CommitKeeps(s, b, now);
      case Abandons(d, now) => AbandonKeeps(s, d, now);
      case Recovers(t) => RecoverKeeps(s, t);
      case RecoversExactly(p, t, skew, staged) => RecoverExactKeeps(s, p, t, skew, staged);
      case Replays(w, operator, reason, additional, id, now) => ReplayKeeps(s, w, operator, reason, additional, id, now);
      case Quarantines(es, actor, explanation, now) => QuarantineKeeps(s, es, actor, explanation, now);
      case Reconciles(t) => ReconcileKeeps(s, t);
    }
  }

  /** Every run from any state that meets the invariant, and so every run from the empty store, meets it. */
  lemma {:induction false} RunKeeps(s: Tables, ops: seq<Op>)
    requires Inv(s) && RunEnabled(s, ops)
    ensures Inv(Run(s, ops))
    decreases |ops|
  {
    if ops != [] {
      StepKeeps(s, ops[0]);
      RunKeeps(Apply(s, ops[0]), ops[1..]);
    }
  }

  // ---- what no run ever undoes ----

  /** An attempt keeps its claim, and once it is terminal its row never changes. */
  ghost predicate EvolvesAttempt(s: Tables, s': Tables, a: AttemptId)
    requires a in s.attempts
  {
    a in s'.attempts && SameClaimAttempt(s, s', a) && (!Active(s.attempts[a]) ==> s'.attempts[a] == s.attempts[a])
  }

  /** A batch keeps its claim, and once it is committed or expired its row never changes. */
  ghost predicate EvolvesBatch(s: Tables, s': Tables, b: BatchId)
    requires b in s.batches
  {
    b in s'.batches && SameClaimBatch(s, s', b) && (!ActiveBatch(s.batches[b]) ==> s'.batches[b] == s.batches[b])
  }

  ghost predicate EvolvesWork(s: Tables, s': Tables, w: WorkId)
    requires w in s.work
  {
    && w in s'.work && s'.work[w].spec == s.work[w].spec
    && s'.work[w].fence >= s.work[w].fence && s'.work[w].replayGeneration >= s.work[w].replayGeneration
  }

  /** An attempt created since carries a higher fence than its work had. */
  ghost predicate NewFence(s: Tables, s': Tables, a: AttemptId)
    requires a in s'.attempts
  {
    a in s.attempts || (s'.attempts[a].work in s.work ==> s'.attempts[a].fence > s.work[s'.attempts[a].work].fence)
  }

  ghost predicate Evolves(s: Tables, s': Tables) {
    && (forall a {:trigger EvolvesAttempt(s, s', a)} :: a in s.attempts ==> EvolvesAttempt(s, s', a))
    && (forall b {:trigger EvolvesBatch(s, s', b)} :: b in s.batches ==> EvolvesBatch(s, s', b))
    && (forall w {:trigger EvolvesWork(s, s', w)} :: w in s.work ==> EvolvesWork(s, s', w))
    && (forall a {:trigger NewFence(s, s', a)} :: a in s'.attempts ==> NewFence(s, s', a))
    && s.publications <= s'.publications
  }

  lemma EvolvesTransitive(s0: Tables, s1: Tables, s2: Tables)
    requires Evolves(s0, s1) && Evolves(s1, s2)
    ensures Evolves(s0, s2)
  {
    forall a | a in s0.attempts ensures EvolvesAttempt(s0, s2, a) {
      assert EvolvesAttempt(s0, s1, a) && EvolvesAttempt(s1, s2, a);
    }
    forall b | b in s0.batches ensures EvolvesBatch(s0, s2, b) {
      assert EvolvesBatch(s0, s1, b) && EvolvesBatch(s1, s2, b);
    }
    forall w | w in s0.work ensures EvolvesWork(s0, s2, w) {
      assert EvolvesWork(s0, s1, w) && EvolvesWork(s1, s2, w);
    }
    forall a | a in s2.attempts ensures NewFence(s0, s2, a) {
      assert NewFence(s1, s2, a);
      if a in s1.attempts {
        assert NewFence(s0, s1, a) && EvolvesAttempt(s1, s2, a);
      } else if s2.attempts[a].work in s0.work {
        assert EvolvesWork(s0, s1, s2.attempts[a].work);
      }
    }
  }

  lemma ReleasesEvolve(s: Tables, s': Tables, bs: set<BatchId>)
    requires LeaseInv(s) && Releases(s, s', bs) && s.publications <= s'.publications
    ensures Evolves(s, s')
  {
    forall b | b in s.batches ensures EvolvesBatch(s, s', b) {
      assert SameClaimBatch(s, s', b) && ReleasesBatch(s, s', bs, b);
    }
    forall a | a in s.attempts ensures EvolvesAttempt(s, s', a) {
      assert AttemptRow(s, a) && SameClaimAttempt(s, s', a) && ReleasesAttempt(s, s', bs, a);
      assert ReleasesBatch(s, s', bs, s.attempts[a].batch);
    }
    forall w | w in s.work ensures EvolvesWork(s, s', w) {
      assert ReleasesWork(s, s', bs, w);
    }
  }

  lemma WorkOnlyEvolves(s: Tables, s': Tables)
    requires s'.attempts == s.attempts && s'.batches == s.batches && s'.publications == s.publications
    requires s.work.Keys <= s'.work.Keys
    requires forall w :: w in s.work ==>
      s'.work[w].spec == s.work[w].spec && s'.work[w].fence >= s.work[w].fence
      && s'.work[w].replayGeneration >= s.work[w].replayGeneration
    ensures Evolves(s, s')
  {
  }

  lemma ClaimEvolves(s: Tables, c: Claim)
    requires LeaseInv(s) && Claimable(s, c)
    ensures Evolves(s, ClaimTables(s, c))
  {
    var s' := ClaimTables(s, c);
    ClaimTablesClaim(s, c);
    forall w | w in s.work ensures EvolvesWork(s, s', w) {
      if w in c.selected { assert ClaimsRow(s, s', c, IndexOf(c.selected, w)); }
    }
    forall a | a in s'.attempts ensures NewFence(s, s', a) {
      if a !in s.attempts { assert ClaimsRow(s, s', c, IndexOf(c.attempts, a)); }
    }
  }

  lemma HeartbeatEvolves(s: Tables, env: ProcessEnvelope, extension: int, now: int)
    requires LeaseInv(s)
    ensures Evolves(s, Heartbeat(s, env, extension, now).tables)
  {
    if Heartbeat(s, env, extension, now).reply.Ok? {
      var b := s.batches[env.batch];
      var expires := if b.leaseExpires >= now + extension then b.leaseExpires else now + extension;
      var s' := HeartbeatTables(s, env, expires, now);
      HeartbeatRows(s, env, expires, now);
      forall a | a in s.attempts ensures EvolvesAttempt(s, s', a) { assert SameClaimAttempt(s, s', a); }
      forall c | c in s.batches ensures EvolvesBatch(s, s', c) { assert SameClaimBatch(s, s', c); }
      forall w | w in s.work ensures EvolvesWork(s, s', w) {}
    }
  }

  lemma SealEvolves(s: Tables, b: BatchId, outputs: seq<Output>, envelope: Envelope, membership: seq<ClaimItem>, now: int)
    requires LeaseInv(s) && BatchInv(s)
    ensures Evolves(s, Seal(s, b, outputs, envelope, membership, now).tables)
  {
    if Seal(s, b, outputs, envelope, membership, now).tables != s {
      var s' := SealTables(s, b, outputs, now);
      SealRows(s, b, outputs, now);
      forall a | a in s.attempts ensures EvolvesAttempt(s, s', a) { assert SameClaimAttempt(s, s', a); }
      forall c | c in s.batches ensures EvolvesBatch(s, s', c) { assert SameClaimBatch(s, s', c); }
    }
  }

  lemma CommitEvolves(s: Tables, b: BatchId, now: int)
    requires Inv(s)
    ensures Evolves(s, Commit(s, b, now).tables)
  {
    if Commit(s, b, now).tables != s {
      CommitTablesCommit(s, b, now);
      CommitReleases(s, CommitTables(s, b, now), b, Successes(s, b), now);
      ReleasesEvolve(s, CommitTables(s, b, now), {b});
    }
  }

  lemma AbandonEvolves(s: Tables, d: Abandonment, now: int)
    requires Inv(s)
    ensures Evolves(s, Abandon(s, d, now).tables)
  {
    if Abandon(s, d, now).reply == Ok(false) {
      AbandonReleases(s, d, now);
      ReleasesEvolve(s, AbandonTables(s, d, now), {d.batch});
    }
  }

  lemma RecoverEvolves(s: Tables, t: int)
    requires Inv(s)
    ensures Evolves(s, Recover(s, t).tables)
  {
    RecoverReleases(s, t);
    ReleasesEvolve(s, RecoverTables(s, t), OverdueBatches(s, t));
  }

  lemma RecoverExactEvolves(s: Tables, p: ExactClaim, t: int, skew: int, staged: bool)
    requires Inv(s)
    ensures Evolves(s, RecoverExact(s, p, t, skew, staged).tables)
  {
    RecoverExactKeeps(s, p, t, skew, staged);
    if RecoverExact(s, p, t, skew, staged).reply == Ok(false) { ReleasesEvolve(s, RecoverExactTables(s, p, t), {p.batch}); }
  }

  lemma QuarantineEvolves(s: Tables, es: seq<Expectation>, actor: string, explanation: string, now: int)
    ensures Evolves(s, Quarantine(s, es, actor, explanation, now).tables)
  {
    if Quarantine(s, es, actor, explanation, now).reply.Ok? { QuarantineRows(s, es, actor, explanation, now); }
    WorkOnlyEvolves(s, Quarantine(s, es, actor, explanation, now).tables);
  }

  lemma RegisterEvolves(s: Tables, requests: seq<Request>, release: Option<string>, now: int)
    ensures Evolves(s, Register(s, requests, release, now).tables)
  {
    WorkOnlyEvolves(s, Register(s, requests, release, now).tables);
  }

  lemma ReplayEvolves(s: Tables, w: WorkId, operator: string, reason: string, additional: int, id: ReplayId, now: int)
    ensures Evolves(s, ReplayWork(s, w, operator, reason, additional, id, now).tables)
  {
    WorkOnlyEvolves(s, ReplayWork(s, w, operator, reason, additional, id, now).tables);
  }

  lemma ReconcileEvolves(s: Tables, t: int)
    ensures Evolves(s, Reconcile(s, t).tables)
  {
  }

  lemma StepEvolves(s: Tables, op: Op)
    requires Inv(s) && Enabled(s, op)
    ensures Evolves(s, Apply(s, op))
  {
    match op {
      case Registers(requests, release, now) => RegisterEvolves(s, requests, release, now);
      case ClaimsWork(c) => ClaimEvolves(s, c);
      case Heartbeats(env, extension, now) => HeartbeatEvolves(s, env, extension, now);
      case Seals(b, outputs, envelope, membership, now) => SealEvolves(s, b, outputs, envelope, membership, now);
      case CommitsBatch(b, now) => CommitEvolves(s, b, now);
      case Abandons(d, now) => AbandonEvolves(s, d, now);
      case Recovers(t) => RecoverEvolves(s, t);
      case RecoversExactly(p, t, skew, staged) => RecoverExactEvolves(s, p, t, skew, staged);
      case Replays(w, operator, reason, additional, id, now) => ReplayEvolves(s, w, operator, reason, additional, id, now);
      case Quarantines(es, actor, explanation, now) => QuarantineEvolves(s, es, actor, explanation, now);
      case Reconciles(t) => ReconcileEvolves(s, t);
    }
  }

  /** Over any run: claims are never rewritten, terminal attempts and finished batches are frozen, publications are only
      appended, fences never fall, and every later attempt outranks every fence its work had before. */
  lemma {:induction false} RunEvolves(s: Tables, ops: seq<Op>)
    requires Inv(s) && RunEnabled(s, ops)
    ensures Evolves(s, Run(s, ops)) && Inv(Run(s, ops))
    decreases |ops|
  {
    if ops != [] {
      StepKeeps(s, ops[0]);
      StepEvolves(s, ops[0]);
      RunEvolves(Apply(s, ops[0]), ops[1..]);
      EvolvesTransitive(s, Apply(s, ops[0]), Run(Apply(s, ops[0]), ops[1..]));
    }
  }
}
