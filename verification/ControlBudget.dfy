/** Attempt budgets: when a work item stays within its budget, when it does not, and by how much. */
module ControlBudget {
  import opened Wrappers
  import opened Ordering
  import opened ControlTables
  import opened ControlSpec
  import opened ControlInvariant
  import opened ControlBatches
  import opened ControlPublishing
  import opened ControlRuns

  // ---- abandons ----

  /** How many steps of a run abandoned a claim that held work `w`. */
  ghost function AbandonCount(s: Tables, ops: seq<Op>, w: WorkId): nat
    requires RunEnabled(s, ops)
    decreases |ops|
  {
    if ops == [] then 0
    else (if AbandonsWork(s, ops[0], w) then 1 else 0) + AbandonCount(Apply(s, ops[0]), ops[1..], w)
  }

  ghost predicate AbandonsWork(s: Tables, op: Op, w: WorkId) {
    && op.Abandons? && Abandon(s, op.abandonment, op.now).reply == Ok(false)
    && w in s.work && HeldBy(s, op.abandonment.batch, w)
  }

  ghost function Surplus(s: Tables, w: WorkId): int {
    if w in s.work then s.work[w].fence - s.work[w].attemptCount else 0
  }

  // ---- keeping within the budget ----

  /** Work `w` has been attempted no more often than its budget, and can be claimed only with budget left. */
  ghost predicate Within(s: Tables, w: WorkId) {
    w in s.work ==>
      var row := s.work[w];
      row.attemptCount <= row.maxAttempts && (row.status.Ready? ==> row.attemptCount < row.maxAttempts)
  }

  /** The step abandons `w` while its attempts are used up. */
  ghost predicate Overspends(s: Tables, op: Op, w: WorkId) {
    AbandonsWork(s, op, w) && s.work[w].attemptCount >= s.work[w].maxAttempts
  }

  /** By how much the attempts of `w` exceed its budget, counting the attempt a claimable item is about to get. */
  function Excess(s: Tables, w: WorkId): nat {
    if w !in s.work then 0
    else
      var row := s.work[w];
      var over := row.attemptCount + (if row.status.Ready? then 1 else 0) - row.maxAttempts;
      if over > 0 then over else 0
  }

  lemma WithinIsNoExcess(s: Tables, w: WorkId)
    ensures Within(s, w) <==> Excess(s, w) == 0
  {
  }

  /** What a step may do to the budget of `w`: an abandon alone moves the fence without counting an attempt, and an abandon
      with the attempts used up alone takes the item further over its budget. */
  ghost predicate Spends(s: Tables, s': Tables, w: WorkId, abandoned: bool) {
    var over := abandoned && w in s.work && s.work[w].attemptCount >= s.work[w].maxAttempts;
    && Surplus(s', w) == Surplus(s, w) + (if abandoned then 1 else 0)
    && (if over then Excess(s', w) == Excess(s, w) + 1 else Excess(s', w) <= Excess(s, w))
  }

  lemma StepSpends(s: Tables, op: Op, w: WorkId)
    requires Inv(s) && Enabled(s, op)
    ensures Spends(s, Apply(s, op), w, AbandonsWork(s, op, w))
  {
    match op {
      case Registers(requests, release, now) => RegisterSpends(s, requests, release, now, w);
      case ClaimsWork(c) => ClaimSpends(s, c, w);
      case Heartbeats(env, extension, now) => HeartbeatSpends(s, env, extension, now, w);
      case Seals(b, outputs, envelope, membership, now) => SealSpends(s, b, outputs, envelope, membership, now, w);
      case CommitsBatch(b, now) => CommitSpends(s, b, now, w);
      case Abandons(d, now) => AbandonSpends(s, d, now, w);
      case Recovers(t) => RecoverSpends(s, t, w);
      case RecoversExactly(p, t, skew, staged) => RecoverExactSpends(s, p, t, skew, staged, w);
      case Replays(v, operator, reason, additional, id, now) => ReplaySpends(s, v, operator, reason, additional, id, now, w);
      case Quarantines(es, actor, explanation, now) => QuarantineSpends(s, es, actor, explanation, now, w);
      case Reconciles(t) =>
    }
  }

  lemma RegisterSpends(s: Tables, requests: seq<Request>, release: Option<string>, now: int, w: WorkId)
    ensures Spends(s, Register(s, requests, release, now).tables, w, false)
  {
  }

  lemma ClaimSpends(s: Tables, c: Claim, w: WorkId)
    requires Claimable(s, c)
    ensures Spends(s, ClaimTables(s, c), w, false)
  {
    var s' := ClaimTables(s, c);
    if w in c.selected {
      LeasedSpends(s, s', w);
    } else {
      KeptSpends(s, s', w);
    }
  }

  lemma LeasedSpends(s: Tables, s': Tables, w: WorkId)
    requires w in s.work && w in s'.work && s.work[w].status.Ready? && s'.work[w].status.Leased?
    requires s'.work[w].attemptCount == s.work[w].attemptCount + 1 && s'.work[w].fence == s.work[w].fence + 1
    requires s'.work[w].maxAttempts == s.work[w].maxAttempts
    ensures Spends(s, s', w, false)
  {
  }

  lemma HeartbeatSpends(s: Tables, env: ProcessEnvelope, extension: int, now: int, w: WorkId)
    ensures Spends(s, Heartbeat(s, env, extension, now).tables, w, false)
  {
  }

  lemma SealSpends(s: Tables, b: BatchId, outputs: seq<Output>, envelope: Envelope, membership: seq<ClaimItem>, now: int, w: WorkId)
    ensures Spends(s, Seal(s, b, outputs, envelope, membership, now).tables, w, false)
  {
  }

  /** The step leaves the counts of `row` alone and makes it claimable only with attempts left. */
  predicate KeepsCounts(row: Work, row': Work) {
    && row'.attemptCount == row.attemptCount && row'.maxAttempts == row.maxAttempts && row'.fence == row.fence
    && (row'.status.Ready? ==> row.status.Ready? || row.attemptCount < row.maxAttempts)
  }

  lemma KeptSpends(s: Tables, s': Tables, w: WorkId)
    requires w in s.work <==> w in s'.work
    requires w in s.work ==> KeepsCounts(s.work[w], s'.work[w])
    ensures Spends(s, s', w, false)
  {
  }

  lemma CommitSpends(s: Tables, b: BatchId, now: int, w: WorkId)
    ensures Spends(s, Commit(s, b, now).tables, w, false)
  {
    var s' := Commit(s, b, now).tables;
    if s' != s && w in s.work {
      CommittedKeeps(s, b, Successes(s, b), MaxSequence(s.publications), now, w);
    }
    KeptSpends(s, s', w);
  }

  lemma CommittedKeeps(s: Tables, b: BatchId, succ: seq<AttemptId>, base: int, now: int, w: WorkId)
    requires w in s.work
    ensures KeepsCounts(s.work[w], CommittedWork(s, b, succ, base, now, w))
  {
  }

  lemma AbandonSpends(s: Tables, d: Abandonment, now: int, w: WorkId)
    requires Inv(s)
    ensures Spends(s, Abandon(s, d, now).tables, w, AbandonsWork(s, Abandons(d, now), w))
  {
    if Abandon(s, d, now).reply == Ok(false) {
      var s' := AbandonTables(s, d, now);
      AbandonRows(s, d, now);
      if w in s.work {
        assert LeaseRow(s, w);
        GivenUpSpends(s, s', d, now, w);
      }
    }
  }

  lemma GivenUpSpends(s: Tables, s': Tables, d: Abandonment, now: int, w: WorkId)
    requires w in s.work && w in s'.work && LeaseRow(s, w)
    requires s'.work[w] == if HeldBy(s, d.batch, w)
             then AbandonedRow(s.work[w], Abandoned(d.operator, d.reason, d.job), now) else s.work[w]
    ensures Spends(s, s', w, HeldBy(s, d.batch, w))
  {
  }

  lemma RecoverSpends(s: Tables, t: int, w: WorkId)
    ensures Spends(s, Recover(s, t).tables, w, false)
  {
  }

  lemma RecoverExactSpends(s: Tables, p: ExactClaim, t: int, skew: int, staged: bool, w: WorkId)
    ensures Spends(s, RecoverExact(s, p, t, skew, staged).tables, w, false)
  {
  }

  lemma ReplaySpends(s: Tables, v: WorkId, operator: string, reason: string, additional: int, id: ReplayId, now: int, w: WorkId)
    ensures Spends(s, ReplayWork(s, v, operator, reason, additional, id, now).tables, w, false)
  {
  }

  lemma QuarantineSpends(s: Tables, es: seq<Expectation>, actor: string, explanation: string, now: int, w: WorkId)
    ensures Spends(s, Quarantine(s, es, actor, explanation, now).tables, w, false)
  {
    if Quarantine(s, es, actor, explanation, now).reply.Ok? {
      var s' := QuarantineTables(s, es, actor, explanation, now);
      QuarantineRows(s, es, actor, explanation, now);
      KeptSpends(s, s', w);
    }
  }

  /** A step takes a work item out of its budget exactly if it abandons it with its attempts used up. */
  lemma BudgetStep(s: Tables, op: Op, w: WorkId)
    requires Inv(s) && Enabled(s, op) && Within(s, w)
    ensures Within(Apply(s, op), w) <==> !Overspends(s, op, w)
  {
    StepSpends(s, op, w);
    WithinIsNoExcess(s, w);
    WithinIsNoExcess(Apply(s, op), w);
  }

  /** Work `w` is within its budget in every state of the run. */
  ghost predicate AlwaysWithin(s: Tables, ops: seq<Op>, w: WorkId)
    requires RunEnabled(s, ops)
    decreases |ops|
  {
    Within(s, w) && (ops != [] ==> AlwaysWithin(Apply(s, ops[0]), ops[1..], w))
  }

  /** How many steps of the run abandoned `w` with its attempts used up. */
  ghost function OverspendCount(s: Tables, ops: seq<Op>, w: WorkId): (n: nat)
    requires RunEnabled(s, ops)
    decreases |ops|
  {
    if ops == [] then 0
    else (if Overspends(s, ops[0], w) then 1 else 0) + OverspendCount(Apply(s, ops[0]), ops[1..], w)
  }

  lemma {:induction false} OverspendsAreAbandons(s: Tables, ops: seq<Op>, w: WorkId)
    requires RunEnabled(s, ops)
    ensures OverspendCount(s, ops, w) <= AbandonCount(s, ops, w)
    decreases |ops|
  {
    if ops != [] { OverspendsAreAbandons(Apply(s, ops[0]), ops[1..], w); }
  }

  lemma {:induction false} SurplusRun(s: Tables, ops: seq<Op>, w: WorkId)
    requires Inv(s) && RunEnabled(s, ops)
    ensures Surplus(Run(s, ops), w) == Surplus(s, w) + AbandonCount(s, ops, w)
    decreases |ops|
  {
    if ops != [] {
      StepKeeps(s, ops[0]);
      StepSpends(s, ops[0], w);
      SurplusRun(Apply(s, ops[0]), ops[1..], w);
    }
  }

  lemma {:induction false} ExcessRun(s: Tables, ops: seq<Op>, w: WorkId)
    requires Inv(s) && RunEnabled(s, ops)
    ensures Excess(Run(s, ops), w) <= Excess(s, w) + OverspendCount(s, ops, w)
    decreases |ops|
  {
    if ops != [] {
      StepKeeps(s, ops[0]);
      StepSpends(s, ops[0], w);
      ExcessRun(Apply(s, ops[0]), ops[1..], w);
    }
  }

  lemma {:induction false} WithinRun(s: Tables, ops: seq<Op>, w: WorkId)
    requires Inv(s) && RunEnabled(s, ops) && Within(s, w)
    ensures AlwaysWithin(s, ops, w) <==> OverspendCount(s, ops, w) == 0
    decreases |ops|
  {
    if ops != [] {
      StepKeeps(s, ops[0]);
      BudgetStep(s, ops[0], w);
      if Within(Apply(s, ops[0]), w) { WithinRun(Apply(s, ops[0]), ops[1..], w); }
    }
  }

  /** From the empty store a work item stays within its budget throughout exactly if it is never abandoned with its
      attempts used up. */
  lemma BudgetKeptIff(ops: seq<Op>, w: WorkId)
    requires RunEnabled(EMPTY, ops)
    ensures AlwaysWithin(EMPTY, ops, w) <==> OverspendCount(EMPTY, ops, w) == 0
  {
    EmptyHolds();
    WithinRun(EMPTY, ops, w);
  }

  /** In every case each attempt over the budget is paid for by an abandon made with the attempts used up. */
  lemma AttemptBudget(ops: seq<Op>, w: WorkId)
    requires RunEnabled(EMPTY, ops) && w in Run(EMPTY, ops).work
    ensures var row, over := Run(EMPTY, ops).work[w], OverspendCount(EMPTY, ops, w);
            && row.attemptCount == |AttemptsOfWork(Run(EMPTY, ops), w)|
            && row.attemptCount <= row.maxAttempts + over
            && (row.status.Ready? ==> row.attemptCount < row.maxAttempts + over)
            && over <= AbandonCount(EMPTY, ops, w)
            && row.fence == row.attemptCount + AbandonCount(EMPTY, ops, w)
  {
    EmptyHolds();
    RunKeeps(EMPTY, ops);
    ExcessRun(EMPTY, ops, w);
    OverspendsAreAbandons(EMPTY, ops, w);
    SurplusRun(EMPTY, ops, w);
    assert BudgetRow(Run(EMPTY, ops), w);
  }

  // ---- a run that leaves the budget ----

  const SPEC := WorkSpec("p", 0, 1.0, "c", "r", 1)
  const LEASED_ONCE := Claim.Claim("driver", 0, 1, 10, 0, [0], [0])
  const LEASED_TWICE := Claim.Claim("driver", 0, 3, 10, 1, [0], [1])
  const ITEM := ClaimItem(0, 0, 1, "p")
  const GIVEN_UP := Abandonment(0, "driver", Envelope(0, "driver", 0, 1, 11, [ITEM]), "job", "operator", "reason", false)

  /** One item with a budget of one attempt is registered, claimed, abandoned and claimed again. */
  const FIRST := Registers([Request(0, SPEC, None)], None, 0)
  const OVERSPENDING_RUN := [FIRST, ClaimsWork(LEASED_ONCE), Abandons(GIVEN_UP, 2), ClaimsWork(LEASED_TWICE)]

  const READY_ROW := NewWork(Request(0, SPEC, None), 0)
  const REGISTERED := EMPTY.(work := map[0 := READY_ROW])
  const LEASED_ROW := LeasedRow(READY_ROW, LEASED_ONCE, 0)
  const CLAIMED := REGISTERED.(work := map[0 := LEASED_ROW], attempts := map[0 := NewAttempt(ITEM, LEASED_ONCE)],
                               batches := map[0 := NewBatch([ITEM], LEASED_ONCE)], members := {Member(0, 0, ITEM)})
  ghost const ABANDONED := AbandonTables(CLAIMED, GIVEN_UP, 2)

  /** The operation takes the first tables to the second. */
  ghost predicate Passes(s: Tables, op: Op, s': Tables) {
    Enabled(s, op) && Apply(s, op) == s'
  }

  lemma RegistersOne()
    ensures Passes(EMPTY, FIRST, REGISTERED)
  {
    var requests := [Request(0, SPEC, None)];
    assert Ids(requests) == [0] && Ids(requests)[0] == 0;
    assert FirstRequest(requests, 0) == requests[0];
    assert RegisteredRows(map[], requests, 0) == map[0 := READY_ROW];
  }

  lemma ClaimsOnce()
    ensures Passes(REGISTERED, ClaimsWork(LEASED_ONCE), CLAIMED)
  {
    var s' := ClaimTables(REGISTERED, LEASED_ONCE);
    assert ClaimedItem(REGISTERED, LEASED_ONCE, 0) == ITEM;
    assert ClaimItems(REGISTERED, LEASED_ONCE) == [ITEM];
    assert 0 in LEASED_ONCE.selected && 0 in LEASED_ONCE.attempts;
    assert s'.work == CLAIMED.work;
    assert s'.attempts == CLAIMED.attempts;
    assert s'.members == CLAIMED.members;
  }

  lemma OneItem(items: seq<ClaimItem>)
    requires |items| == 1
    ensures (set i | 0 <= i < |items| :: items[i]) == {items[0]}
  {
  }

  lemma ItVerifies()
    ensures VerifyProcessBatch(CLAIMED, Verified(0, GIVEN_UP.envelope)).Ok?
  {
    assert BatchAttempts(CLAIMED, 0) == {0};
    assert BatchItems(CLAIMED, 0) == {ITEM};
    OneItem(GIVEN_UP.envelope.items);
  }

  lemma NotBlank()
    ensures NonBlank("driver") && NonBlank("operator") && NonBlank("reason") && NonBlank("job")
  {
    assert "driver"[0] == 'd' && "operator"[0] == 'o' && "reason"[0] == 'r' && "job"[0] == 'j';
  }

  lemma AbandonsIt()
    ensures Passes(CLAIMED, Abandons(GIVEN_UP, 2), ABANDONED)
    ensures Overspends(CLAIMED, Abandons(GIVEN_UP, 2), 0)
  {
    NotBlank();
    ItVerifies();
    NothingProduced();
    assert HeldBy(CLAIMED, 0, 0);
  }

  lemma NothingProduced()
    ensures AbandonError(CLAIMED, GIVEN_UP.owner, GIVEN_UP.envelope.items).None?
  {
    assert AbandonItemError(CLAIMED, "driver", ITEM).None?;
  }

  lemma ClaimsAgain()
    ensures Claimable(ABANDONED, LEASED_TWICE)
    ensures var s := ClaimTables(ABANDONED, LEASED_TWICE);
            0 in s.work && s.work[0].attemptCount == 2 && s.work[0].maxAttempts == 1
  {
    assert GIVEN_UP.envelope.items[0].work == 0;
    assert NamesWork(GIVEN_UP.envelope.items, 0);
    assert ABANDONED.work[0] == AbandonedRow(LEASED_ROW, Abandoned("operator", "reason", "job"), 2);
  }

  lemma FirstStep(s: Tables, op: Op, rest: seq<Op>, w: WorkId)
    requires Enabled(s, op) && RunEnabled(Apply(s, op), rest)
    ensures RunEnabled(s, [op] + rest) && Run(s, [op] + rest) == Run(Apply(s, op), rest)
    ensures OverspendCount(s, [op] + rest, w)
            == (if Overspends(s, op, w) then 1 else 0) + OverspendCount(Apply(s, op), rest, w)
  {
    var ops := [op] + rest;
    assert ops[0] == op && ops[1..] == rest;
  }

  lemma FourSteps(s0: Tables, a: Op, s1: Tables, b: Op, s2: Tables, c: Op, s3: Tables, d: Op, s4: Tables, w: WorkId)
    requires Passes(s0, a, s1) && Passes(s1, b, s2) && Passes(s2, c, s3) && Passes(s3, d, s4)
    ensures RunEnabled(s0, [a, b, c, d]) && Run(s0, [a, b, c, d]) == s4
    ensures Overspends(s2, c, w) ==> OverspendCount(s0, [a, b, c, d], w) >= 1
  {
    FirstStep(s3, d, [], w);
    FirstStep(s2, c, [d] + [], w);
    FirstStep(s1, b, [c] + ([d] + []), w);
    FirstStep(s0, a, [b] + ([c] + ([d] + [])), w);
    assert [a, b, c, d] == [a] + ([b] + ([c] + ([d] + [])));
  }

  /** The code claims an item with a budget of one a second time after an operator's abandon. */
  lemma BudgetCanBeExceeded()
    ensures RunEnabled(EMPTY, OVERSPENDING_RUN)
    ensures 0 in Run(EMPTY, OVERSPENDING_RUN).work
    ensures Run(EMPTY, OVERSPENDING_RUN).work[0].attemptCount == 2 && Run(EMPTY, OVERSPENDING_RUN).work[0].maxAttempts == 1
    ensures !AlwaysWithin(EMPTY, OVERSPENDING_RUN, 0)
  {
    RegistersOne();
    ClaimsOnce();
    AbandonsIt();
    ClaimsAgain();
    FourSteps(EMPTY, FIRST, REGISTERED, ClaimsWork(LEASED_ONCE), CLAIMED, Abandons(GIVEN_UP, 2), ABANDONED,
              ClaimsWork(LEASED_TWICE), ClaimTables(ABANDONED, LEASED_TWICE), 0);
    BudgetKeptIff(OVERSPENDING_RUN, 0);
  }
}
