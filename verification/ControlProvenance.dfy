/** Where published outputs come from: what is published is what was sealed, and what was sealed is what a driver passed. */
module ControlProvenance {
  import opened Wrappers
  import opened Ordering
  import opened ControlTables
  import opened ControlSpec
  import opened ControlInvariant
  import opened ControlRuns
  import opened ControlEffects
  import opened ControlRefusals
  import ControlBatches
  import ControlPublishing

  // ---- seal, then seal again or commit ----

  /** Both list the same outputs, in any order. */
  predicate SameOutputs(xs: seq<Output>, ys: seq<Output>) {
    (forall i :: 0 <= i < |xs| ==> xs[i] in ys) && (forall i :: 0 <= i < |ys| ==> ys[i] in xs)
  }

  /** Once a batch is sealed, each of its attempts records its own output and there is no other output. */
  lemma SealRecords(s: Tables, b: BatchId, outputs: seq<Output>, envelope: Envelope, membership: seq<ClaimItem>, now: int)
    requires Inv(s) && b in s.batches && s.batches[b].status.Leased?
    requires Seal(s, b, outputs, envelope, membership, now).reply.Ok?
    ensures AfterSeal(s, Seal(s, b, outputs, envelope, membership, now).tables, b, outputs, now)
    ensures RecordedOutputs(Seal(s, b, outputs, envelope, membership, now).tables, b, outputs)
    ensures forall i, j :: 0 <= i < j < |outputs| ==> outputs[i].attempt != outputs[j].attempt
  {
    SealEffect(s, b, outputs, envelope, membership, now);
    SealAccepts(s, b, outputs, envelope, membership, now);
    SealCovers(s, Seal(s, b, outputs, envelope, membership, now).tables, b, outputs, now);
  }

  lemma SealCovers(s: Tables, s': Tables, b: BatchId, outputs: seq<Output>, now: int)
    requires BatchInv(s) && b in s.batches && CoversMembers(s, b, outputs) && AfterSeal(s, s', b, outputs, now)
    ensures RecordedOutputs(s', b, outputs)
  {
    PairsCover(s, b, outputs);
    ControlBatches.OutputsNameBatch(s, b, outputs);
    forall i | 0 <= i < |outputs|
      ensures outputs[i].attempt in s'.attempts && s'.attempts[outputs[i].attempt].batch == b
      ensures Recorded(s', outputs[i].attempt, outputs[i])
    {
      assert RecordsOutput(s, s', outputs[i], now) && AttemptsOf(outputs)[i] == outputs[i].attempt;
    }
    forall a | a in s'.attempts && s'.attempts[a].batch == b ensures exists i :: 0 <= i < |outputs| && Recorded(s', a, outputs[i]) {
      if forall i :: 0 <= i < |outputs| ==> outputs[i].attempt != a { assert s'.attempts[a] == s.attempts[a]; }
      var i := IndexOf(AttemptsOf(outputs), a);
      assert RecordsOutput(s, s', outputs[i], now);
    }
  }

  /** A sealed batch is sealed again, at any time and without effect, by the same outputs, and by no others. */
  lemma SealAgain(s: Tables, b: BatchId, outputs: seq<Output>, envelope: Envelope, membership: seq<ClaimItem>, now: int,
                  again: seq<Output>, later: int)
    requires Inv(s) && b in s.batches && s.batches[b].status.Leased?
    requires Seal(s, b, outputs, envelope, membership, now).reply.Ok?
    ensures var s' := Seal(s, b, outputs, envelope, membership, now).tables;
            Seal(s', b, again, envelope, membership, later) ==
            Outcome(s', if !OncePerItem(again) then Err(BatchValidation)
                        else if SameOutputs(again, outputs) then Ok(()) else Err(ImmutableConflict))
  {
    var s' := Seal(s, b, outputs, envelope, membership, now).tables;
    SealRecords(s, b, outputs, envelope, membership, now);
    SealAccepts(s', b, again, envelope, membership, later);
    SameIffRecorded(s', b, outputs, again);
  }

  lemma SameIffRecorded(s: Tables, b: BatchId, outputs: seq<Output>, again: seq<Output>)
    requires RecordedOutputs(s, b, outputs)
    ensures RecordedOutputs(s, b, again) <==> SameOutputs(again, outputs)
  {
    if RecordedOutputs(s, b, again) {
      forall i | 0 <= i < |again| ensures again[i] in outputs {
        var a := again[i].attempt;
        assert a in s.attempts && s.attempts[a].batch == b && Recorded(s, a, again[i]);
        var j :| 0 <= j < |outputs| && Recorded(s, a, outputs[j]);
        assert again[i] == outputs[j];
      }
      forall i | 0 <= i < |outputs| ensures outputs[i] in again {
        var a := outputs[i].attempt;
        assert a in s.attempts && s.attempts[a].batch == b && Recorded(s, a, outputs[i]);
        var j :| 0 <= j < |again| && Recorded(s, a, again[j]);
        assert again[j] == outputs[i];
      }
    }
    if SameOutputs(again, outputs) {
      forall a | a in s.attempts && s.attempts[a].batch == b ensures exists i :: 0 <= i < |again| && Recorded(s, a, again[i]) {
        var j :| 0 <= j < |outputs| && Recorded(s, a, outputs[j]);
        var i :| 0 <= i < |again| && again[i] == outputs[j];
      }
    }
  }

  /** The publication is of the output, under its own path and content digest. */
  predicate PublishesOutput(p: Publication, o: Output, b: BatchId, now: int) {
    && p.work == o.work && p.attempt == o.attempt && p.batch == b
    && p.outputPath == Some(o.path) && p.outputSha == Some(o.sha) && p.publishedAt == now
  }

  /** Publications from position `n` on are of exactly the successful outputs. */
  predicate PublishesSuccesses(publications: seq<Publication>, n: nat, outputs: seq<Output>, b: BatchId, now: int) {
    && (forall i :: 0 <= i < |outputs| && outputs[i].succeeded ==>
          exists k :: n <= k < |publications| && PublishesOutput(publications[k], outputs[i], b, now))
    && (forall k :: n <= k < |publications| ==>
          exists i :: 0 <= i < |outputs| && outputs[i].succeeded && PublishesOutput(publications[k], outputs[i], b, now))
  }

  /** Sealed and then committed in time, a batch publishes exactly its successful outputs, each under its own path and digest; the
      work of the others is dead if its attempts are used up and otherwise ready again. */
  lemma SealThenCommit(s: Tables, b: BatchId, outputs: seq<Output>, envelope: Envelope, membership: seq<ClaimItem>, now: int,
                       later: int)
    requires Inv(s) && b in s.batches && s.batches[b].status.Leased?
    requires Seal(s, b, outputs, envelope, membership, now).reply.Ok?
    ensures var s1 := Seal(s, b, outputs, envelope, membership, now).tables;
            var s2 := Commit(s1, b, later).tables;
            && (Commit(s1, b, later).reply.Ok? <==> later < s.batches[b].leaseExpires)
            && (Commit(s1, b, later).reply.Ok? ==>
                  && s.publications <= s2.publications
                  && PublishesSuccesses(s2.publications, |s.publications|, outputs, b, later)
                  && forall i :: 0 <= i < |outputs| && !outputs[i].succeeded ==>
                       && outputs[i].work in s.work && outputs[i].work in s2.work
                       && Retried(s.work[outputs[i].work], s2.work[outputs[i].work], ProcessingFailed, later))
  {
    var s1 := Seal(s, b, outputs, envelope, membership, now).tables;
    SealRecords(s, b, outputs, envelope, membership, now);
    ControlBatches.SealKeeps(s, b, outputs, envelope, membership, now);
    SealedCommits(s1, b, outputs, later);
  }

  lemma SealedCommits(s: Tables, b: BatchId, outputs: seq<Output>, later: int)
    requires Inv(s) && b in s.batches && s.batches[b].status.Sealed? && RecordedOutputs(s, b, outputs)
    ensures Commit(s, b, later).reply.Ok? <==> later < s.batches[b].leaseExpires
    ensures Commit(s, b, later).reply.Ok? ==>
      var s' := Commit(s, b, later).tables;
      && s.publications <= s'.publications && PublishesSuccesses(s'.publications, |s.publications|, outputs, b, later)
      && forall i :: 0 <= i < |outputs| && !outputs[i].succeeded ==>
           && outputs[i].work in s.work && outputs[i].work in s'.work
           && Retried(s.work[outputs[i].work], s'.work[outputs[i].work], ProcessingFailed, later)
  {
    InvIsWellFormed(s);
    CommitAccepts(s, b, later);
    SealedHolds(s, b);
    if Commit(s, b, later).reply.Ok? {
      CommitEffect(s, b, later);
      CommitsOutputs(s, Commit(s, b, later).tables, b, outputs, later);
    }
  }

  /** In a sealed batch every attempt is sealed and holds its work, and there are as many as the batch has items. */
  lemma SealedHolds(s: Tables, b: BatchId)
    requires Inv(s) && b in s.batches && s.batches[b].status.Sealed?
    ensures HoldsAll(s, b) && forall a :: a in s.attempts && s.attempts[a].batch == b ==> s.attempts[a].status.Sealed?
    ensures |(set a | a in s.attempts && s.attempts[a].batch == b)| == s.batches[b].itemCount
  {
    forall a | a in s.attempts && s.attempts[a].batch == b
      ensures HoldsWork(s, b, a, s.attempts[a].work) && s.attempts[a].status.Sealed?
    {
      assert AttemptRow(s, a) && LeaseRow(s, s.attempts[a].work);
    }
    AttemptsCounted(s, b);
  }

  lemma AttemptsCounted(s: Tables, b: BatchId)
    requires BatchInv(s) && b in s.batches
    ensures |(set a | a in s.attempts && s.attempts[a].batch == b)| == s.batches[b].itemCount
  {
    assert BatchRow(s, b);
    var ms := s.batches[b].membership;
    var ids := seq(|ms|, i requires 0 <= i < |ms| => ms[i].attempt);
    var own := set a | a in s.attempts && s.attempts[a].batch == b;
    assert Distinct(ids);
    forall a ensures a in own <==> exists i :: 0 <= i < |ids| && ids[i] == a {
      if i :| 0 <= i < |ids| && ids[i] == a { assert ms[i].attempt == a; }
      if a in own { var i :| 0 <= i < |ms| && ms[i].attempt == a; assert ids[i] == a; }
    }
    assert own == set i | 0 <= i < |ids| :: ids[i];
    ItemsCounted(ids);
  }

  lemma CommitsOutputs(s: Tables, s': Tables, b: BatchId, outputs: seq<Output>, now: int)
    requires AfterCommit(s, s', b, now) && RecordedOutputs(s, b, outputs)
    ensures PublishesSuccesses(s'.publications, |s.publications|, outputs, b, now)
    ensures forall i :: 0 <= i < |outputs| && !outputs[i].succeeded ==>
      && outputs[i].work in s.work && outputs[i].work in s'.work
      && Retried(s.work[outputs[i].work], s'.work[outputs[i].work], ProcessingFailed, now)
  {
    forall i | 0 <= i < |outputs| && outputs[i].succeeded
      ensures exists k :: |s.publications| <= k < |s'.publications| && PublishesOutput(s'.publications[k], outputs[i], b, now)
    {
      var a := outputs[i].attempt;
      assert Recorded(s, a, outputs[i]) && CommitsOne(s, s', a, now);
      var k :| |s.publications| <= k < |s'.publications| && Publishes(s, s', a, k, now);
      assert PublishesOutput(s'.publications[k], outputs[i], b, now);
    }
    forall k | |s.publications| <= k < |s'.publications|
      ensures exists i :: 0 <= i < |outputs| && outputs[i].succeeded && PublishesOutput(s'.publications[k], outputs[i], b, now)
    {
      assert NewPublication(s, s', b, k, now);
      var i :| 0 <= i < |outputs| && Recorded(s, s'.publications[k].attempt, outputs[i]);
      assert PublishesOutput(s'.publications[k], outputs[i], b, now);
    }
    forall i | 0 <= i < |outputs| && !outputs[i].succeeded
      ensures outputs[i].work in s.work && outputs[i].work in s'.work
      ensures Retried(s.work[outputs[i].work], s'.work[outputs[i].work], ProcessingFailed, now)
    {
      assert Recorded(s, outputs[i].attempt, outputs[i]) && CommitsOne(s, s', outputs[i].attempt, now);
    }
  }

  // ---- over a run ----

  /** Some seal of the run was passed the output for batch `b`. */
  ghost predicate Passed(ops: seq<Op>, b: BatchId, o: Output) {
    exists i :: 0 <= i < |ops| && ops[i].Seals? && ops[i].batch == b && o in ops[i].outputs
  }

  predicate Blank(row: Attempt) {
    row.outputPath.None? && row.outputSha.None? && row.terminalSucceeded.None? && row.records.None?
  }

  /** Attempt `a` records nothing, or an output that was passed for it. */
  ghost predicate TracedAttempt(s: Tables, ops: seq<Op>, a: AttemptId)
    requires a in s.attempts
  {
    || Blank(s.attempts[a])
    || exists o {:trigger Passed(ops, s.attempts[a].batch, o)} ::
         && Passed(ops, s.attempts[a].batch, o) && o.attempt == a && o.work == s.attempts[a].work
         && s.attempts[a].outputPath == Some(o.path) && s.attempts[a].outputSha == Some(o.sha)
         && s.attempts[a].terminalSucceeded == Some(o.succeeded) && s.attempts[a].records == Some(o.records)
  }

  ghost predicate Traced(s: Tables, ops: seq<Op>) {
    forall a {:trigger TracedAttempt(s, ops, a)} :: a in s.attempts ==> TracedAttempt(s, ops, a)
  }

  /** The attempt's claim and what it records stay. */
  predicate KeepsRecord(s: Tables, s': Tables, a: AttemptId)
    requires a in s'.attempts
  {
    if a in s.attempts then
      && s'.attempts[a].work == s.attempts[a].work && s'.attempts[a].batch == s.attempts[a].batch
      && s'.attempts[a].outputPath == s.attempts[a].outputPath && s'.attempts[a].outputSha == s.attempts[a].outputSha
      && s'.attempts[a].terminalSucceeded == s.attempts[a].terminalSucceeded && s'.attempts[a].records == s.attempts[a].records
    else Blank(s'.attempts[a])
  }

  ghost predicate KeepsRecords(s: Tables, s': Tables) {
    forall a {:trigger KeepsRecord(s, s', a)} :: a in s'.attempts ==> KeepsRecord(s, s', a)
  }

  lemma ClaimKeepsRecords(s: Tables, c: Claim)
    requires Claimable(s, c)
    ensures KeepsRecords(s, ClaimTables(s, c))
  {
  }

  lemma HeartbeatKeepsRecords(s: Tables, env: ProcessEnvelope, extension: int, now: int)
    ensures KeepsRecords(s, Heartbeat(s, env, extension, now).tables)
  {
  }

  lemma CommitKeepsRecords(s: Tables, b: BatchId, now: int)
    ensures KeepsRecords(s, Commit(s, b, now).tables)
  {
    if b in s.batches {
      var s' := CommitTables(s, b, now);
      forall a | a in s'.attempts ensures KeepsRecord(s, s', a) {
        assert s'.attempts[a] == CommittedAttempt(s.attempts[a], b);
      }
    }
  }

  lemma AbandonKeepsRecords(s: Tables, d: Abandonment, now: int)
    ensures KeepsRecords(s, Abandon(s, d, now).tables)
  {
  }

  lemma RecoverKeepsRecords(s: Tables, t: int)
    ensures KeepsRecords(s, Recover(s, t).tables)
  {
  }

  lemma RecoverExactKeepsRecords(s: Tables, p: ExactClaim, t: int, skew: int, staged: bool)
    ensures KeepsRecords(s, RecoverExact(s, p, t, skew, staged).tables)
  {
  }

  /** Only sealing changes what attempts record. */
  lemma StepKeepsRecords(s: Tables, op: Op)
    requires Enabled(s, op) && !op.Seals?
    ensures KeepsRecords(s, Apply(s, op))
  {
    match op {
      case Registers(_, _, _) =>
      case ClaimsWork(c) => ClaimKeepsRecords(s, c);
      case Heartbeats(env, extension, now) => HeartbeatKeepsRecords(s, env, extension, now);
      case CommitsBatch(b, now) => CommitKeepsRecords(s, b, now);
      case Abandons(d, now) => AbandonKeepsRecords(s, d, now);
      case Recovers(t) => RecoverKeepsRecords(s, t);
      case RecoversExactly(p, t, skew, staged) => RecoverExactKeepsRecords(s, p, t, skew, staged);
      case Replays(_, _, _, _, _, _) =>
      case Quarantines(_, _, _, _) =>
      case Reconciles(_) =>
    }
  }

  lemma PassedBefore(ops: seq<Op>, op: Op, b: BatchId, o: Output)
    requires Passed(ops, b, o) || (op.Seals? && op.batch == b && o in op.outputs)
    ensures Passed(ops + [op], b, o)
  {
    if Passed(ops, b, o) {
      var i :| 0 <= i < |ops| && ops[i].Seals? && ops[i].batch == b && o in ops[i].outputs;
      assert (ops + [op])[i] == ops[i];
    } else {
      assert (ops + [op])[|ops|] == op;
    }
  }

  lemma KeptIsTraced(s: Tables, s': Tables, ops: seq<Op>, op: Op, a: AttemptId)
    requires Traced(s, ops) && a in s'.attempts && KeepsRecord(s, s', a)
    ensures TracedAttempt(s', ops + [op], a)
  {
    if a in s.attempts && !Blank(s.attempts[a]) {
      assert TracedAttempt(s, ops, a);
      var o :| Passed(ops, s.attempts[a].batch, o) && o.attempt == a && o.work == s.attempts[a].work
        && s.attempts[a].outputPath == Some(o.path) && s.attempts[a].outputSha == Some(o.sha)
        && s.attempts[a].terminalSucceeded == Some(o.succeeded) && s.attempts[a].records == Some(o.records);
      PassedBefore(ops, op, s.attempts[a].batch, o);
    }
  }

  lemma AllKept(s: Tables, s': Tables, ops: seq<Op>, op: Op)
    requires Traced(s, ops) && KeepsRecords(s, s')
    ensures Traced(s', ops + [op])
  {
    forall a | a in s'.attempts ensures TracedAttempt(s', ops + [op], a) { KeptIsTraced(s, s', ops, op, a); }
  }

  lemma SealIsTraced(s: Tables, ops: seq<Op>, op: Op)
    requires Inv(s) && Traced(s, ops) && op.Seals?
    ensures Traced(Seal(s, op.batch, op.outputs, op.envelope, op.membership, op.now).tables, ops + [op])
  {
    var s' := Seal(s, op.batch, op.outputs, op.envelope, op.membership, op.now).tables;
    if s' == s {
      AllKept(s, s', ops, op);
    } else {
      SealRecords(s, op.batch, op.outputs, op.envelope, op.membership, op.now);
      forall a | a in s'.attempts ensures TracedAttempt(s', ops + [op], a) { SealedIsTraced(s, s', ops, op, a); }
    }
  }

  lemma SealedIsTraced(s: Tables, s': Tables, ops: seq<Op>, op: Op, a: AttemptId)
    requires Traced(s, ops) && op.Seals? && a in s'.attempts
    requires AfterSeal(s, s', op.batch, op.outputs, op.now) && RecordedOutputs(s', op.batch, op.outputs)
    ensures TracedAttempt(s', ops + [op], a)
  {
    if i :| 0 <= i < |op.outputs| && op.outputs[i].attempt == a {
      var o := op.outputs[i];
      assert RecordsOutput(s, s', o, op.now) && Recorded(s', a, o);
      PassedBefore(ops, op, op.batch, o);
    } else {
      KeptIsTraced(s, s', ops, op, a);
    }
  }

  lemma {:induction false} RunIsTraced(s: Tables, done: seq<Op>, ops: seq<Op>)
    requires Inv(s) && Traced(s, done) && RunEnabled(s, ops)
    ensures Inv(Run(s, ops)) && Traced(Run(s, ops), done + ops)
    decreases |ops|
  {
    OneByOne(done, ops);
    if ops != [] {
      StepIsTraced(s, done, ops[0]);
      RunIsTraced(Apply(s, ops[0]), done + [ops[0]], ops[1..]);
    }
  }

  lemma OneByOne(done: seq<Op>, ops: seq<Op>)
    ensures ops == [] ==> done + ops == done
    ensures ops != [] ==> done + ops == (done + [ops[0]]) + ops[1..]
  {
  }

  lemma StepIsTraced(s: Tables, done: seq<Op>, op: Op)
    requires Inv(s) && Traced(s, done) && Enabled(s, op)
    ensures Inv(Apply(s, op)) && Traced(Apply(s, op), done + [op])
  {
    StepKeeps(s, op);
    if op.Seals? {
      SealIsTraced(s, done, op);
    } else {
      StepKeepsRecords(s, op);
      AllKept(s, Apply(s, op), done, op);
    }
  }

  /** Whatever is published, after any run, was passed to a seal of the run as a success of that work, attempt and batch, under
      that path and digest. */
  lemma PublishedWasPassed(ops: seq<Op>, k: nat)
    requires RunEnabled(EMPTY, ops) && k < |Run(EMPTY, ops).publications|
    ensures var p := Run(EMPTY, ops).publications[k];
            exists o :: Passed(ops, p.batch, o) && o.succeeded && PublishesOutput(p, o, p.batch, p.publishedAt)
  {
    EmptyHolds();
    RunIsTraced(EMPTY, [], ops);
    assert [] + ops == ops;
    var s := Run(EMPTY, ops);
    var a := s.publications[k].attempt;
    assert PublicationRow(s, k) && AttemptRow(s, a) && TracedAttempt(s, ops, a);
  }
}
