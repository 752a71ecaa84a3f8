/** The loops that take work back: recover, replay and abandon. */
module RecoveryLoops {
  import opened Wrappers
  import opened Ordering
  import opened ControlTables
  import opened ControlSpec

  // ---- recover ----

  /** Work row `w` while `todo` is still to be recovered. */
  ghost predicate RecoveredSoFar(rows: map<WorkId, Work>, s: Tables, todo: set<WorkId>, t: int, w: WorkId)
    requires w in s.work
  {
    w in rows && rows[w] == if w in todo then s.work[w] else RecoveredWork(s.work[w], t)
  }

  /** Attempt row `a` while the works of `todo` are still to be recovered. */
  ghost predicate ReleasedSoFar(rows: map<AttemptId, Attempt>, s: Tables, todo: set<WorkId>, t: int, a: AttemptId)
    requires a in s.attempts
  {
    a in rows && rows[a] == if s.attempts[a].work in todo then s.attempts[a] else RecoveredAttempt(s, a, t)
  }

  ghost predicate RecoveredUpTo(s: Tables, t: int, todo: set<WorkId>, work: map<WorkId, Work>, attempts: map<AttemptId, Attempt>) {
    && work.Keys == s.work.Keys && attempts.Keys == s.attempts.Keys
    && (forall w {:trigger RecoveredSoFar(work, s, todo, t, w)} :: w in s.work ==> RecoveredSoFar(work, s, todo, t, w))
    && (forall a {:trigger ReleasedSoFar(attempts, s, todo, t, a)} :: a in s.attempts ==> ReleasedSoFar(attempts, s, todo, t, a))
  }

  /** Takes back the lease of `w` if it is overdue, and says what became of it. */
  method RecoverOne(s: Tables, t: int, todo: set<WorkId>, w: WorkId, work: map<WorkId, Work>, attempts: map<AttemptId, Attempt>)
    returns (work': map<WorkId, Work>, attempts': map<AttemptId, Attempt>, outcome: Option<WorkStatus>)
    requires WellFormed(s) && w in todo && w in s.work && RecoveredUpTo(s, t, todo, work, attempts)
    ensures RecoveredUpTo(s, t, todo - {w}, work', attempts')
    ensures outcome.Some? <==> w in OverdueWorks(s, t)
    ensures outcome == Some(WorkStatus.Dead) <==> w in DoomedWorks(s, t)
  {
    assert WorkLinked(s, w) && RecoveredSoFar(work, s, todo, t, w);
    var row := work[w];
    work', attempts', outcome := work, attempts, None;
    if row.status.Leased? && row.leaseExpires.value <= t {
      outcome := Some(RetryStatus(row));
      if row.leaseAttempt.Some? {
        var a := row.leaseAttempt.value;
        assert ReleasedSoFar(attempts, s, todo, t, a);
        if Active(attempts[a]) {
          attempts' := attempts[a := attempts[a].(status := AttemptStatus.Expired, recoveryOutcome := outcome)];
        }
      }
      work' := work[w := RecoveredRow(row, t)];
    }
    forall v | v in s.work ensures RecoveredSoFar(work', s, todo - {w}, t, v) {
      assert RecoveredSoFar(work, s, todo, t, v);
    }
    forall a | a in s.attempts ensures ReleasedSoFar(attempts', s, todo - {w}, t, a) {
      assert ReleasedSoFar(attempts, s, todo, t, a);
    }
  }

  function DoomedWorks(s: Tables, t: int): set<WorkId> {
    set w | w in OverdueWorks(s, t) && RetryStatus(s.work[w]).Dead?
  }

  /** The counters once only `todo` is left. */
  ghost predicate Counted(s: Tables, t: int, todo: set<WorkId>, retried: nat, dead: nat) {
    retried + dead == |OverdueWorks(s, t) - todo| && dead == |DoomedWorks(s, t) - todo|
  }

  lemma CountNone(s: Tables, t: int)
    ensures Counted(s, t, s.work.Keys, 0, 0)
  {
  }

  lemma CountStep(s: Tables, t: int, todo: set<WorkId>, w: WorkId, retried: nat, dead: nat)
    requires w in todo && Counted(s, t, todo, retried, dead)
    ensures w in DoomedWorks(s, t) ==> Counted(s, t, todo - {w}, retried, dead + 1)
    ensures w in OverdueWorks(s, t) && w !in DoomedWorks(s, t) ==> Counted(s, t, todo - {w}, retried + 1, dead)
    ensures w !in OverdueWorks(s, t) ==> Counted(s, t, todo - {w}, retried, dead)
  {
    CountOne(OverdueWorks(s, t), todo, w);
    CountOne(DoomedWorks(s, t), todo, w);
  }

  lemma CountAll(s: Tables, t: int, retried: nat, dead: nat)
    requires Counted(s, t, {}, retried, dead)
    ensures retried + dead == |OverdueWorks(s, t)| && dead == |DoomedWorks(s, t)|
  {
  }

  method RecoverEach(s: Tables, t: int)
    returns (work: map<WorkId, Work>, attempts: map<AttemptId, Attempt>, retried: nat, dead: nat)
    requires WellFormed(s)
    ensures RecoveredUpTo(s, t, {}, work, attempts) && Counted(s, t, {}, retried, dead)
  {
    work, attempts, retried, dead := s.work, s.attempts, 0, 0;
    var todo := s.work.Keys;
    RecoveredNone(s, t);
    CountNone(s, t);
    while todo != {}
      invariant todo <= s.work.Keys
      invariant RecoveredUpTo(s, t, todo, work, attempts) && Counted(s, t, todo, retried, dead)
      decreases |todo|
    {
      var w :| w in todo;
      CountStep(s, t, todo, w, retried, dead);
      var outcome;
      work, attempts, outcome := RecoverOne(s, t, todo, w, work, attempts);
      if outcome == Some(WorkStatus.Dead) {
        dead := dead + 1;
      } else if outcome.Some? {
        retried := retried + 1;
      }
      todo := todo - {w};
    }
  }

  method RecoverRows(s: Tables, t: int)
    returns (work: map<WorkId, Work>, attempts: map<AttemptId, Attempt>, retried: nat, dead: nat)
    requires WellFormed(s)
    ensures work == RecoverTables(s, t).work && attempts == RecoverTables(s, t).attempts
    ensures retried + dead == |OverdueWorks(s, t)| && dead == |DoomedWorks(s, t)|
  {
    work, attempts, retried, dead := RecoverEach(s, t);
    CountAll(s, t, retried, dead);
    RecoveredAll(s, t, work, attempts);
  }

  lemma RecoveredNone(s: Tables, t: int)
    requires WellFormed(s)
    ensures RecoveredUpTo(s, t, s.work.Keys, s.work, s.attempts)
  {
  }

  lemma RecoveredAll(s: Tables, t: int, work: map<WorkId, Work>, attempts: map<AttemptId, Attempt>)
    requires RecoveredUpTo(s, t, {}, work, attempts)
    ensures work == RecoverTables(s, t).work && attempts == RecoverTables(s, t).attempts
  {
    forall w | w in s.work ensures work[w] == RecoveredWork(s.work[w], t) {
      assert RecoveredSoFar(work, s, {}, t, w);
    }
    forall a | a in s.attempts ensures attempts[a] == RecoveredAttempt(s, a, t) {
      assert ReleasedSoFar(attempts, s, {}, t, a);
    }
  }

  method RecoverBatches(batches: map<BatchId, Batch>, t: int) returns (rows: map<BatchId, Batch>)
    ensures rows == map b | b in batches :: RecoveredBatch(batches[b], t)
  {
    rows := batches;
    var todo := batches.Keys;
    while todo != {}
      invariant todo <= batches.Keys && rows.Keys == batches.Keys
      invariant forall b :: b in batches ==> rows[b] == if b in todo then batches[b] else RecoveredBatch(batches[b], t)
      decreases |todo|
    {
      var b :| b in todo;
      todo := todo - {b};
      if ActiveBatch(rows[b]) && rows[b].leaseExpires <= t { rows := rows[b := rows[b].(status := BatchStatus.Expired)]; }
    }
  }

  lemma RecoverWellFormed(s: Tables, t: int)
    requires WellFormed(s)
    ensures WellFormed(RecoverTables(s, t))
  {
    var s' := RecoverTables(s, t);
    forall w | w in s'.work ensures WorkLinked(s', w) {
      assert WorkLinked(s, w);
    }
  }

  lemma RecoverExactWellFormed(s: Tables, p: ExactClaim, t: int)
    requires WellFormed(s) && p.work in s.work && p.batch in s.batches && p.attempt in s.attempts
    ensures WellFormed(RecoverExactTables(s, p, t))
  {
    var s' := RecoverExactTables(s, p, t);
    forall w | w in s'.work ensures WorkLinked(s', w) {
      assert WorkLinked(s, w);
    }
  }

  // ---- replay ----

  lemma ReplayWellFormed(s: Tables, w: WorkId, operator: string, reason: string, additional: int, id: ReplayId, now: int)
    requires WellFormed(s)
    ensures WellFormed(ReplayWork(s, w, operator, reason, additional, id, now).tables)
  {
    var s' := ReplayWork(s, w, operator, reason, additional, id, now).tables;
    forall v | v in s'.work ensures WorkLinked(s', v) {
      assert WorkLinked(s, v);
    }
  }

  // ---- abandon_failed_claim ----

  ghost predicate AbandonedSoFar(rows: map<WorkId, Work>, work: map<WorkId, Work>, items: seq<ClaimItem>, marker: Note,
                                 now: int, w: WorkId)
    requires w in work
  {
    w in rows && rows[w] == AbandonedWork(work[w], w, items, marker, now)
  }

  ghost predicate GivenUpSoFar(rows: map<AttemptId, Attempt>, attempts: map<AttemptId, Attempt>, items: seq<ClaimItem>,
                               a: AttemptId)
    requires a in attempts
  {
    a in rows && rows[a] == AbandonedAttempt(attempts[a], a, items)
  }

  lemma NamesAppend(items: seq<ClaimItem>, i: nat)
    requires i < |items|
    ensures forall w: WorkId :: NamesWork(items[..i + 1], w) <==> NamesWork(items[..i], w) || w == items[i].work
    ensures forall a: AttemptId :: NamesAttempt(items[..i + 1], a) <==> NamesAttempt(items[..i], a) || a == items[i].attempt
  {
    var before, after := items[..i], items[..i + 1];
    assert after[i] == items[i] && forall k :: 0 <= k < i ==> after[k] == before[k];
    forall w: WorkId ensures NamesWork(after, w) <==> NamesWork(before, w) || w == items[i].work {
      if NamesWork(before, w) { var k :| 0 <= k < i && before[k].work == w; assert after[k].work == w; }
    }
    forall a: AttemptId ensures NamesAttempt(after, a) <==> NamesAttempt(before, a) || a == items[i].attempt {
      if NamesAttempt(before, a) { var k :| 0 <= k < i && before[k].attempt == a; assert after[k].attempt == a; }
    }
  }

  method AbandonWork(work: map<WorkId, Work>, items: seq<ClaimItem>, marker: Note, now: int) returns (rows: map<WorkId, Work>)
    requires forall i :: 0 <= i < |items| ==> items[i].work in work
    ensures rows == map w | w in work :: AbandonedWork(work[w], w, items, marker, now)
  {
    rows := work;
    for i := 0 to |items|
      invariant rows.Keys == work.Keys
      invariant forall w {:trigger AbandonedSoFar(rows, work, items[..i], marker, now, w)} :: w in work ==>
        AbandonedSoFar(rows, work, items[..i], marker, now, w)
    {
      ghost var before := rows;
      NamesAppend(items, i);
      assert AbandonedSoFar(rows, work, items[..i], marker, now, items[i].work);
      rows := rows[items[i].work := AbandonedRow(work[items[i].work], marker, now)];
      forall w | w in work ensures AbandonedSoFar(rows, work, items[..i + 1], marker, now, w) {
        assert AbandonedSoFar(before, work, items[..i], marker, now, w);
      }
    }
    assert items[..|items|] == items;
    forall w | w in work ensures rows[w] == AbandonedWork(work[w], w, items, marker, now) {
      assert AbandonedSoFar(rows, work, items, marker, now, w);
    }
  }

  method GiveUpAttempts(attempts: map<AttemptId, Attempt>, items: seq<ClaimItem>) returns (rows: map<AttemptId, Attempt>)
    requires forall i :: 0 <= i < |items| ==> items[i].attempt in attempts
    ensures rows == map a | a in attempts :: AbandonedAttempt(attempts[a], a, items)
  {
    rows := attempts;
    for i := 0 to |items|
      invariant rows.Keys == attempts.Keys
      invariant forall a {:trigger GivenUpSoFar(rows, attempts, items[..i], a)} :: a in attempts ==>
        GivenUpSoFar(rows, attempts, items[..i], a)
    {
      ghost var before := rows;
      NamesAppend(items, i);
      var a := items[i].attempt;
      assert GivenUpSoFar(rows, attempts, items[..i], a);
      rows := rows[a := rows[a].(status := AttemptStatus.Expired, recoveryOutcome := Some(WorkStatus.Ready))];
      forall v | v in attempts ensures GivenUpSoFar(rows, attempts, items[..i + 1], v) {
        assert GivenUpSoFar(before, attempts, items[..i], v);
      }
    }
    assert items[..|items|] == items;
    forall a | a in attempts ensures rows[a] == AbandonedAttempt(attempts[a], a, items) {
      assert GivenUpSoFar(rows, attempts, items, a);
    }
  }

  method AbandonRows(s: Tables, d: Abandonment, now: int) returns (work: map<WorkId, Work>, attempts: map<AttemptId, Attempt>)
    requires d.batch in s.batches && AbandonError(s, d.owner, d.envelope.items).None?
    ensures work == AbandonTables(s, d, now).work && attempts == AbandonTables(s, d, now).attempts
  {
    var items := d.envelope.items;
    forall i | 0 <= i < |items| ensures items[i].work in s.work && items[i].attempt in s.attempts {
      assert AbandonItemError(s, d.owner, items[i]).None?;
    }
    work := AbandonWork(s.work, items, Abandoned(d.operator, d.reason, d.job), now);
    attempts := GiveUpAttempts(s.attempts, items);
  }

  lemma AbandonWellFormed(s: Tables, d: Abandonment, now: int)
    requires WellFormed(s) && d.batch in s.batches
    ensures WellFormed(AbandonTables(s, d, now))
  {
    var s' := AbandonTables(s, d, now);
    forall w | w in s'.work ensures WorkLinked(s', w) {
      assert WorkLinked(s, w);
    }
  }
}
