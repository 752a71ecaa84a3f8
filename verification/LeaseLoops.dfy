/** The loops of heartbeat and seal over the rows of one batch. */
module LeaseLoops {
  import opened Wrappers
  import opened Ordering
  import opened ControlTables
  import opened ControlSpec

  // ---- heartbeat_process ----

  method RenewAttempts(attempts: map<AttemptId, Attempt>, items: seq<ClaimItem>, expires: int)
    returns (rows: map<AttemptId, Attempt>)
    ensures rows == map a | a in attempts :: RenewedAttempt(attempts[a], a, items, expires)
  {
    rows := attempts;
    var todo := attempts.Keys;
    while todo != {}
      invariant todo <= attempts.Keys && rows.Keys == attempts.Keys
      invariant forall a :: a in attempts ==>
        rows[a] == if a in todo then attempts[a] else RenewedAttempt(attempts[a], a, items, expires)
      decreases |todo|
    {
      var a :| a in todo;
      todo := todo - {a};
      if NamesAttempt(items, a) { rows := rows[a := rows[a].(leaseExpires := expires)]; }
    }
  }

  ghost predicate RenewedRow(rows: map<WorkId, Work>, work: map<WorkId, Work>, todo: set<WorkId>,
                             items: seq<ClaimItem>, expires: int, now: int, w: WorkId)
    requires w in work
  {
    w in rows && rows[w] == if w in todo then work[w] else RenewedWork(work[w], w, items, expires, now)
  }

  ghost predicate RenewedUpTo(rows: map<WorkId, Work>, work: map<WorkId, Work>, todo: set<WorkId>, items: seq<ClaimItem>,
                              expires: int, now: int)
  {
    rows.Keys == work.Keys &&
    forall w {:trigger RenewedRow(rows, work, todo, items, expires, now, w)} :: w in work ==>
      RenewedRow(rows, work, todo, items, expires, now, w)
  }

  method RenewOne(rows: map<WorkId, Work>, work: map<WorkId, Work>, ghost todo: set<WorkId>, items: seq<ClaimItem>, expires: int,
                  now: int, w: WorkId)
    returns (rows': map<WorkId, Work>, changed: bool)
    requires w in todo && w in work && RenewedUpTo(rows, work, todo, items, expires, now)
    ensures RenewedUpTo(rows', work, todo - {w}, items, expires, now)
    ensures changed <==> w in RenewedWorks(work, items)
  {
    assert RenewedRow(rows, work, todo, items, expires, now, w);
    rows', changed := rows, Renewable(rows[w], w, items);
    if changed { rows' := rows[w := rows[w].(leaseExpires := Some(expires), updatedAt := now)]; }
    forall v | v in work ensures RenewedRow(rows', work, todo - {w}, items, expires, now, v) {
      assert RenewedRow(rows, work, todo, items, expires, now, v);
    }
  }

  method RenewWork(work: map<WorkId, Work>, items: seq<ClaimItem>, expires: int, now: int)
    returns (rows: map<WorkId, Work>, changed: nat)
    ensures rows == map w | w in work :: RenewedWork(work[w], w, items, expires, now)
    ensures changed == |RenewedWorks(work, items)|
  {
    rows, changed := RenewEach(work, items, expires, now, RenewedWorks(work, items));
    RenewedAll(rows, work, items, expires, now);
  }

  method RenewEach(work: map<WorkId, Work>, items: seq<ClaimItem>, expires: int, now: int, ghost renewed: set<WorkId>)
    returns (rows: map<WorkId, Work>, count: nat)
    requires renewed == RenewedWorks(work, items)
    ensures RenewedUpTo(rows, work, {}, items, expires, now) && count == |renewed|
  {
    rows, count := work, 0;
    var todo := work.Keys;
    RenewedNone(work, items, expires, now);
    assert renewed - todo == {};
    while todo != {}
      invariant todo <= work.Keys && RenewedUpTo(rows, work, todo, items, expires, now) && count == |renewed - todo|
      decreases |todo|
    {
      var w :| w in todo;
      CountOne(renewed, todo, w);
      var changed;
      rows, changed := RenewOne(rows, work, todo, items, expires, now, w);
      if changed { count := count + 1; }
      todo := todo - {w};
    }
    assert renewed - todo == renewed;
  }

  lemma RenewedNone(work: map<WorkId, Work>, items: seq<ClaimItem>, expires: int, now: int)
    ensures RenewedUpTo(work, work, work.Keys, items, expires, now)
  {
  }

  lemma RenewedAll(rows: map<WorkId, Work>, work: map<WorkId, Work>, items: seq<ClaimItem>, expires: int, now: int)
    requires RenewedUpTo(rows, work, {}, items, expires, now)
    ensures rows == map w | w in work :: RenewedWork(work[w], w, items, expires, now)
  {
    forall w | w in work ensures rows[w] == RenewedWork(work[w], w, items, expires, now) {
      assert RenewedRow(rows, work, {}, items, expires, now, w);
    }
  }

  lemma HeartbeatWellFormed(s: Tables, env: ProcessEnvelope, expires: int, now: int)
    requires WellFormed(s) && env.batch in s.batches
    ensures WellFormed(HeartbeatTables(s, env, expires, now))
  {
    var s' := HeartbeatTables(s, env, expires, now);
    forall w | w in s'.work ensures WorkLinked(s', w) {
      assert WorkLinked(s, w);
    }
  }

  // ---- seal_batch ----

  /** Attempt row `a` once the outputs of `ids` have been written. */
  ghost predicate SealedSoFar(rows: map<AttemptId, Attempt>, s: Tables, outputs: seq<Output>, ids: seq<AttemptId>, now: int, a: AttemptId)
    requires a in s.attempts
  {
    a in rows && rows[a] == if a in ids then SealedAttempt(s.attempts[a], a, outputs, now) else s.attempts[a]
  }

  ghost predicate SealedUpTo(rows: map<AttemptId, Attempt>, s: Tables, outputs: seq<Output>, ids: seq<AttemptId>, now: int) {
    rows.Keys == s.attempts.Keys &&
    forall a {:trigger SealedSoFar(rows, s, outputs, ids, now, a)} :: a in s.attempts ==> SealedSoFar(rows, s, outputs, ids, now, a)
  }

  /** Writes one output on its attempt; None is the lost fence, or an attempt named before. */
  method SealOne(s: Tables, outputs: seq<Output>, i: nat, ghost ids: seq<AttemptId>, rows: map<AttemptId, Attempt>, now: int)
    returns (r: Option<map<AttemptId, Attempt>>)
    requires i < |outputs| && ids == AttemptsOf(outputs)[..i] && SealedUpTo(rows, s, outputs, ids, now)
    ensures r.None? <==> !Sealable(s, outputs[i]) || outputs[i].attempt in ids
    ensures r.Some? ==> SealedUpTo(r.value, s, outputs, ids + [outputs[i].attempt], now)
  {
    var o := outputs[i];
    if o.attempt !in rows { return None; }
    assert SealedSoFar(rows, s, outputs, ids, now, o.attempt);
    if o.work !in s.work || !rows[o.attempt].status.Leased? || !s.work[o.work].status.Leased?
       || s.work[o.work].leaseAttempt != Some(o.attempt) || s.work[o.work].fence != rows[o.attempt].fence
    {
      return None;
    }
    SealsAt(s, outputs, i, now);
    var rows' := rows[o.attempt := SealedRow(rows[o.attempt], o, now)];
    forall a | a in s.attempts ensures SealedSoFar(rows', s, outputs, ids + [o.attempt], now, a) {
      assert SealedSoFar(rows, s, outputs, ids, now, a);
    }
    r := Some(rows');
  }

  /** Writes each output on its attempt; None is the lost fence. */
  method SealAttempts(s: Tables, outputs: seq<Output>, now: int) returns (r: Option<map<AttemptId, Attempt>>)
    ensures r.None? <==> !AllSealable(s, outputs)
    ensures r.Some? ==> r.value == map a | a in s.attempts :: SealedAttempt(s.attempts[a], a, outputs, now)
  {
    var rows := s.attempts;
    ghost var ids := AttemptsOf(outputs);
    for i := 0 to |outputs|
      invariant Distinct(ids[..i]) && forall k :: 0 <= k < i ==> Sealable(s, outputs[k])
      invariant SealedUpTo(rows, s, outputs, ids[..i], now)
    {
      assert ids[i] == outputs[i].attempt && ids[..i + 1] == ids[..i] + [outputs[i].attempt];
      if ids[i] in ids[..i] { NotDistinct(ids, i); }
      var one := SealOne(s, outputs, i, ids[..i], rows, now);
      if one.None? { return None; }
      rows := one.value;
    }
    assert ids[..|outputs|] == ids;
    forall a | a in s.attempts ensures rows[a] == SealedAttempt(s.attempts[a], a, outputs, now) {
      assert SealedSoFar(rows, s, outputs, ids, now, a);
    }
    r := Some(rows);
  }

  lemma NotDistinct(ids: seq<AttemptId>, i: nat)
    requires i < |ids| && ids[i] in ids[..i]
    ensures !Distinct(ids)
  {
  }

  /** The output that seals an attempt is the first that names it. */
  lemma SealsAt(s: Tables, outputs: seq<Output>, i: nat, now: int)
    requires i < |outputs| && outputs[i].attempt in s.attempts && outputs[i].attempt !in AttemptsOf(outputs)[..i]
    ensures SealedAttempt(s.attempts[outputs[i].attempt], outputs[i].attempt, outputs, now)
            == SealedRow(s.attempts[outputs[i].attempt], outputs[i], now)
  {
  }

  lemma SealWellFormed(s: Tables, b: BatchId, outputs: seq<Output>, now: int)
    requires WellFormed(s) && b in s.batches
    ensures WellFormed(SealTables(s, b, outputs, now))
  {
    var s' := SealTables(s, b, outputs, now);
    forall w | w in s'.work ensures WorkLinked(s', w) {
      assert WorkLinked(s, w);
    }
  }
}
