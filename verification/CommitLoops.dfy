/** The loop of commit: attempts in work-id order, each publishing or failing its work. */
module CommitLoops {
  import opened Wrappers
  import opened Ordering
  import opened ControlTables
  import opened ControlSpec

  function PublishedBy(publications: seq<Publication>, b: BatchId): set<int> {
    set i | 0 <= i < |publications| && publications[i].batch == b :: publications[i].sequence
  }

  /** `sorted` of the batch's publication sequences. */
  method SortSequences(publications: seq<Publication>, b: BatchId) returns (sorted: seq<int>)
    ensures sorted == SortedBy(PublishedBy(publications, b), x => x)
  {
    var key := (x: int) => x;
    ghost var spec := SortedBy(PublishedBy(publications, b), key);
    sorted := SortSet(PublishedBy(publications, b), key);
    assert forall x :: x in sorted <==> x in spec;
    SortedUnique(sorted, spec, key);
  }

  datatype CommitResult = CommitResult(attempts: map<AttemptId, Attempt>, work: map<WorkId, Work>,
                                 publications: seq<Publication>, sequences: seq<int>)

  /** The attempt is sealed and holds its work. */
  ghost predicate Advances(s: Tables, a: AttemptId) {
    a in s.attempts && s.attempts[a].status.Sealed? && Fenced(s, a)
  }

  predicate Succeeds(s: Tables, a: AttemptId) {
    a in s.attempts && s.attempts[a].terminalSucceeded == Some(true)
  }

  /** The successful attempts of `done`, in order. */
  ghost function SuccessesOf(s: Tables, done: seq<AttemptId>): (succ: seq<AttemptId>)
    ensures forall a :: a in succ <==> a in done && Succeeds(s, a)
  {
    if done == [] then []
    else
      var last := done[|done| - 1];
      SuccessesOf(s, done[..|done| - 1]) + (if Succeeds(s, last) then [last] else [])
  }

  /** Work row `w` once the attempts of `done` have been processed, `succ` being those that succeeded. */
  ghost function WorkSoFar(row: Work, done: seq<AttemptId>, succ: seq<AttemptId>, base: int, now: int): Work {
    if row.leaseAttempt.Some? && row.leaseAttempt.value in done then
      var a := row.leaseAttempt.value;
      if a in succ then SucceededRow(row, a, base + 1 + IndexOf(succ, a), now) else FailedRow(row, now)
    else row
  }

  ghost predicate WorkDone(rows: map<WorkId, Work>, s: Tables, done: seq<AttemptId>, succ: seq<AttemptId>, base: int, now: int, w: WorkId)
    requires w in s.work
  {
    w in rows && rows[w] == WorkSoFar(s.work[w], done, succ, base, now)
  }

  ghost predicate AttemptDone(rows: map<AttemptId, Attempt>, s: Tables, b: BatchId, done: seq<AttemptId>, a: AttemptId)
    requires a in s.attempts
  {
    a in rows && rows[a] == if a in done then CommittedAttempt(s.attempts[a], b) else s.attempts[a]
  }

  ghost predicate WorksDone(rows: map<WorkId, Work>, s: Tables, done: seq<AttemptId>, succ: seq<AttemptId>, base: int, now: int) {
    rows.Keys == s.work.Keys &&
    forall w {:trigger WorkDone(rows, s, done, succ, base, now, w)} :: w in s.work ==> WorkDone(rows, s, done, succ, base, now, w)
  }

  ghost predicate AttemptsDone(rows: map<AttemptId, Attempt>, s: Tables, b: BatchId, done: seq<AttemptId>) {
    && rows.Keys == s.attempts.Keys
    && forall a {:trigger AttemptDone(rows, s, b, done, a)} :: a in s.attempts ==> AttemptDone(rows, s, b, done, a)
  }

  ghost predicate PublicationsDone(rows: seq<Publication>, sequences: seq<int>, s: Tables, done: seq<AttemptId>, now: int) {
    var succ, base := SuccessesOf(s, done), MaxSequence(s.publications);
    && (forall k :: 0 <= k < |succ| ==> succ[k] in s.attempts)
    && rows == s.publications + NewPublications(s, succ, base, now)
    && sequences == Numbers(base, |succ|)
  }

  ghost predicate CommittedSoFar(s: Tables, b: BatchId, now: int, done: seq<AttemptId>, c: CommitResult) {
    && WorksDone(c.work, s, done, SuccessesOf(s, done), MaxSequence(s.publications), now)
    && AttemptsDone(c.attempts, s, b, done)
    && PublicationsDone(c.publications, c.sequences, s, done, now)
  }

  lemma AdvanceOnce(s: Tables, a1: AttemptId, a2: AttemptId)
    requires Advances(s, a1) && Advances(s, a2) && a1 != a2
    ensures s.attempts[a1].work != s.attempts[a2].work
  {
  }

  /** Processing one more attempt leaves the rows of works other than its own alone. */
  lemma WorksStep(before: map<WorkId, Work>, rows: map<WorkId, Work>, s: Tables, done: seq<AttemptId>, succ: seq<AttemptId>,
                  base: int, a: AttemptId, w: WorkId, success: bool, now: int)
    requires a !in done && WorksDone(before, s, done, succ, base, now) && w in s.work
    requires forall x :: x in succ ==> x in done
    requires forall v :: v in s.work ==> (s.work[v].leaseAttempt == Some(a) <==> v == w)
    requires rows == before[w := if success then SucceededRow(s.work[w], a, base + 1 + |succ|, now) else FailedRow(s.work[w], now)]
    ensures WorksDone(rows, s, done + [a], succ + (if success then [a] else []), base, now)
  {
    forall v | v in s.work ensures WorkDone(rows, s, done + [a], succ + (if success then [a] else []), base, now, v) {
      assert WorkDone(before, s, done, succ, base, now, v);
      RowStep(s.work[v], done, succ, a, success, base, now);
    }
  }

  lemma SuccessesStep(s: Tables, done: seq<AttemptId>, a: AttemptId)
    ensures SuccessesOf(s, done + [a]) == SuccessesOf(s, done) + (if Succeeds(s, a) then [a] else [])
  {
  }

  lemma RowStep(row: Work, done: seq<AttemptId>, succ: seq<AttemptId>, a: AttemptId, success: bool, base: int, now: int)
    requires a !in done && forall x :: x in succ ==> x in done
    ensures WorkSoFar(row, done + [a], succ + (if success then [a] else []), base, now)
            == if row.leaseAttempt == Some(a)
               then (if success then SucceededRow(row, a, base + 1 + |succ|, now) else FailedRow(row, now))
               else WorkSoFar(row, done, succ, base, now)
  {
    var succ' := succ + (if success then [a] else []);
    if row.leaseAttempt == Some(a) {
      assert a in done + [a];
      if success { assert succ'[|succ|] == a; IndexOfLast(succ, a); } else { assert succ' == succ; }
    } else if row.leaseAttempt.Some? && row.leaseAttempt.value in succ {
      IndexOfPrefix(succ, succ', row.leaseAttempt.value);
    }
  }

  lemma AttemptsStep(before: map<AttemptId, Attempt>, rows: map<AttemptId, Attempt>, s: Tables, b: BatchId,
                     done: seq<AttemptId>, a: AttemptId)
    requires a in s.attempts && s.attempts[a].batch == b && AttemptsDone(before, s, b, done)
    requires rows == before[a := s.attempts[a].(status := if Succeeds(s, a) then AttemptStatus.Succeeded else AttemptStatus.Failed)]
    ensures AttemptsDone(rows, s, b, done + [a])
  {
    forall x | x in s.attempts ensures AttemptDone(rows, s, b, done + [a], x) {
      assert AttemptDone(before, s, b, done, x);
    }
  }

  lemma MaxAppend(publications: seq<Publication>, p: Publication)
    requires p.sequence > MaxSequence(publications)
    ensures MaxSequence(publications + [p]) == p.sequence
  {
  }

  lemma {:induction false} NewMax(s: Tables, succ: seq<AttemptId>, base: int, now: int)
    requires forall i :: 0 <= i < |succ| ==> succ[i] in s.attempts
    requires base == MaxSequence(s.publications)
    ensures MaxSequence(s.publications + NewPublications(s, succ, base, now)) == base + |succ|
  {
    if succ == [] {
      assert s.publications + NewPublications(s, succ, base, now) == s.publications;
    } else {
      var init, n := succ[..|succ| - 1], |succ| - 1;
      NewMax(s, init, base, now);
      var last := PublicationOf(succ[n], s.attempts[succ[n]], base + 1 + n, now);
      assert NewPublications(s, succ, base, now) == NewPublications(s, init, base, now) + [last];
      assert s.publications + NewPublications(s, succ, base, now) == s.publications + NewPublications(s, init, base, now) + [last];
      MaxAppend(s.publications + NewPublications(s, init, base, now), last);
    }
  }

  /** The next free sequence after the publications made so far is larger than every sequence in the table. */
  lemma NextIsFree(rows: seq<Publication>, sequences: seq<int>, s: Tables, done: seq<AttemptId>, now: int)
    requires PublicationsDone(rows, sequences, s, done, now)
    ensures MaxSequence(rows) == MaxSequence(s.publications) + |sequences| && |sequences| == |SuccessesOf(s, done)|
  {
    NewMax(s, SuccessesOf(s, done), MaxSequence(s.publications), now);
  }

  lemma PublicationsStep(rows: seq<Publication>, sequences: seq<int>, s: Tables, done: seq<AttemptId>, a: AttemptId, now: int)
    requires PublicationsDone(rows, sequences, s, done, now) && a in s.attempts
    ensures var next := MaxSequence(s.publications) + 1 + |sequences|;
            if Succeeds(s, a)
            then PublicationsDone(rows + [PublicationOf(a, s.attempts[a], next, now)], sequences + [next], s, done + [a], now)
            else PublicationsDone(rows, sequences, s, done + [a], now)
  {
    var done' := done + [a];
    assert done'[..|done|] == done && done'[|done|] == a;
    var succ, succ', base := SuccessesOf(s, done), SuccessesOf(s, done'), MaxSequence(s.publications);
    assert succ' == succ + (if Succeeds(s, a) then [a] else []);
    if Succeeds(s, a) {
      assert NewPublications(s, succ', base, now)
          == NewPublications(s, succ, base, now) + [PublicationOf(a, s.attempts[a], base + 1 + |sequences|, now)];
    } else {
      assert succ' == succ;
    }
  }

  /** The work row of an attempt that has not been processed is as it was, so checking it there is checking it at first. */
  lemma UntouchedRow(s: Tables, done: seq<AttemptId>, succ: seq<AttemptId>, base: int, now: int, rows: map<WorkId, Work>, a: AttemptId)
    requires WellFormed(s) && a in s.attempts && a !in done && WorksDone(rows, s, done, succ, base, now)
    requires forall x :: x in done ==> Advances(s, x)
    ensures var w, row := s.attempts[a].work, rows[s.attempts[a].work];
      && (Advances(s, a) <==> s.attempts[a].status.Sealed? && row.status.Leased? && row.leaseAttempt == Some(a) && row.fence == s.attempts[a].fence)
      && (Advances(s, a) ==> row == s.work[w] && forall v :: v in s.work ==> (s.work[v].leaseAttempt == Some(a) <==> v == w))
  {
    var w := s.attempts[a].work;
    assert WorkDone(rows, s, done, succ, base, now, w);
    forall v | v in s.work ensures s.work[v].leaseAttempt == Some(a) ==> v == w { assert WorkLinked(s, v); }
  }

  /** Processes one attempt of the batch, or finds that it can no longer advance its work's pointer. */
  method CommitOne(s: Tables, b: BatchId, now: int, ghost done: seq<AttemptId>, a: AttemptId, c: CommitResult, next: int)
    returns (r: Option<CommitResult>, next': int)
    requires WellFormed(s) && a in s.attempts && s.attempts[a].batch == b && a !in done
    requires (forall x :: x in done ==> Advances(s, x)) && CommittedSoFar(s, b, now, done, c)
    requires next == MaxSequence(s.publications) + |c.sequences|
    ensures r.Some? <==> Advances(s, a)
    ensures r.Some? ==> CommittedSoFar(s, b, now, done + [a], r.value)
    ensures r.Some? ==> next' == MaxSequence(s.publications) + |r.value.sequences|
  {
    assert AttemptDone(c.attempts, s, b, done, a);
    UntouchedRow(s, done, SuccessesOf(s, done), MaxSequence(s.publications), now, c.work, a);
    var attempt, row := c.attempts[a], c.work[c.attempts[a].work];
    if !attempt.status.Sealed? || !row.status.Leased? || row.leaseAttempt != Some(a) || row.fence != attempt.fence {
      return None, next;
    }
    var advanced;
    advanced, next' := Advance(s, b, now, done, a, c, next);
    r := Some(advanced);
  }

  /** Processes an attempt that is sealed and holds its work. */
  method Advance(s: Tables, b: BatchId, now: int, ghost done: seq<AttemptId>, a: AttemptId, c: CommitResult, next: int)
    returns (c': CommitResult, next': int)
    requires a in s.attempts && s.attempts[a].batch == b && a !in done && Advances(s, a) && CommittedSoFar(s, b, now, done, c)
    requires a in c.attempts && c.attempts[a] == s.attempts[a]
    requires s.attempts[a].work in c.work && c.work[s.attempts[a].work] == s.work[s.attempts[a].work]
    requires forall v :: v in s.work ==> (s.work[v].leaseAttempt == Some(a) <==> v == s.attempts[a].work)
    requires next == MaxSequence(s.publications) + |c.sequences|
    ensures CommittedSoFar(s, b, now, done + [a], c') && next' == MaxSequence(s.publications) + |c'.sequences|
  {
    var attempt, row := c.attempts[a], c.work[c.attempts[a].work];
    ghost var succ, base := SuccessesOf(s, done), MaxSequence(s.publications);
    SuccessesStep(s, done, a);
    var success := attempt.terminalSucceeded == Some(true);
    var publications, sequences;
    publications, sequences, next' := Publish(s, done, now, a, attempt, success, c.publications, c.sequences, next);
    assert success ==> next' == base + 1 + |succ|;
    var work := c.work[attempt.work := if success then SucceededRow(row, a, next', now) else FailedRow(row, now)];
    var attempts := c.attempts[a := attempt.(status := if success then AttemptStatus.Succeeded else AttemptStatus.Failed)];
    WorksStep(c.work, work, s, done, succ, base, a, attempt.work, success, now);
    AttemptsStep(c.attempts, attempts, s, b, done, a);
    c' := CommitResult(attempts, work, publications, sequences);
  }

  /** Appends the publication of a success under the next sequence; the source's guard against a sequence that is not
      larger than every earlier one never fires. */
  method Publish(s: Tables, ghost done: seq<AttemptId>, now: int, a: AttemptId, attempt: Attempt, success: bool,
                 before: seq<Publication>, before': seq<int>, next: int)
    returns (publications: seq<Publication>, sequences: seq<int>, next': int)
    requires PublicationsDone(before, before', s, done, now) && next == MaxSequence(s.publications) + |before'|
    requires a in s.attempts && attempt == s.attempts[a] && success == Succeeds(s, a)
    ensures PublicationsDone(publications, sequences, s, done + [a], now)
    ensures next' == MaxSequence(s.publications) + |sequences| && (success ==> next' == next + 1)
  {
    publications, sequences, next' := before, before', next;
    NextIsFree(before, before', s, done, now);
    PublicationsStep(before, before', s, done, a, now);
    if success {
      next' := next + 1;
      assert publications == [] || next' > MaxSequence(publications);
      publications := publications + [PublicationOf(a, attempt, next', now)];
      sequences := sequences + [next'];
    }
  }

  lemma CommitNone(s: Tables, b: BatchId, now: int)
    ensures CommittedSoFar(s, b, now, [], CommitResult(s.attempts, s.work, s.publications, []))
  {
  }

  /** Processes the batch's attempts in work-id order; None is the lost lease. */
  method CommitRows(s: Tables, b: BatchId, now: int) returns (r: Option<CommitResult>)
    requires WellFormed(s) && b in s.batches
    ensures r.None? <==> !Committable(s, b)
    ensures r.Some? ==> var s' := CommitTables(s, b, now);
      r.value == CommitResult(s'.attempts, s'.work, s'.publications, CommitSequences(s, b))
  {
    var order := SortSet(BatchAttempts(s, b), WorkKey(s));
    var c := CommitResult(s.attempts, s.work, s.publications, []);
    var next := MaxSequence(s.publications);
    CommitNone(s, b, now);
    for i := 0 to |order|
      invariant forall x :: x in order[..i] ==> Advances(s, x)
      invariant CommittedSoFar(s, b, now, order[..i], c)
      invariant next == MaxSequence(s.publications) + |c.sequences|
    {
      assert order[..i + 1] == order[..i] + [order[i]] && order[i] in BatchAttempts(s, b);
      var one;
      one, next := CommitOne(s, b, now, order[..i], order[i], c, next);
      assert one.None? ==> !Committable(s, b);
      if one.None? { return None; }
      c := one.value;
    }
    assert order[..|order|] == order;
    assert WorkOrder(s, b, order) by {
      forall i, j | 0 <= i < j < |order| ensures WorkKey(s)(order[i]) <= WorkKey(s)(order[j]) {
        assert order[i] in order && order[j] in order;
      }
    }
    CommitAll(s, b, now, order, c);
    r := Some(c);
  }

  lemma {:induction false} SuccessesAscend(s: Tables, done: seq<AttemptId>, key: AttemptId -> int)
    requires forall i, j :: 0 <= i < j < |done| ==> key(done[i]) < key(done[j])
    ensures forall i, j :: 0 <= i < j < |SuccessesOf(s, done)| ==> key(SuccessesOf(s, done)[i]) < key(SuccessesOf(s, done)[j])
  {
    if done != [] {
      var n := |done| - 1;
      SuccessesAscend(s, done[..n], key);
      var init, succ := SuccessesOf(s, done[..n]), SuccessesOf(s, done);
      assert succ == init + (if Succeeds(s, done[n]) then [done[n]] else []);
      forall i, j | 0 <= i < j < |succ| ensures key(succ[i]) < key(succ[j]) {
        assert succ[i] == init[i];
        if j == |init| {
          assert succ[j] == done[n];
          assert init[i] in init && init[i] in done[..n];
          var k :| 0 <= k < n && done[k] == init[i];
        } else {
          assert succ[j] == init[j];
        }
      }
    }
  }

  /** `order` lists the attempts of batch `b` in the order of their works. */
  ghost predicate WorkOrder(s: Tables, b: BatchId, order: seq<AttemptId>) {
    && Distinct(order) && (forall a :: a in order <==> a in BatchAttempts(s, b))
    && forall i, j :: 0 <= i < j < |order| ==> WorkKey(s)(order[i]) <= WorkKey(s)(order[j])
  }

  /** Once every attempt of the batch has been processed the rows are those of the specification. */
  lemma CommitAll(s: Tables, b: BatchId, now: int, order: seq<AttemptId>, c: CommitResult)
    requires WellFormed(s) && b in s.batches && WorkOrder(s, b, order)
    requires forall x :: x in order ==> Advances(s, x)
    requires CommittedSoFar(s, b, now, order, c)
    ensures var s' := CommitTables(s, b, now);
            Committable(s, b) && c == CommitResult(s'.attempts, s'.work, s'.publications, CommitSequences(s, b))
  {
    OrderIsSuccesses(s, b, order);
    OrderCommits(s, b, order);
    CommitAllWork(s, b, now, order, c.work);
    CommitAllAttempts(s, b, now, order, c.attempts);
    CommitAllPublications(s, b, now, order, c.publications, c.sequences);
  }

  lemma OrderCommits(s: Tables, b: BatchId, order: seq<AttemptId>)
    requires forall a :: a in order <==> a in BatchAttempts(s, b)
    requires forall x :: x in order ==> Advances(s, x)
    ensures Committable(s, b)
  {
    forall a | a in s.attempts && s.attempts[a].batch == b ensures Advances(s, a) {
      assert a in BatchAttempts(s, b);
    }
  }

  lemma CommitAllPublications(s: Tables, b: BatchId, now: int, order: seq<AttemptId>, rows: seq<Publication>, sequences: seq<int>)
    requires b in s.batches && SuccessesOf(s, order) == Successes(s, b) && PublicationsDone(rows, sequences, s, order, now)
    ensures rows == CommitTables(s, b, now).publications && sequences == CommitSequences(s, b)
  {
  }

  /** Attempts that all hold their works are ordered strictly. */
  lemma StrictOrder(s: Tables, xs: seq<AttemptId>)
    requires Distinct(xs) && forall x :: x in xs ==> Advances(s, x)
    requires forall i, j :: 0 <= i < j < |xs| ==> WorkKey(s)(xs[i]) <= WorkKey(s)(xs[j])
    ensures forall i, j :: 0 <= i < j < |xs| ==> WorkKey(s)(xs[i]) < WorkKey(s)(xs[j])
  {
    forall i, j | 0 <= i < j < |xs| ensures WorkKey(s)(xs[i]) < WorkKey(s)(xs[j]) {
      assert xs[i] in xs && xs[j] in xs;
      AdvanceOnce(s, xs[i], xs[j]);
    }
  }

  lemma OrderIsSuccesses(s: Tables, b: BatchId, order: seq<AttemptId>)
    requires WorkOrder(s, b, order)
    requires forall x :: x in order ==> Advances(s, x)
    ensures SuccessesOf(s, order) == Successes(s, b)
  {
    StrictOrder(s, order);
    SuccessesAscend(s, order, WorkKey(s));
    var succ := Successes(s, b);
    forall x | x in succ ensures Advances(s, x) {
      assert x in SuccessSet(s, b) && x in BatchAttempts(s, b) && x in order;
    }
    StrictOrder(s, succ);
    forall x ensures x in SuccessesOf(s, order) <==> x in succ {
      assert x in succ <==> x in SuccessSet(s, b);
      assert x in order <==> x in BatchAttempts(s, b);
    }
    SortedUnique(SuccessesOf(s, order), succ, WorkKey(s));
  }

  lemma CommitAllWork(s: Tables, b: BatchId, now: int, order: seq<AttemptId>, rows: map<WorkId, Work>)
    requires WellFormed(s) && b in s.batches && WorksDone(rows, s, order, Successes(s, b), MaxSequence(s.publications), now)
    requires forall a :: a in order <==> a in BatchAttempts(s, b)
    ensures rows == CommitTables(s, b, now).work
  {
    var base := MaxSequence(s.publications);
    forall w | w in s.work ensures rows[w] == CommittedWork(s, b, Successes(s, b), base, now, w) {
      assert WorkDone(rows, s, order, Successes(s, b), base, now, w);
      CommitRow(s, b, order, Successes(s, b), base, now, w);
    }
  }

  lemma CommitRow(s: Tables, b: BatchId, order: seq<AttemptId>, succ: seq<AttemptId>, base: int, now: int, w: WorkId)
    requires WellFormed(s) && w in s.work && forall a :: a in order <==> a in BatchAttempts(s, b)
    ensures WorkSoFar(s.work[w], order, succ, base, now) == CommittedWork(s, b, succ, base, now, w)
  {
    assert WorkLinked(s, w);
  }

  lemma CommitAllAttempts(s: Tables, b: BatchId, now: int, order: seq<AttemptId>, rows: map<AttemptId, Attempt>)
    requires b in s.batches && AttemptsDone(rows, s, b, order)
    requires forall a :: a in order <==> a in BatchAttempts(s, b)
    ensures rows == CommitTables(s, b, now).attempts
  {
    forall a | a in s.attempts ensures rows[a] == CommittedAttempt(s.attempts[a], b) {
      assert AttemptDone(rows, s, b, order, a);
    }
  }

  lemma CommitWellFormed(s: Tables, b: BatchId, now: int)
    requires WellFormed(s) && b in s.batches
    ensures WellFormed(CommitTables(s, b, now))
  {
    var s' := CommitTables(s, b, now);
    forall w | w in s'.work ensures WorkLinked(s', w) {
      assert WorkLinked(s, w) && s'.work[w] == CommittedWork(s, b, Successes(s, b), MaxSequence(s.publications), now, w);
    }
  }
}
