/** Claiming and committing keep the invariant: the two operations that create rows. */
module ControlPublishing {
  import opened Wrappers
  import opened Ordering
  import opened ControlTables
  import opened ControlSpec
  import opened ControlInvariant
  import opened ControlBatches

  // ---- claim ----

  /** What a claim writes, by position in the claim, and what it leaves alone. */
  ghost predicate Claims(s: Tables, s': Tables, c: Claim)
    requires Claimable(s, c)
  {
    && s'.work.Keys == s.work.Keys && s'.publications == s.publications
    && (forall w :: w in s.work && w !in c.selected ==> s'.work[w] == s.work[w])
    && (forall a :: a in s'.attempts <==> a in s.attempts || a in c.attempts)
    && (forall a :: a in s.attempts ==> s'.attempts[a] == s.attempts[a])
    && s'.batches == s.batches[c.batch := NewBatch(ClaimItems(s, c), c)]
    && s'.members == s.members + (set i | 0 <= i < |c.selected| :: Member(c.batch, i, ClaimedItem(s, c, i)))
    && (forall i {:trigger ClaimsRow(s, s', c, i)} :: 0 <= i < |c.selected| ==> ClaimsRow(s, s', c, i))
  }

  ghost predicate ClaimsRow(s: Tables, s': Tables, c: Claim, i: int)
    requires Claimable(s, c) && 0 <= i < |c.selected|
  {
    && c.selected[i] in s'.work && s'.work[c.selected[i]] == LeasedRow(s.work[c.selected[i]], c, c.attempts[i])
    && c.attempts[i] in s'.attempts && s'.attempts[c.attempts[i]] == NewAttempt(ClaimedItem(s, c, i), c)
  }

  lemma ClaimTablesClaim(s: Tables, c: Claim)
    requires Claimable(s, c)
    ensures Claims(s, ClaimTables(s, c), c)
  {
    var s' := ClaimTables(s, c);
    forall i | 0 <= i < |c.selected| ensures ClaimsRow(s, s', c, i) {
      IndexOfDistinct(c.selected, i);
      IndexOfDistinct(c.attempts, i);
      assert c.attempts[i] in c.attempts && c.selected[i] in c.selected;
    }
  }

  lemma ClaimKeeps(s: Tables, c: Claim)
    requires Inv(s) && Claimable(s, c)
    ensures Inv(ClaimTables(s, c))
  {
    var s' := ClaimTables(s, c);
    ClaimTablesClaim(s, c);
    ClaimLeases(s, s', c);
    ClaimBatches(s, s', c);
    ClaimFences(s, s', c);
    ClaimRest(s, s', c);
  }

  lemma ClaimLeases(s: Tables, s': Tables, c: Claim)
    requires LeaseInv(s) && BudgetInv(s) && Claimable(s, c) && Claims(s, s', c)
    ensures LeaseInv(s')
  {
    forall w | w in s'.work ensures LeaseRow(s', w) {
      assert LeaseRow(s, w);
      if w in c.selected {
        assert ClaimsRow(s, s', c, IndexOf(c.selected, w));
      }
    }
    forall a | a in s'.attempts ensures AttemptRow(s', a) {
      if a in s.attempts {
        var w := s.attempts[a].work;
        assert AttemptRow(s, a) && LeaseRow(s, w);
        if w in c.selected { assert ClaimsRow(s, s', c, IndexOf(c.selected, w)); }
      } else {
        var i := IndexOf(c.attempts, a);
        assert ClaimsRow(s, s', c, i) && BudgetRow(s, c.selected[i]);
      }
    }
  }

  lemma ClaimBatches(s: Tables, s': Tables, c: Claim)
    requires LeaseInv(s) && BatchInv(s) && Claimable(s, c) && Claims(s, s', c)
    ensures BatchInv(s')
  {
    forall b | b in s'.batches ensures BatchRow(s', b) {
      if b in s.batches { OldBatchRow(s, s', c, b); } else { NewBatchRow(s, s', c); }
    }
  }

  lemma OldBatchRow(s: Tables, s': Tables, c: Claim, b: BatchId)
    requires BatchInv(s) && Claimable(s, c) && Claims(s, s', c) && b in s.batches
    ensures BatchRow(s', b)
  {
    assert BatchRow(s, b);
    forall a | a in s'.attempts && a !in s.attempts ensures s'.attempts[a].batch == c.batch {
      assert ClaimsRow(s, s', c, IndexOf(c.attempts, a));
    }
  }

  lemma NewBatchRow(s: Tables, s': Tables, c: Claim)
    requires LeaseInv(s) && Claimable(s, c) && Claims(s, s', c)
    ensures c.batch in s'.batches && BatchRow(s', c.batch)
  {
    var ms := ClaimItems(s, c);
    forall a | a in s.attempts ensures s.attempts[a].batch != c.batch { assert AttemptRow(s, a); }
    forall a | a in s'.attempts && s'.attempts[a].batch == c.batch
      ensures exists i :: 0 <= i < |ms| && ms[i].attempt == a
    {
      assert ms[IndexOf(c.attempts, a)].attempt == a;
    }
    forall i | 0 <= i < |ms|
      ensures ms[i] == ClaimedItem(s, c, i)
      ensures ms[i].attempt in s'.attempts && ms[i] == ItemOf(ms[i].attempt, s'.attempts[ms[i].attempt])
      ensures s'.attempts[ms[i].attempt].batch == c.batch
    {
      assert ClaimsRow(s, s', c, i);
    }
  }

  lemma ClaimFences(s: Tables, s': Tables, c: Claim)
    requires LeaseInv(s) && FenceInv(s) && Claimable(s, c) && Claims(s, s', c)
    ensures FenceInv(s')
  {
    forall a1, a2 | a1 in s'.attempts && a2 in s'.attempts && a1 != a2 && s'.attempts[a1].work == s'.attempts[a2].work
      ensures s'.attempts[a1].fence != s'.attempts[a2].fence
    {
      if a1 in s.attempts { assert AttemptRow(s, a1); }
      else { assert ClaimsRow(s, s', c, IndexOf(c.attempts, a1)); }
      if a2 in s.attempts { assert AttemptRow(s, a2); }
      else { assert ClaimsRow(s, s', c, IndexOf(c.attempts, a2)); }
    }
  }

  lemma ClaimRest(s: Tables, s': Tables, c: Claim)
    requires BudgetInv(s) && PublicationInv(s) && PointerInv(s) && Claimable(s, c) && Claims(s, s', c)
    ensures BudgetInv(s') && PublicationInv(s') && PointerInv(s')
  {
    forall i | 0 <= i < |s'.publications| ensures PublicationRow(s', i) {
      assert PublicationRow(s, i);
    }
    forall a | a in s'.attempts && a !in s.attempts ensures s'.attempts[a].status.Leased? {
      assert ClaimsRow(s, s', c, IndexOf(c.attempts, a));
    }
    forall w | w in s'.work ensures PointerRow(s', w) && BudgetRow(s', w) {
      assert PointerRow(s, w) && BudgetRow(s, w);
      assert PublicationsOf(s', w) == PublicationsOf(s, w);
      ClaimCounts(s, s', c, w);
      if w in c.selected { assert ClaimsRow(s, s', c, IndexOf(c.selected, w)); }
    }
  }

  lemma ClaimCounts(s: Tables, s': Tables, c: Claim, w: WorkId)
    requires Claimable(s, c) && Claims(s, s', c) && w in s.work
    ensures |AttemptsOfWork(s', w)| == |AttemptsOfWork(s, w)| + (if w in c.selected then 1 else 0)
  {
    forall a | a in s'.attempts && a !in s.attempts && s'.attempts[a].work == w
      ensures w in c.selected && a == c.attempts[IndexOf(c.selected, w)]
    {
      assert ClaimsRow(s, s', c, IndexOf(c.attempts, a));
      IndexOfDistinct(c.selected, IndexOf(c.attempts, a));
    }
    if w in c.selected {
      var a := c.attempts[IndexOf(c.selected, w)];
      assert ClaimsRow(s, s', c, IndexOf(c.selected, w));
      assert AttemptsOfWork(s', w) == AttemptsOfWork(s, w) + {a};
    } else {
      assert AttemptsOfWork(s', w) == AttemptsOfWork(s, w);
    }
  }

  // ---- commit ----

  /** Sequences are 1..n, so the next one is always one more than their number: the store's monotonicity guard can
      never fire. */
  lemma {:induction false} NextSequence(s: Tables)
    requires PublicationInv(s)
    ensures MaxSequence(s.publications) == |s.publications|
  {
    MaxOfPrefix(s, |s.publications|);
    assert s.publications[..|s.publications|] == s.publications;
  }

  lemma {:induction false} MaxOfPrefix(s: Tables, n: nat)
    requires PublicationInv(s) && n <= |s.publications|
    ensures MaxSequence(s.publications[..n]) == n
  {
    if n > 0 {
      MaxOfPrefix(s, n - 1);
      assert s.publications[..n][..n - 1] == s.publications[..n - 1];
      assert PublicationRow(s, n - 1);
    }
  }

  predicate IsSuccess(s: Tables, b: BatchId, a: AttemptId) {
    a in s.attempts && s.attempts[a].batch == b && s.attempts[a].terminalSucceeded == Some(true)
  }

  /** What a commit writes: the batch's rows, one publication for each success, and the work the batch held. */
  ghost predicate Commits(s: Tables, s': Tables, b: BatchId, succ: seq<AttemptId>, now: int) {
    && b in s.batches && SameClaims(s, s') && s'.work.Keys == s.work.Keys
    && s'.batches[b].status.Committed? && s'.batches == s.batches[b := s'.batches[b]]
    && (forall a {:trigger a in succ} :: a in succ <==> IsSuccess(s, b, a))
    && (forall a {:trigger CommitsAttempt(s, s', b, a)} :: a in s.attempts ==> CommitsAttempt(s, s', b, a))
    && |s'.publications| == |s.publications| + |succ|
    && s'.publications[..|s.publications|] == s.publications
    && (forall i {:trigger CommitsPublication(s, s', succ, now, i)} :: 0 <= i < |succ| ==> CommitsPublication(s, s', succ, now, i))
    && (forall w {:trigger CommitsWork(s, s', b, succ, now, w)} :: w in s.work ==> CommitsWork(s, s', b, succ, now, w))
  }

  ghost predicate CommitsAttempt(s: Tables, s': Tables, b: BatchId, a: AttemptId)
    requires a in s.attempts && a in s'.attempts
  {
    s'.attempts[a] == CommittedAttempt(s.attempts[a], b)
  }

  ghost predicate CommitsPublication(s: Tables, s': Tables, succ: seq<AttemptId>, now: int, i: int)
    requires 0 <= i < |succ| && |s'.publications| == |s.publications| + |succ|
  {
    && succ[i] in s.attempts && IndexOf(succ, succ[i]) == i
    && s'.publications[|s.publications| + i] == PublicationOf(succ[i], s.attempts[succ[i]], |s.publications| + 1 + i, now)
  }

  ghost predicate CommitsWork(s: Tables, s': Tables, b: BatchId, succ: seq<AttemptId>, now: int, w: WorkId)
    requires w in s.work && w in s'.work
  {
    s'.work[w] == CommittedWork(s, b, succ, |s.publications|, now, w)
  }

  lemma SuccessesAre(s: Tables, b: BatchId)
    ensures Distinct(Successes(s, b))
    ensures forall a :: a in Successes(s, b) <==> IsSuccess(s, b, a)
  {
  }

  lemma CommitTablesCommit(s: Tables, b: BatchId, now: int)
    requires PublicationInv(s) && b in s.batches
    ensures Commits(s, CommitTables(s, b, now), b, Successes(s, b), now)
  {
    NextSequence(s);
    SuccessesAre(s, b);
    CommitRows(s, b, now, Successes(s, b));
    CommitsFrom(s, CommitTables(s, b, now), b, Successes(s, b), now);
  }

  lemma CommitRows(s: Tables, b: BatchId, now: int, succ: seq<AttemptId>)
    requires b in s.batches && MaxSequence(s.publications) == |s.publications| && succ == Successes(s, b)
    requires forall i :: 0 <= i < |succ| ==> succ[i] in s.attempts
    ensures var s' := CommitTables(s, b, now);
      && s'.members == s.members && s'.work.Keys == s.work.Keys && s'.attempts.Keys == s.attempts.Keys
      && s'.batches == s.batches[b := s.batches[b].(status := BatchStatus.Committed, committedAt := Some(now))]
      && (forall a :: a in s.attempts ==> s'.attempts[a] == CommittedAttempt(s.attempts[a], b))
      && (forall w :: w in s.work ==> s'.work[w] == CommittedWork(s, b, succ, |s.publications|, now, w))
      && s'.publications == s.publications + NewPublications(s, succ, |s.publications|, now)
  {
  }

  lemma CommitsFrom(s: Tables, s': Tables, b: BatchId, succ: seq<AttemptId>, now: int)
    requires b in s.batches && Distinct(succ) && (forall a :: a in succ <==> IsSuccess(s, b, a))
    requires s'.members == s.members && s'.work.Keys == s.work.Keys && s'.attempts.Keys == s.attempts.Keys
    requires s'.batches == s.batches[b := s.batches[b].(status := BatchStatus.Committed, committedAt := Some(now))]
    requires forall a :: a in s.attempts ==> s'.attempts[a] == CommittedAttempt(s.attempts[a], b)
    requires forall w :: w in s.work ==> s'.work[w] == CommittedWork(s, b, succ, |s.publications|, now, w)
    requires forall i :: 0 <= i < |succ| ==> succ[i] in s.attempts
    requires s'.publications == s.publications + NewPublications(s, succ, |s.publications|, now)
    ensures Commits(s, s', b, succ, now)
  {
    forall a | a in s.attempts ensures SameClaimAttempt(s, s', a) && CommitsAttempt(s, s', b, a) {}
    forall c | c in s.batches ensures SameClaimBatch(s, s', c) {}
    forall i | 0 <= i < |succ| ensures CommitsPublication(s, s', succ, now, i) {
      IndexOfDistinct(succ, i);
      assert s'.publications[|s.publications| + i] == NewPublications(s, succ, |s.publications|, now)[i];
    }
    forall w | w in s.work ensures CommitsWork(s, s', b, succ, now, w) {}
  }

  lemma CommitKeeps(s: Tables, b: BatchId, now: int)
    requires Inv(s)
    ensures Inv(Commit(s, b, now).tables)
  {
    if Commit(s, b, now).tables != s {
      var s', succ := CommitTables(s, b, now), Successes(s, b);
      CommitTablesCommit(s, b, now);
      CommitsKeep(s, s', b, succ, now);
    }
  }

  lemma CommitsKeep(s: Tables, s': Tables, b: BatchId, succ: seq<AttemptId>, now: int)
    requires Inv(s) && Commits(s, s', b, succ, now) && s.batches[b].status.Sealed?
    ensures Inv(s')
  {
    CommitReleases(s, s', b, succ, now);
    ReleaseKeepsLeases(s, s', {b});
    SameClaimsKeep(s, s');
    CommitPublications(s, s', b, succ, now);
    forall w | w in s'.work ensures BudgetRow(s', w) && PointerRow(s', w) {
      assert BudgetRow(s, w) && PointerRow(s, w) && CommitsWork(s, s', b, succ, now, w);
      CommitPointer(s, s', b, succ, now, w);
    }
  }

  lemma CommitReleases(s: Tables, s': Tables, b: BatchId, succ: seq<AttemptId>, now: int)
    requires LeaseInv(s) && Commits(s, s', b, succ, now) && s.batches[b].status.Sealed?
    ensures Releases(s, s', {b})
  {
    forall c | c in s.batches ensures ReleasesBatch(s, s', {b}, c) {}
    forall a | a in s.attempts ensures ReleasesAttempt(s, s', {b}, a) {
      assert CommitsAttempt(s, s', b, a);
    }
    forall w | w in s.work ensures ReleasesWork(s, s', {b}, w) {
      assert LeaseRow(s, w) && CommitsWork(s, s', b, succ, now, w);
    }
  }

  lemma CommitPublications(s: Tables, s': Tables, b: BatchId, succ: seq<AttemptId>, now: int)
    requires LeaseInv(s) && PublicationInv(s) && Commits(s, s', b, succ, now) && s.batches[b].status.Sealed?
    ensures PublicationInv(s')
  {
    forall i | 0 <= i < |s'.publications| ensures PublicationRow(s', i) {
      CommitPublicationRow(s, s', b, succ, now, i);
    }
    forall i, j | 0 <= i < j < |s'.publications| ensures s'.publications[i].attempt != s'.publications[j].attempt {
      CommitPublicationRow(s, s', b, succ, now, i);
      CommitPublicationRow(s, s', b, succ, now, j);
    }
    forall a | a in s'.attempts && s'.attempts[a].status.Succeeded?
      ensures exists i :: 0 <= i < |s'.publications| && s'.publications[i].attempt == a
    {
      assert CommitsAttempt(s, s', b, a);
      if s.attempts[a].batch == b {
        assert a in succ;
        assert CommitsPublication(s, s', succ, now, IndexOf(succ, a));
        assert s'.publications[|s.publications| + IndexOf(succ, a)].attempt == a;
      } else {
        var i :| 0 <= i < |s.publications| && s.publications[i].attempt == a;
        assert s'.publications[..|s.publications|][i] == s.publications[i];
        assert s'.publications[i].attempt == a;
      }
    }
  }

  /** Old publications stand, none of them by this batch; new ones repeat their attempt. */
  lemma CommitPublicationRow(s: Tables, s': Tables, b: BatchId, succ: seq<AttemptId>, now: int, i: int)
    requires LeaseInv(s) && PublicationInv(s) && Commits(s, s', b, succ, now) && s.batches[b].status.Sealed?
    requires 0 <= i < |s'.publications|
    ensures PublicationRow(s', i)
    ensures i < |s.publications| ==> s'.publications[i] == s.publications[i] && s.publications[i].attempt !in succ
    ensures i >= |s.publications| ==>
      s'.publications[i].attempt in succ && IndexOf(succ, s'.publications[i].attempt) == i - |s.publications|
  {
    if i < |s.publications| {
      assert s'.publications[..|s.publications|][i] == s.publications[i];
      var a := s.publications[i].attempt;
      assert PublicationRow(s, i) && AttemptRow(s, a) && CommitsAttempt(s, s', b, a);
    } else {
      var k := i - |s.publications|;
      assert CommitsPublication(s, s', succ, now, k);
      assert succ[k] in succ;
      assert AttemptRow(s, succ[k]) && CommitsAttempt(s, s', b, succ[k]);
    }
  }

  /** The batch adds at most one publication of work `w`: the one of the attempt that holds it. */
  lemma NewPublicationOf(s: Tables, s': Tables, b: BatchId, succ: seq<AttemptId>, now: int, w: WorkId, i: int)
    requires LeaseInv(s) && Commits(s, s', b, succ, now) && s.batches[b].status.Sealed? && w in s.work
    requires 0 <= i < |succ|
    ensures var p := s'.publications[|s.publications| + i];
            && p.attempt == succ[i]
            && (p.work == w <==> HeldBy(s, b, w) && s.work[w].leaseAttempt == Some(succ[i]))
            && IndexOf(succ, succ[i]) == i
  {
    var a := succ[i];
    assert CommitsPublication(s, s', succ, now, i);
    assert a in succ;
    assert AttemptRow(s, a) && LeaseRow(s, s.attempts[a].work) && LeaseRow(s, w);
  }

  /** The pointer of work that was just published names the new publication. */
  lemma CommitPointer(s: Tables, s': Tables, b: BatchId, succ: seq<AttemptId>, now: int, w: WorkId)
    requires LeaseInv(s) && Commits(s, s', b, succ, now) && s.batches[b].status.Sealed?
    requires w in s.work && PointerRow(s, w)
    ensures PointerRow(s', w)
  {
    assert LeaseRow(s, w) && CommitsWork(s, s', b, succ, now, w);
    forall i | |s.publications| <= i < |s'.publications|
      ensures var a := succ[i - |s.publications|];
        && s'.publications[i].attempt == a && IndexOf(succ, a) == i - |s.publications|
        && (s'.publications[i].work == w <==> HeldBy(s, b, w) && s.work[w].leaseAttempt == Some(a))
    {
      NewPublicationOf(s, s', b, succ, now, w, i - |s.publications|);
    }
    if HeldBy(s, b, w) && s.work[w].leaseAttempt.value in succ {
      var k := IndexOf(succ, s.work[w].leaseAttempt.value);
      assert CommitsPublication(s, s', succ, now, k);
      OneNewPublication(s, s', w, k);
    } else {
      NoNewPublication(s, s', w);
    }
  }

  lemma OneNewPublication(s: Tables, s': Tables, w: WorkId, k: nat)
    requires |s.publications| + k < |s'.publications| && s'.publications[..|s.publications|] == s.publications
    requires forall i :: |s.publications| <= i < |s'.publications| ==>
      (s'.publications[i].work == w <==> i == |s.publications| + k)
    ensures PublicationsOf(s', w) == PublicationsOf(s, w) + {|s.publications| + k}
  {
  }

  lemma NoNewPublication(s: Tables, s': Tables, w: WorkId)
    requires |s.publications| <= |s'.publications| && s'.publications[..|s.publications|] == s.publications
    requires forall i :: |s.publications| <= i < |s'.publications| ==> s'.publications[i].work != w
    ensures PublicationsOf(s', w) == PublicationsOf(s, w)
    ensures forall i :: 0 <= i < |s.publications| ==> s'.publications[i] == s.publications[i]
  {
  }
}
