/** When each operation is accepted, and what error it raises otherwise, in the columns it looks at. */
module ControlRefusals {
  import opened Wrappers
  import opened Ordering
  import opened ControlTables
  import opened ControlSpec
  import opened ControlEffects

  // ---- register_many ----

  /** The budget and the duration of every request are in range, and there is one. */
  predicate SoundRequests(requests: seq<Request>) {
    |requests| > 0 && forall i :: 0 <= i < |requests| ==>
      1 <= requests[i].spec.originalMaxAttempts && requests[i].spec.originalMaxAttempts <= 100 && requests[i].spec.duration > 0.0
  }

  /** All requests are of the release insisted on, agree where they name the same item, and with the item if it is known. */
  ghost predicate Compatible(s: Tables, requests: seq<Request>, release: Option<string>) {
    && (forall i :: 0 <= i < |requests| && release.Some? ==> requests[i].spec.release == release.value)
    && (forall i, j :: 0 <= i < |requests| && 0 <= j < |requests| && requests[i].work == requests[j].work ==>
          requests[i].spec == requests[j].spec)
    && (forall i :: 0 <= i < |requests| && requests[i].work in s.work ==> s.work[requests[i].work].spec == requests[i].spec)
  }

  lemma RegisterAccepts(s: Tables, requests: seq<Request>, release: Option<string>, now: int)
    ensures var r := Register(s, requests, release, now).reply;
            && (r.Ok? <==> SoundRequests(requests) && Compatible(s, requests, release))
            && (r == Err(BadArgument) <==> !SoundRequests(requests))
            && (r == Err(ImmutableConflict) <==> SoundRequests(requests) && !Compatible(s, requests, release))
  {
    assert SoundRequests(requests) <==> !BadRequests(requests);
    ConflictsFound(s, requests, release);
  }

  lemma ConflictsFound(s: Tables, requests: seq<Request>, release: Option<string>)
    ensures Compatible(s, requests, release) <==>
      !OtherRelease(requests, release) && !RequestsConflict(requests) && !TableConflicts(s.work, requests)
  {
    if !RequestsConflict(requests) {
      forall i, j | 0 <= i < |requests| && 0 <= j < |requests| && requests[i].work == requests[j].work
        ensures requests[i].spec == requests[j].spec
      {
        if i < j { assert requests[i].spec == requests[j].spec; } else if j < i { assert requests[j].spec == requests[i].spec; }
      }
    }
  }

  // ---- what an envelope must list ----

  /** The item is what its attempt, one of batch `b`, records. */
  predicate Lists(s: Tables, b: BatchId, item: ClaimItem) {
    && item.attempt in s.attempts && s.attempts[item.attempt].batch == b && s.attempts[item.attempt].work == item.work
    && s.attempts[item.attempt].fence == item.fence && s.attempts[item.attempt].payload == item.payload
  }

  /** The items are those of the batch's attempts, all of them. */
  ghost predicate ListsBatch(s: Tables, b: BatchId, items: seq<ClaimItem>) {
    && (forall i :: 0 <= i < |items| ==> Lists(s, b, items[i]))
    && (forall a :: a in s.attempts && s.attempts[a].batch == b ==> exists i :: 0 <= i < |items| && items[i].attempt == a)
  }

  /** Every attempt of the batch still holds its work. */
  ghost predicate HoldsAll(s: Tables, b: BatchId) {
    forall a :: a in s.attempts && s.attempts[a].batch == b ==> HoldsWork(s, b, a, s.attempts[a].work)
  }

  lemma ListsItsItems(s: Tables, b: BatchId, items: seq<ClaimItem>)
    ensures ListsBatch(s, b, items) <==> BatchItems(s, b) == (set i | 0 <= i < |items| :: items[i])
  {
    var listed := set i | 0 <= i < |items| :: items[i];
    if ListsBatch(s, b, items) {
      forall item | item in BatchItems(s, b) ensures item in listed {
        var a :| a in s.attempts && s.attempts[a].batch == b && ItemOf(a, s.attempts[a]) == item;
        var i :| 0 <= i < |items| && items[i].attempt == a;
        assert Lists(s, b, items[i]);
      }
      forall item | item in listed ensures item in BatchItems(s, b) {
        var i :| 0 <= i < |items| && items[i] == item;
        assert Lists(s, b, items[i]) && item == ItemOf(item.attempt, s.attempts[item.attempt]);
      }
    }
    if BatchItems(s, b) == listed {
      forall i | 0 <= i < |items| ensures Lists(s, b, items[i]) {
        assert items[i] in BatchItems(s, b);
      }
      forall a | a in s.attempts && s.attempts[a].batch == b ensures exists i :: 0 <= i < |items| && items[i].attempt == a {
        assert ItemOf(a, s.attempts[a]) in listed;
      }
    }
  }

  lemma HoldsItsWork(s: Tables, b: BatchId)
    ensures HoldsAll(s, b) <==> forall a :: a in BatchAttempts(s, b) ==> Fenced(s, a)
  {
    forall a | a in s.attempts && s.attempts[a].batch == b
      ensures HoldsWork(s, b, a, s.attempts[a].work) <==> Fenced(s, a)
    {
    }
  }

  // ---- heartbeat_process ----

  /** The envelope is the recorded one and the batch is leased and not yet expired. */
  predicate LiveClaim(s: Tables, env: ProcessEnvelope, now: int) {
    && env.batch in s.batches && s.batches[env.batch].envelope == env.envelope
    && s.batches[env.batch].membership == env.membership
    && s.batches[env.batch].status.Leased? && now < s.batches[env.batch].leaseExpires
  }

  /** Its attempts, each listed once, all hold their work. */
  ghost predicate Heartbeatable(s: Tables, env: ProcessEnvelope, now: int) {
    LiveClaim(s, env, now) && HoldsAll(s, env.batch) && ListsBatch(s, env.batch, env.items) && Distinct(env.items)
  }

  /** A heartbeat is taken exactly from a live claim whose attempts, each listed once, all hold their work. */
  lemma HeartbeatAccepts(s: Tables, env: ProcessEnvelope, extension: int, now: int)
    ensures var r := Heartbeat(s, env, extension, now).reply;
            && (r.Ok? <==> extension > 0 && Heartbeatable(s, env, now))
            && (r == Err(BadArgument) <==> extension <= 0)
            && (r == Err(KeyMissing) <==> extension > 0 && env.batch !in s.batches)
            && (r == Err(BatchValidation) <==>
                  && extension > 0 && env.batch in s.batches
                  && (s.batches[env.batch].envelope != env.envelope || s.batches[env.batch].membership != env.membership))
            && (r.Err? ==> r.error in {BadArgument, KeyMissing, BatchValidation, LeaseLost})
  {
    ListsItsItems(s, env.batch, env.items);
    HoldsItsWork(s, env.batch);
    if LiveClaim(s, env, now) && HoldsAll(s, env.batch) && ListsBatch(s, env.batch, env.items) {
      RenewedCounted(s, env);
    }
  }

  lemma RenewedCounted(s: Tables, env: ProcessEnvelope)
    requires ItemsOfBatch(s, env)
    ensures |RenewedWorks(s.work, env.items)| == |env.items| <==> Distinct(env.items)
  {
    var b, items, works := env.batch, BatchItems(s, env.batch), RenewedWorks(s.work, env.items);
    forall item | item in items ensures Lists(s, b, item) && HoldsWork(s, b, item.attempt, item.work) {
      assert item.attempt in BatchAttempts(s, b);
    }
    forall w ensures w in works <==> exists item :: item in items && item.work == w {
      if w in s.work { RenewsTheHeld(s, env, w); }
      if Held(s, b, w) {
        var a := s.work[w].leaseAttempt.value;
        assert ItemOf(a, s.attempts[a]) in items;
      }
    }
    WorksOfItems(s, b, items, works);
    ItemsCounted(env.items);
  }

  /** Held work and the items of a batch that holds all its work are equally many. */
  lemma {:induction false} WorksOfItems(s: Tables, b: BatchId, items: set<ClaimItem>, works: set<WorkId>)
    requires forall item :: item in items ==> Lists(s, b, item) && HoldsWork(s, b, item.attempt, item.work)
    requires forall w :: w in works <==> exists item :: item in items && item.work == w
    ensures |works| == |items|
  {
    if items != {} {
      var item :| item in items;
      forall other | other in items && other.work == item.work ensures other == item {
        assert Lists(s, b, other) && Lists(s, b, item) && HoldsWork(s, b, other.attempt, other.work);
      }
      WorksOfItems(s, b, items - {item}, works - {item.work});
    } else {
      assert works == {};
    }
  }

  // ---- seal_batch ----

  /** The output is what attempt `a` has recorded. */
  predicate Recorded(s: Tables, a: AttemptId, o: Output)
    requires a in s.attempts
  {
    && o.attempt == a && o.work == s.attempts[a].work
    && s.attempts[a].outputPath == Some(o.path) && s.attempts[a].outputSha == Some(o.sha)
    && (s.attempts[a].terminalSucceeded == Some(true)) == o.succeeded && s.attempts[a].records == Some(o.records)
  }

  /** The outputs are those recorded, one for each attempt of the batch. */
  ghost predicate RecordedOutputs(s: Tables, b: BatchId, outputs: seq<Output>) {
    && (forall a :: a in s.attempts && s.attempts[a].batch == b ==> exists i :: 0 <= i < |outputs| && Recorded(s, a, outputs[i]))
    && (forall i :: 0 <= i < |outputs| ==>
          outputs[i].attempt in s.attempts && s.attempts[outputs[i].attempt].batch == b
          && Recorded(s, outputs[i].attempt, outputs[i]))
  }

  predicate HasOutput(outputs: seq<Output>, w: WorkId, a: AttemptId) {
    exists i :: 0 <= i < |outputs| && outputs[i].work == w && outputs[i].attempt == a
  }

  predicate HasMember(s: Tables, b: BatchId, w: WorkId, a: AttemptId) {
    exists m :: m in s.members && m.batch == b && m.item.work == w && m.item.attempt == a
  }

  /** Member rows of the batch and outputs name the same work and attempts. */
  predicate CoversMembers(s: Tables, b: BatchId, outputs: seq<Output>) {
    && (forall m :: m in s.members && m.batch == b ==> HasOutput(outputs, m.item.work, m.item.attempt))
    && (forall i :: 0 <= i < |outputs| ==> HasMember(s, b, outputs[i].work, outputs[i].attempt))
  }

  /** Each output is of an attempt of its own, still leased, that holds the output's work. */
  predicate HoldsOutputs(s: Tables, outputs: seq<Output>) {
    && (forall i, j :: 0 <= i < j < |outputs| ==> outputs[i].attempt != outputs[j].attempt)
    && (forall i :: 0 <= i < |outputs| ==>
          && outputs[i].attempt in s.attempts && s.attempts[outputs[i].attempt].status.Leased?
          && outputs[i].work in s.work && s.work[outputs[i].work].status.Leased?
          && s.work[outputs[i].work].leaseAttempt == Some(outputs[i].attempt)
          && s.work[outputs[i].work].fence == s.attempts[outputs[i].attempt].fence)
  }

  /** No work and attempt are named twice. */
  predicate OncePerItem(outputs: seq<Output>) {
    forall i, j :: 0 <= i < |outputs| && 0 <= j < |outputs| && i != j ==>
      !(outputs[i].work == outputs[j].work && outputs[i].attempt == outputs[j].attempt)
  }

  /** The batch is known and recorded the same envelope and membership. */
  predicate Identifies(s: Tables, b: BatchId, envelope: Envelope, membership: seq<ClaimItem>) {
    b in s.batches && s.batches[b].envelope == envelope && s.batches[b].membership == membership
  }

  /** A batch is sealed exactly when it is leased and not expired and the outputs cover its members and hold their work; it is
      sealed again, with no effect, exactly by what it recorded. */
  lemma SealAccepts(s: Tables, b: BatchId, outputs: seq<Output>, envelope: Envelope, membership: seq<ClaimItem>, now: int)
    ensures var r := Seal(s, b, outputs, envelope, membership, now).reply;
            var asked := OncePerItem(outputs) && Identifies(s, b, envelope, membership);
            var live := asked && s.batches[b].status.Leased? && now < s.batches[b].leaseExpires;
            && (r.Ok? <==> || (live && CoversMembers(s, b, outputs) && HoldsOutputs(s, outputs))
                           || (asked && s.batches[b].status.Sealed? && RecordedOutputs(s, b, outputs)))
            && (r == Err(KeyMissing) <==> OncePerItem(outputs) && b !in s.batches)
            && (r == Err(BatchValidation) <==>
                  || !OncePerItem(outputs) || (b in s.batches && !Identifies(s, b, envelope, membership))
                  || (live && !CoversMembers(s, b, outputs)))
            && (r == Err(ImmutableConflict) <==> asked && s.batches[b].status.Sealed? && !RecordedOutputs(s, b, outputs))
            && (r.Err? ==> r.error in {KeyMissing, BatchValidation, ImmutableConflict, LeaseLost})
  {
    PairsCover(s, b, outputs);
    if OutputsDistinct(outputs) { PairsCounted(outputs); }
    TuplesRepeat(s, b, outputs);
    assert OutputsDistinct(outputs) <==> OncePerItem(outputs);
    OutputsHeld(s, outputs);
  }

  lemma OutputsHeld(s: Tables, outputs: seq<Output>)
    ensures AllSealable(s, outputs) <==> HoldsOutputs(s, outputs)
  {
    var ids := AttemptsOf(outputs);
    forall i | 0 <= i < |outputs| ensures ids[i] == outputs[i].attempt {}
    if AllSealable(s, outputs) {
      forall i | 0 <= i < |outputs| ensures Sealable(s, outputs[i]) {}
    }
  }

  function PairsOf(outputs: seq<Output>): (pairs: seq<(WorkId, AttemptId)>)
    ensures |pairs| == |outputs| && forall i :: 0 <= i < |pairs| ==> pairs[i] == (outputs[i].work, outputs[i].attempt)
  {
    seq(|outputs|, i requires 0 <= i < |outputs| => (outputs[i].work, outputs[i].attempt))
  }

  lemma PairsCounted(outputs: seq<Output>)
    requires OutputsDistinct(outputs)
    ensures |OutputPairs(outputs)| == |outputs|
  {
    var pairs := PairsOf(outputs);
    var listed := set i | 0 <= i < |pairs| :: pairs[i];
    forall pair ensures pair in OutputPairs(outputs) <==> pair in listed {
      if pair in OutputPairs(outputs) {
        var i :| 0 <= i < |outputs| && pair == (outputs[i].work, outputs[i].attempt);
        assert pairs[i] in listed;
      }
    }
    assert OutputPairs(outputs) == listed;
    ItemsCounted(pairs);
  }

  lemma PairsCover(s: Tables, b: BatchId, outputs: seq<Output>)
    ensures CoversMembers(s, b, outputs) <==> OutputPairs(outputs) == MemberPairs(s, b)
  {
    var given, expected := OutputPairs(outputs), MemberPairs(s, b);
    if CoversMembers(s, b, outputs) {
      forall pair ensures pair in given <==> pair in expected {
        if pair in given { var i :| 0 <= i < |outputs| && pair == (outputs[i].work, outputs[i].attempt); }
        if pair in expected { var m :| m in s.members && m.batch == b && pair == (m.item.work, m.item.attempt); }
      }
      assert given == expected;
    }
    if given == expected {
      forall m | m in s.members && m.batch == b ensures HasOutput(outputs, m.item.work, m.item.attempt) {
        assert (m.item.work, m.item.attempt) in given;
      }
      forall i | 0 <= i < |outputs| ensures HasMember(s, b, outputs[i].work, outputs[i].attempt) {
        assert (outputs[i].work, outputs[i].attempt) in expected;
      }
    }
  }

  lemma TuplesRepeat(s: Tables, b: BatchId, outputs: seq<Output>)
    ensures RecordedOutputs(s, b, outputs) <==> RecordedTuples(s, b) == SuppliedTuples(outputs)
  {
    var recorded, supplied := RecordedTuples(s, b), SuppliedTuples(outputs);
    forall a, i | a in s.attempts && 0 <= i < |outputs|
      ensures Recorded(s, a, outputs[i]) <==> RecordedTuple(a, s.attempts[a]) == SuppliedTuple(outputs[i])
    {
    }
    if RecordedOutputs(s, b, outputs) {
      forall t | t in recorded ensures t in supplied {
        var a :| a in s.attempts && s.attempts[a].batch == b && t == RecordedTuple(a, s.attempts[a]);
        var i :| 0 <= i < |outputs| && Recorded(s, a, outputs[i]);
        assert SuppliedTuple(outputs[i]) in supplied;
      }
      forall t | t in supplied ensures t in recorded {
        var i :| 0 <= i < |outputs| && t == SuppliedTuple(outputs[i]);
        assert RecordedTuple(outputs[i].attempt, s.attempts[outputs[i].attempt]) in recorded;
      }
    }
    if recorded == supplied {
      forall a | a in s.attempts && s.attempts[a].batch == b ensures exists i :: 0 <= i < |outputs| && Recorded(s, a, outputs[i]) {
        assert RecordedTuple(a, s.attempts[a]) in supplied;
      }
      forall i | 0 <= i < |outputs|
        ensures outputs[i].attempt in s.attempts && s.attempts[outputs[i].attempt].batch == b
        ensures Recorded(s, outputs[i].attempt, outputs[i])
      {
        assert SuppliedTuple(outputs[i]) in recorded;
      }
    }
  }

  // ---- commit_batch ----

  /** A batch is committed exactly when it is sealed and not expired, has all its attempts, and each is sealed and holds its
      work; a committed batch is accepted again. */
  lemma CommitAccepts(s: Tables, b: BatchId, now: int)
    requires WellFormed(s)
    ensures var r := Commit(s, b, now).reply;
            var live := b in s.batches && s.batches[b].status.Sealed? && now < s.batches[b].leaseExpires;
            var complete := live && |(set a | a in s.attempts && s.attempts[a].batch == b)| == s.batches[b].itemCount;
            var sealed := forall a :: a in s.attempts && s.attempts[a].batch == b ==> s.attempts[a].status.Sealed?;
            && (r.Ok? <==> (b in s.batches && s.batches[b].status.Committed?) || (complete && sealed && HoldsAll(s, b)))
            && (r == Err(KeyMissing) <==> b !in s.batches)
            && (r == Err(BatchValidation) <==> live && !complete)
            && (r.Err? ==> r.error in {KeyMissing, BatchValidation, LeaseLost})
  {
    HoldsItsWork(s, b);
    assert BatchAttempts(s, b) == set a | a in s.attempts && s.attempts[a].batch == b;
    assert Committable(s, b) <==> HoldsAll(s, b) && forall a :: a in s.attempts && s.attempts[a].batch == b ==> s.attempts[a].status.Sealed?;
  }

  // ---- abandon_failed_claim ----

  /** The operator named everything, and the batch was recorded for the same owner with the same envelope, which names its
      own batch and no work and attempt twice. */
  predicate NamesClaim(s: Tables, d: Abandonment) {
    && NonBlank(d.operator) && NonBlank(d.reason) && NonBlank(d.job) && NonBlank(d.owner)
    && d.batch in s.batches && s.batches[d.batch].owner == d.owner && s.batches[d.batch].envelope == d.envelope
    && d.envelope.batch == d.batch && |d.envelope.items| > 0
    && forall i, j :: 0 <= i < j < |d.envelope.items| ==>
         !(d.envelope.items[i].work == d.envelope.items[j].work && d.envelope.items[i].attempt == d.envelope.items[j].attempt)
  }

  /** The attempt is leased to the owner's work and neither has produced anything. */
  predicate Fruitless(s: Tables, owner: string, a: AttemptId) {
    && a in s.attempts && s.attempts[a].work in s.work
    && s.attempts[a].status.Leased? && s.work[s.attempts[a].work].leaseOwner == Some(owner)
    && s.attempts[a].outputPath.None? && s.attempts[a].outputSha.None? && s.attempts[a].terminalSucceeded.None?
    && s.work[s.attempts[a].work].committedAttempt.None?
  }

  /** Every attempt of the batch is listed, holds its work and has produced nothing, and none of the work is published. */
  ghost predicate Abandonable(s: Tables, d: Abandonment) {
    && d.batch in s.batches && s.batches[d.batch].membership == d.envelope.items && ListsBatch(s, d.batch, d.envelope.items) && HoldsAll(s, d.batch)
    && !d.staged
    && (forall a :: a in s.attempts && s.attempts[a].batch == d.batch ==>
          Fruitless(s, d.owner, a) && forall p :: 0 <= p < |s.publications| ==> s.publications[p].work != s.attempts[a].work)
  }

  /** A claim is abandoned exactly when it is named, unsealed and fruitless; an expired one already is. */
  lemma AbandonAccepts(s: Tables, d: Abandonment, now: int)
    ensures var r := Abandon(s, d, now).reply;
            && (r == Ok(true) <==> NamesClaim(s, d) && s.batches[d.batch].status.Expired?)
            && (r == Ok(false) <==> NamesClaim(s, d) && s.batches[d.batch].status.Leased? && Abandonable(s, d))
  {
    ListsItsItems(s, d.batch, d.envelope.items);
    HoldsItsWork(s, d.batch);
    if ListsBatch(s, d.batch, d.envelope.items) && HoldsAll(s, d.batch) {
      FruitlessItems(s, d);
      UnpublishedItems(s, d);
    }
  }

  /** The errors of a claim that is not given back: the lease is lost if it is another's, or its work is, or it produced
      something. */
  lemma AbandonErrors(s: Tables, d: Abandonment, now: int)
    ensures var r := Abandon(s, d, now).reply;
            && (r == Err(BadArgument) <==>
                  !(NonBlank(d.operator) && NonBlank(d.reason) && NonBlank(d.job) && NonBlank(d.owner)))
            && (r == Err(KeyMissing) <==>
                  NonBlank(d.operator) && NonBlank(d.reason) && NonBlank(d.job) && NonBlank(d.owner) && d.batch !in s.batches)
            && (r == Err(LeaseLost) ==>
                  && d.batch in s.batches
                  && (|| s.batches[d.batch].owner != d.owner || s.batches[d.batch].envelope != d.envelope
                      || !ListsBatch(s, d.batch, d.envelope.items) || !HoldsAll(s, d.batch)
                      || exists a :: a in s.attempts && s.attempts[a].batch == d.batch && !Fruitless(s, d.owner, a)))
            && (r.Err? ==> r.error in {BadArgument, KeyMissing, BatchValidation, LeaseLost})
  {
    ListsItsItems(s, d.batch, d.envelope.items);
    HoldsItsWork(s, d.batch);
    if ListsBatch(s, d.batch, d.envelope.items) && HoldsAll(s, d.batch) { FruitlessItems(s, d); }
  }

  lemma FruitlessItems(s: Tables, d: Abandonment)
    requires ListsBatch(s, d.batch, d.envelope.items) && HoldsAll(s, d.batch)
    ensures var e := AbandonError(s, d.owner, d.envelope.items);
            && (e.None? <==> forall a :: a in s.attempts && s.attempts[a].batch == d.batch ==> Fruitless(s, d.owner, a))
            && (e.Some? ==> e.value in {LeaseLost, BatchValidation})
  {
    var items := d.envelope.items;
    forall i | 0 <= i < |items|
      ensures items[i].attempt in s.attempts && s.attempts[items[i].attempt].batch == d.batch && items[i].work in s.work
      ensures AbandonItemError(s, d.owner, items[i]).None? <==> Fruitless(s, d.owner, items[i].attempt)
    {
      assert Lists(s, d.batch, items[i]);
      assert HoldsWork(s, d.batch, items[i].attempt, items[i].work);
    }
    KnownItems(s, d.owner, items);
  }

  lemma {:induction false} KnownItems(s: Tables, owner: string, items: seq<ClaimItem>)
    requires forall i :: 0 <= i < |items| ==> items[i].attempt in s.attempts && items[i].work in s.work
    ensures var e := AbandonError(s, owner, items); e.Some? ==> e.value in {LeaseLost, BatchValidation}
  {
    if items != [] { KnownItems(s, owner, items[1..]); }
  }

  lemma UnpublishedItems(s: Tables, d: Abandonment)
    requires ListsBatch(s, d.batch, d.envelope.items)
    ensures (exists p, i :: 0 <= p < |s.publications| && 0 <= i < |d.envelope.items|
                            && s.publications[p].work == d.envelope.items[i].work)
            <==> !(forall a, p :: a in s.attempts && s.attempts[a].batch == d.batch && 0 <= p < |s.publications| ==>
                     s.publications[p].work != s.attempts[a].work)
  {
    forall i | 0 <= i < |d.envelope.items| ensures Lists(s, d.batch, d.envelope.items[i]) {}
    forall a | a in s.attempts && s.attempts[a].batch == d.batch
      ensures exists i :: 0 <= i < |d.envelope.items| && d.envelope.items[i].work == s.attempts[a].work
    {
      var i :| 0 <= i < |d.envelope.items| && d.envelope.items[i].attempt == a;
      assert Lists(s, d.batch, d.envelope.items[i]);
    }
  }

  // ---- recover_exact ----

  /** The batch, the attempt and the one member row carry the identities given. */
  predicate Claimed(s: Tables, p: ExactClaim)
    requires p.work in s.work && p.batch in s.batches && p.attempt in s.attempts
  {
    && s.work[p.work].fence == p.fence && s.attempts[p.attempt].fence == p.fence
    && s.batches[p.batch].leaseExpires == p.leaseExpires && s.attempts[p.attempt].leaseExpires == p.leaseExpires
    && s.batches[p.batch].envelope == p.envelope && s.batches[p.batch].membership == p.membership
    && forall m :: m in s.members && m.batch == p.batch ==>
         m.item == ClaimItem(p.work, p.attempt, p.fence, s.work[p.work].spec.payload)
  }

  /** The work has had this attempt alone, and has nothing published or pointed to. */
  predicate SoleAttempt(s: Tables, p: ExactClaim)
    requires p.work in s.work && p.batch in s.batches && p.attempt in s.attempts
  {
    && s.work[p.work].committedAttempt.None? && |(set a | a in s.attempts && s.attempts[a].work == p.work)| == 1
    && forall i :: 0 <= i < |s.publications| ==> s.publications[i].work != p.work
  }

  /** The claim is leased throughout to the owner given and its work has no attempts left. */
  predicate ExhaustedLease(s: Tables, p: ExactClaim)
    requires p.work in s.work && p.batch in s.batches && p.attempt in s.attempts
  {
    && s.work[p.work].status.Leased? && s.batches[p.batch].status.Leased? && s.attempts[p.attempt].status.Leased?
    && s.work[p.work].leaseOwner == Some(p.owner) && s.work[p.work].leaseAttempt == Some(p.attempt)
    && s.work[p.work].leaseExpires == Some(p.leaseExpires)
    && s.attempts[p.attempt].work == p.work && s.attempts[p.attempt].batch == p.batch
    && s.work[p.work].attemptCount >= s.work[p.work].maxAttempts
  }

  /** The claim has already expired with its work dead. */
  predicate DeadAlready(s: Tables, p: ExactClaim)
    requires p.work in s.work && p.batch in s.batches && p.attempt in s.attempts
  {
    && s.work[p.work].status.Dead? && s.batches[p.batch].status.Expired? && s.attempts[p.attempt].status.Expired?
    && s.attempts[p.attempt].recoveryOutcome == Some(WorkStatus.Dead) && s.batches[p.batch].owner == p.owner
    && Unleased(s.work[p.work])
  }

  lemma RecoverExactAccepts(s: Tables, p: ExactClaim, t: int, skew: int, staged: bool)
    ensures var r := RecoverExact(s, p, t, skew, staged).reply;
            var due := skew >= 0 && t >= p.leaseExpires + skew && p.fence >= 1;
            var known := due && p.work in s.work && p.batch in s.batches && p.attempt in s.attempts;
            var single := known && |(set m | m in s.members && m.batch == p.batch)| == 1;
            && (r == Ok(true) <==> single && Claimed(s, p) && SoleAttempt(s, p) && DeadAlready(s, p))
            && (r == Ok(false) <==>
                  && single && Claimed(s, p) && SoleAttempt(s, p) && ExhaustedLease(s, p) && !staged
                  && p.envelope.batch == p.batch && p.envelope.owner == p.owner && p.envelope.items == p.membership
                  && |p.envelope.items| == 1 && p.envelope.items[0].attempt == p.attempt)
            && (r == Err(KeyMissing) <==> due && !known)
            && (r == Err(LeaseLost) <==>
                  || !(skew >= 0 && t >= p.leaseExpires + skew)
                  || (single && !(Claimed(s, p) && SoleAttempt(s, p) && (DeadAlready(s, p) || ExhaustedLease(s, p)))))
            && (r.Err? ==> r.error in {KeyMissing, BatchValidation, LeaseLost})
  {
    if p.work in s.work && p.batch in s.batches && p.attempt in s.attempts {
      MembersExact(s, p);
      assert AttemptsOfWork(s, p.work) == set a | a in s.attempts && s.attempts[a].work == p.work;
    }
    assert BatchMembers(s, p.batch) == set m | m in s.members && m.batch == p.batch;
  }

  lemma MembersExact(s: Tables, p: ExactClaim)
    requires p.work in s.work
    ensures ExactMember(s, p) <==> forall m :: m in s.members && m.batch == p.batch ==>
              m.item == ClaimItem(p.work, p.attempt, p.fence, s.work[p.work].spec.payload)
    ensures HasPublication(s, p.work) <==> !(forall i :: 0 <= i < |s.publications| ==> s.publications[i].work != p.work)
  {
  }

  // ---- replay and quarantine ----

  lemma ReplayAccepts(s: Tables, w: WorkId, operator: string, reason: string, additional: int, id: ReplayId, now: int)
    ensures var r := ReplayWork(s, w, operator, reason, additional, id, now).reply;
            && (r.Ok? <==> additional >= 1 && w in s.work && !s.work[w].status.Leased? && NonBlank(operator) && NonBlank(reason))
            && (r == Err(KeyMissing) <==> additional >= 1 && w !in s.work)
            && (r == Err(LeaseLost) <==> additional >= 1 && w in s.work && s.work[w].status.Leased?)
            && (r.Err? ==> r.error in {BadArgument, KeyMissing, LeaseLost})
  {
  }

  /** The expected item is of the release expected, and is ready with nothing committed or carries this very marker already. */
  predicate MayBeMarked(row: Work, e: Expectation, actor: string, explanation: string) {
    && row.spec.release == e.digest
    && ((row.status.Ready? && row.committedAttempt.None?)
        || (row.status.Dead? && row.lastError == Some(Quarantined(actor, explanation, e.digest))))
  }

  /** Work is quarantined exactly when every expected item may be marked: all of them, or none. */
  lemma QuarantineAccepts(s: Tables, es: seq<Expectation>, actor: string, explanation: string, now: int)
    ensures var r := Quarantine(s, es, actor, explanation, now).reply;
            && (r.Ok? <==> && |es| > 0 && NonBlank(actor) && NonBlank(explanation)
                           && forall i :: 0 <= i < |es| ==> es[i].work in s.work && MayBeMarked(s.work[es[i].work], es[i], actor, explanation))
            && (r == Err(BadArgument) <==> !(|es| > 0 && NonBlank(actor) && NonBlank(explanation)))
            && (r == Err(KeyMissing) <==> && |es| > 0 && NonBlank(actor) && NonBlank(explanation)
                                          && exists i :: 0 <= i < |es| && es[i].work !in s.work)
            && (r.Err? && !r.error.BadArgument? && !r.error.KeyMissing? ==>
                  exists i: nat :: FirstUnmarkable(s.work, es, i, actor, explanation) &&
                    r.error == if s.work[es[i].work].spec.release != es[i].digest then ImmutableConflict else NotEligible)
  {
    if forall i :: 0 <= i < |es| ==> es[i].work in s.work {
      forall i | 0 <= i < |es|
        ensures QuarantineItemError(s.work[es[i].work], es[i], QuarantineMarker(es[i], actor, explanation)).None?
                <==> MayBeMarked(s.work[es[i].work], es[i], actor, explanation)
      {
      }
      if QuarantineError(s.work, es, actor, explanation).Some? {
        var i := FirstRefusal(s.work, es, actor, explanation);
      }
    }
  }

  /** Expectation `i` is the first of those whose items may not be marked. */
  predicate FirstUnmarkable(work: map<WorkId, Work>, es: seq<Expectation>, i: nat, actor: string, explanation: string) {
    && i < |es| && es[i].work in work && !MayBeMarked(work[es[i].work], es[i], actor, explanation)
    && forall j :: 0 <= j < i ==> es[j].work in work && MayBeMarked(work[es[j].work], es[j], actor, explanation)
  }

  lemma {:induction false} FirstRefusal(work: map<WorkId, Work>, es: seq<Expectation>, actor: string, explanation: string)
    returns (i: nat)
    requires forall i :: 0 <= i < |es| ==> es[i].work in work
    requires QuarantineError(work, es, actor, explanation).Some?
    ensures FirstUnmarkable(work, es, i, actor, explanation)
    ensures QuarantineError(work, es, actor, explanation).value ==
            if work[es[i].work].spec.release != es[i].digest then ImmutableConflict else NotEligible
  {
    if QuarantineItemError(work[es[0].work], es[0], QuarantineMarker(es[0], actor, explanation)).Some? {
      i := 0;
    } else {
      var later := FirstRefusal(work, es[1..], actor, explanation);
      i := later + 1;
      assert es[1..][later] == es[i];
      forall j | 0 < j < i ensures MayBeMarked(work[es[j].work], es[j], actor, explanation) {
        ghost var k := j - 1;
        assert es[1..][k] == es[j];
      }
    }
  }
}
