/** Which work items a claim takes: the runtime whose oldest eligible item is oldest, and of that runtime's items the
    longest admissible oldest-first prefix. */
module ClaimSelection {
  import opened Wrappers
  import opened Ordering
  import opened ControlTables
  import opened LeaseAdmission

  predicate Eligible(row: Work, w: WorkId, now: int, scope: Option<set<WorkId>>) {
    row.status.Ready? && row.availableAt <= now && (scope.None? || w in scope.value)
  }

  function EligibleSet(work: map<WorkId, Work>, now: int, scope: Option<set<WorkId>>): set<WorkId> {
    set w | w in work && Eligible(work[w], w, now, scope)
  }

  function OfRuntime(work: map<WorkId, Work>, eligible: set<WorkId>, k: RuntimeKey): set<WorkId>
    requires eligible <= work.Keys
  {
    set w | w in eligible && work[w].spec.runtimeKey == k
  }

  /** Queue order: creation time, then work id. */
  predicate Before(work: map<WorkId, Work>, v: WorkId, w: WorkId)
    requires v in work && w in work
  {
    work[v].createdAt < work[w].createdAt || (work[v].createdAt == work[w].createdAt && v <= w)
  }

  /** The runtime has enough eligible work. */
  predicate Candidate(work: map<WorkId, Work>, eligible: set<WorkId>, minimum: nat, k: RuntimeKey)
    requires eligible <= work.Keys
  {
    |OfRuntime(work, eligible, k)| >= minimum && OfRuntime(work, eligible, k) != {}
  }

  /** `first` is the creation time of the oldest eligible item of runtime `k`. */
  predicate OldestOf(work: map<WorkId, Work>, eligible: set<WorkId>, k: RuntimeKey, first: int)
    requires eligible <= work.Keys
  {
    && (exists w :: w in OfRuntime(work, eligible, k) && work[w].createdAt == first)
    && (forall w :: w in OfRuntime(work, eligible, k) ==> first <= work[w].createdAt)
  }

  /** No candidate runtime has an older oldest item; ties go to the smaller key. */
  ghost predicate BestRuntime(work: map<WorkId, Work>, eligible: set<WorkId>, minimum: nat, k: RuntimeKey)
    requires eligible <= work.Keys
  {
    && Candidate(work, eligible, minimum, k)
    && exists first :: OldestOf(work, eligible, k, first) &&
         forall k': RuntimeKey, first' :: Candidate(work, eligible, minimum, k') && OldestOf(work, eligible, k', first') ==>
           first < first' || (first == first' && k <= k')
  }

  /** The tallies say, for each runtime with an item in `seen`, how many it has and when its oldest was created. */
  ghost predicate Tallies(work: map<WorkId, Work>, seen: set<WorkId>, firsts: map<RuntimeKey, int>, counts: map<RuntimeKey, nat>)
    requires seen <= work.Keys
  {
    counts.Keys == firsts.Keys &&
    forall k: RuntimeKey {:trigger TallyRow(work, seen, firsts, counts, k)} :: TallyRow(work, seen, firsts, counts, k)
  }

  ghost predicate TallyRow(work: map<WorkId, Work>, seen: set<WorkId>, firsts: map<RuntimeKey, int>,
                           counts: map<RuntimeKey, nat>, k: RuntimeKey)
    requires seen <= work.Keys
  {
    if k in counts then
      && k in firsts && OfRuntime(work, seen, k) != {} && counts[k] == |OfRuntime(work, seen, k)|
      && OldestOf(work, seen, k, firsts[k])
    else OfRuntime(work, seen, k) == {}
  }

  method Tally(work: map<WorkId, Work>, eligible: set<WorkId>) returns (firsts: map<RuntimeKey, int>, counts: map<RuntimeKey, nat>)
    requires eligible <= work.Keys
    ensures Tallies(work, eligible, firsts, counts)
  {
    firsts, counts := map[], map[];
    var todo := eligible;
    while todo != {}
      invariant todo <= eligible && Tallies(work, eligible - todo, firsts, counts)
      decreases |todo|
    {
      var w :| w in todo;
      var k := work[w].spec.runtimeKey;
      var first := if k in firsts && firsts[k] <= work[w].createdAt then firsts[k] else work[w].createdAt;
      TallyStep(work, eligible - todo, firsts, counts, w);
      firsts := firsts[k := first];
      counts := counts[k := (if k in counts then counts[k] else 0) + 1];
      assert eligible - (todo - {w}) == eligible - todo + {w};
      todo := todo - {w};
    }
    assert eligible - todo == eligible;
  }

  lemma TallyStep(work: map<WorkId, Work>, seen: set<WorkId>, firsts: map<RuntimeKey, int>, counts: map<RuntimeKey, nat>, w: WorkId)
    requires seen <= work.Keys && w in work && w !in seen && Tallies(work, seen, firsts, counts)
    ensures var k := work[w].spec.runtimeKey;
            var first := if k in firsts && firsts[k] <= work[w].createdAt then firsts[k] else work[w].createdAt;
            Tallies(work, seen + {w}, firsts[k := first], counts[k := (if k in counts then counts[k] else 0) + 1])
  {
    var k := work[w].spec.runtimeKey;
    var first := if k in firsts && firsts[k] <= work[w].createdAt then firsts[k] else work[w].createdAt;
    var counts' := counts[k := (if k in counts then counts[k] else 0) + 1];
    var firsts', seen' := firsts[k := first], seen + {w};
    forall j: RuntimeKey ensures TallyRow(work, seen', firsts', counts', j) {
      assert TallyRow(work, seen, firsts, counts, j);
      if j == k { TallyOwn(work, seen, firsts, counts, w); } else { TallyOther(work, seen, w, j); }
    }
  }

  lemma TallyOther(work: map<WorkId, Work>, seen: set<WorkId>, w: WorkId, j: RuntimeKey)
    requires seen <= work.Keys && w in work && j != work[w].spec.runtimeKey
    ensures OfRuntime(work, seen + {w}, j) == OfRuntime(work, seen, j)
  {
  }

  lemma TallyOwn(work: map<WorkId, Work>, seen: set<WorkId>, firsts: map<RuntimeKey, int>, counts: map<RuntimeKey, nat>, w: WorkId)
    requires seen <= work.Keys && w in work && w !in seen && TallyRow(work, seen, firsts, counts, work[w].spec.runtimeKey)
    requires counts.Keys == firsts.Keys
    ensures var k := work[w].spec.runtimeKey;
            var first := if k in firsts && firsts[k] <= work[w].createdAt then firsts[k] else work[w].createdAt;
            TallyRow(work, seen + {w}, firsts[k := first], counts[k := (if k in counts then counts[k] else 0) + 1], k)
  {
    var k := work[w].spec.runtimeKey;
    assert OfRuntime(work, seen + {w}, k) == OfRuntime(work, seen, k) + {w};
  }

  method ChooseRuntime(work: map<WorkId, Work>, eligible: set<WorkId>, minimum: nat) returns (r: Option<RuntimeKey>)
    requires eligible <= work.Keys
    ensures r.None? ==> forall k: RuntimeKey :: !Candidate(work, eligible, minimum, k)
    ensures r.Some? ==> BestRuntime(work, eligible, minimum, r.value)
  {
    var firsts, counts := Tally(work, eligible);
    forall k: RuntimeKey ensures Candidate(work, eligible, minimum, k) <==> k in counts && counts[k] >= minimum {
      assert TallyRow(work, eligible, firsts, counts, k);
    }
    r := None;
    var keys := counts.Keys;
    while keys != {}
      invariant keys <= counts.Keys
      invariant r.None? ==> forall k :: k in counts && k !in keys ==> counts[k] < minimum
      invariant r.Some? ==> r.value in counts && counts[r.value] >= minimum
      invariant r.Some? ==> forall k :: k in counts && k !in keys && counts[k] >= minimum ==>
        firsts[r.value] < firsts[k] || (firsts[r.value] == firsts[k] && r.value <= k)
      decreases |keys|
    {
      var k :| k in keys;
      keys := keys - {k};
      if counts[k] >= minimum &&
         (r.None? || firsts[k] < firsts[r.value] || (firsts[k] == firsts[r.value] && k < r.value)) {
        r := Some(k);
      }
    }
    if r.Some? { TalliedBest(work, eligible, minimum, firsts, counts, r.value); }
  }

  lemma TalliedBest(work: map<WorkId, Work>, eligible: set<WorkId>, minimum: nat, firsts: map<RuntimeKey, int>,
                    counts: map<RuntimeKey, nat>, k: RuntimeKey)
    requires eligible <= work.Keys && Tallies(work, eligible, firsts, counts) && k in counts && counts[k] >= minimum
    requires forall j :: j in counts && counts[j] >= minimum ==> firsts[k] < firsts[j] || (firsts[k] == firsts[j] && k <= j)
    ensures BestRuntime(work, eligible, minimum, k)
  {
    assert TallyRow(work, eligible, firsts, counts, k);
    forall j: RuntimeKey, first | Candidate(work, eligible, minimum, j) && OldestOf(work, eligible, j, first)
      ensures firsts[k] < first || (firsts[k] == first && k <= j)
    {
      assert TallyRow(work, eligible, firsts, counts, j);
    }
  }

  /** `chosen` is the oldest-first beginning of `from`, of length `limit` or all of it. */
  ghost predicate OldestFirst(work: map<WorkId, Work>, from: set<WorkId>, limit: nat, chosen: seq<WorkId>)
    requires from <= work.Keys
  {
    && Distinct(chosen) && (forall i :: 0 <= i < |chosen| ==> chosen[i] in from)
    && |chosen| == (if |from| <= limit then |from| else limit)
    && (forall i, j :: 0 <= i < j < |chosen| ==> Before(work, chosen[i], chosen[j]))
    && (forall i, w :: 0 <= i < |chosen| && w in from && w !in chosen ==> Before(work, chosen[i], w))
  }

  method TakeOldest(work: map<WorkId, Work>, from: set<WorkId>, limit: nat) returns (chosen: seq<WorkId>)
    requires from <= work.Keys
    ensures OldestFirst(work, from, limit, chosen)
  {
    chosen := [];
    var rest := from;
    while rest != {} && |chosen| < limit
      invariant rest <= from && Distinct(chosen) && |chosen| + |rest| == |from| && |chosen| <= limit
      invariant forall w :: w in from ==> (w in chosen <==> w !in rest)
      invariant forall i :: 0 <= i < |chosen| ==> chosen[i] in from
      invariant forall i, j :: 0 <= i < j < |chosen| ==> Before(work, chosen[i], chosen[j])
      invariant forall i, w :: 0 <= i < |chosen| && w in rest ==> Before(work, chosen[i], w)
      decreases |rest|
    {
      var w := Oldest(work, rest);
      chosen := chosen + [w];
      rest := rest - {w};
    }
  }

  method Oldest(work: map<WorkId, Work>, from: set<WorkId>) returns (oldest: WorkId)
    requires from <= work.Keys && from != {}
    ensures oldest in from && forall w :: w in from ==> Before(work, oldest, w)
  {
    oldest :| oldest in from;
    var todo := from - {oldest};
    while todo != {}
      invariant todo <= from && oldest in from
      invariant forall w :: w in from && w !in todo ==> Before(work, oldest, w)
      decreases |todo|
    {
      var w :| w in todo;
      todo := todo - {w};
      if !Before(work, oldest, w) { oldest := w; }
    }
  }

  /** The longest prefix of at least `minimum` items that fits the lease. */
  ghost predicate LargestAdmissible(work: map<WorkId, Work>, chosen: seq<WorkId>, minimum: nat, q: Admission, lease: real, n: nat)
    requires 1 <= minimum <= |chosen| && ValidAdmission(q)
  {
    && minimum <= n <= |chosen| && Fits(work, chosen[..n], q, lease)
    && forall k :: n < k <= |chosen| ==> !Fits(work, chosen[..k], q, lease)
  }

  /** `_largest_admissible_claim_prefix`: None is the lease-budget error, raised when even the minimum does not fit. */
  method AdmissiblePrefix(work: map<WorkId, Work>, chosen: seq<WorkId>, minimum: nat, q: Admission, lease: real)
    returns (r: Option<nat>)
    requires 1 <= minimum <= |chosen| && ValidAdmission(q)
    ensures r.None? <==> !Fits(work, chosen[..minimum], q, lease)
    ensures r.Some? ==> LargestAdmissible(work, chosen, minimum, q, lease, r.value)
  {
    var least := CheckFits(work, chosen[..minimum], q, lease);
    if !least { return None; }
    var n := |chosen|;
    while n > minimum
      invariant minimum <= n <= |chosen|
      invariant forall k :: n < k <= |chosen| ==> !Fits(work, chosen[..k], q, lease)
    {
      var fits := CheckFits(work, chosen[..n], q, lease);
      if fits { return Some(n); }
      n := n - 1;
    }
    r := Some(minimum);
  }
}
