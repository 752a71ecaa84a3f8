/** The loops of register and claim: each reads rows one at a time and builds the rows the operation writes. */
module ClaimLoops {
  import opened Wrappers
  import opened Ordering
  import opened ControlTables
  import opened ControlSpec

  // ---- register_many ----

  /** The content of the first `i` requests by their ids; they do not conflict. */
  ghost predicate SeenUpTo(seen: map<WorkId, WorkSpec>, requests: seq<Request>, i: nat)
    requires i <= |requests|
  {
    && (forall k :: 0 <= k < i ==> requests[k].work in seen && seen[requests[k].work] == requests[k].spec)
    && (forall w :: w in seen ==> exists k :: 0 <= k < i && requests[k].work == w)
  }

  lemma SeenDecides(seen: map<WorkId, WorkSpec>, requests: seq<Request>, i: nat)
    requires i < |requests| && SeenUpTo(seen, requests, i)
    ensures requests[i].work in seen <==> requests[i].work in Ids(requests[..i])
    ensures requests[i].work in seen && seen[requests[i].work] != requests[i].spec ==> RequestsConflict(requests)
  {
    var ids := Ids(requests[..i]);
    if requests[i].work in seen {
      var k :| 0 <= k < i && requests[k].work == requests[i].work;
      assert ids[k] == requests[i].work;
    }
    if requests[i].work in ids {
      var k :| 0 <= k < i && ids[k] == requests[i].work;
    }
  }

  lemma SeenMore(seen: map<WorkId, WorkSpec>, requests: seq<Request>, i: nat)
    requires i < |requests| && SeenUpTo(seen, requests, i)
    ensures requests[i].work !in seen ==> SeenUpTo(seen[requests[i].work := requests[i].spec], requests, i + 1)
    ensures requests[i].work in seen && seen[requests[i].work] == requests[i].spec ==> SeenUpTo(seen, requests, i + 1)
  {
  }

  lemma SeenAll(seen: map<WorkId, WorkSpec>, requests: seq<Request>)
    requires SeenUpTo(seen, requests, |requests|)
    ensures !RequestsConflict(requests)
  {
  }

  /** Before it takes the lock: keep the first request of each id, refuse a different repeat. */
  method FirstRequests(requests: seq<Request>) returns (r: Option<seq<Request>>)
    ensures r.None? <==> RequestsConflict(requests)
    ensures r.Some? ==> r.value == FirstOnes(requests)
  {
    var seen: map<WorkId, WorkSpec> := map[];
    var firsts := [];
    for i := 0 to |requests|
      invariant firsts == FirstOnes(requests[..i]) && SeenUpTo(seen, requests, i)
    {
      var request := requests[i];
      FirstOnesStep(requests, i);
      SeenDecides(seen, requests, i);
      SeenMore(seen, requests, i);
      if request.work in seen {
        if seen[request.work] != request.spec { return None; }
      } else {
        seen := seen[request.work := request.spec];
        firsts := firsts + [request];
      }
    }
    assert requests[..|requests|] == requests;
    SeenAll(seen, requests);
    r := Some(firsts);
  }

  lemma FirstOnesStep(requests: seq<Request>, i: nat)
    requires i < |requests|
    ensures FirstOnes(requests[..i + 1]) ==
            FirstOnes(requests[..i]) + (if requests[i].work in Ids(requests[..i]) then [] else [requests[i]])
  {
    assert requests[..i + 1][..i] == requests[..i];
  }

  /** The first requests have pairwise different ids and cover every requested id. */
  lemma {:induction false} FirstOnesCover(requests: seq<Request>)
    ensures Distinct(Ids(FirstOnes(requests)))
    ensures forall w :: w in Ids(FirstOnes(requests)) <==> w in Ids(requests)
  {
    if requests != [] {
      var n := |requests| - 1;
      var init := requests[..n];
      FirstOnesCover(init);
      assert Ids(requests) == Ids(init) + [requests[n].work];
      if requests[n].work in Ids(init) {
        assert FirstOnes(requests) == FirstOnes(init);
      } else {
        assert Ids(FirstOnes(requests)) == Ids(FirstOnes(init)) + [requests[n].work];
      }
    }
  }

  /** Each is what `FirstRequest` finds. */
  lemma {:induction false} FirstOneIsFirst(requests: seq<Request>, i: nat)
    requires i < |FirstOnes(requests)|
    ensures var first := FirstOnes(requests)[i]; first.work in Ids(requests) && FirstRequest(requests, first.work) == first
  {
    var n := |requests| - 1;
    var init := requests[..n];
    var first := FirstOnes(requests)[i];
    assert Ids(requests) == Ids(init) + [requests[n].work];
    if i < |FirstOnes(init)| {
      FirstOneIsFirst(init, i);
      IndexOfPrefix(Ids(init), Ids(requests), first.work);
    } else {
      IndexOfLast(Ids(init), first.work);
    }
  }

  lemma FirstOnesAreFirst(requests: seq<Request>)
    ensures Distinct(Ids(FirstOnes(requests)))
    ensures forall w :: w in Ids(FirstOnes(requests)) <==> w in Ids(requests)
    ensures forall i :: 0 <= i < |FirstOnes(requests)| ==>
      var first := FirstOnes(requests)[i]; first.work in Ids(requests) && FirstRequest(requests, first.work) == first
  {
    FirstOnesCover(requests);
    forall i | 0 <= i < |FirstOnes(requests)|
      ensures var first := FirstOnes(requests)[i]; first.work in Ids(requests) && FirstRequest(requests, first.work) == first
    {
      FirstOneIsFirst(requests, i);
    }
  }

  /** Row `w` of the work table once the first `i` of the first requests have been looked at. */
  ghost predicate AddedRow(rows: map<WorkId, Work>, work: map<WorkId, Work>, firsts: seq<Request>, i: nat, now: int, w: WorkId)
    requires i <= |firsts|
  {
    if w in work then w in rows && rows[w] == work[w]
    else if w in Ids(firsts)[..i] then w in rows && rows[w] == NewWork(FirstRequest(firsts, w), now)
    else w !in rows
  }

  ghost predicate AddedUpTo(rows: map<WorkId, Work>, work: map<WorkId, Work>, firsts: seq<Request>, i: nat, now: int)
    requires i <= |firsts|
  {
    forall w {:trigger AddedRow(rows, work, firsts, i, now, w)} :: AddedRow(rows, work, firsts, i, now, w)
  }

  /** Appends a row for every id that has none, and reports on every id; None is the conflict with a stored row. */
  method AddRows(work: map<WorkId, Work>, firsts: seq<Request>, now: int)
    returns (r: Option<(map<WorkId, Work>, seq<Registered>)>)
    requires Distinct(Ids(firsts))
    ensures r.None? <==> TableConflicts(work, firsts)
    ensures r.Some? ==> r.value.1 == Registrations(work, firsts, now)
    ensures r.Some? ==> AddedUpTo(r.value.0, work, firsts, |firsts|, now)
  {
    var rows: map<WorkId, Work> := work;
    var registered: seq<Registered> := [];
    ghost var ids := Ids(firsts);
    for i := 0 to |firsts|
      invariant AddedUpTo(rows, work, firsts, i, now)
      invariant forall k :: 0 <= k < i && firsts[k].work in work ==> work[firsts[k].work].spec == firsts[k].spec
      invariant registered == Registrations(work, firsts, now)[..i]
    {
      var first := firsts[i];
      ghost var before := rows;
      assert ids[i] == first.work && ids[..i + 1] == ids[..i] + [first.work];
      assert AddedRow(rows, work, firsts, i, now, first.work);
      IndexOfDistinct(ids, i);
      if first.work in rows {
        if rows[first.work].spec != first.spec { return None; }
      } else {
        rows := rows[first.work := NewWork(first, now)];
      }
      registered := registered + [RegisteredOf(first.work, rows[first.work])];
      ghost var n := i + 1;
      forall w ensures AddedRow(rows, work, firsts, n, now, w) {
        assert AddedRow(before, work, firsts, i, now, w);
      }
    }
    r := Some((rows, registered));
  }

  method AddWork(work: map<WorkId, Work>, requests: seq<Request>, firsts: seq<Request>, now: int)
    returns (r: Option<(map<WorkId, Work>, seq<Registered>)>)
    requires firsts == FirstOnes(requests) && !RequestsConflict(requests)
    ensures r.None? <==> TableConflicts(work, requests)
    ensures r.Some? ==> r.value == (RegisteredRows(work, requests, now), Registrations(work, firsts, now))
  {
    FirstOnesCover(requests);
    SameConflicts(work, requests);
    r := AddRows(work, firsts, now);
    if r.Some? { AddedAll(work, requests, firsts, now, r.value.0); }
  }

  /** A repeat says what the first request said, so looking at the first requests is enough. */
  lemma SameConflicts(work: map<WorkId, Work>, requests: seq<Request>)
    requires !RequestsConflict(requests)
    ensures TableConflicts(work, FirstOnes(requests)) <==> TableConflicts(work, requests)
  {
    var firsts := FirstOnes(requests);
    FirstOnesAreFirst(requests);
    if TableConflicts(work, requests) {
      var i :| 0 <= i < |requests| && requests[i].work in work && work[requests[i].work].spec != requests[i].spec;
      assert Ids(requests)[i] in Ids(firsts);
      var k :| 0 <= k < |firsts| && Ids(firsts)[k] == requests[i].work;
      var j := IndexOf(Ids(requests), requests[i].work);
      FirstAt(Ids(requests), i);
      assert firsts[k] == requests[j];
      assert firsts[k].spec == requests[i].spec;
    }
    if TableConflicts(work, firsts) {
      var k :| 0 <= k < |firsts| && firsts[k].work in work && work[firsts[k].work].spec != firsts[k].spec;
      var j := IndexOf(Ids(requests), firsts[k].work);
      assert requests[j] == firsts[k];
    }
  }

  lemma FirstAt(ids: seq<WorkId>, i: nat)
    requires i < |ids|
    ensures IndexOf(ids, ids[i]) <= i
  {
  }

  lemma AddedAll(work: map<WorkId, Work>, requests: seq<Request>, firsts: seq<Request>, now: int, rows: map<WorkId, Work>)
    requires firsts == FirstOnes(requests)
    requires AddedUpTo(rows, work, firsts, |firsts|, now)
    ensures rows == RegisteredRows(work, requests, now)
  {
    var spec := RegisteredRows(work, requests, now);
    FirstOnesAreFirst(requests);
    assert Ids(firsts)[..|firsts|] == Ids(firsts);
    forall w: WorkId ensures (w in rows <==> w in spec) && (w in rows ==> rows[w] == spec[w]) {
      assert AddedRow(rows, work, firsts, |firsts|, now, w);
      if w in Ids(firsts) {
        var k := IndexOf(Ids(firsts), w);
        assert firsts[k].work == w && FirstRequest(firsts, w) == firsts[k];
      }
    }
  }

  lemma RegisterWellFormed(s: Tables, requests: seq<Request>, release: Option<string>, now: int)
    requires WellFormed(s)
    ensures WellFormed(Register(s, requests, release, now).tables)
  {
    var s' := Register(s, requests, release, now).tables;
    forall w | w in s'.work ensures WorkLinked(s', w) {
      if w in s.work { assert WorkLinked(s, w); }
    }
  }

  // ---- claim ----

  method LeaseWork(work: map<WorkId, Work>, c: Claim) returns (rows: map<WorkId, Work>)
    requires |c.attempts| == |c.selected| && Distinct(c.selected)
    requires forall i :: 0 <= i < |c.selected| ==> c.selected[i] in work
    ensures rows == map w | w in work :: ClaimedWork(work[w], c, w)
  {
    rows := work;
    for i := 0 to |c.selected|
      invariant rows.Keys == work.Keys
      invariant forall w :: w in work ==>
        rows[w] == if w in c.selected && IndexOf(c.selected, w) < i then ClaimedWork(work[w], c, w) else work[w]
    {
      var w := c.selected[i];
      IndexOfDistinct(c.selected, i);
      rows := rows[w := LeasedRow(rows[w], c, c.attempts[i])];
    }
  }

  /** Attempt row `a` after the first `i` selected items have been added. */
  ghost predicate ClaimedRow(rows: map<AttemptId, Attempt>, s: Tables, c: Claim, i: nat, a: AttemptId)
    requires Claimable(s, c)
  {
    if a in s.attempts then a in rows && rows[a] == s.attempts[a]
    else if a in c.attempts && IndexOf(c.attempts, a) < i then a in rows && rows[a] == ClaimedAttempt(s, c, a)
    else a !in rows
  }

  ghost predicate ClaimedUpTo(rows: map<AttemptId, Attempt>, s: Tables, c: Claim, i: nat)
    requires Claimable(s, c)
  {
    forall a {:trigger ClaimedRow(rows, s, c, i, a)} :: ClaimedRow(rows, s, c, i, a)
  }

  method AddMembers(s: Tables, c: Claim) returns (members: set<Member>, attempts: map<AttemptId, Attempt>)
    requires Claimable(s, c)
    ensures members == ClaimTables(s, c).members && attempts == ClaimTables(s, c).attempts
  {
    members, attempts := s.members, s.attempts;
    var n := |c.selected|;
    for i := 0 to n
      invariant members == s.members + (set k | 0 <= k < i :: Member(c.batch, k, ClaimedItem(s, c, k)))
      invariant ClaimedUpTo(attempts, s, c, i)
    {
      members := members + {Member(c.batch, i, ClaimedItem(s, c, i))};
      attempts := AddAttempt(s, c, i, attempts);
    }
    ClaimedAll(s, c, attempts);
  }

  method AddAttempt(s: Tables, c: Claim, i: nat, before: map<AttemptId, Attempt>) returns (rows: map<AttemptId, Attempt>)
    requires Claimable(s, c) && i < |c.selected|
    requires ClaimedUpTo(before, s, c, i)
    ensures ClaimedUpTo(rows, s, c, i + 1)
  {
    IndexOfDistinct(c.attempts, i);
    rows := before[c.attempts[i] := NewAttempt(ClaimedItem(s, c, i), c)];
    ghost var n := i + 1;
    forall a ensures ClaimedRow(rows, s, c, n, a) {
      assert ClaimedRow(before, s, c, i, a);
      assert a in c.attempts && IndexOf(c.attempts, a) == i ==> a == c.attempts[i];
    }
  }

  lemma ClaimedAll(s: Tables, c: Claim, rows: map<AttemptId, Attempt>)
    requires Claimable(s, c)
    requires ClaimedUpTo(rows, s, c, |c.selected|)
    ensures rows == s.attempts + map a | a in c.attempts :: ClaimedAttempt(s, c, a)
  {
    var spec := s.attempts + map a | a in c.attempts :: ClaimedAttempt(s, c, a);
    forall a ensures (a in rows <==> a in spec) && (a in rows ==> rows[a] == spec[a]) {
      assert ClaimedRow(rows, s, c, |c.selected|, a);
    }
  }

  lemma ClaimLinks(s: Tables, c: Claim, w: WorkId)
    requires WellFormed(s) && Claimable(s, c) && w in s.work
    ensures WorkLinked(ClaimTables(s, c), w)
  {
    var s' := ClaimTables(s, c);
    assert WorkLinked(s, w);
    if w in c.selected {
      var i := IndexOf(c.selected, w);
      IndexOfDistinct(c.attempts, i);
      assert s'.attempts[c.attempts[i]] == ClaimedAttempt(s, c, c.attempts[i]);
    } else {
      assert s'.work[w] == s.work[w];
    }
  }

  lemma ClaimWellFormed(s: Tables, c: Claim)
    requires WellFormed(s) && Claimable(s, c)
    ensures WellFormed(ClaimTables(s, c))
  {
    var s' := ClaimTables(s, c);
    forall w | w in s'.work ensures WorkLinked(s', w) {
      ClaimLinks(s, c, w);
    }
    forall a | a in s'.attempts ensures s'.attempts[a].work in s'.work {
      if a in c.attempts { assert s'.attempts[a] == ClaimedAttempt(s, c, a); }
      else { assert s'.attempts[a] == s.attempts[a]; }
    }
  }
}
