/** The loops of quarantine and reconcile. */
module AuditLoops {
  import opened Wrappers
  import opened Ordering
  import opened ControlTables
  import opened ControlSpec

  // ---- quarantine ----

  ghost predicate QuarantinedSoFar(rows: map<WorkId, Work>, work: map<WorkId, Work>, es: seq<Expectation>, actor: string,
                                   explanation: string, now: int, w: WorkId)
    requires w in work
  {
    w in rows && rows[w] == QuarantinedWork(work[w], w, es, actor, explanation, now)
  }

  /** Marks each expected work item in turn, stopping at the first that may not be quarantined. */
  method QuarantineRows(work: map<WorkId, Work>, es: seq<Expectation>, actor: string, explanation: string, now: int)
    returns (r: Result<map<WorkId, Work>, ControlError>)
    requires forall i :: 0 <= i < |es| ==> es[i].work in work
    requires forall i, j :: 0 <= i < j < |es| ==> es[i].work != es[j].work
    ensures var e := QuarantineError(work, es, actor, explanation);
            if e.Some? then r == Err(e.value)
            else r == Ok(map w | w in work :: QuarantinedWork(work[w], w, es, actor, explanation, now))
  {
    var rows := work;
    for i := 0 to |es|
      invariant rows.Keys == work.Keys
      invariant forall w {:trigger QuarantinedSoFar(rows, work, es[..i], actor, explanation, now, w)} :: w in work ==>
        QuarantinedSoFar(rows, work, es[..i], actor, explanation, now, w)
      invariant QuarantineError(work, es, actor, explanation) == QuarantineError(work, es[i..], actor, explanation)
    {
      var e := es[i];
      ghost var before := rows;
      assert forall k :: 0 <= k < i ==> es[..i][k].work != e.work;
      assert QuarantinedSoFar(rows, work, es[..i], actor, explanation, now, e.work);
      var row, marker := rows[e.work], QuarantineMarker(e, actor, explanation);
      assert row == work[e.work];
      assert es[i..][0] == e && es[i..][1..] == es[i + 1..];
      if row.spec.release != e.digest { return Err(ImmutableConflict); }
      if !AlreadyQuarantined(row, marker) {
        if !row.status.Ready? || row.committedAttempt.Some? { return Err(NotEligible); }
        rows := rows[e.work := row.(status := WorkStatus.Dead, availableAt := now, lastError := Some(marker), updatedAt := now)];
      }
      QuarantineStep(before, rows, work, es, i, actor, explanation, now);
    }
    assert es[..|es|] == es && es[|es|..] == [];
    QuarantinedAll(rows, work, es, actor, explanation, now);
    r := Ok(rows);
  }

  lemma QuarantinedAll(rows: map<WorkId, Work>, work: map<WorkId, Work>, es: seq<Expectation>, actor: string,
                       explanation: string, now: int)
    requires rows.Keys == work.Keys
    requires forall w {:trigger QuarantinedSoFar(rows, work, es, actor, explanation, now, w)} :: w in work ==>
      QuarantinedSoFar(rows, work, es, actor, explanation, now, w)
    ensures rows == map w | w in work :: QuarantinedWork(work[w], w, es, actor, explanation, now)
  {
    forall w | w in work ensures rows[w] == QuarantinedWork(work[w], w, es, actor, explanation, now) {
      assert QuarantinedSoFar(rows, work, es, actor, explanation, now, w);
    }
  }

  lemma QuarantineStep(before: map<WorkId, Work>, rows: map<WorkId, Work>, work: map<WorkId, Work>, es: seq<Expectation>,
                       i: nat, actor: string, explanation: string, now: int)
    requires i < |es| && es[i].work in work && forall k :: 0 <= k < i ==> es[..i][k].work != es[i].work
    requires before.Keys == work.Keys
    requires rows == before[es[i].work := QuarantinedRow(work[es[i].work], QuarantineMarker(es[i], actor, explanation), now)]
    requires forall w {:trigger QuarantinedSoFar(before, work, es[..i], actor, explanation, now, w)} :: w in work ==>
      QuarantinedSoFar(before, work, es[..i], actor, explanation, now, w)
    ensures forall w {:trigger QuarantinedSoFar(rows, work, es[..i + 1], actor, explanation, now, w)} :: w in work ==>
      QuarantinedSoFar(rows, work, es[..i + 1], actor, explanation, now, w)
  {
    assert es[..i + 1] == es[..i] + [es[i]];
    forall w | w in work ensures QuarantinedSoFar(rows, work, es[..i + 1], actor, explanation, now, w) {
      assert QuarantinedSoFar(before, work, es[..i], actor, explanation, now, w);
      FirstWithAppend(es[..i], es[i], (e: Expectation) => e.work, w);
    }
  }

  lemma QuarantineWellFormed(s: Tables, es: seq<Expectation>, actor: string, explanation: string, now: int)
    requires WellFormed(s)
    ensures WellFormed(QuarantineTables(s, es, actor, explanation, now))
  {
    var s' := QuarantineTables(s, es, actor, explanation, now);
    forall w | w in s'.work ensures WorkLinked(s', w) {
      assert WorkLinked(s, w);
    }
  }

  // ---- reconcile ----

  method Detect(s: Tables, t: int) returns (detected: set<FindingKey>)
    requires WellFormed(s)
    ensures detected == DetectedKeys(s, t)
  {
    detected := {};
    var todo := s.work.Keys;
    while todo != {}
      invariant todo <= s.work.Keys
      invariant forall k :: k in detected <==> k in DetectedKeys(s, t) && k.work !in todo
      decreases |todo|
    {
      var w :| w in todo;
      todo := todo - {w};
      assert WorkLinked(s, w);
      if PointerBroken(s, s.work[w], w) { detected := detected + {FindingKey(InvalidCommittedPointer, w)}; }
      if s.work[w].status.Leased? && s.work[w].leaseExpires.value <= t {
        detected := detected + {FindingKey(ExpiredLease, w)};
      }
    }
  }

  function UpdatedFinding(findings: map<FindingKey, Finding>, detected: set<FindingKey>, t: int, k: FindingKey): Finding
    requires k in detected || k in findings
  {
    if k in detected then (if k in findings then SeenAgain(findings[k], t) else Finding(t, t, None))
    else Closed(findings[k], t)
  }

  /** Finding `k` once the findings of `todo` are still to be recorded. */
  ghost predicate SeenSoFar(rows: map<FindingKey, Finding>, findings: map<FindingKey, Finding>, seen: set<FindingKey>, t: int,
                            k: FindingKey)
  {
    if k in seen then k in rows && rows[k] == (if k in findings then SeenAgain(findings[k], t) else Finding(t, t, None))
    else if k in findings then k in rows && rows[k] == findings[k]
    else k !in rows
  }

  method SeeFindings(findings: map<FindingKey, Finding>, detected: set<FindingKey>, t: int)
    returns (rows: map<FindingKey, Finding>)
    ensures forall k {:trigger SeenSoFar(rows, findings, detected, t, k)} :: SeenSoFar(rows, findings, detected, t, k)
  {
    rows := findings;
    var todo, seen := detected, {};
    while todo != {}
      invariant seen !! todo && seen + todo == detected
      invariant forall k {:trigger SeenSoFar(rows, findings, seen, t, k)} :: SeenSoFar(rows, findings, seen, t, k)
      decreases |todo|
    {
      var k :| k in todo;
      ghost var before, was := rows, seen;
      assert SeenSoFar(rows, findings, seen, t, k);
      todo, seen := todo - {k}, seen + {k};
      rows := rows[k := if k in rows then SeenAgain(rows[k], t) else Finding(t, t, None)];
      forall j ensures SeenSoFar(rows, findings, seen, t, j) {
        assert SeenSoFar(before, findings, was, t, j);
      }
    }
    assert seen == detected;
  }

  method CloseFindings(rows: map<FindingKey, Finding>, detected: set<FindingKey>, t: int) returns (closed: map<FindingKey, Finding>)
    ensures closed.Keys == rows.Keys
    ensures forall k {:trigger closed[k]} :: k in rows ==> closed[k] == (if k in detected then rows[k] else Closed(rows[k], t))
  {
    closed := rows;
    var todo := rows.Keys;
    while todo != {}
      invariant todo <= rows.Keys && closed.Keys == rows.Keys
      invariant forall k {:trigger closed[k]} :: k in rows ==>
        closed[k] == (if k in todo || k in detected then rows[k] else Closed(rows[k], t))
      decreases |todo|
    {
      var k :| k in todo;
      todo := todo - {k};
      if k !in detected && closed[k].resolvedAt.None? { closed := closed[k := closed[k].(resolvedAt := Some(t))]; }
    }
  }

  /** Records every detected finding as seen at `t` and closes the open ones that were not detected. */
  method UpdateFindings(findings: map<FindingKey, Finding>, detected: set<FindingKey>, t: int)
    returns (rows: map<FindingKey, Finding>)
    ensures rows == map k | k in findings.Keys + detected :: UpdatedFinding(findings, detected, t, k)
  {
    var seen := SeeFindings(findings, detected, t);
    rows := CloseFindings(seen, detected, t);
    forall k ensures (k in rows <==> k in findings.Keys + detected) && (k in rows ==> rows[k] == UpdatedFinding(findings, detected, t, k)) {
      assert SeenSoFar(seen, findings, detected, t, k);
    }
  }

  lemma UpdatedAll(s: Tables, t: int, rows: map<FindingKey, Finding>)
    requires rows == map k | k in s.findings.Keys + DetectedKeys(s, t) :: UpdatedFinding(s.findings, DetectedKeys(s, t), t, k)
    ensures rows == ReconcileTables(s, t).findings
  {
  }

  lemma ReconcileWellFormed(s: Tables, t: int)
    requires WellFormed(s)
    ensures WellFormed(ReconcileTables(s, t))
  {
    var s' := ReconcileTables(s, t);
    forall w | w in s'.work ensures WorkLinked(s', w) {
      assert WorkLinked(s, w);
    }
  }
}
