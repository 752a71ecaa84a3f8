/** The reader that builds Gold tables from committed pointers without taking the writers' lock. */
module GoldReader {
  import opened Wrappers
  import opened Ordering
  import opened ControlTables
  import opened ControlSpec
  import opened ControlInvariant

  datatype VisibleRow = VisibleRow(id: WorkId, work: Work, attempt: Attempt, publication: Publication, batch: Batch)

  function Sequence(row: VisibleRow): int {
    row.publication.sequence
  }

  /** The publication the reader's dictionary holds for a work item and an attempt: the last such row. */
  function LastFor(publications: seq<Publication>, w: WorkId, a: AttemptId): (r: Option<Publication>)
    ensures r.Some? ==> r.value in publications && r.value.work == w && r.value.attempt == a
    ensures r.None? ==> forall i :: 0 <= i < |publications| ==> publications[i].work != w || publications[i].attempt != a
  {
    if publications == [] then None
    else
      var n := |publications| - 1;
      if publications[n].work == w && publications[n].attempt == a then Some(publications[n])
      else LastFor(publications[..n], w, a)
  }

  /** The reader's check of one committed pointer; None is the rejected pointer. */
  function CheckedRow(w: WorkId, row: Work, attempts: map<AttemptId, Attempt>, batches: map<BatchId, Batch>,
                      publications: seq<Publication>): Option<VisibleRow>
    requires row.committedAttempt.Some?
  {
    var a := row.committedAttempt.value;
    if a !in attempts then None
    else
      var attempt := attempts[a];
      var publication := LastFor(publications, w, a);
      if publication.None? || attempt.batch !in batches then None
      else
        var p, batch := publication.value, batches[attempt.batch];
        if attempt.work != w || !attempt.status.Succeeded? || !row.status.Succeeded?
           || row.publicationSequence != Some(p.sequence)
           || p.outputPath != attempt.outputPath || p.outputSha != attempt.outputSha
           || p.batch != attempt.batch || !batch.status.Committed?
        then None
        else Some(VisibleRow(w, row, attempt, p, batch))
  }

  /** The publication is the last of work `w` by attempt `a`. */
  ghost predicate Latest(publications: seq<Publication>, w: WorkId, a: AttemptId, p: Publication) {
    exists k :: 0 <= k < |publications| && publications[k] == p && p.work == w && p.attempt == a
      && forall j :: k < j < |publications| ==> !(publications[j].work == w && publications[j].attempt == a)
  }

  /** The visible row is of a pointed work: succeeded, by a succeeded attempt of it in a committed batch, whose publication the
      work names and which repeats the attempt's output. */
  ghost predicate Shows(v: VisibleRow, work: map<WorkId, Work>, attempts: map<AttemptId, Attempt>, batches: map<BatchId, Batch>,
                        publications: seq<Publication>)
  {
    && v.id in work && v.work == work[v.id] && v.work.status.Succeeded? && v.work.committedAttempt.Some?
    && (var a := v.work.committedAttempt.value;
        && a in attempts && v.attempt == attempts[a] && v.attempt.work == v.id && v.attempt.status.Succeeded?
        && v.attempt.batch in batches && v.batch == batches[v.attempt.batch] && v.batch.status.Committed?
        && Latest(publications, v.id, a, v.publication) && v.work.publicationSequence == Some(v.publication.sequence)
        && v.publication.outputPath == v.attempt.outputPath && v.publication.outputSha == v.attempt.outputSha
        && v.publication.batch == v.attempt.batch)
  }

  /** A pointer passes its check exactly when there is such a row for it, which is then the one shown. */
  lemma CheckedIffShows(w: WorkId, work: map<WorkId, Work>, attempts: map<AttemptId, Attempt>, batches: map<BatchId, Batch>,
                        publications: seq<Publication>, v: VisibleRow)
    requires w in work && work[w].committedAttempt.Some?
    ensures CheckedRow(w, work[w], attempts, batches, publications) == Some(v)
            <==> v.id == w && Shows(v, work, attempts, batches, publications)
  {
    var a := work[w].committedAttempt.value;
    LastIsLatest(publications, w, a);
    forall p | Latest(publications, w, a, p) ensures LastFor(publications, w, a) == Some(p) {
      LatestIsLast(publications, w, a, p);
    }
  }

  lemma {:induction false} LastIsLatest(publications: seq<Publication>, w: WorkId, a: AttemptId)
    ensures LastFor(publications, w, a).Some? ==> Latest(publications, w, a, LastFor(publications, w, a).value)
  {
    if publications != [] {
      var n := |publications| - 1;
      if publications[n].work == w && publications[n].attempt == a {
        assert publications[n] == LastFor(publications, w, a).value;
      } else if LastFor(publications, w, a).Some? {
        LastIsLatest(publications[..n], w, a);
        var k :| 0 <= k < n && publications[..n][k] == LastFor(publications, w, a).value
          && forall j :: k < j < n ==> !(publications[..n][j].work == w && publications[..n][j].attempt == a);
        assert publications[k] == LastFor(publications, w, a).value;
        assert forall j :: k < j < n ==> publications[..n][j] == publications[j];
      }
    }
  }

  lemma {:induction false} LatestIsLast(publications: seq<Publication>, w: WorkId, a: AttemptId, p: Publication)
    requires Latest(publications, w, a, p)
    ensures LastFor(publications, w, a) == Some(p)
  {
    var n := |publications| - 1;
    var k :| 0 <= k < |publications| && publications[k] == p
      && forall j :: k < j < |publications| ==> !(publications[j].work == w && publications[j].attempt == a);
    if k < n {
      assert publications[..n][k] == p;
      assert forall j :: k < j < n ==> publications[..n][j] == publications[j];
      LatestIsLast(publications[..n], w, a, p);
    }
  }

  /** Every committed pointer of a work snapshot passes its check against the other three snapshots. */
  predicate AllPointersValid(work: map<WorkId, Work>, attempts: map<AttemptId, Attempt>, batches: map<BatchId, Batch>,
                             publications: seq<Publication>)
  {
    forall w :: w in work && work[w].committedAttempt.Some? ==>
      CheckedRow(w, work[w], attempts, batches, publications).Some?
  }

  function VisibleSet(work: map<WorkId, Work>, attempts: map<AttemptId, Attempt>, batches: map<BatchId, Batch>,
                      publications: seq<Publication>): set<VisibleRow>
    requires AllPointersValid(work, attempts, batches, publications)
  {
    set w | w in work && work[w].committedAttempt.Some? ::
      CheckedRow(w, work[w], attempts, batches, publications).value
  }

  /** `_visible_rows` over four snapshots: an error, or the visible rows in publication order. */
  ghost function VisibleRows(work: map<WorkId, Work>, attempts: map<AttemptId, Attempt>, batches: map<BatchId, Batch>,
                             publications: seq<Publication>): Result<seq<VisibleRow>, ()>
  {
    if AllPointersValid(work, attempts, batches, publications)
    then Ok(SortedBy(VisibleSet(work, attempts, batches, publications), Sequence))
    else Err(())
  }

  ghost function VisibleAt(s: Tables): Result<seq<VisibleRow>, ()> {
    VisibleRows(s.work, s.attempts, s.batches, s.publications)
  }

  /** The rows a committed pointer names. */
  ghost function PointedRow(s: Tables, w: WorkId): VisibleRow
    requires w in s.work && PointerBacked(s, w) && s.work[w].committedAttempt.Some?
  {
    var a := s.work[w].committedAttempt.value;
    VisibleRow(w, s.work[w], s.attempts[a], s.publications[s.work[w].publicationSequence.value - 1],
               s.batches[s.attempts[a].batch])
  }

  /** Everything the reader checks about the pointer of `w` is there to be found. */
  ghost predicate PointerBacked(s: Tables, w: WorkId)
    requires w in s.work
  {
    s.work[w].committedAttempt.Some? ==>
      var row := s.work[w];
      var a := row.committedAttempt.value;
      && row.status.Succeeded? && row.publicationSequence.Some?
      && 1 <= row.publicationSequence.value <= |s.publications|
      && a in s.attempts && s.attempts[a].work == w && s.attempts[a].status.Succeeded?
      && s.attempts[a].batch in s.batches && s.batches[s.attempts[a].batch].status.Committed?
      && s.publications[row.publicationSequence.value - 1]
         == Publication(row.publicationSequence.value, w, a, s.attempts[a].batch, s.attempts[a].outputPath,
                        s.attempts[a].outputSha, s.publications[row.publicationSequence.value - 1].publishedAt)
  }

  lemma InvBacksPointers(s: Tables, w: WorkId)
    requires Inv(s) && w in s.work
    ensures PointerBacked(s, w)
  {
    if s.work[w].committedAttempt.Some? {
      assert PointerRow(s, w);
      assert PublicationRow(s, s.work[w].publicationSequence.value - 1);
      assert AttemptRow(s, s.work[w].committedAttempt.value);
    }
  }

  /** In any state the store can reach the reader never raises, and sees exactly the rows its pointers name. */
  lemma ReaderAcceptsAtomicStates(s: Tables)
    requires Inv(s)
    ensures AllPointersValid(s.work, s.attempts, s.batches, s.publications) && VisibleAt(s).Ok?
    ensures forall w :: w in s.work && s.work[w].committedAttempt.Some? ==>
      PointerBacked(s, w) && CheckedRow(w, s.work[w], s.attempts, s.batches, s.publications) == Some(PointedRow(s, w))
  {
    forall w | w in s.work && s.work[w].committedAttempt.Some?
      ensures PointerBacked(s, w) && CheckedRow(w, s.work[w], s.attempts, s.batches, s.publications) == Some(PointedRow(s, w))
    {
      InvBacksPointers(s, w);
      UniqueForAttempt(s, w, s.work[w].publicationSequence.value - 1);
    }
  }

  lemma UniqueForAttempt(s: Tables, w: WorkId, q: int)
    requires Inv(s) && 0 <= q < |s.publications| && s.publications[q].work == w
    ensures LastFor(s.publications, w, s.publications[q].attempt) == Some(s.publications[q])
  {
  }

  /** The work is pointed and there is no row to show for it. */
  ghost predicate Dangles(w: WorkId, work: map<WorkId, Work>, attempts: map<AttemptId, Attempt>, batches: map<BatchId, Batch>,
                          publications: seq<Publication>)
  {
    w in work && work[w].committedAttempt.Some? &&
    forall v: VisibleRow {:trigger Shows(v, work, attempts, batches, publications)} ::
      v.id == w ==> !Shows(v, work, attempts, batches, publications)
  }

  lemma PointersShown(work: map<WorkId, Work>, attempts: map<AttemptId, Attempt>, batches: map<BatchId, Batch>,
                      publications: seq<Publication>)
    ensures !AllPointersValid(work, attempts, batches, publications) <==> exists w :: Dangles(w, work, attempts, batches, publications)
    ensures AllPointersValid(work, attempts, batches, publications) ==>
      forall v :: v in VisibleSet(work, attempts, batches, publications) <==> Shows(v, work, attempts, batches, publications)
  {
    forall w, v: VisibleRow | w in work && work[w].committedAttempt.Some?
      ensures CheckedRow(w, work[w], attempts, batches, publications) == Some(v)
              <==> v.id == w && Shows(v, work, attempts, batches, publications)
    {
      CheckedIffShows(w, work, attempts, batches, publications, v);
    }
    forall w | w in work && work[w].committedAttempt.Some?
      ensures CheckedRow(w, work[w], attempts, batches, publications).None? <==> Dangles(w, work, attempts, batches, publications)
    {
      if CheckedRow(w, work[w], attempts, batches, publications).Some? {
        assert Shows(CheckedRow(w, work[w], attempts, batches, publications).value, work, attempts, batches, publications);
      }
    }
  }

  /** `_visible_rows` as the reader runs it: check every pointer, then keep the rows ordered by sequence. */
  method ReadVisible(work: map<WorkId, Work>, attempts: map<AttemptId, Attempt>, batches: map<BatchId, Batch>,
                     publications: seq<Publication>)
    returns (r: Result<seq<VisibleRow>, ()>)
    ensures r.Err? <==> !AllPointersValid(work, attempts, batches, publications)
    ensures r.Err? <==> exists w :: Dangles(w, work, attempts, batches, publications)
    ensures r.Ok? ==> forall row :: row in r.value <==> Shows(row, work, attempts, batches, publications)
    ensures r.Ok? ==> Distinct(r.value) &&
                      forall i, j :: 0 <= i < j < |r.value| ==> r.value[i].publication.sequence <= r.value[j].publication.sequence
  {
    PointersShown(work, attempts, batches, publications);
    var visible: seq<VisibleRow> := [];
    var todo := work.Keys;
    while todo != {}
      invariant todo <= work.Keys
      invariant forall w :: w in work && w !in todo && work[w].committedAttempt.Some? ==>
        CheckedRow(w, work[w], attempts, batches, publications).Some?
      invariant forall row :: row in visible <==>
        row.id in work && row.id !in todo && work[row.id].committedAttempt.Some?
        && CheckedRow(row.id, work[row.id], attempts, batches, publications) == Some(row)
      invariant Distinct(visible) && OrderedBy(visible, Sequence)
      decreases |todo|
    {
      var w :| w in todo;
      todo := todo - {w};
      if work[w].committedAttempt.Some? {
        var checked := CheckedRow(w, work[w], attempts, batches, publications);
        if checked.None? { return Err(()); }
        ghost var before := visible;
        visible := InsertByKey(visible, checked.value, Sequence);
        InsertedMembers(before, checked.value, visible);
      }
    }
    r := Ok(visible);
  }
}
