/** The drain as a machine that may stop between any two writes.

    One move writes one row or appends one group of receipts; a crash forgets the receipts held back and the plan in
    hand, and keeps whatever was written.  A later drain starts from what is stored.  Every look at the clock may read
    any time at which the command gets the verdict the reference clock would give it in the present tables. */
module CrashDrain {
  import opened Wrappers
  import opened WorkerEvents
  import opened EventLog

  datatype Hand = Reading | AttemptWritten(plan: Plan) | BothWritten(plan: Plan)

  datatype Phase = Idle | Busy(queue: seq<Event>, position: nat, batch: seq<Receipt>, hand: Hand)

  datatype State = State(store: Store, receipts: seq<Receipt>, phase: Phase)

  datatype Move = Begin(limit: nat) | Flush | Skip | WritesAttempt(now: int) | WritesWork | Records | Finish | Crash

  predicate Reads(s: State) {
    s.phase.Busy? && s.phase.hand.Reading? && s.phase.position < |s.phase.queue|
  }

  function Current(s: State): Event
    requires s.phase.Busy? && s.phase.position < |s.phase.queue|
  {
    s.phase.queue[s.phase.position]
  }

  predicate Repeated(s: State)
    requires Reads(s)
  {
    Acknowledged(s.receipts, Current(s).id) || Acknowledged(s.phase.batch, Current(s).id)
  }

  predicate SameVerdict(s: State, e: Event, now: int, t: int) {
    Decide(s.store, s.receipts, e, now).Accepted? == Decide(s.store, s.receipts, e, t).Accepted?
  }

  predicate Enabled(s: State, m: Move, clock: EventId -> int) {
    match m
    case Begin(_) => s.phase.Idle?
    case Flush => Reads(s) && !Repeated(s) && Touches(s.phase.batch, Current(s))
    case Skip => Reads(s) && Repeated(s)
    case WritesAttempt(now) =>
      Reads(s) && !Repeated(s) && !Touches(s.phase.batch, Current(s)) && SameVerdict(s, Current(s), now, clock(Current(s).id))
    case WritesWork => s.phase.Busy? && s.phase.hand.AttemptWritten? && s.phase.position < |s.phase.queue|
    case Records => s.phase.Busy? && s.phase.hand.BothWritten? && s.phase.position < |s.phase.queue|
    case Finish => s.phase.Busy? && s.phase.hand.Reading? && s.phase.position >= |s.phase.queue|
    case Crash => s.phase.Busy?
  }

  function Do(s: State, m: Move, inbox: seq<Event>, clock: EventId -> int): State
    requires Enabled(s, m, clock)
  {
    match m
    case Begin(limit) => s.(phase := Busy(Pending(inbox, s.receipts, limit), 0, [], Reading))
    case Flush => s.(receipts := s.receipts + s.phase.batch, phase := s.phase.(batch := []))
    case Skip => s.(phase := s.phase.(position := s.phase.position + 1))
    case WritesAttempt(now) =>
      var p := Decide(s.store, s.receipts, Current(s), now);
      s.(store := WriteAttempt(s.store, Current(s), p), phase := s.phase.(hand := AttemptWritten(p)))
    case WritesWork =>
      s.(store := WriteWork(s.store, Current(s), s.phase.hand.plan), phase := s.phase.(hand := BothWritten(s.phase.hand.plan)))
    case Records =>
      s.(phase := Busy(s.phase.queue, s.phase.position + 1,
                       s.phase.batch + [ReceiptFor(Current(s), s.phase.hand.plan)], Reading))
    case Finish => State(s.store, s.receipts + s.phase.batch, Idle)
    case Crash => s.(phase := Idle)
  }

  /** `s` is reached from `start` by `moves`. */
  ghost predicate Reaches(start: Log, inbox: seq<Event>, clock: EventId -> int, moves: seq<Move>, s: State) {
    if moves == [] then s == State(start.store, start.receipts, Idle)
    else exists r {:trigger Enabled(r, moves[|moves| - 1], clock)} ::
      Reaches(start, inbox, clock, moves[..|moves| - 1], r) && Enabled(r, moves[|moves| - 1], clock)
      && s == Do(r, moves[|moves| - 1], inbox, clock)
  }

  // ---- the reference run of an inbox ----

  /** Event ids are unique and none is acknowledged yet. */
  ghost predicate NewInbox(start: Log, inbox: seq<Event>) {
    && (forall i, j :: 0 <= i < j < |inbox| ==> inbox[i].id != inbox[j].id)
    && (forall i :: 0 <= i < |inbox| ==> !Acknowledged(start.receipts, inbox[i].id))
  }

  function Ref(start: Log, inbox: seq<Event>, clock: EventId -> int, k: nat): Log
    requires k <= |inbox|
  {
    Steps(start, inbox[..k], clock)
  }

  function RefPlan(start: Log, inbox: seq<Event>, clock: EventId -> int, k: nat): Plan
    requires k < |inbox|
  {
    var log := Ref(start, inbox, clock, k);
    Decide(log.store, log.receipts, inbox[k], clock(inbox[k].id))
  }

  /** After `k` events the reference has acknowledged just those. */
  lemma {:induction false} RefAcknowledges(start: Log, inbox: seq<Event>, clock: EventId -> int, k: nat)
    requires NewInbox(start, inbox) && k <= |inbox|
    ensures forall i :: 0 <= i < |inbox| ==> (Acknowledged(Ref(start, inbox, clock, k).receipts, inbox[i].id) <==> i < k)
  {
    if k == 0 {
      assert inbox[..0] == [];
    } else {
      RefAcknowledges(start, inbox, clock, k - 1);
      StepsExtend(start, inbox, clock, k - 1);
      var before, e := Ref(start, inbox, clock, k - 1), inbox[k - 1];
      var receipt := ReceiptFor(e, RefPlan(start, inbox, clock, k - 1));
      forall i | 0 <= i < |inbox| ensures Acknowledged(before.receipts + [receipt], inbox[i].id) <==> i < k {
        AcknowledgedSplit(before.receipts, [receipt], inbox[i].id);
        if i == k - 1 { assert [receipt][0].id == inbox[i].id; }
      }
    }
  }

  lemma RefStep(start: Log, inbox: seq<Event>, clock: EventId -> int, k: nat)
    requires NewInbox(start, inbox) && k < |inbox|
    ensures var ref, p := Ref(start, inbox, clock, k), RefPlan(start, inbox, clock, k);
            Ref(start, inbox, clock, k + 1) == Log(Applied(ref.store, inbox[k], p), ref.receipts + [ReceiptFor(inbox[k], p)])
  {
    RefAcknowledges(start, inbox, clock, k);
    StepsExtend(start, inbox, clock, k);
  }

  /** The reference acknowledges each event in turn. */
  lemma {:induction false} RefReceipts(start: Log, inbox: seq<Event>, clock: EventId -> int, k: nat)
    requires NewInbox(start, inbox) && k <= |inbox|
    ensures var r := Ref(start, inbox, clock, k).receipts;
            && |r| == |start.receipts| + k && start.receipts <= r
            && forall i :: 0 <= i < k ==> r[|start.receipts| + i] == ReceiptFor(inbox[i], RefPlan(start, inbox, clock, i))
  {
    if k == 0 {
      assert inbox[..0] == [];
    } else {
      RefReceipts(start, inbox, clock, k - 1);
      RefStep(start, inbox, clock, k - 1);
    }
  }

  lemma {:induction false} PendingSuffix(events: seq<Event>, receipts: seq<Receipt>, k: nat, limit: nat)
    requires k <= |events| && forall i :: 0 <= i < |events| ==> (Acknowledged(receipts, events[i].id) <==> i < k)
    ensures Pending(events, receipts, limit) == events[k..if k + limit < |events| then k + limit else |events|]
  {
    if events != [] && limit > 0 {
      var rest := events[1..];
      assert forall i :: 0 <= i < |rest| ==> rest[i] == events[i + 1];
      assert Acknowledged(receipts, events[0].id) <==> 0 < k;
      if k > 0 {
        PendingSuffix(rest, receipts, k - 1, limit);
      } else {
        PendingSuffix(rest, receipts, 0, limit - 1);
      }
    }
  }

  // ---- events that are independent of each other ----

  /** Events `n..h` of the inbox concern pairwise different works and attempts. */
  ghost predicate Apart(inbox: seq<Event>, n: nat, h: nat) {
    n <= h <= |inbox| &&
    forall i, j :: n <= i < j < h ==> inbox[i].work != inbox[j].work && inbox[i].attempt != inbox[j].attempt
  }

  /** The rows of event `j` are not changed by the later events it is apart from. */
  lemma {:induction false} RowsStay(start: Log, inbox: seq<Event>, clock: EventId -> int, j: nat, h: nat)
    requires NewInbox(start, inbox) && j < h <= |inbox| && Apart(inbox, j, h)
    ensures SameRows(Ref(start, inbox, clock, j + 1).store, Ref(start, inbox, clock, h).store, inbox[j])
  {
    if h > j + 1 {
      RowsStay(start, inbox, clock, j, h - 1);
      RefStep(start, inbox, clock, h - 1);
    }
  }

  ghost predicate SameRows(a: Store, b: Store, e: Event) {
    && (e.work in a.works <==> e.work in b.works) && (e.work in a.works ==> a.works[e.work] == b.works[e.work])
    && (e.attempt in a.attempts <==> e.attempt in b.attempts)
    && (e.attempt in a.attempts ==> a.attempts[e.attempt] == b.attempts[e.attempt])
  }

  lemma {:induction false} HighestStays(start: Log, inbox: seq<Event>, clock: EventId -> int, n: nat, j: nat)
    requires NewInbox(start, inbox) && n <= j < |inbox| && Apart(inbox, n, j + 1)
    ensures Highest(Ref(start, inbox, clock, n).receipts, inbox[j]) == Highest(Ref(start, inbox, clock, j).receipts, inbox[j])
  {
    RefReceipts(start, inbox, clock, n);
    RefReceipts(start, inbox, clock, j);
    RefPrefix(start, inbox, clock, n, j);
    var few, many := Ref(start, inbox, clock, n).receipts, Ref(start, inbox, clock, j).receipts;
    var extra := many[|few|..];
    assert many == few + extra;
    forall i | 0 <= i < |extra| ensures extra[i].work != inbox[j].work && extra[i].attempt != inbox[j].attempt {
      assert extra[i] == many[|start.receipts| + (n + i)];
      assert inbox[n + i].work != inbox[j].work && inbox[n + i].attempt != inbox[j].attempt;
    }
    HighestIgnores(few, extra, inbox[j]);
  }

  lemma {:induction false} RefPrefix(start: Log, inbox: seq<Event>, clock: EventId -> int, n: nat, j: nat)
    requires NewInbox(start, inbox) && n <= j <= |inbox|
    ensures Ref(start, inbox, clock, n).receipts <= Ref(start, inbox, clock, j).receipts
  {
    if n < j {
      RefPrefix(start, inbox, clock, n, j - 1);
      RefStep(start, inbox, clock, j - 1);
    }
  }

  // ---- tables that run ahead of the receipts ----

  /** The reference tables after `h` events, or, when `half`, with only the attempt row of the last of them written. */
  function Ahead(start: Log, inbox: seq<Event>, clock: EventId -> int, h: nat, half: bool): Store
    requires h <= |inbox| && (half ==> h > 0)
  {
    if half
    then WriteAttempt(Ref(start, inbox, clock, h - 1).store, inbox[h - 1], RefPlan(start, inbox, clock, h - 1))
    else Ref(start, inbox, clock, h).store
  }

  /** Deciding a command again over rows it has, wholly, partly or not yet, changed gives the reference's decision. */
  lemma DecidesAgain(store: Store, receipts: seq<Receipt>, ref: Log, e: Event, now: int, t: int)
    requires Highest(receipts, e) == Highest(ref.receipts, e)
    requires var p := Decide(ref.store, ref.receipts, e, t);
             || SameRows(store, ref.store, e)
             || SameRows(store, WriteAttempt(ref.store, e, p), e)
             || SameRows(store, Applied(ref.store, e, p), e)
    requires Decide(store, receipts, e, now).Accepted? == Decide(store, receipts, e, t).Accepted?
    ensures Decide(store, receipts, e, now) == Decide(ref.store, ref.receipts, e, t)
  {
    var p := Decide(ref.store, ref.receipts, e, t);
    if p.Accepted? {
      var c, work, attempt := e.command.value, ref.store.works[e.work], ref.store.attempts[e.attempt];
      CommandReplays(c, work, attempt, t, t);
      CommandReplays(c, work, attempt, t, now);
      if SameRows(store, ref.store, e) && PlanFor(c, work, attempt, now).Accepted? {
        TargetsIgnoreTheClock(c, work, attempt, t, now);
      }
    }
  }

  /** The present rows of event `c` are the reference's before it, after its attempt write, or after both writes. */
  lemma RowsAhead(start: Log, inbox: seq<Event>, clock: EventId -> int, n: nat, c: nat, h: nat, half: bool)
    requires NewInbox(start, inbox) && n <= c <= h <= |inbox| && c < |inbox| && (half ==> c < h) && Apart(inbox, n, h)
    ensures var store, ref, p := Ahead(start, inbox, clock, h, half), Ref(start, inbox, clock, c).store, RefPlan(start, inbox, clock, c);
            && (c == h ==> store == ref)
            && (half && c == h - 1 ==> store == WriteAttempt(ref, inbox[c], p))
            && (c < h && !(half && c == h - 1) ==> SameRows(store, Applied(ref, inbox[c], p), inbox[c]))
  {
    if c < h {
      RefStep(start, inbox, clock, c);
      if half {
        if c < h - 1 { RowsStay(start, inbox, clock, c, h - 1); }
      } else {
        RowsStay(start, inbox, clock, c, h);
      }
    }
  }

  // ---- the invariant ----

  /** A drain under way has handled the inbox up to event `c`, and holds the reference's receipts from there back. */
  ghost predicate BusyAt(start: Log, inbox: seq<Event>, clock: EventId -> int, receipts: seq<Receipt>, phase: Phase, c: nat, h: nat,
                         half: bool)
    requires phase.Busy? && c <= |inbox|
  {
    && phase.position <= |phase.queue| <= |inbox| - (c - phase.position) && phase.position <= c
    && phase.queue == inbox[c - phase.position..c - phase.position + |phase.queue|]
    && receipts + phase.batch == Ref(start, inbox, clock, c).receipts
    && (!phase.hand.Reading? ==>
          c < h && c < |inbox| && phase.position < |phase.queue| && phase.hand.plan == RefPlan(start, inbox, clock, c))
    && (phase.hand.BothWritten? ==> !(half && c == h - 1))
  }

  /** The position of the machine in the inbox: `n` events acknowledged, `c` handled, tables ahead to `h`. */
  ghost predicate At(start: Log, inbox: seq<Event>, clock: EventId -> int, s: State, n: nat, c: nat, h: nat, half: bool) {
    && n <= c <= h <= |inbox| && (half ==> c < h) && Apart(inbox, n, h)
    && s.receipts == Ref(start, inbox, clock, n).receipts
    && s.store == Ahead(start, inbox, clock, h, half)
    && (s.phase.Idle? ==> c == n)
    && (s.phase.Busy? ==> BusyAt(start, inbox, clock, s.receipts, s.phase, c, h, half))
  }

  ghost predicate Inv(start: Log, inbox: seq<Event>, clock: EventId -> int, s: State) {
    exists n: nat, c: nat, h: nat, half: bool :: At(start, inbox, clock, s, n, c, h, half)
  }

  /** Receipts held back are the reference's, in order, from the first unacknowledged event on. */
  lemma ReceiptsBetween(start: Log, inbox: seq<Event>, clock: EventId -> int, batch: seq<Receipt>, n: nat, c: nat)
    requires NewInbox(start, inbox) && n <= c <= |inbox|
    requires Ref(start, inbox, clock, n).receipts + batch == Ref(start, inbox, clock, c).receipts
    ensures |batch| == c - n
    ensures forall i :: 0 <= i < c - n ==> batch[i] == ReceiptFor(inbox[n + i], RefPlan(start, inbox, clock, n + i))
  {
    RefReceipts(start, inbox, clock, n);
    RefReceipts(start, inbox, clock, c);
    var all := Ref(start, inbox, clock, c).receipts;
    forall i | 0 <= i < c - n ensures batch[i] == ReceiptFor(inbox[n + i], RefPlan(start, inbox, clock, n + i)) {
      assert batch[i] == all[|start.receipts| + (n + i)];
    }
  }

  lemma BatchReceipts(start: Log, inbox: seq<Event>, clock: EventId -> int, s: State, n: nat, c: nat, h: nat, half: bool)
    requires NewInbox(start, inbox) && At(start, inbox, clock, s, n, c, h, half) && s.phase.Busy?
    ensures |s.phase.batch| == c - n
    ensures forall i :: 0 <= i < c - n ==> s.phase.batch[i].work == inbox[n + i].work && s.phase.batch[i].attempt == inbox[n + i].attempt
    ensures Independent(s.phase.batch)
  {
    ReceiptsBetween(start, inbox, clock, s.phase.batch, n, c);
  }

  lemma BeginKeeps(start: Log, inbox: seq<Event>, clock: EventId -> int, s: State, limit: nat, n: nat, c: nat, h: nat, half: bool)
    requires NewInbox(start, inbox) && At(start, inbox, clock, s, n, c, h, half) && Enabled(s, Begin(limit), clock)
    ensures At(start, inbox, clock, Do(s, Begin(limit), inbox, clock), n, n, h, half)
  {
    PendingAfter(start, inbox, clock, n, limit);
    assert s.receipts + [] == s.receipts;
  }

  lemma PendingAfter(start: Log, inbox: seq<Event>, clock: EventId -> int, n: nat, limit: nat)
    requires NewInbox(start, inbox) && n <= |inbox|
    ensures Pending(inbox, Ref(start, inbox, clock, n).receipts, limit)
            == inbox[n..if n + limit < |inbox| then n + limit else |inbox|]
  {
    RefAcknowledges(start, inbox, clock, n);
    PendingSuffix(inbox, Ref(start, inbox, clock, n).receipts, n, limit);
  }

  /** The drain meets every event for the first time. */
  lemma NeverRepeated(start: Log, inbox: seq<Event>, clock: EventId -> int, s: State, n: nat, c: nat, h: nat, half: bool)
    requires NewInbox(start, inbox) && At(start, inbox, clock, s, n, c, h, half) && Reads(s)
    ensures c < |inbox| && Current(s) == inbox[c] && !Repeated(s)
  {
    RefAcknowledges(start, inbox, clock, c);
    AcknowledgedSplit(s.receipts, s.phase.batch, inbox[c].id);
  }

  /** The batch is written early only where the tables are not ahead of it. */
  lemma FlushKeeps(start: Log, inbox: seq<Event>, clock: EventId -> int, s: State, n: nat, c: nat, h: nat, half: bool)
    requires NewInbox(start, inbox) && At(start, inbox, clock, s, n, c, h, half) && Enabled(s, Flush, clock)
    ensures At(start, inbox, clock, Do(s, Flush, inbox, clock), c, c, h, half)
  {
    var all := s.receipts + s.phase.batch;
    assert all + [] == all;
  }

  /** Whatever has been written already, the command in hand is decided as in the reference run. */
  lemma DecidesAsReference(start: Log, inbox: seq<Event>, clock: EventId -> int, store: Store, receipts: seq<Receipt>, now: int,
                           n: nat, c: nat, h: nat, half: bool)
    requires NewInbox(start, inbox) && n <= c <= h <= |inbox| && c < |inbox| && (half ==> c < h) && Apart(inbox, n, h)
    requires Apart(inbox, n, c + 1)
    requires store == Ahead(start, inbox, clock, h, half) && receipts == Ref(start, inbox, clock, n).receipts
    requires Decide(store, receipts, inbox[c], now).Accepted?
             == Decide(store, receipts, inbox[c], clock(inbox[c].id)).Accepted?
    ensures Decide(store, receipts, inbox[c], now) == RefPlan(start, inbox, clock, c)
  {
    HighestStays(start, inbox, clock, n, c);
    RowsAhead(start, inbox, clock, n, c, h, half);
    DecidesAgain(store, receipts, Ref(start, inbox, clock, c), inbox[c], now, clock(inbox[c].id));
  }

  lemma AttemptAhead(start: Log, inbox: seq<Event>, clock: EventId -> int, n: nat, c: nat, h: nat, half: bool)
    requires NewInbox(start, inbox) && n <= c <= h <= |inbox| && c < |inbox| && (half ==> c < h) && Apart(inbox, n, h)
    ensures WriteAttempt(Ahead(start, inbox, clock, h, half), inbox[c], RefPlan(start, inbox, clock, c))
            == if c < h then Ahead(start, inbox, clock, h, half) else Ahead(start, inbox, clock, h + 1, true)
  {
    RowsAhead(start, inbox, clock, n, c, h, half);
  }

  /** The batch does not touch the event at hand. */
  lemma StillApart(start: Log, inbox: seq<Event>, clock: EventId -> int, s: State, n: nat, c: nat, h: nat, half: bool)
    requires NewInbox(start, inbox) && At(start, inbox, clock, s, n, c, h, half)
    requires s.phase.Busy? && c < |inbox| && !Touches(s.phase.batch, inbox[c])
    ensures Apart(inbox, n, c + 1) && (c == h ==> Apart(inbox, n, h + 1))
  {
    BatchReceipts(start, inbox, clock, s, n, c, h, half);
    forall i | n <= i < c ensures inbox[i].work != inbox[c].work && inbox[i].attempt != inbox[c].attempt {
      assert s.phase.batch[i - n].work == inbox[n + (i - n)].work && s.phase.batch[i - n].attempt == inbox[n + (i - n)].attempt;
    }
  }

  lemma AttemptKeeps(start: Log, inbox: seq<Event>, clock: EventId -> int, s: State, now: int, n: nat, c: nat, h: nat, half: bool)
    requires NewInbox(start, inbox) && At(start, inbox, clock, s, n, c, h, half) && Enabled(s, WritesAttempt(now), clock)
    ensures var s' := Do(s, WritesAttempt(now), inbox, clock);
            if c < h then At(start, inbox, clock, s', n, c, h, half) else At(start, inbox, clock, s', n, c, h + 1, true)
  {
    NeverRepeated(start, inbox, clock, s, n, c, h, half);
    StillApart(start, inbox, clock, s, n, c, h, half);
    DecidesAsReference(start, inbox, clock, s.store, s.receipts, now, n, c, h, half);
    AttemptAhead(start, inbox, clock, n, c, h, half);
    BusyWritesAttempt(start, inbox, clock, s.receipts, s.phase, c, h, half);
  }

  lemma BusyWritesAttempt(start: Log, inbox: seq<Event>, clock: EventId -> int, receipts: seq<Receipt>, phase: Phase, c: nat, h: nat, half: bool)
    requires phase.Busy? && phase.hand.Reading? && phase.position < |phase.queue| && c <= |inbox|
    requires BusyAt(start, inbox, clock, receipts, phase, c, h, half)
    ensures c < |inbox|
    ensures var after := phase.(hand := AttemptWritten(RefPlan(start, inbox, clock, c)));
      if c < h then BusyAt(start, inbox, clock, receipts, after, c, h, half)
      else BusyAt(start, inbox, clock, receipts, after, c, c + 1, true)
  {
  }

  lemma WorkKeeps(start: Log, inbox: seq<Event>, clock: EventId -> int, s: State, n: nat, c: nat, h: nat, half: bool)
    requires NewInbox(start, inbox) && At(start, inbox, clock, s, n, c, h, half) && Enabled(s, WritesWork, clock)
    ensures At(start, inbox, clock, Do(s, WritesWork, inbox, clock), n, c, h, half && c != h - 1)
  {
    BusyWritesWork(start, inbox, clock, s.receipts, s.phase, c, h, half);
    WorkAhead(start, inbox, clock, n, c, h, half);
  }

  lemma BusyWritesWork(start: Log, inbox: seq<Event>, clock: EventId -> int, receipts: seq<Receipt>, phase: Phase, c: nat, h: nat, half: bool)
    requires phase.Busy? && phase.hand.AttemptWritten? && c <= |inbox| && BusyAt(start, inbox, clock, receipts, phase, c, h, half)
    ensures phase.queue[phase.position] == inbox[c] && c < h && phase.hand.plan == RefPlan(start, inbox, clock, c)
    ensures BusyAt(start, inbox, clock, receipts, phase.(hand := BothWritten(phase.hand.plan)), c, h, half && c != h - 1)
  {
  }

  /** The work write completes the last event the tables are ahead by, and is already there for the others. */
  lemma WorkAhead(start: Log, inbox: seq<Event>, clock: EventId -> int, n: nat, c: nat, h: nat, half: bool)
    requires NewInbox(start, inbox) && n <= c < h <= |inbox| && Apart(inbox, n, h)
    ensures WriteWork(Ahead(start, inbox, clock, h, half), inbox[c], RefPlan(start, inbox, clock, c))
            == Ahead(start, inbox, clock, h, half && c != h - 1)
  {
    RowsAhead(start, inbox, clock, n, c, h, half);
    RefStep(start, inbox, clock, c);
  }

  lemma RecordKeeps(start: Log, inbox: seq<Event>, clock: EventId -> int, s: State, n: nat, c: nat, h: nat, half: bool)
    requires NewInbox(start, inbox) && At(start, inbox, clock, s, n, c, h, half) && Enabled(s, Records, clock)
    ensures At(start, inbox, clock, Do(s, Records, inbox, clock), n, c + 1, h, half)
  {
    var phase := s.phase;
    BusyRecords(start, inbox, clock, s.receipts, phase, c, h, half);
    assert Do(s, Records, inbox, clock) ==
      s.(phase := Busy(phase.queue, phase.position + 1, phase.batch + [ReceiptFor(inbox[c], phase.hand.plan)], Reading));
  }

  lemma BusyRecords(start: Log, inbox: seq<Event>, clock: EventId -> int, receipts: seq<Receipt>, phase: Phase, c: nat, h: nat, half: bool)
    requires NewInbox(start, inbox) && phase.Busy? && phase.hand.BothWritten? && c < |inbox|
    requires BusyAt(start, inbox, clock, receipts, phase, c, h, half)
    ensures phase.queue[phase.position] == inbox[c]
    ensures BusyAt(start, inbox, clock, receipts,
                   Busy(phase.queue, phase.position + 1, phase.batch + [ReceiptFor(inbox[c], phase.hand.plan)], Reading), c + 1, h, half)
  {
    BatchGrows(start, inbox, clock, receipts, phase.batch, c);
  }

  lemma BatchGrows(start: Log, inbox: seq<Event>, clock: EventId -> int, receipts: seq<Receipt>, batch: seq<Receipt>, c: nat)
    requires NewInbox(start, inbox) && c < |inbox| && receipts + batch == Ref(start, inbox, clock, c).receipts
    ensures receipts + (batch + [ReceiptFor(inbox[c], RefPlan(start, inbox, clock, c))]) == Ref(start, inbox, clock, c + 1).receipts
  {
    RefStep(start, inbox, clock, c);
    var receipt := ReceiptFor(inbox[c], RefPlan(start, inbox, clock, c));
    assert receipts + (batch + [receipt]) == (receipts + batch) + [receipt];
  }

  lemma MoveKeeps(start: Log, inbox: seq<Event>, clock: EventId -> int, s: State, m: Move)
    requires NewInbox(start, inbox) && Inv(start, inbox, clock, s) && Enabled(s, m, clock)
    ensures Inv(start, inbox, clock, Do(s, m, inbox, clock))
  {
    var n: nat, c: nat, h: nat, half: bool :| At(start, inbox, clock, s, n, c, h, half);
    var s' := Do(s, m, inbox, clock);
    match m
    case Begin(limit) =>
      BeginKeeps(start, inbox, clock, s, limit, n, c, h, half);
      assert At(start, inbox, clock, s', n, n, h, half);
    case Flush =>
      FlushKeeps(start, inbox, clock, s, n, c, h, half);
      assert At(start, inbox, clock, s', c, c, h, half);
    case Skip => NeverRepeated(start, inbox, clock, s, n, c, h, half);
    case WritesAttempt(now) => AttemptKeeps(start, inbox, clock, s, now, n, c, h, half);
    case WritesWork =>
      WorkKeeps(start, inbox, clock, s, n, c, h, half);
      assert At(start, inbox, clock, s', n, c, h, half && c != h - 1);
    case Records =>
      RecordKeeps(start, inbox, clock, s, n, c, h, half);
      assert At(start, inbox, clock, s', n, c + 1, h, half);
    case Finish => assert At(start, inbox, clock, s', c, c, h, half);
    case Crash => assert At(start, inbox, clock, s', n, n, h, half);
  }

  lemma {:induction false} ReachableKeeps(start: Log, inbox: seq<Event>, clock: EventId -> int, moves: seq<Move>, s: State)
    requires NewInbox(start, inbox) && Reaches(start, inbox, clock, moves, s)
    ensures Inv(start, inbox, clock, s)
  {
    if moves == [] {
      assert inbox[..0] == [];
      assert At(start, inbox, clock, s, 0, 0, 0, false);
    } else {
      var n := |moves| - 1;
      var r :| Reaches(start, inbox, clock, moves[..n], r) && Enabled(r, moves[n], clock) && s == Do(r, moves[n], inbox, clock);
      ReachableKeeps(start, inbox, clock, moves[..n], r);
      MoveKeeps(start, inbox, clock, r, moves[n]);
    }
  }

  // ---- what the crashes leave true ----

  /** Rows that no event of `n..h` names are those of the reference after `n` events. */
  ghost predicate OthersAgree(store: Store, ref: Store, inbox: seq<Event>, n: nat, h: nat)
    requires n <= h <= |inbox|
  {
    && (forall w: WorkId :: (forall j :: n <= j < h ==> inbox[j].work != w) ==>
          (w in store.works <==> w in ref.works) && (w in store.works ==> store.works[w] == ref.works[w]))
    && (forall a: AttemptId :: (forall j :: n <= j < h ==> inbox[j].attempt != a) ==>
          (a in store.attempts <==> a in ref.attempts) && (a in store.attempts ==> store.attempts[a] == ref.attempts[a]))
  }

  /** Events `n..k` change only the rows they name. */
  lemma {:induction false} OthersStay(start: Log, inbox: seq<Event>, clock: EventId -> int, n: nat, k: nat)
    requires NewInbox(start, inbox) && n <= k <= |inbox|
    ensures OthersAgree(Ref(start, inbox, clock, k).store, Ref(start, inbox, clock, n).store, inbox, n, k)
  {
    if n < k {
      OthersStay(start, inbox, clock, n, k - 1);
      RefStep(start, inbox, clock, k - 1);
    }
  }

  /** After any drains, of any limits, stopped anywhere and begun again: the stored receipts are a beginning of the
      reference's; and once every event is acknowledged the tables are the reference's too. */
  lemma CrashesDoNotShow(start: Log, inbox: seq<Event>, clock: EventId -> int, moves: seq<Move>, s: State)
    requires NewInbox(start, inbox) && Reaches(start, inbox, clock, moves, s)
    ensures s.receipts <= Steps(start, inbox, clock).receipts
    ensures (forall i :: 0 <= i < |inbox| ==> Acknowledged(s.receipts, inbox[i].id)) ==>
      Log(s.store, s.receipts) == Steps(start, inbox, clock)
  {
    ReachableKeeps(start, inbox, clock, moves, s);
    var n: nat, c: nat, h: nat, half: bool :| At(start, inbox, clock, s, n, c, h, half);
    AtShows(start, inbox, clock, s, n, c, h, half);
  }

  lemma AtShows(start: Log, inbox: seq<Event>, clock: EventId -> int, s: State, n: nat, c: nat, h: nat, half: bool)
    requires NewInbox(start, inbox) && At(start, inbox, clock, s, n, c, h, half)
    ensures s.receipts <= Steps(start, inbox, clock).receipts
    ensures (forall i :: 0 <= i < |inbox| ==> Acknowledged(s.receipts, inbox[i].id)) ==>
      Log(s.store, s.receipts) == Steps(start, inbox, clock)
  {
    assert inbox[..|inbox|] == inbox;
    PrefixShows(start, inbox, clock, n);
  }

  lemma PrefixShows(start: Log, inbox: seq<Event>, clock: EventId -> int, n: nat)
    requires NewInbox(start, inbox) && n <= |inbox|
    ensures Ref(start, inbox, clock, n).receipts <= Ref(start, inbox, clock, |inbox|).receipts
    ensures (forall i :: 0 <= i < |inbox| ==> Acknowledged(Ref(start, inbox, clock, n).receipts, inbox[i].id)) ==> n == |inbox|
  {
    RefPrefix(start, inbox, clock, n, |inbox|);
    RefAcknowledges(start, inbox, clock, n);
    if n < |inbox| { assert !Acknowledged(Ref(start, inbox, clock, n).receipts, inbox[n].id); }
  }

  /** At every instant the commands applied but not acknowledged, by this drain or by one that crashed, concern pairwise
      different works and attempts: every other row of the tables is the reference's after the acknowledged events. */
  lemma UnacknowledgedAreApart(start: Log, inbox: seq<Event>, clock: EventId -> int, moves: seq<Move>, s: State)
    requires NewInbox(start, inbox) && Reaches(start, inbox, clock, moves, s)
    ensures s.phase.Busy? ==> Independent(s.phase.batch)
    ensures exists n: nat, h: nat {:trigger Apart(inbox, n, h)} ::
      && Apart(inbox, n, h) && s.receipts == Ref(start, inbox, clock, n).receipts
      && OthersAgree(s.store, Ref(start, inbox, clock, n).store, inbox, n, h)
  {
    ReachableKeeps(start, inbox, clock, moves, s);
    var n: nat, c: nat, h: nat, half: bool :| At(start, inbox, clock, s, n, c, h, half);
    if s.phase.Busy? { BatchReceipts(start, inbox, clock, s, n, c, h, half); }
    AheadAgrees(start, inbox, clock, n, h, half);
  }

  lemma AheadAgrees(start: Log, inbox: seq<Event>, clock: EventId -> int, n: nat, h: nat, half: bool)
    requires NewInbox(start, inbox) && n <= h <= |inbox| && (half ==> n < h)
    ensures OthersAgree(Ahead(start, inbox, clock, h, half), Ref(start, inbox, clock, n).store, inbox, n, h)
  {
    OthersStay(start, inbox, clock, n, if half then h - 1 else h);
  }

  // ---- a drain that is left alone finishes what the others began ----

  lemma Extend(start: Log, inbox: seq<Event>, clock: EventId -> int, moves: seq<Move>, r: State, m: Move)
    requires Reaches(start, inbox, clock, moves, r) && Enabled(r, m, clock)
    ensures Reaches(start, inbox, clock, moves + [m], Do(r, m, inbox, clock))
  {
    var more := moves + [m];
    assert more[..|more| - 1] == moves && more[|more| - 1] == m;
    assert Reaches(start, inbox, clock, more[..|more| - 1], r) && Enabled(r, more[|more| - 1], clock);
  }

  lemma FreshEvent(start: Log, inbox: seq<Event>, clock: EventId -> int, moves: seq<Move>, s: State)
    requires NewInbox(start, inbox) && Reaches(start, inbox, clock, moves, s) && Reads(s)
    ensures !Repeated(s)
  {
    ReachableKeeps(start, inbox, clock, moves, s);
    var n: nat, c: nat, h: nat, half: bool :| At(start, inbox, clock, s, n, c, h, half);
    NeverRepeated(start, inbox, clock, s, n, c, h, half);
  }

  /** The receipts stored, held back and still to come are one for each event. */
  predicate CoversInbox(start: Log, inbox: seq<Event>, s: State)
    requires s.phase.Busy?
  {
    s.phase.position <= |s.phase.queue|
    && |s.receipts| + |s.phase.batch| + |s.phase.queue| - s.phase.position == |start.receipts| + |inbox|
  }

  /** The next event is applied and its receipt held back. */
  lemma NextEvent(start: Log, inbox: seq<Event>, clock: EventId -> int, moves: seq<Move>, s: State) returns (moves': seq<Move>, s': State)
    requires NewInbox(start, inbox) && Reaches(start, inbox, clock, moves, s) && Reads(s) && CoversInbox(start, inbox, s)
    ensures Reaches(start, inbox, clock, moves', s') && moves <= moves' && s'.phase.Busy? && s'.phase.hand.Reading?
    ensures s'.phase.queue == s.phase.queue && s'.phase.position == s.phase.position + 1 && CoversInbox(start, inbox, s')
  {
    moves', s' := moves, s;
    FreshEvent(start, inbox, clock, moves', s');
    if Touches(s'.phase.batch, Current(s')) {
      Extend(start, inbox, clock, moves', s', Flush);
      moves', s' := moves' + [Flush], Do(s', Flush, inbox, clock);
      FreshEvent(start, inbox, clock, moves', s');
    }
    var look := WritesAttempt(clock(Current(s').id));
    Extend(start, inbox, clock, moves', s', look);
    moves', s' := moves' + [look], Do(s', look, inbox, clock);
    Extend(start, inbox, clock, moves', s', WritesWork);
    moves', s' := moves' + [WritesWork], Do(s', WritesWork, inbox, clock);
    Extend(start, inbox, clock, moves', s', Records);
    moves', s' := moves' + [Records], Do(s', Records, inbox, clock);
  }

  lemma {:induction false} FinishDrain(start: Log, inbox: seq<Event>, clock: EventId -> int, moves: seq<Move>, s: State)
    returns (moves': seq<Move>, s': State)
    requires NewInbox(start, inbox) && Reaches(start, inbox, clock, moves, s)
    requires s.phase.Busy? && s.phase.hand.Reading? && CoversInbox(start, inbox, s)
    ensures Reaches(start, inbox, clock, moves', s') && moves <= moves'
    ensures s'.phase.Idle? && |s'.receipts| == |start.receipts| + |inbox|
    decreases |s.phase.queue| - s.phase.position
  {
    if s.phase.position == |s.phase.queue| {
      Extend(start, inbox, clock, moves, s, Finish);
      moves', s' := moves + [Finish], Do(s, Finish, inbox, clock);
    } else {
      var moves1, s1 := NextEvent(start, inbox, clock, moves, s);
      moves', s' := FinishDrain(start, inbox, clock, moves1, s1);
    }
  }

  lemma BeginCovers(start: Log, inbox: seq<Event>, clock: EventId -> int, moves: seq<Move>, s: State)
    requires NewInbox(start, inbox) && Reaches(start, inbox, clock, moves, s) && s.phase.Idle?
    ensures CoversInbox(start, inbox, Do(s, Begin(|inbox|), inbox, clock))
  {
    ReachableKeeps(start, inbox, clock, moves, s);
    var n: nat, c: nat, h: nat, half: bool :| At(start, inbox, clock, s, n, c, h, half);
    PendingAfter(start, inbox, clock, n, |inbox|);
    RefReceipts(start, inbox, clock, n);
  }

  lemma AllAcknowledged(start: Log, inbox: seq<Event>, clock: EventId -> int, moves: seq<Move>, s: State)
    requires NewInbox(start, inbox) && Reaches(start, inbox, clock, moves, s) && |s.receipts| == |start.receipts| + |inbox|
    ensures forall i :: 0 <= i < |inbox| ==> Acknowledged(s.receipts, inbox[i].id)
  {
    ReachableKeeps(start, inbox, clock, moves, s);
    var n: nat, c: nat, h: nat, half: bool :| At(start, inbox, clock, s, n, c, h, half);
    RefReceipts(start, inbox, clock, n);
    RefAcknowledges(start, inbox, clock, n);
  }

  /** Wherever earlier drains were stopped, one more that is left alone and takes the whole inbox ends in exactly the tables
      and receipts of the drain that was never stopped. */
  lemma DrainingAgainCompletes(start: Log, inbox: seq<Event>, clock: EventId -> int, moves: seq<Move>, s: State)
    returns (moves': seq<Move>, s': State)
    requires NewInbox(start, inbox) && Reaches(start, inbox, clock, moves, s) && s.phase.Idle?
    ensures moves <= moves' && Reaches(start, inbox, clock, moves', s') && s'.phase.Idle?
    ensures Log(s'.store, s'.receipts) == Steps(start, inbox, clock)
  {
    var begin := Begin(|inbox|);
    Extend(start, inbox, clock, moves, s, begin);
    BeginCovers(start, inbox, clock, moves, s);
    moves', s' := FinishDrain(start, inbox, clock, moves + [begin], Do(s, begin, inbox, clock));
    AllAcknowledged(start, inbox, clock, moves', s');
    CrashesDoNotShow(start, inbox, clock, moves', s');
  }

  // ---- when the verdicts do not agree ----

  /** The clock may read `now` where the reference read `t` exactly when both readings are in the command's window. */
  lemma SameVerdictIff(s: State, e: Event, now: int, t: int)
    requires Decide(s.store, s.receipts, e, now).Accepted? || Decide(s.store, s.receipts, e, t).Accepted?
    ensures var c, work, attempt := e.command.value, s.store.works[e.work], s.store.attempts[e.attempt];
            SameVerdict(s, e, now, t) <==> InWindow(c, work, attempt, now) && InWindow(c, work, attempt, t)
  {
    var c, work, attempt := e.command.value, s.store.works[e.work], s.store.attempts[e.attempt];
    var taken := if Decide(s.store, s.receipts, e, now).Accepted? then now else t;
    ClockWindow(c, work, attempt, taken, now);
    ClockWindow(c, work, attempt, taken, t);
  }

  /** Stopped after the attempt write of a command that changes both rows, and decided again at `t`: it is rejected exactly
      when the clock is behind the command or a heartbeat's lease has run out, and then the tables are those of no reading of
      the reference clock: the attempt row is changed and the work row is not. */
  lemma StoppedHalfway(store: Store, receipts: seq<Receipt>, e: Event, now: int, t: int)
    requires var p := Decide(store, receipts, e, now);
             p.Accepted? && p.attempt != store.attempts[e.attempt] && p.work != store.works[e.work]
    ensures var p, c, work := Decide(store, receipts, e, now), e.command.value, store.works[e.work];
            var half := WriteAttempt(store, e, p);
            && (Decide(half, receipts, e, t).Rejected? <==>
                  t < c.createdAt || (c.kind.Heartbeat? && work.expires.Some? && work.expires.value <= t))
            && (Decide(half, receipts, e, t).Rejected? ==>
                  Applied(half, e, Decide(half, receipts, e, t)) == half
                  && forall other :: Applied(store, e, Decide(store, receipts, e, other)) != half)
  {
    var p, c, work, attempt := Decide(store, receipts, e, now), e.command.value, store.works[e.work], store.attempts[e.attempt];
    var half := WriteAttempt(store, e, p);
    StuckHalfway(c, work, attempt, now, t);
    forall other ensures Applied(store, e, Decide(store, receipts, e, other)) != half {
      var q := Decide(store, receipts, e, other);
      if q.Accepted? {
        TargetsIgnoreTheClock(c, work, attempt, now, other);
        assert Applied(store, e, q).works[e.work] == p.work && half.works[e.work] == work;
      } else {
        assert half.attempts[e.attempt] == p.attempt;
      }
    }
  }
}
