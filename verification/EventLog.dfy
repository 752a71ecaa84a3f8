/** The durable command log: an inbox, receipts that acknowledge its commands, and the drain that applies them.

    The reference semantics applies one command at a time and acknowledges it at once.  The drain as it runs collects
    receipts and writes them in groups; it is proved to end in the reference's state. */
module EventLog {
  import opened Wrappers
  import opened WorkerEvents
  import opened EventEffects

  /** An inbox row; the command is missing when the row does not parse. */
  datatype Event = Event(id: EventId, work: WorkId, attempt: AttemptId, execution: string, sequence: int,
                         command: Option<Command>)

  datatype Receipt = Receipt(id: EventId, work: WorkId, attempt: AttemptId, execution: string, sequence: int, applied: bool)

  datatype Store = Store(works: map<WorkId, Work>, attempts: map<AttemptId, Attempt>)

  datatype Log = Log(store: Store, receipts: seq<Receipt>)

  // ---- what makes an inbox row a command ----

  predicate ValidValue(c: Column, v: Option<Value>) {
    v.Some? ==>
      match c
      case CompletedAt => v.value.Time?
      case LastHeartbeatAt => v.value.Time?
      case InferenceStartedAt => v.value.Time?
      case Retryable => v.value.Flag?
      case ErrorCategory => v.value.Text?
      case ErrorType => v.value.Text?
      case ErrorMessage => v.value.Text?
      case ProcessedFrames => v.value.Whole? && 0 <= v.value.count <= 0x7FFF_FFFF_FFFF_FFFF
      case ProcessingSeconds => v.value.Number? && v.value.amount >= 0.0
      case Column(_) => true
  }

  /** Only failures may set error metadata. */
  predicate ValidUpdates(updates: Updates) {
    && (forall c :: c in updates.columns ==> ValidValue(c, updates.columns[c]))
    && (forall c :: c in updates.columns && (c.Retryable? || c.ErrorCategory? || c.ErrorType? || c.ErrorMessage?) ==>
          updates.columns[c].None?)
  }

  predicate ValidCommand(e: Event, c: Command) {
    && NonBlank(e.execution) && e.sequence >= 1 && c.leaseMinutes >= 1
    && c.work == e.work && c.attempt == e.attempt && c.execution == e.execution
    && match c.kind
       case ClaimExecution => true
       case Commit => true
       case Heartbeat(status, updates) =>
         && ValidUpdates(updates) && Active(status)
         && (updates.status.Some? ==> updates.status.value == status) && CompletedAt !in updates.columns
       case AttemptUpdate(updates) => ValidUpdates(updates)
       case Failure(category, kind, _, _, _, frames, seconds) =>
         NonBlank(category) && NonBlank(kind) && ValidValue(ProcessedFrames, frames) && ValidValue(ProcessingSeconds, seconds)
       case Release(reason) => NonBlank(reason)
  }

  // ---- deciding and applying one event ----

  /** The largest sequence acknowledged for the event's work, attempt and execution; 0 if there is none. */
  function Highest(receipts: seq<Receipt>, e: Event): int {
    if receipts == [] then 0
    else
      var last, rest := receipts[|receipts| - 1], Highest(receipts[..|receipts| - 1], e);
      if last.work == e.work && last.attempt == e.attempt && last.execution == e.execution && last.sequence > rest
      then last.sequence else rest
  }

  function Decide(store: Store, receipts: seq<Receipt>, e: Event, now: int): Plan {
    if e.command.None? || !ValidCommand(e, e.command.value) then Rejected
    else if e.sequence <= Highest(receipts, e) then Rejected
    else if e.work !in store.works || e.attempt !in store.attempts then Rejected
    else PlanFor(e.command.value, store.works[e.work], store.attempts[e.attempt], now)
  }

  /** The attempt row is written first. */
  function WriteAttempt(store: Store, e: Event, p: Plan): Store {
    if p.Rejected? then store else store.(attempts := store.attempts[e.attempt := p.attempt])
  }

  function WriteWork(store: Store, e: Event, p: Plan): Store {
    if p.Rejected? then store else store.(works := store.works[e.work := p.work])
  }

  function Applied(store: Store, e: Event, p: Plan): Store {
    WriteWork(WriteAttempt(store, e, p), e, p)
  }

  function ReceiptFor(e: Event, p: Plan): Receipt {
    Receipt(e.id, e.work, e.attempt, e.execution, e.sequence, p.Accepted?)
  }

  predicate Acknowledged(receipts: seq<Receipt>, id: EventId) {
    exists i :: 0 <= i < |receipts| && receipts[i].id == id
  }

  // ---- the reference: one command, then its receipt ----

  function Step(log: Log, e: Event, now: int): Log {
    if Acknowledged(log.receipts, e.id) then log
    else
      var p := Decide(log.store, log.receipts, e, now);
      Log(Applied(log.store, e, p), log.receipts + [ReceiptFor(e, p)])
  }

  function Steps(log: Log, events: seq<Event>, clock: EventId -> int): Log {
    if events == [] then log
    else
      var n := |events| - 1;
      Step(Steps(log, events[..n], clock), events[n], clock(events[n].id))
  }

  // ---- the reference in columns ----

  /** The sequence is positive and above every one acknowledged for the same work, attempt and execution. */
  predicate Newest(receipts: seq<Receipt>, e: Event) {
    e.sequence >= 1 && forall i :: 0 <= i < |receipts| ==> Precedes(receipts[i], e)
  }

  predicate Precedes(r: Receipt, e: Event) {
    r.work == e.work && r.attempt == e.attempt && r.execution == e.execution ==> r.sequence < e.sequence
  }

  lemma {:induction false} NewestIffHigher(receipts: seq<Receipt>, e: Event)
    requires e.sequence >= 1
    ensures Newest(receipts, e) <==> e.sequence > Highest(receipts, e)
  {
    if receipts != [] {
      var n := |receipts| - 1;
      NewestIffHigher(receipts[..n], e);
      assert forall i :: 0 <= i < n ==> receipts[..n][i] == receipts[i];
      assert Newest(receipts, e) <==> Newest(receipts[..n], e) && Precedes(receipts[n], e);
    }
  }

  /** The event carries a valid command, newer than those acknowledged, whose rows are stored and that is taken. */
  ghost predicate Takes(store: Store, receipts: seq<Receipt>, e: Event, now: int) {
    && e.command.Some? && ValidCommand(e, e.command.value) && Newest(receipts, e)
    && e.work in store.works && e.attempt in store.attempts
    && Taken(e.command.value, store.works[e.work], store.attempts[e.attempt], now)
  }

  /** Applied, the event leaves its two rows as its command says, and otherwise all rows as they are. */
  ghost predicate Writes(store: Store, store': Store, e: Event, applied: bool) {
    if applied then
      && e.command.Some? && e.work in store.works && e.attempt in store.attempts
      && store'.works.Keys == store.works.Keys && store'.attempts.Keys == store.attempts.Keys
      && Leaves(e.command.value, store.works[e.work], store.attempts[e.attempt], store'.works[e.work], store'.attempts[e.attempt])
      && (forall w :: w in store.works && w != e.work ==> store'.works[w] == store.works[w])
      && (forall a :: a in store.attempts && a != e.attempt ==> store'.attempts[a] == store.attempts[a])
    else store' == store
  }

  lemma DecideWrites(store: Store, receipts: seq<Receipt>, e: Event, now: int)
    ensures Decide(store, receipts, e, now).Accepted? <==> Takes(store, receipts, e, now)
    ensures Writes(store, Applied(store, e, Decide(store, receipts, e, now)), e, Decide(store, receipts, e, now).Accepted?)
  {
    if e.command.Some? && ValidCommand(e, e.command.value) {
      NewestIffHigher(receipts, e);
      if e.work in store.works && e.attempt in store.attempts {
        AcceptedIffTaken(e.command.value, store.works[e.work], store.attempts[e.attempt], now);
        if PlanFor(e.command.value, store.works[e.work], store.attempts[e.attempt], now).Accepted? {
          CommandLeaves(e.command.value, store.works[e.work], store.attempts[e.attempt], now);
        }
      }
    }
  }

  /** An event met before changes nothing; any other is applied exactly if it is taken, and acknowledged. */
  ghost predicate StepsTo(log: Log, log': Log, e: Event, now: int) {
    if exists i :: 0 <= i < |log.receipts| && log.receipts[i].id == e.id then log' == log
    else
      && log'.receipts == log.receipts + [Receipt(e.id, e.work, e.attempt, e.execution, e.sequence, Takes(log.store, log.receipts, e, now))]
      && Writes(log.store, log'.store, e, Takes(log.store, log.receipts, e, now))
  }

  lemma StepIsTaken(log: Log, e: Event, now: int)
    ensures StepsTo(log, Step(log, e, now), e, now)
  {
    DecideWrites(log.store, log.receipts, e, now);
  }

  /** The logs a drain of the events goes through. */
  ghost predicate History(logs: seq<Log>, start: Log, events: seq<Event>, clock: EventId -> int) {
    && |logs| == |events| + 1 && logs[0] == start
    && forall i {:trigger StepsAt(logs, events, clock, i)} :: 0 <= i < |events| ==> StepsAt(logs, events, clock, i)
  }

  ghost predicate StepsAt(logs: seq<Log>, events: seq<Event>, clock: EventId -> int, i: nat)
    requires i < |events| && i + 1 < |logs|
  {
    StepsTo(logs[i], logs[i + 1], events[i], clock(events[i].id))
  }

  /** Applying the events one by one goes through such logs. */
  lemma {:induction false} StepsHistory(start: Log, events: seq<Event>, clock: EventId -> int) returns (logs: seq<Log>)
    ensures History(logs, start, events, clock) && logs[|events|] == Steps(start, events, clock)
  {
    if events == [] {
      logs := [start];
    } else {
      var n := |events| - 1;
      var few := StepsHistory(start, events[..n], clock);
      StepIsTaken(few[n], events[n], clock(events[n].id));
      logs := few + [Steps(start, events, clock)];
      forall i | 0 <= i < |events| ensures StepsAt(logs, events, clock, i) {
        if i < n { assert StepsAt(few, events[..n], clock, i); }
      }
    }
  }

  /** The first `limit` unacknowledged events, in inbox order. */
  function Pending(inbox: seq<Event>, receipts: seq<Receipt>, limit: nat): seq<Event> {
    if inbox == [] || limit == 0 then []
    else if Acknowledged(receipts, inbox[0].id) then Pending(inbox[1..], receipts, limit)
    else [inbox[0]] + Pending(inbox[1..], receipts, limit - 1)
  }

  /** The events at positions `at` of the inbox, from `from` on: unacknowledged, in order, and the first such, as many as `limit`
      allows. */
  ghost predicate FirstPending(inbox: seq<Event>, from: nat, receipts: seq<Receipt>, limit: nat, events: seq<Event>, at: seq<nat>) {
    && |at| == |events| <= limit
    && (forall k :: 0 <= k < |at| ==> from <= at[k] < |inbox| && events[k] == inbox[at[k]] && !Acknowledged(receipts, events[k].id))
    && (forall j, k :: 0 <= j < k < |at| ==> at[j] < at[k])
    && (forall i :: from <= i < |inbox| && !Acknowledged(receipts, inbox[i].id) && i !in at ==>
          |at| == limit && forall k :: 0 <= k < |at| ==> at[k] < i)
  }

  lemma {:induction false} PendingIsFirst(inbox: seq<Event>, from: nat, receipts: seq<Receipt>, limit: nat) returns (at: seq<nat>)
    requires from <= |inbox|
    ensures FirstPending(inbox, from, receipts, limit, Pending(inbox[from..], receipts, limit), at)
    decreases |inbox| - from
  {
    if from == |inbox| || limit == 0 {
      at := [];
    } else {
      assert inbox[from..][1..] == inbox[from + 1..];
      if Acknowledged(receipts, inbox[from].id) {
        at := PendingIsFirst(inbox, from + 1, receipts, limit);
      } else {
        var later := PendingIsFirst(inbox, from + 1, receipts, limit - 1);
        at := [from] + later;
        FirstAdded(inbox, from, receipts, limit, Pending(inbox[from + 1..], receipts, limit - 1), later);
      }
    }
  }

  lemma FirstAdded(inbox: seq<Event>, from: nat, receipts: seq<Receipt>, limit: nat, events: seq<Event>, later: seq<nat>)
    requires from < |inbox| && limit > 0 && !Acknowledged(receipts, inbox[from].id)
    requires FirstPending(inbox, from + 1, receipts, limit - 1, events, later)
    ensures FirstPending(inbox, from, receipts, limit, [inbox[from]] + events, [from] + later)
  {
    var at, all := [from] + later, [inbox[from]] + events;
    forall k | 0 < k < |at| ensures at[k] == later[k - 1] && all[k] == events[k - 1] {}
    assert forall i :: i in at <==> i == from || i in later;
  }

  // ---- receipts of other work and attempts do not matter to an event ----

  predicate Touches(receipts: seq<Receipt>, e: Event) {
    exists i :: 0 <= i < |receipts| && (receipts[i].work == e.work || receipts[i].attempt == e.attempt)
  }

  lemma {:induction false} HighestIgnores(receipts: seq<Receipt>, extra: seq<Receipt>, e: Event)
    requires !Touches(extra, e)
    ensures Highest(receipts + extra, e) == Highest(receipts, e)
  {
    if extra == [] {
      assert receipts + extra == receipts;
    } else {
      var n := |extra| - 1;
      assert extra[n].work != e.work;
      assert (receipts + extra)[..|receipts| + n] == receipts + extra[..n];
      forall i | 0 <= i < n ensures extra[..n][i].work != e.work && extra[..n][i].attempt != e.attempt {
        assert extra[..n][i] == extra[i];
      }
      HighestIgnores(receipts, extra[..n], e);
    }
  }

  lemma DecideIgnores(store: Store, receipts: seq<Receipt>, extra: seq<Receipt>, e: Event, now: int)
    requires !Touches(extra, e)
    ensures Decide(store, receipts + extra, e, now) == Decide(store, receipts, e, now)
  {
    HighestIgnores(receipts, extra, e);
  }

  lemma StepsExtend(log: Log, events: seq<Event>, clock: EventId -> int, i: nat)
    requires i < |events|
    ensures Steps(log, events[..i + 1], clock) == Step(Steps(log, events[..i], clock), events[i], clock(events[i].id))
  {
    assert events[..i + 1][..i] == events[..i];
  }

  /** Commands applied whose receipts are still held back concern pairwise different works and attempts. */
  predicate Independent(batch: seq<Receipt>) {
    forall i, j :: 0 <= i < j < |batch| ==> batch[i].work != batch[j].work && batch[i].attempt != batch[j].attempt
  }

  // ---- the drain as it runs ----

  class Drainer {
    var works: map<WorkId, Work>
    var attempts: map<AttemptId, Attempt>
    var receipts: seq<Receipt>

    constructor (works: map<WorkId, Work>, attempts: map<AttemptId, Attempt>, receipts: seq<Receipt>)
      ensures Contents() == Log(Store(works, attempts), receipts)
    {
      this.works, this.attempts, this.receipts := works, attempts, receipts;
    }

    function Contents(): Log
      reads this
    {
      Log(Store(works, attempts), receipts)
    }

    /** Decides one event against the stored rows and writes them, attempt first. */
    method ApplyEvent(e: Event, now: int) returns (receipt: Receipt)
      modifies this`works, this`attempts
      ensures receipts == old(receipts)
      ensures var p := old(Decide(Contents().store, receipts, e, now));
              receipt == ReceiptFor(e, p) && Contents().store == Applied(old(Contents().store), e, p)
      ensures receipt.applied <==> old(Takes(Contents().store, receipts, e, now))
      ensures Writes(old(Contents().store), Contents().store, e, receipt.applied)
    {
      DecideWrites(Store(works, attempts), receipts, e, now);
      var p := Decide(Store(works, attempts), receipts, e, now);
      if p.Accepted? {
        attempts := attempts[e.attempt := p.attempt];
        works := works[e.work := p.work];
      }
      receipt := ReceiptFor(e, p);
    }

    /** One event of a drain: skipped if it was met before, else applied, after writing the receipts held back if one of
        them shares its work or attempt; says whether it was applied. */
    method DrainEvent(e: Event, clock: EventId -> int, held: Held, ghost start: Log, ghost done: seq<Event>)
      returns (held': Held, outcome: Option<bool>)
      requires Drained(start, done, clock, Contents(), held)
      modifies this
      ensures Drained(start, done + [e], clock, Contents(), held')
      ensures outcome.None? ==> receipts + held'.batch == old(receipts) + held.batch
      ensures outcome.Some? ==> |receipts + held'.batch| == |old(receipts) + held.batch| + 1
      ensures outcome.Some? ==>
        AppliedCount(receipts + held'.batch) == AppliedCount(old(receipts) + held.batch) + if outcome.value then 1 else 0
    {
      held' := held;
      if e.id in held.seen || Acknowledged(receipts, e.id) {
        DrainSkips(start, done, clock, Contents(), held, e);
        return held, None;
      }
      if e.work in held.works || e.attempt in held.attempts {
        DrainFlushes(start, done, clock, Contents(), held);
        receipts := receipts + held.batch;
        held' := Held([], {}, {}, held.seen);
      }
      DrainApplies(start, done, clock, Contents(), held', e);
      var receipt := ApplyEvent(e, clock(e.id));
      held', outcome := Hold(held', receipt), Some(receipt.applied);
    }

    /** One event of a drain, counted. */
    method DrainCounted(e: Event, clock: EventId -> int, held: Held, processed: nat, applied: nat, rejected: nat,
                        ghost start: Log, ghost done: seq<Event>)
      returns (held': Held, processed': nat, applied': nat, rejected': nat)
      requires Drained(start, done, clock, Contents(), held)
      requires Tallied(start.receipts, receipts + held.batch, processed, applied, rejected)
      modifies this
      ensures Drained(start, done + [e], clock, Contents(), held')
      ensures Tallied(start.receipts, receipts + held'.batch, processed', applied', rejected')
    {
      var outcome;
      held', outcome := DrainEvent(e, clock, held, start, done);
      processed', applied', rejected' := processed, applied, rejected;
      if outcome.Some? {
        processed' := processed + 1;
        if outcome.value { applied' := applied + 1; } else { rejected' := rejected + 1; }
      }
    }

    /** Applies the pending events in order, holding receipts back until an event shares a work or an attempt with one
        of them; `clock` gives the time at which each event is looked at. */
    method Drain(inbox: seq<Event>, limit: nat, clock: EventId -> int) returns (processed: nat, applied: nat, rejected: nat)
      modifies this
      ensures Contents() == Steps(old(Contents()), Pending(inbox, old(receipts), limit), clock)
      ensures exists events, at, logs :: FirstPending(inbox, 0, old(receipts), limit, events, at)
                && History(logs, old(Contents()), events, clock) && Contents() == logs[|events|]
      ensures Tallied(old(receipts), receipts, processed, applied, rejected)
    {
      ghost var at := PendingIsFirst(inbox, 0, receipts, limit);
      assert inbox[0..] == inbox;
      ghost var logs := StepsHistory(Contents(), Pending(inbox, receipts, limit), clock);
      processed, applied, rejected := DrainAll(Pending(inbox, receipts, limit), clock);
    }

    method DrainAll(events: seq<Event>, clock: EventId -> int) returns (processed: nat, applied: nat, rejected: nat)
      modifies this
      ensures Contents() == Steps(old(Contents()), events, clock)
      ensures Tallied(old(receipts), receipts, processed, applied, rejected)
    {
      processed, applied, rejected := 0, 0, 0;
      ghost var start := Contents();
      ghost var done := [];
      var held := Held([], {}, {}, {});
      DrainStarts(start, clock);
      for i := 0 to |events|
        invariant done == events[..i] && Drained(start, done, clock, Contents(), held)
        invariant Tallied(start.receipts, receipts + held.batch, processed, applied, rejected)
      {
        held, processed, applied, rejected := DrainCounted(events[i], clock, held, processed, applied, rejected, start, done);
        TakeMore(events, i);
        done := events[..i + 1];
      }
      assert done == events;
      receipts := receipts + held.batch;
    }
  }

  /** Receipts held back, the works and attempts they concern, and the ids met so far in this drain. */
  datatype Held = Held(batch: seq<Receipt>, works: set<WorkId>, attempts: set<AttemptId>, seen: set<EventId>)

  function Hold(h: Held, r: Receipt): Held {
    Held(h.batch + [r], h.works + {r.work}, h.attempts + {r.attempt}, h.seen + {r.id})
  }

  /** The stored rows and receipts, together with the receipts held back, are the reference's after `done`. */
  ghost predicate Drained(start: Log, done: seq<Event>, clock: EventId -> int, log: Log, h: Held) {
    Steps(start, done, clock) == Log(log.store, log.receipts + h.batch) && HeldApart(log.receipts, h)
  }

  /** The receipts held back concern pairwise different works and attempts, those recorded, and the ids met are acknowledged. */
  ghost predicate HeldApart(receipts: seq<Receipt>, h: Held) {
    && Independent(h.batch)
    && (forall k :: 0 <= k < |h.batch| ==>
          h.batch[k].work in h.works && h.batch[k].attempt in h.attempts && h.batch[k].id in h.seen)
    && (forall id :: id in h.seen ==> Acknowledged(receipts + h.batch, id))
  }

  lemma HoldApart(receipts: seq<Receipt>, h: Held, receipt: Receipt)
    requires HeldApart(receipts, h) && receipt.work !in h.works && receipt.attempt !in h.attempts
    ensures HeldApart(receipts, Hold(h, receipt))
  {
    assert receipts + (h.batch + [receipt]) == (receipts + h.batch) + [receipt];
    AcknowledgedMore(receipts + h.batch, receipt);
    ApartMore(h.batch, receipt, h.works, h.attempts);
  }

  lemma ApartMore(batch: seq<Receipt>, receipt: Receipt, works: set<WorkId>, attempts: set<AttemptId>)
    requires Independent(batch) && receipt.work !in works && receipt.attempt !in attempts
    requires forall k :: 0 <= k < |batch| ==> batch[k].work in works && batch[k].attempt in attempts
    ensures Independent(batch + [receipt])
  {
    var all := batch + [receipt];
    forall i, j | 0 <= i < j < |all| ensures all[i].work != all[j].work && all[i].attempt != all[j].attempt {
      assert all[i] == batch[i];
      if j < |batch| { assert all[j] == batch[j]; }
    }
  }

  lemma TakeMore(events: seq<Event>, i: nat)
    requires i < |events|
    ensures events[..i] + [events[i]] == events[..i + 1]
  {
  }

  lemma DrainStarts(start: Log, clock: EventId -> int)
    ensures Drained(start, [], clock, start, Held([], {}, {}, {}))
    ensures start.receipts + [] == start.receipts
  {
  }

  lemma StepsOneMore(start: Log, done: seq<Event>, clock: EventId -> int, e: Event)
    ensures Steps(start, done + [e], clock) == Step(Steps(start, done, clock), e, clock(e.id))
  {
    assert (done + [e])[..|done|] == done;
  }

  lemma DrainSkips(start: Log, done: seq<Event>, clock: EventId -> int, log: Log, h: Held, e: Event)
    requires Drained(start, done, clock, log, h) && (e.id in h.seen || Acknowledged(log.receipts, e.id))
    ensures Drained(start, done + [e], clock, log, h)
  {
    StepsOneMore(start, done, clock, e);
    AcknowledgedSplit(log.receipts, h.batch, e.id);
  }

  lemma DrainFlushes(start: Log, done: seq<Event>, clock: EventId -> int, log: Log, h: Held)
    requires Drained(start, done, clock, log, h)
    ensures Drained(start, done, clock, log.(receipts := log.receipts + h.batch), Held([], {}, {}, h.seen))
    ensures (log.receipts + h.batch) + [] == log.receipts + h.batch
  {
    assert (log.receipts + h.batch) + [] == log.receipts + h.batch;
  }

  lemma DrainApplies(start: Log, done: seq<Event>, clock: EventId -> int, log: Log, h: Held, e: Event)
    requires Drained(start, done, clock, log, h)
    requires e.id !in h.seen && !Acknowledged(log.receipts, e.id) && e.work !in h.works && e.attempt !in h.attempts
    ensures var p := Decide(log.store, log.receipts, e, clock(e.id));
            && Drained(start, done + [e], clock, Log(Applied(log.store, e, p), log.receipts), Hold(h, ReceiptFor(e, p)))
            && AppliedCount(log.receipts + Hold(h, ReceiptFor(e, p)).batch)
               == AppliedCount(log.receipts + h.batch) + if p.Accepted? then 1 else 0
  {
    var p := Decide(log.store, log.receipts, e, clock(e.id));
    var receipt := ReceiptFor(e, p);
    StepsOneMore(start, done, clock, e);
    AcknowledgedSplit(log.receipts, h.batch, e.id);
    assert !Acknowledged(h.batch, e.id);
    DecideIgnores(log.store, log.receipts, h.batch, e, clock(e.id));
    AcknowledgedMore(log.receipts + h.batch, receipt);
    HoldApart(log.receipts, h, receipt);
    assert log.receipts + (h.batch + [receipt]) == (log.receipts + h.batch) + [receipt];
  }

  /** The counts a drain returns, from the receipts before it and now. */
  predicate Tallied(before: seq<Receipt>, now: seq<Receipt>, processed: int, applied: int, rejected: int) {
    && processed == |now| - |before| && applied + rejected == processed
    && applied == AppliedCount(now) - AppliedCount(before)
  }

  /** How many receipts say the command was applied. */
  function AppliedCount(receipts: seq<Receipt>): nat {
    if receipts == [] then 0
    else AppliedCount(receipts[..|receipts| - 1]) + if receipts[|receipts| - 1].applied then 1 else 0
  }

  lemma AcknowledgedSplit(receipts: seq<Receipt>, batch: seq<Receipt>, id: EventId)
    ensures Acknowledged(receipts + batch, id) <==> Acknowledged(receipts, id) || Acknowledged(batch, id)
  {
    var all := receipts + batch;
    if Acknowledged(receipts, id) { var i :| 0 <= i < |receipts| && receipts[i].id == id; assert all[i].id == id; }
    if Acknowledged(batch, id) { var i :| 0 <= i < |batch| && batch[i].id == id; assert all[|receipts| + i].id == id; }
  }

  lemma AcknowledgedMore(receipts: seq<Receipt>, receipt: Receipt)
    ensures Acknowledged(receipts + [receipt], receipt.id)
    ensures forall id :: Acknowledged(receipts, id) ==> Acknowledged(receipts + [receipt], id)
    ensures AppliedCount(receipts + [receipt]) == AppliedCount(receipts) + if receipt.applied then 1 else 0
  {
    var all := receipts + [receipt];
    assert all[|receipts|] == receipt && all[..|receipts|] == receipts;
    forall id | Acknowledged(receipts, id) ensures Acknowledged(all, id) {
      AcknowledgedSplit(receipts, [receipt], id);
    }
  }
}
