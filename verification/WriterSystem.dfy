/** Any number of writer processes sharing one lock row, each replacing one table per step and free to stop at any
    step, while readers look on without the lock. */
module WriterSystem {
  import opened Wrappers
  import opened Ordering
  import opened ControlTables
  import opened ControlSpec
  import opened ControlInvariant
  import opened ControlRuns

  type Token = nat

  datatype Table = WorkTable | AttemptsTable | BatchesTable | MembersTable | PublicationsTable | ReplaysTable | FindingsTable

  /** The order in which an operation replaces its tables. */
  function WriteOrder(op: Op): seq<Table> {
    match op
    case Registers(_, _, _) => [WorkTable]
    case ClaimsWork(_) => [WorkTable, BatchesTable, MembersTable, AttemptsTable]
    case Heartbeats(_, _, _) => [BatchesTable, AttemptsTable, WorkTable]
    case Seals(_, _, _, _, _) => [BatchesTable, AttemptsTable]
    case CommitsBatch(_, _) => [BatchesTable, AttemptsTable, WorkTable, PublicationsTable]
    case Abandons(_, _) => [WorkTable, AttemptsTable, BatchesTable]
    case Recovers(_) => [WorkTable, AttemptsTable, BatchesTable]
    case RecoversExactly(_, _, _, _) => [WorkTable, BatchesTable, AttemptsTable]
    case Replays(_, _, _, _, _, _) => [WorkTable, ReplaysTable]
    case Quarantines(_, _, _, _) => [WorkTable]
    case Reconciles(_) => [FindingsTable]
  }

  /** Replace one table of `s` by that of `goal`. */
  function Replaced(s: Tables, goal: Tables, t: Table): Tables {
    match t
    case WorkTable => s.(work := goal.work)
    case AttemptsTable => s.(attempts := goal.attempts)
    case BatchesTable => s.(batches := goal.batches)
    case MembersTable => s.(members := goal.members)
    case PublicationsTable => s.(publications := goal.publications)
    case ReplaysTable => s.(replays := goal.replays)
    case FindingsTable => s.(findings := goal.findings)
  }

  /** The tables while `remaining` is still to be written: unwritten tables are the old ones. */
  function Mixed(before: Tables, goal: Tables, remaining: seq<Table>): Tables {
    Tables(if WorkTable in remaining then before.work else goal.work,
           if AttemptsTable in remaining then before.attempts else goal.attempts,
           if BatchesTable in remaining then before.batches else goal.batches,
           if MembersTable in remaining then before.members else goal.members,
           if PublicationsTable in remaining then before.publications else goal.publications,
           if ReplaysTable in remaining then before.replays else goal.replays,
           if FindingsTable in remaining then before.findings else goal.findings)
  }

  ghost predicate Raises(s: Tables, op: Op)
    requires Enabled(s, op)
  {
    match op
    case Registers(requests, release, now) => Register(s, requests, release, now).reply.Err?
    case ClaimsWork(c) => false
    case Heartbeats(env, extension, now) => Heartbeat(s, env, extension, now).reply.Err?
    case Seals(b, outputs, envelope, membership, now) => Seal(s, b, outputs, envelope, membership, now).reply.Err?
    case CommitsBatch(b, now) => Commit(s, b, now).reply.Err?
    case Abandons(d, now) => Abandon(s, d, now).reply.Err?
    case Recovers(t) => false
    case RecoversExactly(p, t, skew, staged) => RecoverExact(s, p, t, skew, staged).reply.Err?
    case Replays(w, operator, reason, additional, id, now) =>
      ReplayWork(s, w, operator, reason, additional, id, now).reply.Err?
    case Quarantines(es, actor, explanation, now) => Quarantine(s, es, actor, explanation, now).reply.Err?
    case Reconciles(t) => false
  }

  /** An operation under way: what it read, what it will leave, and the tables it has still to replace. */
  datatype Job = Job(op: Op, before: Tables, goal: Tables, remaining: seq<Table>)

  /** Where one `ControlWriter.run` call stands.  `Stopped` is a process that crashed or whose callback raised. */
  datatype Pc =
    | FirstRead | Loop(seen: Option<Token>) | Claiming | AfterClaim | Check(seen: Option<Token>) | Sleeping | TimedOut
    | Entered | Inside(job: Job) | ReleaseCheck | Clearing | Verifying | Done | LockError
    | Stopped(was: Pc) | Retired

  datatype Lock = Lock(owner: Option<Token>, acquiredAt: Option<int>)

  /** `log` lists the operations begun so far, in order; it is a history of the run, read by no process. */
  datatype Sys = Sys(lock: Lock, pcs: map<Token, Pc>, tables: Tables, log: seq<Op>)

  const INITIAL := Sys(Lock(None, None), map[], EMPTY, [])

  datatype Action =
    | Start(p: Token)
    | Read(p: Token)
    | Proceed(p: Token)
    | GiveUp(p: Token)
    | Cas(p: Token, now: int)
    | CasConflict(p: Token)
    | Decide(p: Token)
    | Begin(p: Token, op: Op)
    | Write(p: Token)
    | Finish(p: Token)
    | CheckRelease(p: Token)
    | Clear(p: Token)
    | Verify(p: Token)
    | Stop(p: Token)
    | OperatorClear(p: Token)

  function Core(pc: Pc): Pc {
    if pc.Stopped? then pc.was else pc
  }

  predicate Terminal(pc: Pc) {
    pc.TimedOut? || pc.Done? || pc.LockError? || pc.Stopped? || pc.Retired?
  }

  /** A stopped writer has no half-written operation: it wrote all its tables or none. */
  predicate Settled(pc: Pc) {
    Core(pc).Inside? ==> Core(pc).job.remaining == [] || Core(pc).job.remaining == WriteOrder(Core(pc).job.op)
  }

  ghost predicate Guard(y: Sys, act: Action) {
    if act.Start? then act.p !in y.pcs
    else
      act.p in y.pcs &&
      var pc := y.pcs[act.p];
      match act
      case Read(_) => pc.FirstRead? || pc.AfterClaim? || pc.Sleeping?
      case Proceed(_) => pc.Loop?
      case GiveUp(_) => pc.Loop?
      case Cas(_, _) => pc.Claiming?
      case CasConflict(_) => pc.Claiming?
      case Decide(_) => pc.Check?
      case Begin(_, op) => pc.Entered? && Enabled(y.tables, op)
      case Write(_) => pc.Inside? && pc.job.remaining != []
      case Finish(_) => pc.Inside? && pc.job.remaining == []
      case CheckRelease(_) => pc.ReleaseCheck?
      case Clear(_) => pc.Clearing?
      case Verify(_) => pc.Verifying?
      case Stop(_) => !Terminal(pc)
      case OperatorClear(p) => pc.Stopped? && y.lock.owner == Some(p) && Settled(pc)
      case Start(_) => false
  }

  /** One step.  A claim updates the lock row only while it is free; a release only while it is the caller's. */
  ghost function Next(y: Sys, act: Action): Sys
    requires Guard(y, act)
  {
    if act.Start? then y.(pcs := y.pcs[act.p := FirstRead])
    else
      var p := act.p;
      var pc := y.pcs[p];
      match act
      case Read(_) => y.(pcs := y.pcs[p := if pc.AfterClaim? then Check(y.lock.owner) else Loop(y.lock.owner)])
      case Proceed(_) => y.(pcs := y.pcs[p := if pc.seen.None? then Claiming else Check(pc.seen)])
      case GiveUp(_) => y.(pcs := y.pcs[p := TimedOut])
      case Cas(_, now) =>
        y.(lock := if y.lock.owner.None? then Lock(Some(p), Some(now)) else y.lock, pcs := y.pcs[p := AfterClaim])
      case CasConflict(_) => y.(pcs := y.pcs[p := AfterClaim])
      case Decide(_) => y.(pcs := y.pcs[p := if pc.seen == Some(p) then Entered else Sleeping])
      case Begin(_, op) =>
        if Raises(y.tables, op) then y.(pcs := y.pcs[p := Stopped(Entered)])
        else y.(pcs := y.pcs[p := Inside(Job(op, y.tables, Apply(y.tables, op), WriteOrder(op)))], log := y.log + [op])
      case Write(_) =>
        y.(tables := Replaced(y.tables, pc.job.goal, pc.job.remaining[0]),
           pcs := y.pcs[p := Inside(pc.job.(remaining := pc.job.remaining[1..]))])
      case Finish(_) => y.(pcs := y.pcs[p := ReleaseCheck])
      case CheckRelease(_) =>
        y.(pcs := y.pcs[p := if y.lock.owner == Some(p) && y.lock.acquiredAt.Some? then Clearing else LockError])
      case Clear(_) =>
        y.(lock := if y.lock.owner == Some(p) then Lock(None, None) else y.lock, pcs := y.pcs[p := Verifying])
      case Verify(_) =>
        y.(pcs := y.pcs[p := if y.lock.owner == Some(p) || (y.lock.owner.None? != y.lock.acquiredAt.None?) then LockError
                             else Done])
      case Stop(_) => y.(pcs := y.pcs[p := Stopped(pc)])
      case OperatorClear(_) =>
        y.(lock := Lock(None, None), pcs := y.pcs[p := Retired],
           log := if Core(pc).Inside? && Core(pc).job.remaining != [] && y.log != [] then y.log[..|y.log| - 1] else y.log)
  }

  // ---- the invariant ----

  /** Where a process stands once it has seen itself as the owner and has not yet cleared the row. */
  predicate Holds(pc: Pc, p: Token) {
    var core := Core(pc);
    (core.Check? && core.seen == Some(p)) || core.Entered? || core.Inside? || core.ReleaseCheck? || core.Clearing?
  }

  ghost predicate LockInv(y: Sys) {
    && (y.lock.owner.Some? <==> y.lock.acquiredAt.Some?)
    && (y.lock.owner.Some? ==>
          y.lock.owner.value in y.pcs &&
          (Holds(y.pcs[y.lock.owner.value], y.lock.owner.value) || Core(y.pcs[y.lock.owner.value]).AfterClaim?))
    && (forall p {:trigger ProcessInv(y, p)} :: p in y.pcs ==> ProcessInv(y, p))
  }

  ghost predicate ProcessInv(y: Sys, p: Token)
    requires p in y.pcs
  {
    && (Holds(y.pcs[p], p) ==> y.lock.owner == Some(p))
    && !Core(y.pcs[p]).LockError? && !Core(y.pcs[p]).Stopped?
    && (Core(y.pcs[p]).Loop? ==> Core(y.pcs[p]).seen != Some(p))
  }

  /** The operation under way, if the lock's owner is in the middle of one. */
  ghost function InFlight(y: Sys): Option<Job> {
    if y.lock.owner.Some? && y.lock.owner.value in y.pcs && Core(y.pcs[y.lock.owner.value]).Inside?
    then Some(Core(y.pcs[y.lock.owner.value]).job) else None
  }

  /** The operation began at the end of the sequential run of the operations before it, and did not raise. */
  ghost predicate Began(op: Op, before: Tables, goal: Tables, log: seq<Op>) {
    && Inv(before) && Enabled(before, op) && goal == Apply(before, op) && !Raises(before, op)
    && log != [] && log[|log| - 1] == op
    && Sequential(log[..|log| - 1], before)
  }

  ghost predicate JobInv(y: Sys, job: Job) {
    && Began(job.op, job.before, job.goal, y.log)
    && IsSuffix(job.remaining, WriteOrder(job.op))
    && y.tables == Mixed(job.before, job.goal, job.remaining)
  }

  predicate IsSuffix(xs: seq<Table>, ys: seq<Table>) {
    |xs| <= |ys| && ys[|ys| - |xs|..] == xs
  }

  ghost predicate TablesInv(y: Sys) {
    match InFlight(y)
    case Some(job) => JobInv(y, job)
    case None => Sequential(y.log, y.tables) && Inv(y.tables)
  }

  ghost predicate SysInv(y: Sys) {
    LockInv(y) && TablesInv(y)
  }

  lemma InitialInv()
    ensures SysInv(INITIAL)
  {
    EmptyHolds();
    NoSteps();
  }

  lemma LockStep(y: Sys, act: Action)
    requires LockInv(y) && Guard(y, act)
    ensures LockInv(Next(y, act))
  {
    var y' := Next(y, act);
    assert act.p in y.pcs ==> ProcessInv(y, act.p);
    forall p | p in y'.pcs ensures ProcessInv(y', p) {
      if p != act.p { assert ProcessInv(y, p); }
    }
  }

  // ---- the tables ----

  /** The tables an operation may change are those of its write order. */
  ghost predicate Frames(op: Op, s: Tables, goal: Tables) {
    match op
    case Registers(_, _, _) => goal == s.(work := goal.work)
    case ClaimsWork(_) =>
      goal == s.(work := goal.work, batches := goal.batches, members := goal.members, attempts := goal.attempts)
    case Heartbeats(_, _, _) => goal == s.(batches := goal.batches, attempts := goal.attempts, work := goal.work)
    case Seals(_, _, _, _, _) => goal == s.(batches := goal.batches, attempts := goal.attempts)
    case CommitsBatch(_, _) =>
      goal == s.(batches := goal.batches, attempts := goal.attempts, work := goal.work, publications := goal.publications)
    case Abandons(_, _) => goal == s.(work := goal.work, attempts := goal.attempts, batches := goal.batches)
    case Recovers(_) => goal == s.(work := goal.work, attempts := goal.attempts, batches := goal.batches)
    case RecoversExactly(_, _, _, _) => goal == s.(work := goal.work, batches := goal.batches, attempts := goal.attempts)
    case Replays(_, _, _, _, _, _) => goal == s.(work := goal.work, replays := goal.replays)
    case Quarantines(_, _, _, _) => goal == s.(work := goal.work)
    case Reconciles(_) => goal == s.(findings := goal.findings)
  }

  lemma ApplyFrames(s: Tables, op: Op)
    requires Enabled(s, op)
    ensures Frames(op, s, Apply(s, op))
  {
  }

  lemma FramedMix(op: Op, s: Tables, goal: Tables)
    requires Frames(op, s, goal)
    ensures Mixed(s, goal, WriteOrder(op)) == s
  {
    var order := WriteOrder(op);
    assert |order| > 0 && order[0] in order;
    assert |order| > 1 ==> order[1] in order;
    assert |order| > 2 ==> order[2] in order;
    assert |order| > 3 ==> order[3] in order;
  }

  /** Before anything is written the tables are the old ones. */
  lemma OrderCovers(s: Tables, op: Op)
    requires Enabled(s, op)
    ensures Mixed(s, Apply(s, op), WriteOrder(op)) == s
  {
    ApplyFrames(s, op);
    FramedMix(op, s, Apply(s, op));
  }

  lemma WriteOrderDistinct(op: Op)
    ensures Distinct(WriteOrder(op))
  {
  }

  /** Writing the first of the remaining tables. */
  lemma MixedWrite(before: Tables, goal: Tables, remaining: seq<Table>)
    requires remaining != [] && Distinct(remaining)
    ensures Replaced(Mixed(before, goal, remaining), goal, remaining[0]) == Mixed(before, goal, remaining[1..])
  {
    Remains(remaining, WorkTable);
    Remains(remaining, AttemptsTable);
    Remains(remaining, BatchesTable);
    Remains(remaining, MembersTable);
    Remains(remaining, PublicationsTable);
    Remains(remaining, ReplaysTable);
    Remains(remaining, FindingsTable);
    WritesOne(before, goal, remaining, remaining[0], remaining[1..]);
  }

  predicate Drops(remaining: seq<Table>, first: Table, rest: seq<Table>, t: Table) {
    t in rest <==> t in remaining && t != first
  }

  lemma Remains(remaining: seq<Table>, t: Table)
    requires remaining != [] && Distinct(remaining)
    ensures Drops(remaining, remaining[0], remaining[1..], t)
  {
  }

  lemma WritesOne(before: Tables, goal: Tables, remaining: seq<Table>, first: Table, rest: seq<Table>)
    requires Drops(remaining, first, rest, WorkTable) && Drops(remaining, first, rest, AttemptsTable)
    requires Drops(remaining, first, rest, BatchesTable) && Drops(remaining, first, rest, MembersTable)
    requires Drops(remaining, first, rest, PublicationsTable) && Drops(remaining, first, rest, ReplaysTable)
    requires Drops(remaining, first, rest, FindingsTable)
    ensures Replaced(Mixed(before, goal, remaining), goal, first) == Mixed(before, goal, rest)
  {
  }

  lemma BeginStep(y: Sys, act: Action)
    requires SysInv(y) && Guard(y, act) && act.Begin?
    ensures TablesInv(Next(y, act))
  {
    assert ProcessInv(y, act.p);
    if !Raises(y.tables, act.op) {
      var y' := Next(y, act);
      assert InFlight(y') == Some(Job(act.op, y.tables, Apply(y.tables, act.op), WriteOrder(act.op)));
      BeginJob(y, y', act.op);
    }
  }

  lemma BeginJob(y: Sys, y': Sys, op: Op)
    requires Sequential(y.log, y.tables) && Inv(y.tables)
    requires Enabled(y.tables, op) && !Raises(y.tables, op) && y'.tables == y.tables && y'.log == y.log + [op]
    ensures JobInv(y', Job(op, y.tables, Apply(y.tables, op), WriteOrder(op)))
  {
    OrderCovers(y.tables, op);
    assert y'.log[..|y'.log| - 1] == y.log;
  }

  lemma WriteStep(y: Sys, act: Action)
    requires SysInv(y) && Guard(y, act) && act.Write?
    ensures TablesInv(Next(y, act))
  {
    assert ProcessInv(y, act.p);
    var job := y.pcs[act.p].job;
    var y' := Next(y, act);
    assert InFlight(y) == Some(job) && InFlight(y') == Some(job.(remaining := job.remaining[1..]));
    WriteJob(y, y', job);
  }

  lemma WriteJob(y: Sys, y': Sys, job: Job)
    requires JobInv(y, job) && job.remaining != [] && y'.log == y.log
    requires y'.tables == Replaced(y.tables, job.goal, job.remaining[0])
    ensures JobInv(y', job.(remaining := job.remaining[1..]))
  {
    var order := WriteOrder(job.op);
    SuffixTail(job.remaining, order);
    WriteOrderDistinct(job.op);
    MixedWrite(job.before, job.goal, job.remaining);
  }

  lemma SuffixTail(xs: seq<Table>, ys: seq<Table>)
    requires IsSuffix(xs, ys) && xs != []
    ensures IsSuffix(xs[1..], ys) && (Distinct(ys) ==> Distinct(xs))
  {
  }

  /** An operation all of whose tables are written is one more step of the sequential run. */
  lemma JobDone(y: Sys, job: Job)
    requires JobInv(y, job) && job.remaining == []
    ensures Sequential(y.log, y.tables) && Inv(y.tables)
  {
    var earlier := y.log[..|y.log| - 1];
    assert y.log == earlier + [job.op];
    OneMoreStep(earlier, job.before, job.op);
    StepKeeps(job.before, job.op);
  }

  lemma FinishStep(y: Sys, act: Action)
    requires SysInv(y) && Guard(y, act) && act.Finish?
    ensures TablesInv(Next(y, act))
  {
    assert ProcessInv(y, act.p);
    JobDone(y, y.pcs[act.p].job);
  }

  lemma OperatorStep(y: Sys, act: Action)
    requires SysInv(y) && Guard(y, act) && act.OperatorClear?
    ensures TablesInv(Next(y, act))
  {
    if Core(y.pcs[act.p]).Inside? {
      var job := Core(y.pcs[act.p]).job;
      assert JobInv(y, job);
      if job.remaining == [] {
        JobDone(y, job);
      } else {
        OrderCovers(job.before, job.op);
      }
    }
  }

  /** Every other step leaves the tables, the log and the operation under way alone. */
  lemma QuietKeeps(y: Sys, act: Action)
    requires LockInv(y) && Guard(y, act)
    requires !act.Begin? && !act.Write? && !act.Finish? && !act.OperatorClear?
    ensures var y' := Next(y, act); y'.tables == y.tables && y'.log == y.log && InFlight(y') == InFlight(y)
  {
    assert act.p in y.pcs ==> ProcessInv(y, act.p);
  }

  lemma QuietStep(y: Sys, y': Sys)
    requires TablesInv(y) && y'.tables == y.tables && y'.log == y.log && InFlight(y') == InFlight(y)
    ensures TablesInv(y')
  {
  }

  lemma SysStep(y: Sys, act: Action)
    requires SysInv(y) && Guard(y, act)
    ensures SysInv(Next(y, act))
  {
    LockStep(y, act);
    TablesStep(y, act);
  }

  lemma TablesStep(y: Sys, act: Action)
    requires SysInv(y) && Guard(y, act)
    ensures TablesInv(Next(y, act))
  {
    if act.Begin? { BeginStep(y, act); }
    else if act.Write? { WriteStep(y, act); }
    else if act.Finish? { FinishStep(y, act); }
    else if act.OperatorClear? { OperatorStep(y, act); }
    else {
      QuietKeeps(y, act);
      QuietStep(y, Next(y, act));
    }
  }
}
