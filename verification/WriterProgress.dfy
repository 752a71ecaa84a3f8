/** A writer that nobody is in the way of does its whole operation and gives the lock back. */
module WriterProgress {
  import opened Wrappers
  import opened Ordering
  import opened ControlTables
  import opened ControlSpec
  import opened ControlRuns
  import opened WriterSystem

  /** The actions can be taken one after another from `y`, all by process `p`, and end in `y'`. */
  ghost predicate Leads(y: Sys, p: Token, acts: seq<Action>, y': Sys)
    decreases |acts|
  {
    if acts == [] then y' == y
    else
      var n := |acts| - 1;
      acts[n].p == p && exists y1 :: Leads(y, p, acts[..n], y1) && Guard(y1, acts[n]) && y' == Next(y1, acts[n])
  }

  lemma OneMore(y: Sys, p: Token, acts: seq<Action>, y1: Sys, act: Action)
    requires Leads(y, p, acts, y1) && act.p == p && Guard(y1, act)
    ensures Leads(y, p, acts + [act], Next(y1, act))
  {
    assert (acts + [act])[..|acts|] == acts;
  }

  /** System `y` with process `p` at `pc` and its lock, tables and log as given. */
  function With(y: Sys, p: Token, pc: Pc, lock: Lock, tables: Tables, log: seq<Op>): Sys {
    Sys(lock, y.pcs[p := pc], tables, log)
  }

  lemma Moved(y: Sys, p: Token, a: Pc, b: Pc)
    ensures y.pcs[p := a][p := b] == y.pcs[p := b]
  {
  }

  /** A new process finds the lock free, claims it, and is let in. */
  lemma Acquires(y: Sys, p: Token, now: int) returns (acts: seq<Action>)
    requires y.lock == Lock(None, None) && p !in y.pcs
    ensures Leads(y, p, acts, With(y, p, Entered, Lock(Some(p), Some(now)), y.tables, y.log))
  {
    var mine := Lock(Some(p), Some(now));
    var y0 := With(y, p, FirstRead, y.lock, y.tables, y.log);
    var y1 := With(y, p, Loop(None), y.lock, y.tables, y.log);
    var y2 := With(y, p, Claiming, y.lock, y.tables, y.log);
    var y3 := With(y, p, AfterClaim, mine, y.tables, y.log);
    var y4 := With(y, p, Check(Some(p)), mine, y.tables, y.log);
    assert Next(y, Start(p)) == y0;
    Moved(y, p, FirstRead, Loop(None));
    assert Next(y0, Read(p)) == y1;
    Moved(y, p, Loop(None), Claiming);
    assert Next(y1, Proceed(p)) == y2;
    Moved(y, p, Claiming, AfterClaim);
    assert Next(y2, Cas(p, now)) == y3;
    Moved(y, p, AfterClaim, Check(Some(p)));
    assert Next(y3, Read(p)) == y4;
    Moved(y, p, Check(Some(p)), Entered);
    assert Leads(y, p, [], y);
    OneMore(y, p, [], y, Start(p));
    OneMore(y, p, [] + [Start(p)], y0, Read(p));
    OneMore(y, p, [] + [Start(p)] + [Read(p)], y1, Proceed(p));
    OneMore(y, p, [] + [Start(p)] + [Read(p)] + [Proceed(p)], y2, Cas(p, now));
    OneMore(y, p, [] + [Start(p)] + [Read(p)] + [Proceed(p)] + [Cas(p, now)], y3, Read(p));
    acts := [] + [Start(p)] + [Read(p)] + [Proceed(p)] + [Cas(p, now)] + [Read(p)];
    OneMore(y, p, acts, y4, Decide(p));
    acts := acts + [Decide(p)];
  }

  /** Once inside, it replaces its tables one after another until they are those of the operation. */
  lemma {:induction false} WritesAll(y: Sys, p: Token, before: seq<Action>, op: Op, start: Tables, goal: Tables, remaining: seq<Table>,
                                     lock: Lock, log: seq<Op>)
    returns (acts: seq<Action>)
    requires Distinct(remaining)
    requires Leads(y, p, before, With(y, p, Inside(Job(op, start, goal, remaining)), lock, Mixed(start, goal, remaining), log))
    ensures Leads(y, p, acts, With(y, p, Inside(Job(op, start, goal, [])), lock, Mixed(start, goal, []), log))
    decreases |remaining|
  {
    if remaining == [] {
      acts := before;
    } else {
      var job := Job(op, start, goal, remaining);
      var y1 := With(y, p, Inside(job), lock, Mixed(start, goal, remaining), log);
      MixedWrite(start, goal, remaining);
      Moved(y, p, Inside(job), Inside(job.(remaining := remaining[1..])));
      assert Next(y1, Write(p)) ==
             With(y, p, Inside(Job(op, start, goal, remaining[1..])), lock, Mixed(start, goal, remaining[1..]), log);
      OneMore(y, p, before, y1, Write(p));
      acts := WritesAll(y, p, before + [Write(p)], op, start, goal, remaining[1..], lock, log);
    }
  }

  /** Having written everything, it sees that it is still the owner. */
  lemma Finishes(y: Sys, p: Token, before: seq<Action>, job: Job, now: int, tables: Tables, log: seq<Op>) returns (acts: seq<Action>)
    requires job.remaining == [] && Leads(y, p, before, With(y, p, Inside(job), Lock(Some(p), Some(now)), tables, log))
    ensures Leads(y, p, acts, With(y, p, Clearing, Lock(Some(p), Some(now)), tables, log))
  {
    var mine := Lock(Some(p), Some(now));
    var y0 := With(y, p, Inside(job), mine, tables, log);
    var y1 := With(y, p, ReleaseCheck, mine, tables, log);
    Moved(y, p, Inside(job), ReleaseCheck);
    assert Next(y0, Finish(p)) == y1;
    Moved(y, p, ReleaseCheck, Clearing);
    OneMore(y, p, before, y0, Finish(p));
    OneMore(y, p, before + [Finish(p)], y1, CheckRelease(p));
    acts := before + [Finish(p)] + [CheckRelease(p)];
  }

  /** It clears the lock, sees that it is no longer the owner, and is done. */
  lemma GivesBack(y: Sys, p: Token, before: seq<Action>, now: int, tables: Tables, log: seq<Op>) returns (acts: seq<Action>)
    requires Leads(y, p, before, With(y, p, Clearing, Lock(Some(p), Some(now)), tables, log))
    ensures Leads(y, p, acts, With(y, p, Done, Lock(None, None), tables, log))
  {
    var y2 := With(y, p, Clearing, Lock(Some(p), Some(now)), tables, log);
    var y3 := With(y, p, Verifying, Lock(None, None), tables, log);
    Moved(y, p, Clearing, Verifying);
    assert Next(y2, Clear(p)) == y3;
    Moved(y, p, Verifying, Done);
    OneMore(y, p, before, y2, Clear(p));
    OneMore(y, p, before + [Clear(p)], y3, Verify(p));
    acts := before + [Clear(p)] + [Verify(p)];
  }

  /** A new writer that finds the lock free and is left alone carries out its whole operation, is logged, and leaves the lock
      free; one whose operation raises stops with the lock held and has changed nothing else. */
  lemma UncontendedWriter(y: Sys, p: Token, op: Op, now: int) returns (acts: seq<Action>)
    requires y.lock == Lock(None, None) && p !in y.pcs && Enabled(y.tables, op)
    ensures !Raises(y.tables, op) ==>
      Leads(y, p, acts, Sys(Lock(None, None), y.pcs[p := Done], Apply(y.tables, op), y.log + [op]))
    ensures Raises(y.tables, op) ==>
      Leads(y, p, acts, Sys(Lock(Some(p), Some(now)), y.pcs[p := Stopped(Entered)], y.tables, y.log))
  {
    var mine := Lock(Some(p), Some(now));
    acts := Acquires(y, p, now);
    var y1 := With(y, p, Entered, mine, y.tables, y.log);
    OneMore(y, p, acts, y1, Begin(p, op));
    acts := acts + [Begin(p, op)];
    if Raises(y.tables, op) {
      Moved(y, p, Entered, Stopped(Entered));
    } else {
      var goal, order := Apply(y.tables, op), WriteOrder(op);
      Moved(y, p, Entered, Inside(Job(op, y.tables, goal, order)));
      OrderCovers(y.tables, op);
      WriteOrderDistinct(op);
      acts := WritesAll(y, p, acts, op, y.tables, goal, order, mine, y.log + [op]);
      assert Mixed(y.tables, goal, []) == goal;
      acts := Finishes(y, p, acts, Job(op, y.tables, goal, []), now, goal, y.log + [op]);
      acts := GivesBack(y, p, acts, now, goal, y.log + [op]);
    }
  }
}
