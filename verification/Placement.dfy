/** Thread budgets and task placement on a heterogeneous set of executors. */
module Placement {
  import opened Wrappers

  datatype ThreadBudget = ThreadBudget(cores: int, workers: int, threads: int)

  datatype Executor = Executor(cores: nat, memory: nat)

  // ---- thread budgets ----

  /** One thread at least, else an equal share of the cores. */
  function Budget(cores: int, workers: int): ThreadBudget
    requires cores >= 1 && workers >= 1
  {
    ThreadBudget(cores, workers, if cores / workers >= 1 then cores / workers else 1)
  }

  /** The scheduler puts at most this many tasks on an executor of `cores` cores. */
  function Workers(cores: int, taskCpus: int, planned: int): int
    requires taskCpus >= 1
  {
    if planned <= cores / taskCpus then planned else cores / taskCpus
  }

  /** The executor can host a task. */
  predicate Runnable(cores: int, taskCpus: int)
    requires taskCpus >= 1
  {
    cores / taskCpus >= 1
  }

  /** `t` threads per worker fit on every runnable executor, however the scheduler packs the workers. */
  predicate Fits(executors: seq<int>, taskCpus: int, planned: int, t: int)
    requires taskCpus >= 1
  {
    forall i :: 0 <= i < |executors| && Runnable(executors[i], taskCpus) ==>
      t * Workers(executors[i], taskCpus, planned) <= executors[i]
  }

  /** `best` threads fit, and no more do. */
  ghost predicate Greatest(executors: seq<int>, taskCpus: int, planned: int, best: int)
    requires taskCpus >= 1
  {
    forall t {:trigger Fits(executors, taskCpus, planned, t)} :: Fits(executors, taskCpus, planned, t) <==> t <= best
  }

  lemma Share(cores: int, workers: int, t: int)
    requires workers >= 1 && cores >= 0
    ensures t * workers <= cores <==> t <= cores / workers
  {
    var q := cores / workers;
    assert q * workers <= cores < (q + 1) * workers;
    if t <= q { Grow(t, q, workers); } else { Grow(q + 1, t, workers); }
  }

  lemma Grow(x: int, y: int, c: int)
    requires x <= y && c >= 0
    ensures x * c <= y * c
  {
  }

  /** An executor's packed workers get at least as many threads as a task has CPUs. */
  lemma ShareOfTask(cores: int, taskCpus: int, planned: int)
    requires taskCpus >= 1 && planned >= 1 && Runnable(cores, taskCpus)
    ensures 1 <= Workers(cores, taskCpus, planned) && taskCpus <= cores / Workers(cores, taskCpus, planned)
  {
    var w := Workers(cores, taskCpus, planned);
    Grow(w, cores / taskCpus, taskCpus);
    Share(cores, w, taskCpus);
  }

  /** The order in which the smallest candidate is chosen. */
  predicate NoLarger(a: ThreadBudget, b: ThreadBudget) {
    a.threads < b.threads
    || (a.threads == b.threads && (a.cores < b.cores || (a.cores == b.cores && a.workers <= b.workers)))
  }

  /** The budget of an executor of `cores` cores that can host a task: as many workers as are planned and have slots, an equal
      share of the cores for each. */
  predicate BudgetOf(cores: int, taskCpus: int, planned: int, b: ThreadBudget)
    requires taskCpus >= 1
  {
    && taskCpus <= cores && b.cores == cores && 1 <= b.workers <= planned && b.workers <= cores / taskCpus
    && (b.workers == planned || b.workers == cores / taskCpus) && b.threads == cores / b.workers
  }

  /** The budget is that of an executor, and no other has fewer threads, or as many on fewer cores. */
  ghost predicate LeastBudget(executors: seq<int>, taskCpus: int, planned: int, b: ThreadBudget)
    requires taskCpus >= 1
  {
    && (exists i :: 0 <= i < |executors| && BudgetOf(executors[i], taskCpus, planned, b))
    && forall i, other :: 0 <= i < |executors| && BudgetOf(executors[i], taskCpus, planned, other) ==>
         b.threads < other.threads || (b.threads == other.threads && b.cores <= other.cores)
  }

  lemma BudgetFound(cores: int, taskCpus: int, planned: int)
    requires taskCpus >= 1 && planned >= 1 && cores >= 1
    ensures Runnable(cores, taskCpus) <==> taskCpus <= cores
    ensures Runnable(cores, taskCpus) ==> Workers(cores, taskCpus, planned) >= 1
    ensures Runnable(cores, taskCpus) ==> forall b :: BudgetOf(cores, taskCpus, planned, b) <==> b == Budget(cores, Workers(cores, taskCpus, planned))
  {
    Share(cores, taskCpus, 1);
    if Runnable(cores, taskCpus) { ShareOfTask(cores, taskCpus, planned); }
  }

  /** One more executor leaves the smaller of its budget and the least so far. */
  lemma LeastOfMore(few: seq<int>, cores: int, taskCpus: int, planned: int, own: ThreadBudget, before: Option<ThreadBudget>,
                    after: Option<ThreadBudget>)
    requires taskCpus >= 1 && planned >= 1 && cores >= 1
    requires before.Some? ==> LeastBudget(few, taskCpus, planned, before.value)
    requires before.None? ==> forall k :: 0 <= k < |few| ==> taskCpus > few[k]
    requires taskCpus > cores ==> after == before
    requires taskCpus <= cores ==> BudgetOf(cores, taskCpus, planned, own)
    requires taskCpus <= cores ==> after == if before.None? || !NoLarger(before.value, own) then Some(own) else before
    ensures after.Some? ==> LeastBudget(few + [cores], taskCpus, planned, after.value)
  {
    if after.Some? {
      var more := few + [cores];
      BudgetFound(cores, taskCpus, planned);
      forall k | 0 <= k < |few| ensures more[k] == few[k] {}
      assert more[|few|] == cores;
      if before.Some? {
        var i :| 0 <= i < |few| && BudgetOf(few[i], taskCpus, planned, before.value);
        assert BudgetOf(more[i], taskCpus, planned, before.value);
      }
      assert exists i :: 0 <= i < |more| && BudgetOf(more[i], taskCpus, planned, after.value);
      forall i, other | 0 <= i < |more| && BudgetOf(more[i], taskCpus, planned, other)
        ensures after.value.threads < other.threads || (after.value.threads == other.threads && after.value.cores <= other.cores)
      {
        if i < |few| { assert BudgetOf(few[i], taskCpus, planned, other); }
      }
    }
  }

  /** `calculate_placement_safe_thread_budget`: the greatest thread count that fits everywhere. */
  method SafeThreadBudget(executors: seq<int>, taskCpus: int, planned: int) returns (r: Option<ThreadBudget>)
    ensures r.Some? <==>
      (taskCpus >= 1 && planned >= 1 && (forall i :: 0 <= i < |executors| ==> executors[i] >= 1)
       && exists i :: 0 <= i < |executors| && Runnable(executors[i], taskCpus))
    ensures r.Some? ==> r.value.threads >= taskCpus
    ensures r.Some? ==> Greatest(executors, taskCpus, planned, r.value.threads)
    ensures r.Some? ==> LeastBudget(executors, taskCpus, planned, r.value)
  {
    if taskCpus < 1 || planned < 1 { return None; }
    r := None;
    for i := 0 to |executors|
      invariant forall k :: 0 <= k < i ==> executors[k] >= 1
      invariant r.None? ==> forall k :: 0 <= k < i ==> !Runnable(executors[k], taskCpus)
      invariant r.Some? ==> exists k :: 0 <= k < i && Runnable(executors[k], taskCpus)
      invariant r.Some? ==> r.value.threads >= taskCpus
      invariant r.Some? ==> Greatest(executors[..i], taskCpus, planned, r.value.threads)
      invariant r.Some? ==> LeastBudget(executors[..i], taskCpus, planned, r.value)
    {
      var cores := executors[i];
      if cores < 1 { return None; }
      ghost var before := r;
      BudgetFound(cores, taskCpus, planned);
      if Runnable(cores, taskCpus) {
        ShareOfTask(cores, taskCpus, planned);
        var candidate := Budget(cores, Workers(cores, taskCpus, planned));
        if r.None? || !NoLarger(r.value, candidate) { r := Some(candidate); }
      }
      FitsOneMore(executors, i, taskCpus, planned, before, r);
      LeastOneMore(executors, i, taskCpus, planned, before, r);
    }
    assert executors[..|executors|] == executors;
  }

  lemma LeastOneMore(executors: seq<int>, i: nat, taskCpus: int, planned: int, before: Option<ThreadBudget>, after: Option<ThreadBudget>)
    requires taskCpus >= 1 && planned >= 1 && i < |executors| && forall k :: 0 <= k <= i ==> executors[k] >= 1
    requires before.None? ==> forall k :: 0 <= k < i ==> !Runnable(executors[k], taskCpus)
    requires before.Some? ==> LeastBudget(executors[..i], taskCpus, planned, before.value)
    requires !Runnable(executors[i], taskCpus) ==> after == before
    requires Runnable(executors[i], taskCpus) ==>
      && Workers(executors[i], taskCpus, planned) >= 1
      && var candidate := Budget(executors[i], Workers(executors[i], taskCpus, planned));
         after == if before.None? || !NoLarger(before.value, candidate) then Some(candidate) else before
    ensures after.Some? ==> LeastBudget(executors[..i + 1], taskCpus, planned, after.value)
  {
    forall k | 0 <= k <= i ensures Runnable(executors[k], taskCpus) <==> taskCpus <= executors[k] {
      BudgetFound(executors[k], taskCpus, planned);
    }
    BudgetFound(executors[i], taskCpus, planned);
    var own := if Runnable(executors[i], taskCpus) then Budget(executors[i], Workers(executors[i], taskCpus, planned))
               else ThreadBudget(0, 0, 0);
    assert executors[..i + 1] == executors[..i] + [executors[i]];
    LeastOfMore(executors[..i], executors[i], taskCpus, planned, own, before, after);
  }

  lemma FitsOneMore(executors: seq<int>, i: nat, taskCpus: int, planned: int, before: Option<ThreadBudget>, after: Option<ThreadBudget>)
    requires taskCpus >= 1 && planned >= 1 && i < |executors| && executors[i] >= 1
    requires before.None? ==> forall k :: 0 <= k < i ==> !Runnable(executors[k], taskCpus)
    requires before.Some? ==> Greatest(executors[..i], taskCpus, planned, before.value.threads)
    requires !Runnable(executors[i], taskCpus) ==> after == before
    requires Runnable(executors[i], taskCpus) ==>
      var w := Workers(executors[i], taskCpus, planned);
      && w >= 1 && executors[i] / w >= 1 && after.Some?
      && after.value.threads == if before.Some? && before.value.threads <= executors[i] / w then before.value.threads else executors[i] / w
    ensures after.Some? ==> Greatest(executors[..i + 1], taskCpus, planned, after.value.threads)
  {
    if after.Some? {
      var few, more := executors[..i], executors[..i + 1];
      forall t ensures Fits(more, taskCpus, planned, t) <==> t <= after.value.threads {
        assert more == few + [executors[i]];
        FitsSplit(few, executors[i], taskCpus, planned, t);
        if Runnable(executors[i], taskCpus) { Share(executors[i], Workers(executors[i], taskCpus, planned), t); }
      }
    }
  }

  lemma FitsSplit(few: seq<int>, cores: int, taskCpus: int, planned: int, t: int)
    requires taskCpus >= 1
    ensures Fits(few + [cores], taskCpus, planned, t) <==>
      Fits(few, taskCpus, planned, t) && (Runnable(cores, taskCpus) ==> t * Workers(cores, taskCpus, planned) <= cores)
    ensures (forall k :: 0 <= k < |few| ==> !Runnable(few[k], taskCpus)) ==> Fits(few, taskCpus, planned, t)
  {
    var more := few + [cores];
    assert more[|few|] == cores;
    assert forall k :: 0 <= k < |few| ==> more[k] == few[k];
  }

  // ---- task placement ----

  function Usable(memory: nat, headroom: real): real {
    memory as real * (1.0 - headroom)
  }

  function MemorySlots(memory: nat, headroom: real, rss: int): int
    requires rss >= 1
  {
    (Usable(memory, headroom) / rss as real).Floor
  }

  /** `n` tasks fit in an executor's usable memory. */
  predicate Holds(memory: nat, headroom: real, rss: int, n: int) {
    n as real * rss as real <= Usable(memory, headroom)
  }

  lemma SlotsAreMemory(memory: nat, headroom: real, rss: int, n: int)
    requires rss >= 1
    ensures n <= MemorySlots(memory, headroom, rss) <==> Holds(memory, headroom, rss, n)
  {
    var usable, size := Usable(memory, headroom), rss as real;
    var ratio := usable / size;
    assert ratio * size == usable;
    if n as real <= ratio { GrowReal(n as real, ratio, size); } else { GrowStrictly(ratio, n as real, size); }
  }

  lemma GrowReal(x: real, y: real, c: real)
    requires x <= y && c >= 0.0
    ensures x * c <= y * c
  {
  }

  lemma GrowStrictly(x: real, y: real, c: real)
    requires x < y && c > 0.0
    ensures x * c < y * c
  {
  }

  function Slots(executors: seq<Executor>, taskCpus: int): int
    requires taskCpus >= 1
  {
    if executors == [] then 0
    else Slots(executors[..|executors| - 1], taskCpus) + executors[|executors| - 1].cores / taskCpus
  }

  function Sum(counts: seq<int>): int {
    if counts == [] then 0 else Sum(counts[..|counts| - 1]) + counts[|counts| - 1]
  }

  /** Whatever the scheduler does within an executor's core ceiling fits the executor's memory, and it can run a task. */
  predicate Safe(e: Executor, taskCpus: int, headroom: real, rss: int)
    requires taskCpus >= 1
  {
    e.cores / taskCpus >= 1 && forall n :: 0 <= n <= e.cores / taskCpus ==> Holds(e.memory, headroom, rss, n)
  }

  predicate Sane(taskCpus: int, headroom: real, rss: int) {
    taskCpus >= 1 && 0.0 <= headroom < 1.0 && rss >= 1
  }

  /** The core ceiling decides: fewer tasks need less memory. */
  lemma CeilingDecides(e: Executor, taskCpus: int, headroom: real, rss: int)
    requires Sane(taskCpus, headroom, rss)
    ensures Safe(e, taskCpus, headroom, rss) <==> 1 <= e.cores / taskCpus <= MemorySlots(e.memory, headroom, rss)
  {
    var ceiling := e.cores / taskCpus;
    SlotsAreMemory(e.memory, headroom, rss, ceiling);
    if ceiling <= MemorySlots(e.memory, headroom, rss) {
      forall n | 0 <= n <= ceiling ensures Holds(e.memory, headroom, rss, n) {
        SlotsAreMemory(e.memory, headroom, rss, n);
      }
    }
  }

  /** `assert_executor_placement_safe`: accepts exactly the inventories on which every placement the scheduler may make
      fits, and returns each executor's ceiling. */
  method PlacementSafe(executors: seq<Executor>, taskCpus: int, headroom: real, rss: int) returns (r: Option<seq<int>>)
    ensures r.Some? ==> Sane(taskCpus, headroom, rss)
    ensures Sane(taskCpus, headroom, rss) ==>
      (r.Some? <==> executors != [] && forall i :: 0 <= i < |executors| ==> Safe(executors[i], taskCpus, headroom, rss))
    ensures r.Some? ==> |r.value| == |executors| && forall i :: 0 <= i < |executors| ==> r.value[i] == executors[i].cores / taskCpus
  {
    if taskCpus < 1 || executors == [] || !(0.0 <= headroom < 1.0) || rss < 1 { return None; }
    var counts: seq<int> := [];
    var unsafe := false;
    for i := 0 to |executors|
      invariant |counts| == i
      invariant unsafe <==> exists k :: 0 <= k < i && !Safe(executors[k], taskCpus, headroom, rss)
      invariant !unsafe ==> forall k :: 0 <= k < i ==> counts[k] == executors[k].cores / taskCpus
    {
      var ceiling, memory := executors[i].cores / taskCpus, MemorySlots(executors[i].memory, headroom, rss);
      CeilingDecides(executors[i], taskCpus, headroom, rss);
      if ceiling < 1 { return None; }
      if memory < 1 { return None; }
      if ceiling > memory { unsafe := true; }
      counts := counts + [if ceiling <= memory then ceiling else memory];
    }
    if unsafe { return None; }
    r := Some(counts);
  }

  lemma {:induction false} SlotsAreCeilings(executors: seq<Executor>, taskCpus: int, counts: seq<int>)
    requires taskCpus >= 1 && |counts| == |executors|
    requires forall i :: 0 <= i < |executors| ==> counts[i] == executors[i].cores / taskCpus
    ensures Slots(executors, taskCpus) == Sum(counts)
    ensures (forall i :: 0 <= i < |counts| ==> counts[i] >= 1) ==> Sum(counts) >= |counts|
  {
    if executors != [] {
      var n := |executors| - 1;
      SlotsAreCeilings(executors[..n], taskCpus, counts[..n]);
    }
  }

  /** The smallest memory of the inventory, as the coarse global cap uses it. */
  function LeastMemory(executors: seq<Executor>): (m: nat)
    requires executors != []
    ensures forall i :: 0 <= i < |executors| ==> m <= executors[i].memory
    ensures exists i :: 0 <= i < |executors| && m == executors[i].memory
  {
    var n := |executors| - 1;
    if n == 0 then executors[0].memory
    else
      var rest := LeastMemory(executors[..n]);
      if executors[n].memory < rest then executors[n].memory else rest
  }

  datatype Width = Width(slots: int, memoryCap: Option<int>, planned: int, perExecutor: seq<int>)

  /** `plan_task_width`: the least of the slots, the memory cap and the operator's cap.  With a measured size the planned
      count is at most what the executors can safely hold together, and is never refused for being zero. */
  method PlanTaskWidth(executors: seq<Executor>, taskCpus: int, operatorCap: Option<int>, rss: Option<int>, headroom: real)
    returns (r: Option<Width>)
    // accepted exactly when there is something to run, no cap is below one, and, where a size was measured, every permitted
    // placement is safe
    ensures r.Some? <==>
      && taskCpus >= 1 && executors != [] && (operatorCap.Some? ==> operatorCap.value >= 1)
      && (rss.None? ==> Slots(executors, taskCpus) >= 1)
      && (rss.Some? ==>
            && Sane(taskCpus, headroom, rss.value)
            && forall i :: 0 <= i < |executors| ==> Safe(executors[i], taskCpus, headroom, rss.value))
    ensures r.Some? ==>
      && r.value.slots == Slots(executors, taskCpus) && r.value.memoryCap.Some? == rss.Some?
      && 1 <= r.value.planned <= r.value.slots
      && (r.value.memoryCap.Some? ==> r.value.planned <= r.value.memoryCap.value)
      && (operatorCap.Some? ==> r.value.planned <= operatorCap.value)
      && (r.value.planned == r.value.slots || Some(r.value.planned) == r.value.memoryCap || Some(r.value.planned) == operatorCap)
    // with a measured size the planned tasks fit together, and the cap is the smallest memory's share for every executor
    ensures r.Some? && rss.Some? ==>
      && r.value.planned <= Sum(r.value.perExecutor)
      && |r.value.perExecutor| == |executors|
      && (forall i :: 0 <= i < |executors| ==> Holds(executors[i].memory, headroom, rss.value, r.value.perExecutor[i]))
      && r.value.memoryCap == Some(MemorySlots(LeastMemory(executors), headroom, rss.value) * |executors|)
  {
    if taskCpus < 1 || executors == [] { return None; }
    var slots := Slots(executors, taskCpus);
    var planned, memoryCap, perExecutor := slots, None, [];
    if rss.Some? {
      var safe := PlacementSafe(executors, taskCpus, headroom, rss.value);
      if safe.None? { return None; }
      perExecutor := safe.value;
      SlotsAreCeilings(executors, taskCpus, perExecutor);
      var each := MemorySlots(LeastMemory(executors), headroom, rss.value);
      SmallestHoldsOne(executors, taskCpus, headroom, rss.value);
      assert each >= 1;  // the coarse cap never refuses what the placement check accepted
      memoryCap := Some(each * |executors|);
      CapIsPositive(each, |executors|);
      if memoryCap.value < planned { planned := memoryCap.value; }
    }
    if operatorCap.Some? {
      if operatorCap.value < 1 { return None; }
      if operatorCap.value < planned { planned := operatorCap.value; }
    }
    if planned < 1 { return None; }
    r := Some(Width(slots, memoryCap, planned, perExecutor));
  }

  lemma CapIsPositive(each: int, n: int)
    requires each >= 1 && n >= 1
    ensures each * n >= 1
  {
  }

  lemma SmallestHoldsOne(executors: seq<Executor>, taskCpus: int, headroom: real, rss: int)
    requires executors != [] && Sane(taskCpus, headroom, rss)
    requires forall i :: 0 <= i < |executors| ==> Safe(executors[i], taskCpus, headroom, rss)
    ensures MemorySlots(LeastMemory(executors), headroom, rss) >= 1
  {
    var i :| 0 <= i < |executors| && LeastMemory(executors) == executors[i].memory;
    assert Safe(executors[i], taskCpus, headroom, rss) && Holds(executors[i].memory, headroom, rss, 1);
    SlotsAreMemory(executors[i].memory, headroom, rss, 1);
  }
}
