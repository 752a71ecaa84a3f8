/** `plan_largest_cost_first`: whole videos are given, longest first, to the least-loaded partition.

    Durations are real numbers; the source's floating-point rounding is not modelled. */
module PartitionPlanner {
  import opened Wrappers
  import opened LoadBalance
  import opened Ordering

  /** A row's duration or work id may be missing or unusable. */
  datatype Row = Row(duration: Option<real>, work: Option<nat>, payload: string)

  datatype PlanError = BadConcurrency | BadRow

  predicate Usable(row: Row) {
    row.duration.Some? && row.duration.value > 0.0 && row.work.Some?
  }

  function Cost(row: Row): real {
    if row.duration.Some? then row.duration.value else 0.0
  }

  /** Longest first, then by work id. */
  predicate Before(x: Row, y: Row) {
    Cost(x) > Cost(y) || (Cost(x) == Cost(y) && x.work.Some? && y.work.Some? && x.work.value <= y.work.value)
  }

  predicate Sorted(rows: seq<Row>) {
    forall i, j :: 0 <= i < j < |rows| ==> Before(rows[i], rows[j])
  }

  function Costs(rows: seq<Row>): (p: seq<real>)
    ensures |p| == |rows| && forall j :: 0 <= j < |p| ==> p[j] == Cost(rows[j])
  {
    seq(|rows|, j requires 0 <= j < |rows| => Cost(rows[j]))
  }

  function Flat(parts: seq<seq<Row>>): seq<Row> {
    if parts == [] then [] else Flat(parts[..|parts| - 1]) + parts[|parts| - 1]
  }

  function PartCost(part: seq<Row>): real {
    if part == [] then 0.0 else PartCost(part[..|part| - 1]) + Cost(part[|part| - 1])
  }

  /** The rows of `ordered[..n]` that the assignment gives to partition `k`. */
  function Part(ordered: seq<Row>, a: seq<nat>, k: nat, n: nat): seq<Row>
    requires n <= |ordered| && n <= |a|
  {
    if n == 0 then [] else Part(ordered, a, k, n - 1) + if a[n - 1] == k then [ordered[n - 1]] else []
  }

  /** `parts` shares out exactly `rows`. */
  ghost predicate Shares(parts: seq<seq<Row>>, rows: seq<Row>) {
    multiset(Flat(parts)) == multiset(rows)
  }

  /** What a part costs is the seconds of its rows added up. */
  lemma {:induction false} CostIsSeconds(part: seq<Row>, seconds: seq<real>)
    requires |seconds| == |part| && forall i :: 0 <= i < |part| ==> part[i].duration == Some(seconds[i])
    ensures PartCost(part) == Total(seconds, |part|)
  {
    if part != [] {
      var n := |part| - 1;
      CostIsSeconds(part[..n], seconds[..n]);
      SameTotal(seconds[..n], seconds, n);
    }
  }

  lemma {:induction false} SameTotal(p: seq<real>, q: seq<real>, n: nat)
    requires n <= |p| && n <= |q| && forall i :: 0 <= i < n ==> p[i] == q[i]
    ensures Total(p, n) == Total(q, n)
  {
    if n > 0 { SameTotal(p, q, n - 1); }
  }

  // ---- sorting ----

  method InsertRow(rows: seq<Row>, row: Row) returns (out: seq<Row>)
    requires Sorted(rows) && Usable(row) && forall i :: 0 <= i < |rows| ==> Usable(rows[i])
    ensures Sorted(out) && multiset(out) == multiset(rows) + multiset{row}
    ensures forall i :: 0 <= i < |out| ==> Usable(out[i])
  {
    var i := 0;
    while i < |rows| && Before(rows[i], row)
      invariant 0 <= i <= |rows|
      invariant forall k :: 0 <= k < i ==> Before(rows[k], row)
    {
      i := i + 1;
    }
    out := rows[..i] + [row] + rows[i..];
    InsertOne(rows, i, row);
    forall k | i <= k < |rows| ensures Before(row, rows[k]) {
      if i < k { assert Before(rows[i], rows[k]); }
    }
  }

  /** None is the rejected row. */
  method SortRows(rows: seq<Row>) returns (r: Option<seq<Row>>)
    ensures r.None? <==> exists i :: 0 <= i < |rows| && !Usable(rows[i])
    ensures r.Some? ==> Sorted(r.value) && multiset(r.value) == multiset(rows) && forall i :: 0 <= i < |r.value| ==> Usable(r.value[i])
  {
    var ordered: seq<Row> := [];
    for i := 0 to |rows|
      invariant Sorted(ordered) && multiset(ordered) == multiset(rows[..i])
      invariant forall k :: 0 <= k < i ==> Usable(rows[k])
      invariant forall k :: 0 <= k < |ordered| ==> Usable(ordered[k])
    {
      if !Usable(rows[i]) { return None; }
      ordered := InsertRow(ordered, rows[i]);
      assert rows[..i + 1] == rows[..i] + [rows[i]];
      TakeOne(rows, i);
    }
    assert rows[..|rows|] == rows;
    r := Some(ordered);
  }

  // ---- placing ----

  /** The parts are those of a greedy assignment: each holds, in order, the rows assigned to it. */
  ghost predicate Follows(ordered: seq<Row>, parts: seq<seq<Row>>, a: seq<nat>) {
    && Greedy(Costs(ordered), a, |parts|)
    && forall k: nat :: k < |parts| ==> parts[k] == Part(ordered, a, k, |ordered|)
  }

  /** Each row goes to the least-loaded partition, the first such, in the given order. */
  method Place(ordered: seq<Row>, m: nat) returns (parts: seq<seq<Row>>)
    requires m > 0
    ensures |parts| == m && exists a :: Follows(ordered, parts, a)
  {
    parts := seq(m, _ => []);
    ghost var a: seq<nat> := [];
    var costs := seq(m, _ => 0.0);
    ghost var p := Costs(ordered);
    for n := 0 to |ordered|
      invariant |parts| == |costs| == m && |a| == n
      invariant forall j :: 0 <= j < n ==> a[j] < m
      invariant forall j {:trigger LeastLoaded(p[..n], a, m, j)} :: 0 <= j < n ==> LeastLoaded(p[..n], a, m, j)
      invariant forall k: nat :: k < m ==> costs[k] == Load(p, a, k, n) && parts[k] == Part(ordered, a, k, n)
    {
      var least := IndexOfLeast(costs);
      ghost var a' := a + [least];
      ghost var q := p[..n + 1];
      forall j | 0 <= j < n + 1 ensures LeastLoaded(q, a', m, j) {
        StillLeast(p, a, a', m, j, least, costs);
      }
      forall k: nat | k < m ensures Load(p, a', k, n) == Load(p, a, k, n) && Part(ordered, a', k, n) == Part(ordered, a, k, n) {
        LoadPrefix(p, p, a, a', k, n);
        PartPrefix(ordered, a, a', k, n);
      }
      parts := parts[least := parts[least] + [ordered[n]]];
      costs := costs[least := costs[least] + Cost(ordered[n])];
      a := a';
    }
    assert p[..|ordered|] == p;
    assert Follows(ordered, parts, a);
  }

  lemma {:induction false} PartPrefix(ordered: seq<Row>, a: seq<nat>, b: seq<nat>, k: nat, n: nat)
    requires n <= |ordered| && n <= |a| <= |b| && a == b[..|a|]
    ensures Part(ordered, a, k, n) == Part(ordered, b, k, n)
  {
    if n > 0 { PartPrefix(ordered, a, b, k, n - 1); }
  }

  // ---- what the parts hold ----

  lemma {:induction false} PartCosts(ordered: seq<Row>, a: seq<nat>, k: nat, n: nat)
    requires n <= |ordered| == |a|
    ensures PartCost(Part(ordered, a, k, n)) == Load(Costs(ordered), a, k, n)
  {
    if n > 0 {
      PartCosts(ordered, a, k, n - 1);
      var before, after := Part(ordered, a, k, n - 1), Part(ordered, a, k, n);
      if a[n - 1] == k { assert after[..|after| - 1] == before; } else { assert after == before; }
    }
  }

  ghost function Times(rows: seq<Row>, x: Row): nat {
    if rows == [] then 0 else Times(rows[..|rows| - 1], x) + if rows[|rows| - 1] == x then 1 else 0
  }

  lemma {:induction false} TimesOf(rows: seq<Row>, x: Row)
    ensures Times(rows, x) == multiset(rows)[x]
  {
    if rows != [] {
      TimesOf(rows[..|rows| - 1], x);
      assert rows == rows[..|rows| - 1] + [rows[|rows| - 1]];
    }
  }

  lemma {:induction false} TimesAppend(xs: seq<Row>, ys: seq<Row>, x: Row)
    ensures Times(xs + ys, x) == Times(xs, x) + Times(ys, x)
  {
    if ys == [] {
      assert xs + ys == xs;
    } else {
      assert (xs + ys)[..|xs + ys| - 1] == xs + ys[..|ys| - 1];
      TimesAppend(xs, ys[..|ys| - 1], x);
    }
  }

  /** How often row `x` is among the rows of `ordered[..n]` that go to partition `k`. */
  ghost function Picked(ordered: seq<Row>, a: seq<nat>, k: nat, n: nat, x: Row): nat
    requires n <= |ordered| && n <= |a|
  {
    if n == 0 then 0 else Picked(ordered, a, k, n - 1, x) + if a[n - 1] == k && ordered[n - 1] == x then 1 else 0
  }

  /** How often row `x` occurs in the first `m` parts. */
  ghost function Held(ordered: seq<Row>, a: seq<nat>, m: nat, n: nat, x: Row): nat
    requires n <= |ordered| && n <= |a|
  {
    if m == 0 then 0 else Held(ordered, a, m - 1, n, x) + Picked(ordered, a, m - 1, n, x)
  }

  lemma {:induction false} PartsConserve(ordered: seq<Row>, a: seq<nat>, m: nat, n: nat, x: Row)
    requires n <= |ordered| == |a| && forall j :: 0 <= j < |a| ==> a[j] < m
    ensures Held(ordered, a, m, n, x) == Times(ordered[..n], x)
  {
    if n == 0 {
      NothingYet(ordered, a, m, x);
    } else {
      PartsConserve(ordered, a, m, n - 1, x);
      OneMoreRow(ordered, a, m, n - 1, x);
      assert ordered[..n][..n - 1] == ordered[..n - 1];
    }
  }

  lemma {:induction false} NothingYet(ordered: seq<Row>, a: seq<nat>, m: nat, x: Row)
    ensures Held(ordered, a, m, 0, x) == 0
  {
    if m > 0 { NothingYet(ordered, a, m - 1, x); }
  }

  lemma {:induction false} OneMoreRow(ordered: seq<Row>, a: seq<nat>, m: nat, n: nat, x: Row)
    requires n < |ordered| == |a|
    ensures Held(ordered, a, m, n + 1, x) == Held(ordered, a, m, n, x) + if a[n] < m && ordered[n] == x then 1 else 0
  {
    if m > 0 {
      OneMoreRow(ordered, a, m - 1, n, x);
    }
  }

  lemma {:induction false} PickedIsPart(ordered: seq<Row>, a: seq<nat>, k: nat, n: nat, x: Row)
    requires n <= |ordered| == |a|
    ensures Picked(ordered, a, k, n, x) == Times(Part(ordered, a, k, n), x)
  {
    if n > 0 {
      PickedIsPart(ordered, a, k, n - 1, x);
      var before, after := Part(ordered, a, k, n - 1), Part(ordered, a, k, n);
      if a[n - 1] == k { assert after[..|before|] == before; } else { assert after == before; }
    }
  }

  lemma {:induction false} FlatHolds(parts: seq<seq<Row>>, ordered: seq<Row>, a: seq<nat>, m: nat, x: Row)
    requires |a| == |ordered| && |parts| == m && forall k: nat :: k < m ==> parts[k] == Part(ordered, a, k, |ordered|)
    ensures Times(Flat(parts), x) == Held(ordered, a, m, |ordered|, x)
  {
    if m > 0 {
      FlatHolds(parts[..m - 1], ordered, a, m - 1, x);
      TimesAppend(Flat(parts[..m - 1]), parts[m - 1], x);
      PickedIsPart(ordered, a, m - 1, |ordered|, x);
    }
  }

  // ---- any other sharing out is an assignment ----

  /** Any way of sharing out the rows costs what some assignment of them costs. */
  lemma {:induction false} SharingIsAssignment(parts: seq<seq<Row>>, ordered: seq<Row>) returns (b: seq<nat>)
    requires Shares(parts, ordered)
    ensures |b| == |ordered| && forall j :: 0 <= j < |b| ==> b[j] < |parts|
    ensures forall k: nat :: k < |parts| ==> PartCost(parts[k]) == Load(Costs(ordered), b, k, |ordered|)
    decreases |ordered|
  {
    if ordered == [] {
      b := [];
      NoRows(parts);
    } else {
      var n := |ordered| - 1;
      var k, i, fewer := WithoutLast(parts, ordered);
      var b' := SharingIsAssignment(fewer, ordered[..n]);
      b := b' + [k];
      forall x: nat | x < |parts| ensures PartCost(parts[x]) == Load(Costs(ordered), b, x, |ordered|) {
        OneMoreLoad(ordered, b', k, x);
      }
    }
  }

  /** Taking the last row out of the part that has it. */
  lemma WithoutLast(parts: seq<seq<Row>>, ordered: seq<Row>) returns (k: nat, i: nat, fewer: seq<seq<Row>>)
    requires Shares(parts, ordered) && ordered != []
    ensures k < |parts| == |fewer| && Shares(fewer, ordered[..|ordered| - 1])
    ensures forall x :: 0 <= x < |parts| ==>
      PartCost(parts[x]) == PartCost(fewer[x]) + if x == k then Cost(ordered[|ordered| - 1]) else 0.0
  {
    var n := |ordered| - 1;
    var last := ordered[n];
    assert ordered == ordered[..n] + [last];
    TakeOne(ordered, n);
    k, i := FindRow(parts, last);
    fewer := parts[k := parts[k][..i] + parts[k][i + 1..]];
    RemoveRow(parts, k, i);
    CancelOne(multiset(Flat(fewer)), multiset(ordered[..n]), last);
    CostWithout(parts[k], i);
  }

  lemma OneMoreLoad(ordered: seq<Row>, b: seq<nat>, k: nat, x: nat)
    requires |ordered| == |b| + 1
    ensures Load(Costs(ordered), b + [k], x, |ordered|)
            == Load(Costs(ordered[..|b|]), b, x, |b|) + if x == k then Cost(ordered[|b|]) else 0.0
  {
    LoadPrefix(Costs(ordered), Costs(ordered[..|b|]), b + [k], b, x, |b|);
  }

  lemma {:induction false} NoRows(parts: seq<seq<Row>>)
    requires multiset(Flat(parts)) == multiset{}
    ensures forall k :: 0 <= k < |parts| ==> parts[k] == []
  {
    if parts != [] {
      var n := |parts| - 1;
      var flat := Flat(parts);
      assert |multiset(flat)| == |flat|;
      NoRows(parts[..n]);
    }
  }

  lemma {:induction false} FindRow(parts: seq<seq<Row>>, row: Row) returns (k: nat, i: nat)
    requires row in multiset(Flat(parts))
    ensures k < |parts| && i < |parts[k]| && parts[k][i] == row
  {
    var n := |parts| - 1;
    if row in parts[n] {
      k := n;
      i :| 0 <= i < |parts[n]| && parts[n][i] == row;
    } else {
      assert row in Flat(parts);
      k, i := FindRow(parts[..n], row);
    }
  }

  lemma {:induction false} RemoveRow(parts: seq<seq<Row>>, k: nat, i: nat)
    requires k < |parts| && i < |parts[k]|
    ensures multiset(Flat(parts)) == multiset(Flat(parts[k := parts[k][..i] + parts[k][i + 1..]])) + multiset{parts[k][i]}
  {
    var n := |parts| - 1;
    var rest := parts[k][..i] + parts[k][i + 1..];
    var fewer := parts[k := rest];
    var held := multiset(Flat(fewer[..n]));
    if k == n {
      RemoveOne(parts[k], i);
      assert fewer[..n] == parts[..n];
      AddOne(held, multiset(rest), parts[k][i]);
    } else {
      RemoveRow(parts[..n], k, i);
      assert fewer[..n] == parts[..n][k := rest];
      AddOne(held, multiset(parts[n]), parts[k][i]);
    }
  }

  lemma {:induction false} CostWithout(part: seq<Row>, i: nat)
    requires i < |part|
    ensures PartCost(part) == PartCost(part[..i] + part[i + 1..]) + Cost(part[i])
  {
    var n := |part| - 1;
    var rest := part[..i] + part[i + 1..];
    if i == n {
      assert rest == part[..n];
    } else {
      CostWithout(part[..n], i);
      assert rest[..|rest| - 1] == part[..n][..i] + part[..n][i + 1..];
      assert rest[|rest| - 1] == part[n];
    }
  }

  // ---- the planner ----

  /** The cost of the dearest part. */
  function Dearest(parts: seq<seq<Row>>): (c: real)
    ensures forall k :: 0 <= k < |parts| ==> PartCost(parts[k]) <= c
    ensures parts != [] ==> exists k :: 0 <= k < |parts| && PartCost(parts[k]) == c
  {
    if parts == [] then 0.0
    else
      var n := |parts| - 1;
      var rest := Dearest(parts[..n]);
      assert forall k :: 0 <= k < n ==> parts[..n][k] == parts[k];
      if n == 0 || PartCost(parts[n]) > rest then PartCost(parts[n]) else rest
  }

  /** The longest duration, or 0 if there is none longer. */
  function Longest(rows: seq<Row>): (c: real)
    ensures c >= 0.0 && forall row :: row in rows ==> Cost(row) <= c
  {
    if rows == [] then 0.0
    else
      var n := |rows| - 1;
      var rest := Longest(rows[..n]);
      assert forall row :: row in rows ==> row in rows[..n] || row == rows[n];
      if Cost(rows[n]) > rest then Cost(rows[n]) else rest
  }

  /** The dearest part costs at most `4/3 - 1/(3m)` times the dearest part of any other sharing-out of the same rows into
      as many parts. */
  ghost predicate NearBest(parts: seq<seq<Row>>, rows: seq<Row>) {
    forall others {:trigger Shares(others, rows)} :: Shares(others, rows) && |others| == |parts| ==>
      WithinFourThirds(|parts|, Dearest(parts), Dearest(others))
  }

  /** `m` times the dearest part's cost is at most the total and `m - 1` times the longest row. */
  predicate WithinListBound(parts: seq<seq<Row>>, rows: seq<Row>) {
    WithinShare(|parts|, Dearest(parts), PartCost(rows), Longest(rows))
  }

  method PlanLargestCostFirst(rows: seq<Row>, concurrency: int) returns (r: Result<seq<seq<Row>>, PlanError>)
    ensures concurrency < 1 <==> r == Err(BadConcurrency)
    ensures concurrency >= 1 ==>
      (r == Err(BadRow) <==>
       exists i :: 0 <= i < |rows| && (rows[i].duration.None? || rows[i].duration.value <= 0.0 || rows[i].work.None?))
    ensures r.Ok? ==> |r.value| == if concurrency <= |rows| then concurrency else |rows|
    ensures r.Ok? ==> Shares(r.value, rows)
    ensures r.Ok? ==> forall k :: 0 <= k < |r.value| ==> r.value[k] != [] && Sorted(r.value[k])
    ensures r.Ok? ==> NearBest(r.value, rows)
    ensures r.Ok? ==> WithinListBound(r.value, rows)
  {
    if concurrency < 1 { return Err(BadConcurrency); }
    if rows == [] {
      return Ok([]);
    }
    var m := if concurrency <= |rows| then concurrency else |rows|;
    var sorted := SortRows(rows);
    if sorted.None? { return Err(BadRow); }
    var ordered := sorted.value;
    assert |multiset(ordered)| == |ordered| && |multiset(rows)| == |rows|;
    var parts := Place(ordered, m);
    ghost var a :| Follows(ordered, parts, a);
    PlanIsGood(rows, ordered, parts, a, m);
    r := Ok(parts);
  }

  lemma PlanIsGood(rows: seq<Row>, ordered: seq<Row>, parts: seq<seq<Row>>, a: seq<nat>, m: nat)
    requires 0 < m <= |ordered| && multiset(ordered) == multiset(rows) && Sorted(ordered)
    requires forall i :: 0 <= i < |ordered| ==> Usable(ordered[i])
    requires Greedy(Costs(ordered), a, m)
    requires |parts| == m && forall k: nat :: k < m ==> parts[k] == Part(ordered, a, k, |ordered|)
    ensures Shares(parts, rows) && NearBest(parts, rows) && WithinListBound(parts, rows)
    ensures forall k :: 0 <= k < |parts| ==> parts[k] != [] && Sorted(parts[k])
  {
    PlanShares(rows, ordered, parts, a, m);
    PlanParts(ordered, parts, a, m);
    ListBoundHolds(rows, ordered, parts, a, m);
    BestBoundHolds(rows, ordered, parts, a, m);
  }

  lemma PlanShares(rows: seq<Row>, ordered: seq<Row>, parts: seq<seq<Row>>, a: seq<nat>, m: nat)
    requires multiset(ordered) == multiset(rows) && Assignment(Costs(ordered), a, m)
    requires |parts| == m && forall k: nat :: k < m ==> parts[k] == Part(ordered, a, k, |ordered|)
    ensures Shares(parts, rows)
  {
    assert ordered[..|ordered|] == ordered;
    forall x ensures multiset(Flat(parts))[x] == multiset(ordered)[x] {
      PartsConserve(ordered, a, m, |ordered|, x);
      FlatHolds(parts, ordered, a, m, x);
      TimesOf(Flat(parts), x);
      TimesOf(ordered, x);
    }
  }

  lemma PlanParts(ordered: seq<Row>, parts: seq<seq<Row>>, a: seq<nat>, m: nat)
    requires 0 < m <= |ordered| && Sorted(ordered) && Greedy(Costs(ordered), a, m)
    requires forall i :: 0 <= i < |ordered| ==> Usable(ordered[i])
    requires |parts| == m && forall k: nat :: k < m ==> parts[k] == Part(ordered, a, k, |ordered|)
    ensures forall k: nat :: k < m ==> parts[k] != [] && Sorted(parts[k]) && PartCost(parts[k]) == Load(Costs(ordered), a, k, |ordered|)
  {
    forall k: nat | k < m
      ensures parts[k] != [] && Sorted(parts[k]) && PartCost(parts[k]) == Load(Costs(ordered), a, k, |ordered|)
    {
      NoneIdle(Costs(ordered), a, m, k);
      PartCosts(ordered, a, k, |ordered|);
      PartSorted(ordered, a, k, |ordered|);
    }
  }

  lemma {:induction false} PartSorted(ordered: seq<Row>, a: seq<nat>, k: nat, n: nat)
    requires n <= |ordered| == |a| && Sorted(ordered)
    ensures Sorted(Part(ordered, a, k, n)) && forall row :: row in Part(ordered, a, k, n) ==> row in ordered[..n]
  {
    if n > 0 {
      PartSorted(ordered, a, k, n - 1);
      var before := Part(ordered, a, k, n - 1);
      forall i | 0 <= i < |before| ensures Before(before[i], ordered[n - 1]) {
        assert before[i] in ordered[..n - 1];
      }
    }
  }

  lemma {:induction false} TotalIsCost(ordered: seq<Row>, n: nat)
    requires n <= |ordered|
    ensures Total(Costs(ordered), n) == PartCost(ordered[..n])
  {
    if n > 0 {
      TotalIsCost(ordered, n - 1);
      assert ordered[..n][..n - 1] == ordered[..n - 1];
    }
  }

  lemma {:induction false} ZeroLoad(p: seq<real>, b: seq<nat>, n: nat)
    requires n <= |p| && n <= |b| && forall j :: 0 <= j < |b| ==> b[j] == 0
    ensures Load(p, b, 0, n) == Total(p, n)
  {
    if n > 0 { ZeroLoad(p, b, n - 1); }
  }

  /** The total does not depend on the order. */
  lemma TotalOfRows(rows: seq<Row>, ordered: seq<Row>)
    requires multiset(ordered) == multiset(rows)
    ensures Total(Costs(ordered), |ordered|) == PartCost(rows)
  {
    var whole := [rows];
    assert Flat(whole[..0]) == [] && Flat(whole) == [] + rows == rows;
    var b := SharingIsAssignment(whole, ordered);
    ZeroLoad(Costs(ordered), b, |ordered|);
    assert PartCost(whole[0]) == PartCost(rows);
  }

  lemma ListBoundHolds(rows: seq<Row>, ordered: seq<Row>, parts: seq<seq<Row>>, a: seq<nat>, m: nat)
    requires 0 < m == |parts| && Greedy(Costs(ordered), a, m) && NonNegative(Costs(ordered))
    requires multiset(ordered) == multiset(rows)
    requires forall k: nat :: k < m ==> PartCost(parts[k]) == Load(Costs(ordered), a, k, |ordered|)
    ensures WithinListBound(parts, rows)
  {
    TotalOfRows(rows, ordered);
    var p := Costs(ordered);
    var k := DearestPart(parts);
    forall j | 0 <= j < |p| ensures p[j] <= Longest(rows) {
      assert ordered[j] in multiset(ordered);
      assert ordered[j] in rows;
    }
    ListBound(p, a, m, k, Longest(rows));
  }

  lemma DearestPart(parts: seq<seq<Row>>) returns (k: nat)
    requires parts != []
    ensures k < |parts| && PartCost(parts[k]) == Dearest(parts)
  {
    k :| 0 <= k < |parts| && PartCost(parts[k]) == Dearest(parts);
  }

  lemma BestBoundHolds(rows: seq<Row>, ordered: seq<Row>, parts: seq<seq<Row>>, a: seq<nat>, m: nat)
    requires 0 < m == |parts| && Greedy(Costs(ordered), a, m) && NonNegative(Costs(ordered)) && Descending(Costs(ordered))
    requires multiset(ordered) == multiset(rows)
    requires forall k: nat :: k < m ==> PartCost(parts[k]) == Load(Costs(ordered), a, k, |ordered|)
    ensures NearBest(parts, rows)
  {
    var k := DearestPart(parts);
    forall others | Shares(others, rows) && |others| == |parts|
      ensures WithinFourThirds(|parts|, Dearest(parts), Dearest(others))
    {
      BestBoundAgainst(ordered, others, a, m, k);
    }
  }

  lemma BestBoundAgainst(ordered: seq<Row>, others: seq<seq<Row>>, a: seq<nat>, m: nat, k: nat)
    requires 0 < m == |others| && Greedy(Costs(ordered), a, m) && NonNegative(Costs(ordered)) && Descending(Costs(ordered))
    requires Shares(others, ordered) && k < m
    ensures WithinFourThirds(m, Load(Costs(ordered), a, k, |ordered|), Dearest(others))
  {
    var b := SharingIsAssignment(others, ordered);
    assert Bounds(Costs(ordered), b, m, Dearest(others)) by {
      assert forall i: nat :: i < m ==> PartCost(others[i]) == Load(Costs(ordered), b, i, |ordered|);
    }
    LargestFirstBound(Costs(ordered), a, b, m, k, Dearest(others));
  }
}
