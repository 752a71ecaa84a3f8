/** The benchmark workload: logical items that repeat the sources in turn until the target size is reached, checked by the
    manifest's own constructor.

    Durations are real numbers, source ids and digests are numbers of which only equality and order matter, and a logical
    work id is modelled by what it is computed from. */
module Workload {
  import opened Wrappers
  import opened Ordering

  datatype Source = Source(id: nat, digest: nat, duration: real)

  /** What a manifest is built for, beside its sources; an artifact is modelled by its identity. */
  datatype Header = Header(schema: string, targetHours: real, model: string, config: string, release: string)

  datatype Identity = Identity(header: Header, digests: seq<nat>)

  datatype LogicalId = LogicalId(identity: Identity, source: nat, index: nat)

  datatype Item = Item(workId: LogicalId, source: nat, index: nat)

  datatype Manifest = Manifest(header: Header, sources: seq<Source>, items: seq<Item>)

  const TOLERANCE := 0.000000001

  const SCHEMA := "pc-ca-benchmark-workload-v1"

  function Target(header: Header): real {
    header.targetHours * 3600.0
  }

  function IdentityOf(header: Header, sources: seq<Source>): Identity {
    Identity(header, seq(|sources|, i requires 0 <= i < |sources| => sources[i].digest))
  }

  /** Work ids are equal only for the same repetition of the same source in manifests of the same header and source contents. */
  lemma SameIdSameContent(h1: Header, s1: seq<Source>, h2: Header, s2: seq<Source>, id1: nat, id2: nat, k1: nat, k2: nat)
    requires LogicalId(IdentityOf(h1, s1), id1, k1) == LogicalId(IdentityOf(h2, s2), id2, k2)
    ensures h1 == h2 && id1 == id2 && k1 == k2 && |s1| == |s2| && forall i :: 0 <= i < |s1| ==> s1[i].digest == s2[i].digest
  {
    var d1, d2 := IdentityOf(h1, s1).digests, IdentityOf(h2, s2).digests;
    assert d1 == d2;
    forall i | 0 <= i < |s1| ensures s1[i].digest == s2[i].digest { assert d1[i] == d2[i]; }
  }

  /** How many of the items belong to source `id`. */
  function Repetitions(items: seq<Item>, id: nat): nat {
    if items == [] then 0
    else Repetitions(items[..|items| - 1], id) + if items[|items| - 1].source == id then 1 else 0
  }

  predicate Ascending(sources: seq<Source>) {
    forall i, j :: 0 <= i < j < |sources| ==> sources[i].id <= sources[j].id
  }

  predicate DistinctIds(sources: seq<Source>) {
    forall i, j :: 0 <= i < j < |sources| ==> sources[i].id != sources[j].id
  }

  predicate Known(sources: seq<Source>, id: nat) {
    exists i :: 0 <= i < |sources| && sources[i].id == id
  }

  /** The duration listed last for `id`. */
  function DurationOf(sources: seq<Source>, id: nat): (d: real) {
    if sources == [] then 0.0
    else
      var n := |sources| - 1;
      if sources[n].id == id then sources[n].duration else DurationOf(sources[..n], id)
  }

  function Seconds(sources: seq<Source>, items: seq<Item>): real {
    if items == [] then 0.0
    else Seconds(sources, items[..|items| - 1]) + DurationOf(sources, items[|items| - 1].source)
  }

  /** Item `k` is the next repetition of a known source, under the id computed for it. */
  predicate ItemOk(m: Manifest, k: nat)
    requires k < |m.items|
  {
    var item := m.items[k];
    && Known(m.sources, item.source) && item.index == Repetitions(m.items[..k], item.source)
    && item.workId == LogicalId(IdentityOf(m.header, m.sources), item.source, item.index)
  }

  /** What the constructor accepts. */
  predicate Accepted(m: Manifest) {
    && m.header.schema == SCHEMA && m.header.targetHours > 0.0 && m.sources != [] && m.items != []
    && DistinctIds(m.sources) && Ascending(m.sources)
    && (forall k :: 0 <= k < |m.items| ==> ItemOk(m, k))
    && Seconds(m.sources, m.items) + TOLERANCE >= Target(m.header)
  }

  // ---- the constructor ----

  /** What the constructor's loop keeps: the next index of each source, the ids met, and the seconds so far. */
  datatype Tally = Tally(expected: map<nat, nat>, seen: set<LogicalId>, seconds: real)

  ghost predicate Checked(m: Manifest, k: nat, t: Tally)
    requires k <= |m.items|
  {
    && (forall id: nat :: id in t.expected <==> Known(m.sources, id))
    && (forall j {:trigger ItemOk(m, j)} :: 0 <= j < k ==> ItemOk(m, j))
    && (forall id: nat {:trigger t.expected[id]} :: id in t.expected ==> t.expected[id] == Repetitions(m.items[..k], id))
    && (forall id {:trigger id in t.seen} :: id in t.seen ==> id.source in t.expected && id.index < t.expected[id.source])
    && t.seconds == Seconds(m.sources, m.items[..k])
  }

  method CheckItem(m: Manifest, k: nat, t: Tally) returns (r: Option<Tally>)
    requires k < |m.items| && Checked(m, k, t)
    ensures r.Some? <==> ItemOk(m, k)
    ensures r.Some? ==> Checked(m, k + 1, r.value)
  {
    var item := m.items[k];
    if item.source !in t.expected || item.index != t.expected[item.source] { return None; }
    if item.workId != LogicalId(IdentityOf(m.header, m.sources), item.source, item.index) { return None; }
    assert item.workId !in t.seen;  // unique because the index is new
    assert m.items[..k + 1][..k] == m.items[..k];
    r := Some(Tally(t.expected[item.source := t.expected[item.source] + 1], t.seen + {item.workId},
                    t.seconds + DurationOf(m.sources, item.source)));
  }

  /** `WorkloadManifest.__post_init__`. */
  method Check(m: Manifest) returns (ok: bool)
    ensures ok <==> Accepted(m)
  {
    if m.header.schema != SCHEMA || m.header.targetHours <= 0.0 || m.sources == [] || m.items == [] { return false; }
    if !DistinctIds(m.sources) || !Ascending(m.sources) { return false; }
    var t := Tally(map i | 0 <= i < |m.sources| :: m.sources[i].id := 0, {}, 0.0);
    for k := 0 to |m.items|
      invariant Checked(m, k, t)
    {
      var next := CheckItem(m, k, t);
      if next.None? { return false; }
      t := next.value;
    }
    assert m.items[..|m.items|] == m.items;
    ok := t.seconds + TOLERANCE >= Target(m.header);
  }

  // ---- the builder ----

  function SourceId(source: Source): int {
    source.id
  }

  method SortById(sources: seq<Source>) returns (ordered: seq<Source>)
    ensures Ascending(ordered) && multiset(ordered) == multiset(sources)
  {
    ordered := [];
    for i := 0 to |sources|
      invariant OrderedBy(ordered, SourceId) && multiset(ordered) == multiset(sources[..i])
    {
      TakeOne(sources, i);
      ordered := InsertByKey(ordered, sources[i], SourceId);
    }
    assert sources[..|sources|] == sources;
  }

  predicate IsSource(ordered: seq<Source>, items: seq<Item>, k: int, j: int)
    requires 0 <= k < |items| && 0 <= j < |ordered|
  {
    items[k].source == ordered[j].id
  }

  predicate Repeats(items: seq<Item>, l: int, k: int)
    requires 0 <= k < |items| && 0 <= l < |items|
  {
    items[l].source == items[k].source
  }

  /** The items go round the sources: the first pass in order, each later item repeating the source one pass before. */
  ghost predicate RoundRobin(ordered: seq<Source>, items: seq<Item>) {
    && (forall k {:trigger IsSource(ordered, items, k, k)} :: 0 <= k < |items| && k < |ordered| ==> IsSource(ordered, items, k, k))
    && (forall k, l {:trigger Repeats(items, l, k)} :: 0 <= k < l < |items| && l == k + |ordered| ==> Repeats(items, l, k))
  }

  /** `n` added up `times` times. */
  function Rounds(times: nat, n: nat): nat {
    if times == 0 then 0 else Rounds(times - 1, n) + n
  }

  /** `passes` whole passes and the first `extra` sources of another. */
  ghost predicate Balanced(ordered: seq<Source>, items: seq<Item>, passes: nat, extra: nat) {
    |items| == Rounds(passes, |ordered|) + extra && extra <= |ordered| &&
    forall j :: 0 <= j < |ordered| ==> Repetitions(items, ordered[j].id) == passes + if j < extra then 1 else 0
  }

  /** The last `extra` items are the first `extra` sources. */
  ghost predicate PassSoFar(ordered: seq<Source>, items: seq<Item>, extra: nat) {
    extra <= |ordered| && extra <= |items| &&
    forall k, j {:trigger IsSource(ordered, items, k, j)} :: 0 <= j < extra && k == |items| - extra + j ==> IsSource(ordered, items, k, j)
  }

  /** The items before this pass end with a whole pass, or there are none. */
  ghost predicate PassBefore(ordered: seq<Source>, items: seq<Item>, extra: nat) {
    extra <= |items| && (|items| == extra || PassSoFar(ordered, items[..|items| - extra], |ordered|))
  }

  ghost predicate AllOk(header: Header, ordered: seq<Source>, items: seq<Item>) {
    forall k :: 0 <= k < |items| ==> ItemOk(Manifest(header, ordered, items), k)
  }

  lemma ItemsStayOk(header: Header, ordered: seq<Source>, items: seq<Item>, item: Item)
    requires AllOk(header, ordered, items) && Known(ordered, item.source) && item.index == Repetitions(items, item.source)
    requires item.workId == LogicalId(IdentityOf(header, ordered), item.source, item.index)
    ensures AllOk(header, ordered, items + [item])
  {
    var m := Manifest(header, ordered, items + [item]);
    forall k | 0 <= k < |m.items| ensures ItemOk(m, k) {
      if k < |items| {
        assert ItemOk(Manifest(header, ordered, items), k);
        assert m.items[..k] == items[..k];
      } else {
        assert m.items[..k] == items;
      }
    }
  }

  lemma RoundRobinGrows(ordered: seq<Source>, items: seq<Item>, item: Item, i: nat)
    requires i < |ordered| && item.source == ordered[i].id && RoundRobin(ordered, items) && PassBefore(ordered, items, i)
    requires |items| < |ordered| ==> |items| == i
    ensures RoundRobin(ordered, items + [item])
  {
    var more, m, n := items + [item], |ordered|, |items|;
    forall k | 0 <= k < |more| && k < m ensures IsSource(ordered, more, k, k) {
      if k < n { assert IsSource(ordered, items, k, k); }
    }
    forall k, l | 0 <= k < l < |more| && l == k + m ensures Repeats(more, l, k) {
      if l < n {
        assert Repeats(items, l, k);
      } else {
        assert IsSource(ordered, items[..n - i], k, i);
      }
    }
  }

  lemma BalanceGrows(ordered: seq<Source>, items: seq<Item>, item: Item, passes: nat, i: nat)
    requires DistinctIds(ordered) && i < |ordered| && item.source == ordered[i].id && Balanced(ordered, items, passes, i)
    ensures Balanced(ordered, items + [item], passes, i + 1)
  {
    assert (items + [item])[..|items|] == items;
  }

  lemma PassGrows(ordered: seq<Source>, items: seq<Item>, item: Item, i: nat)
    requires i < |ordered| && item.source == ordered[i].id && PassSoFar(ordered, items, i) && PassBefore(ordered, items, i)
    ensures PassSoFar(ordered, items + [item], i + 1) && PassBefore(ordered, items + [item], i + 1)
  {
    var more := items + [item];
    assert more[..|more| - (i + 1)] == items[..|items| - i];
    forall k, j | 0 <= j < i + 1 && k == |more| - (i + 1) + j ensures IsSource(ordered, more, k, j) {
      if j < i { assert IsSource(ordered, items, k, j); }
    }
  }

  /** One more item of the pass keeps the round and the balance. */
  lemma RoundGrows(ordered: seq<Source>, items: seq<Item>, item: Item, passes: nat, i: nat)
    requires DistinctIds(ordered) && i < |ordered| && item.source == ordered[i].id
    requires RoundRobin(ordered, items) && Balanced(ordered, items, passes, i)
    requires PassSoFar(ordered, items, i) && PassBefore(ordered, items, i)
    ensures RoundRobin(ordered, items + [item]) && Balanced(ordered, items + [item], passes, i + 1)
    ensures PassSoFar(ordered, items + [item], i + 1) && PassBefore(ordered, items + [item], i + 1)
  {
    RoundRobinGrows(ordered, items, item, i);
    BalanceGrows(ordered, items, item, passes, i);
    PassGrows(ordered, items, item, i);
  }

  lemma PassEnds(ordered: seq<Source>, items: seq<Item>, passes: nat)
    requires Balanced(ordered, items, passes, |ordered|) && PassSoFar(ordered, items, |ordered|)
    ensures Balanced(ordered, items, passes + 1, 0) && PassSoFar(ordered, items, 0) && PassBefore(ordered, items, 0)
  {
    assert items[..|items| - 0] == items;
  }

  lemma SecondsGrow(ordered: seq<Source>, items: seq<Item>, item: Item)
    ensures Seconds(ordered, items + [item]) == Seconds(ordered, items) + DurationOf(ordered, item.source)
    ensures (items + [item])[..|items|] == items
  {
    assert (items + [item])[..|items|] == items;
  }

  lemma {:induction false} DurationsAreListed(ordered: seq<Source>, i: nat)
    requires DistinctIds(ordered) && i < |ordered|
    ensures DurationOf(ordered, ordered[i].id) == ordered[i].duration
  {
    var n := |ordered| - 1;
    if i < n { DurationsAreListed(ordered[..n], i); }
  }

  function Least(sources: seq<Source>): (d: real)
    requires sources != [] && forall i :: 0 <= i < |sources| ==> sources[i].duration > 0.0
    ensures d > 0.0 && forall i :: 0 <= i < |sources| ==> d <= sources[i].duration
  {
    if |sources| == 1 then sources[0].duration
    else
      var rest := Least(sources[1..]);
      assert forall i :: 1 <= i < |sources| ==> sources[i] == sources[1..][i - 1];
      if sources[0].duration < rest then sources[0].duration else rest
  }

  /** How long `n` items of the shortest source take. */
  ghost function AtLeast(n: nat, least: real): (seconds: real)
    ensures least >= 0.0 ==> seconds >= 0.0
  {
    if n == 0 then 0.0 else AtLeast(n - 1, least) + least
  }

  lemma {:induction false} AtLeastIsProduct(n: nat, least: real)
    ensures AtLeast(n, least) == n as real * least
  {
    if n > 0 {
      AtLeastIsProduct(n - 1, least);
      assert n as real * least == (n - 1) as real * least + least;
    }
  }

  lemma {:induction false} AtLeastGrows(m: nat, n: nat, least: real)
    requires m <= n && least >= 0.0
    ensures AtLeast(m, least) <= AtLeast(n, least)
  {
    if m < n { AtLeastGrows(m, n - 1, least); }
  }

  /** Enough items of the shortest source reach any target. */
  lemma Enough(least: real, target: real) returns (n: nat)
    requires least > 0.0
    ensures AtLeast(n, least) >= target
  {
    var ratio := target / least;
    n := if ratio.Floor < 0 then 0 else ratio.Floor + 1;
    assert n as real >= ratio;
    Multiplied(n as real, ratio, least);
    assert ratio * least == target;
    AtLeastIsProduct(n, least);
  }

  lemma Multiplied(x: real, y: real, c: real)
    requires x >= y && c >= 0.0
    ensures x * c >= y * c
  {
  }

  /** What the items are like while the target is not reached, if source ids are distinct. */
  ghost predicate Filling(header: Header, ordered: seq<Source>, items: seq<Item>, seconds: real, counts: map<nat, nat>, passes: nat, i: nat) {
    && AllOk(header, ordered, items) && seconds == Seconds(ordered, items)
    && RoundRobin(ordered, items) && Balanced(ordered, items, passes, i)
    && PassSoFar(ordered, items, i) && PassBefore(ordered, items, i)
    && CountsKept(ordered, items, counts)
  }

  lemma FillingStarts(header: Header, ordered: seq<Source>, counts: map<nat, nat>)
    requires forall j :: 0 <= j < |ordered| ==> ordered[j].id in counts && counts[ordered[j].id] == 0
    ensures Filling(header, ordered, [], 0.0, counts, 0, 0)
  {
  }

  /** The next repetition of source `i`. */
  function NextItem(header: Header, ordered: seq<Source>, counts: map<nat, nat>, i: nat): Item
    requires i < |ordered| && ordered[i].id in counts
  {
    var id, n := ordered[i].id, counts[ordered[i].id];
    Item(LogicalId(IdentityOf(header, ordered), id, n), id, n)
  }

  lemma FillingGrows(header: Header, ordered: seq<Source>, items: seq<Item>, seconds: real, counts: map<nat, nat>, passes: nat, i: nat)
    requires DistinctIds(ordered) && i < |ordered| && Filling(header, ordered, items, seconds, counts, passes, i)
    ensures Filling(header, ordered, items + [NextItem(header, ordered, counts, i)], seconds + ordered[i].duration,
                    counts[ordered[i].id := counts[ordered[i].id] + 1], passes, i + 1)
  {
    var item := NextItem(header, ordered, counts, i);
    ItemsStayOk(header, ordered, items, item);
    RoundGrows(ordered, items, item, passes, i);
    SecondsGrow(ordered, items, item);
    DurationsAreListed(ordered, i);
    CountsGrow(ordered, items, counts, item, i);
  }

  lemma CountsGrow(ordered: seq<Source>, items: seq<Item>, counts: map<nat, nat>, item: Item, i: nat)
    requires DistinctIds(ordered) && i < |ordered| && item.source == ordered[i].id && CountsKept(ordered, items, counts)
    ensures CountsKept(ordered, items + [item], counts[ordered[i].id := counts[ordered[i].id] + 1])
  {
    assert (items + [item])[..|items|] == items;
  }

  ghost predicate CountsKept(ordered: seq<Source>, items: seq<Item>, counts: map<nat, nat>) {
    forall j :: 0 <= j < |ordered| ==> ordered[j].id in counts && counts[ordered[j].id] == Repetitions(items, ordered[j].id)
  }

  /** Short of the target, or just past it. */
  ghost predicate Minimal(header: Header, ordered: seq<Source>, items: seq<Item>) {
    items != [] ==> Seconds(ordered, items[..|items| - 1]) + TOLERANCE < Target(header)
  }

  /** The state of the loop; nothing is said of the items when source ids repeat. */
  ghost predicate FillState(header: Header, ordered: seq<Source>, least: real, items: seq<Item>, seconds: real, counts: map<nat, nat>,
                            passes: nat, i: nat)
  {
    && (forall j :: 0 <= j < |ordered| ==> ordered[j].id in counts)
    && seconds >= AtLeast(|items|, least) && (items == [] ==> seconds == 0.0) && (items != [] ==> TOLERANCE < Target(header))
    && (DistinctIds(ordered) ==> Filling(header, ordered, items, seconds, counts, passes, i) && Minimal(header, ordered, items))
  }

  lemma FillStep(header: Header, ordered: seq<Source>, least: real, items: seq<Item>, seconds: real, counts: map<nat, nat>, passes: nat, i: nat)
    requires FillState(header, ordered, least, items, seconds, counts, passes, i) && i < |ordered|
    requires seconds + TOLERANCE < Target(header) && 0.0 < least <= ordered[i].duration
    ensures FillState(header, ordered, least, items + [NextItem(header, ordered, counts, i)], seconds + ordered[i].duration,
                      counts[ordered[i].id := counts[ordered[i].id] + 1], passes, i + 1)
  {
    var item := NextItem(header, ordered, counts, i);
    if DistinctIds(ordered) {
      FillingGrows(header, ordered, items, seconds, counts, passes, i);
      SecondsGrow(ordered, items, item);
    }
  }

  /** The next repetition of source `i` joins the items. */
  method AddItem(header: Header, ordered: seq<Source>, ghost least: real, before: seq<Item>, start: real, before': map<nat, nat>,
                 ghost passes: nat, i: nat)
    returns (items: seq<Item>, seconds: real, counts: map<nat, nat>)
    requires FillState(header, ordered, least, before, start, before', passes, i) && i < |ordered|
    requires start + TOLERANCE < Target(header) && 0.0 < least <= ordered[i].duration
    ensures FillState(header, ordered, least, items, seconds, counts, passes, i + 1) && |items| == |before| + 1
  {
    FillStep(header, ordered, least, before, start, before', passes, i);
    items := before + [NextItem(header, ordered, before', i)];
    counts := before'[ordered[i].id := before'[ordered[i].id] + 1];
    seconds := start + ordered[i].duration;
  }

  /** One pass over the sources, stopped as soon as the target is reached. */
  method FillPass(header: Header, ordered: seq<Source>, ghost least: real, before: seq<Item>, start: real, before': map<nat, nat>, ghost passes: nat)
    returns (items: seq<Item>, seconds: real, counts: map<nat, nat>, ghost extra: nat)
    requires ordered != [] && 0.0 < least && forall i :: 0 <= i < |ordered| ==> least <= ordered[i].duration
    requires FillState(header, ordered, least, before, start, before', passes, 0) && start + TOLERANCE < Target(header)
    ensures FillState(header, ordered, least, items, seconds, counts, passes, extra) && |items| > |before|
    ensures seconds + TOLERANCE < Target(header) ==> extra == |ordered|
  {
    items, seconds, counts, extra := before, start, before', 0;
    var i := 0;
    while i < |ordered|
      invariant i <= |ordered| && extra == i && |items| == |before| + i
      invariant FillState(header, ordered, least, items, seconds, counts, passes, extra)
      invariant seconds + TOLERANCE < Target(header)
    {
      items, seconds, counts := AddItem(header, ordered, least, items, seconds, counts, passes, i);
      extra := i + 1;
      if seconds + TOLERANCE >= Target(header) { break; }
      i := i + 1;
    }
  }

  lemma NextPass(header: Header, ordered: seq<Source>, least: real, items: seq<Item>, seconds: real, counts: map<nat, nat>, passes: nat)
    requires FillState(header, ordered, least, items, seconds, counts, passes, |ordered|)
    ensures FillState(header, ordered, least, items, seconds, counts, passes + 1, 0)
  {
    if DistinctIds(ordered) { PassEnds(ordered, items, passes); }
  }

  /** Adds repetitions round the sources until the target is reached. */
  method Fill(header: Header, ordered: seq<Source>) returns (items: seq<Item>, ghost passes: nat, ghost extra: nat)
    requires ordered != [] && forall i :: 0 <= i < |ordered| ==> ordered[i].duration > 0.0
    ensures DistinctIds(ordered) ==>
      && AllOk(header, ordered, items) && RoundRobin(ordered, items) && Balanced(ordered, items, passes, extra)
      && Seconds(ordered, items) + TOLERANCE >= Target(header) && Minimal(header, ordered, items)
    ensures items == [] <==> TOLERANCE >= Target(header)
  {
    var counts: map<nat, nat> := map i | 0 <= i < |ordered| :: ordered[i].id := 0;
    var seconds := 0.0;
    items, passes, extra := [], 0, 0;
    ghost var least := Least(ordered);
    ghost var bound := Enough(least, Target(header));
    FillingStarts(header, ordered, counts);
    while seconds + TOLERANCE < Target(header)
      invariant FillState(header, ordered, least, items, seconds, counts, passes, extra)
      invariant seconds + TOLERANCE < Target(header) ==> extra == 0
      decreases bound - |items|
    {
      FewItems(|items|, bound, least, seconds, Target(header));
      items, seconds, counts, extra := FillPass(header, ordered, least, items, seconds, counts, passes);
      if seconds + TOLERANCE < Target(header) {
        NextPass(header, ordered, least, items, seconds, counts, passes);
        passes, extra := passes + 1, 0;
      }
    }
  }

  /** Short of the target, fewer items than enough have been added. */
  lemma FewItems(n: nat, bound: nat, least: real, seconds: real, target: real)
    requires least > 0.0 && seconds >= AtLeast(n, least) && seconds < target && AtLeast(bound, least) >= target
    ensures n < bound
  {
    if n >= bound { AtLeastGrows(bound, n, least); }
  }

  /** Any two sources are repeated equally often, give or take one. */
  predicate EvenlyRepeated(sources: seq<Source>, items: seq<Item>) {
    forall i, j :: 0 <= i < |sources| && 0 <= j < |sources| ==>
      Repetitions(items, sources[i].id) <= Repetitions(items, sources[j].id) + 1
  }

  /** `build_workload_manifest`.  With distinct ids the built manifest passes its own constructor unless the target is within
      the tolerance of nothing, when there are no items. */
  method Build(sources: seq<Source>, model: string, config: string, release: string, hours: real) returns (r: Option<Manifest>)
    requires forall i :: 0 <= i < |sources| ==> sources[i].duration > 0.0
    ensures r.Some? <==> sources != [] && DistinctIds(sources) && hours * 3600.0 > TOLERANCE
    ensures r.Some? ==>
      var m := r.value;
      && Accepted(m) && m.header == Header(SCHEMA, hours, model, config, release) && multiset(m.sources) == multiset(sources)
      && RoundRobin(m.sources, m.items) && EvenlyRepeated(m.sources, m.items)
      && Seconds(m.sources, m.items[..|m.items| - 1]) + TOLERANCE < Target(m.header)
  {
    if hours <= 0.0 { return None; }
    var ordered := SortById(sources);
    SameIds(sources, ordered);
    if ordered == [] { return None; }
    forall i | 0 <= i < |ordered| ensures ordered[i].duration > 0.0 {
      assert ordered[i] in multiset(sources);
    }
    var header := Header(SCHEMA, hours, model, config, release);
    var items, passes, extra := Fill(header, ordered);
    var m := Manifest(header, ordered, items);
    var ok := Check(m);
    if !ok { return None; }
    r := Some(m);
  }

  /** A target above zero that the constructor refuses: within the tolerance no item is needed, and it wants one. */
  method TinyTargetIsRefused() returns (sources: seq<Source>, hours: real, r: Option<Manifest>)
    ensures hours > 0.0 && sources != [] && DistinctIds(sources) && r.None?
  {
    sources, hours := [Source(0, 0, 1.0)], 0.0000000000001;
    r := Build(sources, "model", "config", "release", hours);
  }

  /** Sorting neither makes nor removes a repeated id. */
  lemma SameIds(sources: seq<Source>, ordered: seq<Source>)
    requires multiset(ordered) == multiset(sources)
    ensures |ordered| == |sources| && (DistinctIds(ordered) <==> DistinctIds(sources))
  {
    assert |multiset(ordered)| == |ordered| && |multiset(sources)| == |sources|;
    if DistinctIds(sources) { DistinctCarries(sources, ordered); }
    if DistinctIds(ordered) { DistinctCarries(ordered, sources); }
  }

  lemma DistinctCarries(a: seq<Source>, b: seq<Source>)
    requires multiset(a) == multiset(b) && DistinctIds(a)
    ensures DistinctIds(b)
  {
    assert Distinct(a);
    forall i, j | 0 <= i < j < |b| ensures b[i].id != b[j].id {
      DistinctCount(a, b[i]);
      SingleDiffers(b, i, j);
      assert b[i] in multiset(a) && b[j] in multiset(a);
      var x :| 0 <= x < |a| && a[x] == b[i];
      var y :| 0 <= y < |a| && a[y] == b[j];
    }
  }
}
