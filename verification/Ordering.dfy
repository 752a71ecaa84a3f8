/** Ordered enumerations of finite sets, insertion into an ordered sequence, and positions in sequences. */
module Ordering {
  import opened Wrappers

  predicate Distinct<T(==)>(xs: seq<T>) {
    forall i, j :: 0 <= i < j < |xs| ==> xs[i] != xs[j]
  }

  /** The position of the first occurrence of `x`. */
  function IndexOf<T(==)>(xs: seq<T>, x: T): (i: nat)
    requires x in xs
    ensures i < |xs| && xs[i] == x
    ensures x !in xs[..i]
  {
    if xs[0] == x then 0 else 1 + IndexOf(xs[1..], x)
  }

  lemma IndexOfDistinct<T>(xs: seq<T>, i: nat)
    requires Distinct(xs) && i < |xs|
    ensures IndexOf(xs, xs[i]) == i
  {
  }

  lemma IndexOfLast<T>(xs: seq<T>, x: T)
    requires x !in xs
    ensures IndexOf(xs + [x], x) == |xs|
  {
  }

  lemma IndexOfPrefix<T>(xs: seq<T>, ys: seq<T>, x: T)
    requires xs <= ys && x in xs
    ensures x in ys && IndexOf(xs, x) == IndexOf(ys, x)
  {
  }

  /** The first element whose key is `k`. */
  function FirstWith<T, K(==)>(xs: seq<T>, key: T -> K, k: K): (r: Option<T>)
    ensures r.Some? ==> r.value in xs && key(r.value) == k
    ensures r.None? ==> forall i :: 0 <= i < |xs| ==> key(xs[i]) != k
  {
    if xs == [] then None
    else if key(xs[0]) == k then Some(xs[0])
    else FirstWith(xs[1..], key, k)
  }

  lemma {:induction false} FirstWithAppend<T, K>(xs: seq<T>, x: T, key: T -> K, k: K)
    ensures FirstWith(xs + [x], key, k) ==
      (if FirstWith(xs, key, k).Some? then FirstWith(xs, key, k) else if key(x) == k then Some(x) else None)
  {
    if xs != [] {
      assert (xs + [x])[1..] == xs[1..] + [x];
      FirstWithAppend(xs[1..], x, key, k);
    }
  }

  lemma {:induction false} LeastExists<T(!new)>(s: set<T>, key: T -> int)
    requires s != {}
    ensures exists m :: m in s && forall x :: x in s ==> key(m) <= key(x)
  {
    var y :| y in s;
    var rest := s - {y};
    if rest == {} {
      assert s == {y};
    } else {
      LeastExists(rest, key);
      var m :| m in rest && forall x :: x in rest ==> key(m) <= key(x);
      var least := if key(m) <= key(y) then m else y;
      assert least in s && forall x :: x in s ==> key(least) <= key(x);
    }
  }

  /** An element with the least key. */
  method LeastBy<T(==)>(s: set<T>, key: T -> int) returns (m: T)
    requires s != {}
    ensures m in s && forall x :: x in s ==> key(m) <= key(x)
  {
    m :| m in s;
    var todo := s - {m};
    while todo != {}
      invariant todo <= s && m in s && forall x :: x in s && x !in todo ==> key(m) <= key(x)
      decreases |todo|
    {
      var x :| x in todo;
      todo := todo - {x};
      if key(x) < key(m) { m := x; }
    }
  }

  /** The elements of `s` ordered by `key`; elements with equal keys come in an unspecified, fixed order. */
  ghost function SortedBy<T(!new)>(s: set<T>, key: T -> int): (xs: seq<T>)
    ensures forall x :: x in xs <==> x in s
    ensures Distinct(xs) && |xs| == |s|
    ensures forall i, j :: 0 <= i < j < |xs| ==> key(xs[i]) <= key(xs[j])
    decreases |s|
  {
    if s == {} then []
    else
      LeastExists(s, key);
      var m :| m in s && forall x :: x in s ==> key(m) <= key(x);
      var rest := SortedBy(s - {m}, key);
      [m] + rest
  }

  /** `sorted(all, key=...)` of a set, least first. */
  method SortSet<T(==)>(all: set<T>, key: T -> int) returns (order: seq<T>)
    ensures Distinct(order) && forall x :: x in order <==> x in all
    ensures forall i, j :: 0 <= i < j < |order| ==> key(order[i]) <= key(order[j])
  {
    order := [];
    var rest := all;
    while rest != {}
      invariant rest <= all && Distinct(order)
      invariant forall x :: x in all ==> (x in order <==> x !in rest)
      invariant forall x :: x in order ==> x in all
      invariant forall i, j :: 0 <= i < j < |order| ==> key(order[i]) <= key(order[j])
      invariant forall i, x :: 0 <= i < |order| && x in rest ==> key(order[i]) <= key(x)
      decreases |rest|
    {
      var m := LeastBy(rest, key);
      order := order + [m];
      rest := rest - {m};
    }
  }

  /** Two enumerations of one set by an injective key are the same enumeration. */
  lemma {:induction false} SortedUnique<T(!new)>(xs: seq<T>, ys: seq<T>, key: T -> int)
    requires forall x :: x in xs <==> x in ys
    requires forall i, j :: 0 <= i < j < |xs| ==> key(xs[i]) < key(xs[j])
    requires forall i, j :: 0 <= i < j < |ys| ==> key(ys[i]) < key(ys[j])
    ensures xs == ys
  {
    assert |xs| > 0 ==> xs[0] in ys;
    assert |ys| > 0 ==> ys[0] in xs;
    if xs != [] {
      var i :| 0 <= i < |ys| && ys[i] == xs[0];
      var j :| 0 <= j < |xs| && xs[j] == ys[0];
      assert xs[0] == ys[0];
      forall x ensures x in xs[1..] <==> x in ys[1..] {
        if x in xs[1..] { assert x in xs && x != xs[0]; }
        if x in ys[1..] { assert x in ys && x != ys[0]; }
      }
      SortedUnique(xs[1..], ys[1..], key);
      assert xs == [xs[0]] + xs[1..] && ys == [ys[0]] + ys[1..];
    }
  }

  /** The ascending enumeration of n + 1 .. n + |q| is that list. */
  lemma Consecutive(n: int, q: seq<int>, xs: set<int>)
    requires forall i :: 0 <= i < |q| ==> q[i] == n + 1 + i
    requires forall x :: x in xs <==> n < x <= n + |q|
    ensures SortedBy(xs, x => x) == q
  {
    var sorted := SortedBy(xs, x => x);
    forall x ensures x in q <==> x in sorted {
      if x in xs { assert q[x - n - 1] == x; }
    }
    SortedUnique(q, sorted, x => x);
  }

  /** One element fewer to go through: the count of those gone through grows by one if it is counted. */
  lemma CountOne<T>(counted: set<T>, todo: set<T>, x: T)
    requires x in todo
    ensures |counted - (todo - {x})| == |counted - todo| + if x in counted then 1 else 0
  {
    assert counted - (todo - {x}) == (counted - todo) + (if x in counted then {x} else {});
  }

  // ---- sizes of sets ----

  lemma {:induction false} SubsetSize<T>(a: set<T>, b: set<T>)
    requires a <= b
    ensures |a| <= |b|
  {
    if a != {} {
      var x :| x in a;
      SubsetSize(a - {x}, b - {x});
    }
  }

  /** A sequence has as many different elements as it is long exactly when none is repeated. */
  lemma ItemsCounted<T>(items: seq<T>)
    ensures |(set i | 0 <= i < |items| :: items[i])| <= |items|
    ensures |(set i | 0 <= i < |items| :: items[i])| == |items| <==> Distinct(items)
  {
    var listed := set i | 0 <= i < |items| :: items[i];
    forall x ensures x in listed <==> x in items {}
    assert listed == set x | x in items;
    ElementsCounted(items);
  }

  lemma {:induction false} ElementsCounted<T>(items: seq<T>)
    ensures |(set x | x in items)| <= |items|
    ensures |(set x | x in items)| == |items| <==> Distinct(items)
  {
    if items != [] {
      var n := |items| - 1;
      var few, last := items[..n], items[n];
      ElementsCounted(few);
      assert items == few + [last];
      assert (set x | x in items) == (set x | x in few) + {last};
      DistinctGrows(few, last);
    } else {
      assert (set x | x in items) == {};
    }
  }

  lemma DistinctGrows<T>(few: seq<T>, last: T)
    ensures Distinct(few + [last]) <==> Distinct(few) && last !in few
  {
    var items := few + [last];
    if Distinct(items) {
      forall i | 0 <= i < |few| ensures few[i] != last { assert items[i] != items[|few|]; }
      forall i, j | 0 <= i < j < |few| ensures few[i] != few[j] { assert items[i] != items[j]; }
    }
  }

  // ---- multisets of sequences, one element at a time ----

  lemma TakeOne<T>(xs: seq<T>, n: nat)
    requires n < |xs|
    ensures multiset(xs[..n + 1]) == multiset(xs[..n]) + multiset{xs[n]}
  {
    assert xs[..n + 1] == xs[..n] + [xs[n]];
  }

  lemma InsertOne<T>(xs: seq<T>, i: nat, x: T)
    requires i <= |xs|
    ensures multiset(xs[..i] + [x] + xs[i..]) == multiset(xs) + multiset{x}
  {
    assert xs == xs[..i] + xs[i..];
  }

  lemma RemoveOne<T>(xs: seq<T>, i: nat)
    requires i < |xs|
    ensures multiset(xs) == multiset(xs[..i] + xs[i + 1..]) + multiset{xs[i]}
  {
    assert xs == xs[..i] + [xs[i]] + xs[i + 1..];
  }

  lemma AddOne<T>(a: multiset<T>, b: multiset<T>, x: T)
    ensures a + (b + multiset{x}) == (a + b) + multiset{x} == (a + multiset{x}) + b
  {
  }

  lemma CancelOne<T>(a: multiset<T>, b: multiset<T>, x: T)
    requires a + multiset{x} == b + multiset{x}
    ensures a == b
  {
    assert a == (a + multiset{x}) - multiset{x};
    assert b == (b + multiset{x}) - multiset{x};
  }

  predicate OrderedBy<T>(xs: seq<T>, key: T -> int) {
    forall i, j :: 0 <= i < j < |xs| ==> key(xs[i]) <= key(xs[j])
  }

  /** Inserts `x` after every element whose key is no larger. */
  method InsertByKey<T>(xs: seq<T>, x: T, key: T -> int) returns (out: seq<T>)
    requires OrderedBy(xs, key)
    ensures OrderedBy(out, key) && multiset(out) == multiset(xs) + multiset{x}
  {
    var i := 0;
    while i < |xs| && key(xs[i]) <= key(x)
      invariant 0 <= i <= |xs|
      invariant forall k :: 0 <= k < i ==> key(xs[k]) <= key(x)
    {
      i := i + 1;
    }
    out := xs[..i] + [x] + xs[i..];
    InsertOne(xs, i, x);
  }

  lemma {:induction false} InsertedMembers<T>(xs: seq<T>, x: T, out: seq<T>)
    requires multiset(out) == multiset(xs) + multiset{x}
    ensures forall y :: y in out <==> y in xs || y == x
    ensures Distinct(xs) && x !in xs ==> Distinct(out)
  {
    forall y ensures y in out <==> y in xs || y == x {
      assert y in out <==> y in multiset(out);
    }
    if Distinct(xs) && x !in xs {
      forall i, j | 0 <= i < j < |out| ensures out[i] != out[j] {
        DistinctCount(xs, out[i]);
        SingleDiffers(out, i, j);
      }
    }
  }

  lemma SingleDiffers<T>(xs: seq<T>, i: nat, j: nat)
    requires i < j < |xs| && multiset(xs)[xs[i]] <= 1
    ensures xs[i] != xs[j]
  {
    assert xs == xs[..i] + [xs[i]] + xs[i + 1..j] + [xs[j]] + xs[j + 1..];
  }

  lemma {:induction false} DistinctCount<T>(xs: seq<T>, x: T)
    requires Distinct(xs)
    ensures multiset(xs)[x] <= 1
  {
    if xs != [] {
      assert xs == [xs[0]] + xs[1..];
      DistinctCount(xs[1..], x);
      if xs[0] == x { assert x !in xs[1..]; }
    }
  }
}
