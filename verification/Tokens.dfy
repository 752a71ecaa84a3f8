/** Token substitution in definition parts: exact source values are replaced by `{{ .name }}` placeholders.

    Contents are strings of bytes, and sources and placeholders are their encodings.  Since no encoding starts inside
    another character's, matching bytes finds the same places as matching the decoded text. */
module Tokens {
  import opened Wrappers

  datatype Replacement = Replacement(value: string, name: string, parts: seq<string>)

  // ---- places in a text ----

  predicate Occurs(p: string, text: string) {
    exists i :: 0 <= i <= |text| - |p| && p <= text[i..]
  }

  /** `text.count(p)`: occurrences that do not overlap, found from the left. */
  function Count(p: string, text: string): nat
    requires p != ""
    decreases |text|
  {
    if text == "" then 0
    else if p <= text then 1 + Count(p, text[|p|..])
    else Count(p, text[1..])
  }

  lemma OccursLater(p: string, text: string, k: nat)
    requires k <= |text| && Occurs(p, text[k..])
    ensures Occurs(p, text)
  {
    var i :| 0 <= i <= |text[k..]| - |p| && p <= text[k..][i..];
    assert text[k..][i..] == text[k + i..];
  }

  lemma OccursHere(p: string, text: string)
    requires text != ""
    ensures Occurs(p, text) <==> p <= text || Occurs(p, text[1..])
  {
    assert text[0..] == text;
    if Occurs(p, text[1..]) { OccursLater(p, text, 1); }
    if Occurs(p, text) {
      var i :| 0 <= i <= |text| - |p| && p <= text[i..];
      if i > 0 { assert text[1..][i - 1..] == text[i..]; }
    }
  }

  /** A text contains `p` exactly when it counts some. */
  lemma {:induction false} CountsWhatOccurs(p: string, text: string)
    requires p != ""
    ensures Count(p, text) > 0 <==> Occurs(p, text)
    decreases |text|
  {
    if text != "" {
      OccursHere(p, text);
      CountsWhatOccurs(p, text[1..]);
    }
  }

  // ---- names and placeholders ----

  predicate Letter(c: char) {
    'a' <= c <= 'z' || 'A' <= c <= 'Z'
  }

  predicate NameChar(c: char) {
    Letter(c) || '0' <= c <= '9' || c == '_'
  }

  predicate TokenName(name: string) {
    name != "" && Letter(name[0]) && forall i :: 0 <= i < |name| ==> NameChar(name[i])
  }

  function Placeholder(name: string): (p: string)
    ensures |p| == |name| + 7 && p[0] == '{' && p[1] == '{' && p[2] == ' ' && p[3] == '.' && p[|name| + 4] == ' '
    ensures forall i :: 0 <= i < |name| ==> p[i + 4] == name[i]
  {
    "{{ ." + name + " }}"
  }

  /** Braces open only at the front of a placeholder. */
  lemma OpensOnce(name: string, i: nat)
    requires TokenName(name) && 2 <= i < |Placeholder(name)|
    ensures Placeholder(name)[i] != '{'
  {
  }

  /** At one place there is at most one token's placeholder. */
  lemma PlaceholdersDiffer(x: string, y: string, rest: string)
    requires TokenName(x) && TokenName(y) && x != y
    ensures !(Placeholder(y) <= Placeholder(x) + rest)
  {
    var p, q := Placeholder(x) + rest, Placeholder(y);
    if |x| < |y| {
      assert q[|x| + 4] == y[|x|] && p[|x| + 4] == ' ';
    } else if |y| < |x| {
      assert p[|y| + 4] == x[|y|] && q[|y| + 4] == ' ';
    } else {
      var i :| 0 <= i < |x| && x[i] != y[i];
      assert p[i + 4] == x[i] && q[i + 4] == y[i];
    }
  }

  // ---- substitution ----

  predicate Wellformed(reps: seq<Replacement>) {
    && (forall i :: 0 <= i < |reps| ==> reps[i].value != "" && TokenName(reps[i].name))
    && (forall i, j :: 0 <= i < j < |reps| ==> reps[i].name != reps[j].name)
  }

  /** The longest source value at the front of the text. */
  function Match(text: string, reps: seq<Replacement>): (r: Option<Replacement>)
    ensures r.Some? ==> r.value in reps && r.value.value <= text
    ensures r.Some? ==> forall x :: x in reps && x.value <= text ==> |x.value| <= |r.value.value|
    ensures r.None? ==> forall x :: x in reps ==> !(x.value <= text)
  {
    if reps == [] then None
    else
      var rest := Match(text, reps[1..]);
      if reps[0].value <= text && (rest.None? || |reps[0].value| > |rest.value.value|) then Some(reps[0]) else rest
  }

  function Tokenized(text: string, reps: seq<Replacement>): string
    requires Wellformed(reps)
    decreases |text|
  {
    if text == "" then ""
    else
      var m := Match(text, reps);
      if m.Some? then Placeholder(m.value.name) + Tokenized(text[|m.value.value|..], reps)
      else [text[0]] + Tokenized(text[1..], reps)
  }

  /** How often the token `name` is put in. */
  function Hits(text: string, reps: seq<Replacement>, name: string): nat
    requires Wellformed(reps)
    decreases |text|
  {
    if text == "" then 0
    else
      var m := Match(text, reps);
      if m.Some? then (if m.value.name == name then 1 else 0) + Hits(text[|m.value.value|..], reps, name)
      else Hits(text[1..], reps, name)
  }

  /** Undoes the placeholders of the given tokens. */
  function Restored(text: string, reps: seq<Replacement>): string
    decreases |text|
  {
    if text == "" then ""
    else
      var m := Marked(text, reps);
      if m.Some? then m.value.value + Restored(text[|Placeholder(m.value.name)|..], reps)
      else [text[0]] + Restored(text[1..], reps)
  }

  /** The token whose placeholder is at the front of the text. */
  function Marked(text: string, reps: seq<Replacement>): (r: Option<Replacement>)
    ensures r.Some? ==> r.value in reps && Placeholder(r.value.name) <= text
    ensures r.None? ==> forall x :: x in reps ==> !(Placeholder(x.name) <= text)
  {
    if reps == [] then None
    else if Placeholder(reps[0].name) <= text then Some(reps[0])
    else Marked(text, reps[1..])
  }

  /** What the counter of `name` is short of its final value while `rest` of the text is left. */
  ghost predicate HitsSoFar(hits': map<string, nat>, hits: map<string, nat>, text: string, rest: string, reps: seq<Replacement>, name: string)
    requires Wellformed(reps)
  {
    name in hits && name in hits' && hits'[name] + Hits(rest, reps, name) == hits[name] + Hits(text, reps, name)
  }

  ghost predicate AllHits(hits': map<string, nat>, hits: map<string, nat>, text: string, rest: string, reps: seq<Replacement>)
    requires Wellformed(reps)
  {
    hits'.Keys == hits.Keys &&
    forall name {:trigger HitsSoFar(hits', hits, text, rest, reps, name)} :: name in hits ==>
      HitsSoFar(hits', hits, text, rest, reps, name)
  }

  lemma NoHitsLeft(hits': map<string, nat>, hits: map<string, nat>, text: string, reps: seq<Replacement>)
    requires Wellformed(reps) && AllHits(hits', hits, text, "", reps)
    ensures forall name :: name in hits ==> hits'[name] == hits[name] + Hits(text, reps, name)
  {
    forall name | name in hits ensures hits'[name] == hits[name] + Hits(text, reps, name) {
      assert HitsSoFar(hits', hits, text, "", reps, name);
    }
  }

  lemma TokenizedStep(out: string, rest: string, reps: seq<Replacement>)
    requires Wellformed(reps) && rest != ""
    ensures var m := Match(rest, reps);
            out + Tokenized(rest, reps)
            == if m.Some? then (out + Placeholder(m.value.name)) + Tokenized(rest[|m.value.value|..], reps)
               else (out + [rest[0]]) + Tokenized(rest[1..], reps)
  {
    var m := Match(rest, reps);
    if m.Some? {
      Append(out, Placeholder(m.value.name), Tokenized(rest[|m.value.value|..], reps));
    } else {
      Append(out, [rest[0]], Tokenized(rest[1..], reps));
    }
  }

  lemma HitsStep(before: map<string, nat>, hits': map<string, nat>, hits: map<string, nat>, text: string, from: string,
                 rest: string, reps: seq<Replacement>, m: Option<Replacement>)
    requires Wellformed(reps) && from != "" && m == Match(from, reps) && AllHits(before, hits, text, from, reps)
    requires m.Some? ==> m.value.name in hits
    requires rest == (if m.Some? then from[|m.value.value|..] else from[1..])
    requires hits' == (if m.Some? then before[m.value.name := before[m.value.name] + 1] else before)
    ensures AllHits(hits', hits, text, rest, reps)
  {
    forall name | name in hits ensures HitsSoFar(hits', hits, text, rest, reps, name) {
      assert HitsSoFar(before, hits, text, from, reps, name);
    }
  }

  lemma Append(a: string, b: string, c: string)
    ensures a + (b + c) == (a + b) + c
  {
  }

  /** The regular-expression substitution as it runs, left to right; `rest` is what is still to be searched. */
  method Substitute(text: string, reps: seq<Replacement>, hits: map<string, nat>) returns (out: string, hits': map<string, nat>)
    requires Wellformed(reps) && forall i :: 0 <= i < |reps| ==> reps[i].name in hits
    ensures out == Tokenized(text, reps)
    ensures hits'.Keys == hits.Keys && forall name :: name in hits ==> hits'[name] == hits[name] + Hits(text, reps, name)
  {
    out, hits' := "", hits;
    var rest := text;
    while rest != ""
      invariant out + Tokenized(rest, reps) == Tokenized(text, reps)
      invariant AllHits(hits', hits, text, rest, reps)
      decreases |rest|
    {
      var m := Match(rest, reps);
      ghost var before, from := hits', rest;
      TokenizedStep(out, rest, reps);
      if m.Some? {
        out := out + Placeholder(m.value.name);
        hits' := hits'[m.value.name := hits'[m.value.name] + 1];
        rest := rest[|m.value.value|..];
      } else {
        out := out + [rest[0]];
        rest := rest[1..];
      }
      HitsStep(before, hits', hits, text, from, rest, reps, m);
    }
    NoHitsLeft(hits', hits, text, reps);
  }

  // ---- a placeholder in the output was put there, or was in the input ----

  lemma OpensInserted(text: string, reps: seq<Replacement>)
    requires Wellformed(reps) && text != "" && Match(text, reps).Some?
    ensures |Tokenized(text, reps)| >= 2 && Tokenized(text, reps)[0] == '{' && Tokenized(text, reps)[1] == '{'
  {
    var inserted := Placeholder(Match(text, reps).value.name);
    assert Tokenized(text, reps)[0] == inserted[0] && Tokenized(text, reps)[1] == inserted[1];
  }

  /** No source value matches at any of the first `k` places. */
  predicate Untouched(text: string, k: nat, reps: seq<Replacement>)
    requires k <= |text|
  {
    forall i :: 0 <= i < k ==> Match(text[i..], reps).None?
  }

  lemma UntouchedMore(text: string, k: nat, reps: seq<Replacement>)
    requires text != "" && Match(text, reps).None? && k <= |text[1..]| && Untouched(text[1..], k, reps)
    ensures Untouched(text, k + 1, reps)
  {
    forall i | 0 <= i < k + 1 ensures Match(text[i..], reps).None? {
      if i == 0 { assert text[0..] == text; } else { assert text[i..] == text[1..][i - 1..]; }
    }
  }

  /** The part of a placeholder after its first character cannot reach into an inserted placeholder. */
  lemma {:induction false} NoPartial(name: string, d: nat, text: string, reps: seq<Replacement>)
    requires TokenName(name) && Wellformed(reps) && 1 <= d <= |Placeholder(name)|
    requires Placeholder(name)[d..] <= Tokenized(text, reps)
    ensures Placeholder(name)[d..] <= text && Untouched(text, |Placeholder(name)| - d, reps)
    decreases |Placeholder(name)| - d
  {
    var p := Placeholder(name);
    if d < |p| {
      var m := Match(text, reps);
      assert p[d..][0] == p[d] && (d == 1 ==> p[d..][1] == p[2]);
      if d >= 2 { OpensOnce(name, d); }
      if m.Some? {
        OpensInserted(text, reps);
      } else {
        assert p[d..][1..] == p[d + 1..];
        assert Tokenized(text, reps)[1..] == Tokenized(text[1..], reps);
        NoPartial(name, d + 1, text[1..], reps);
        UntouchedMore(text, |p| - d - 1, reps);
      }
    }
  }

  /** Where no source matches, a placeholder at the front of the output is at the front of the input. */
  lemma NotStarted(name: string, text: string, reps: seq<Replacement>)
    requires TokenName(name) && Wellformed(reps) && text != "" && Match(text, reps).None?
    requires Placeholder(name) <= Tokenized(text, reps)
    ensures Placeholder(name) <= text && Untouched(text, |Placeholder(name)|, reps)
    ensures Occurs(Placeholder(name), text)
  {
    var p := Placeholder(name);
    assert Tokenized(text, reps)[1..] == Tokenized(text[1..], reps);
    NoPartial(name, 1, text[1..], reps);
    UntouchedMore(text, |p| - 1, reps);
    assert p == [p[0]] + p[1..] && text == [text[0]] + text[1..];
    assert text[0..] == text;
  }

  /** Counting another token's placeholders can skip an inserted one. */
  lemma SkipsPlaceholder(name: string, other: string, rest: string)
    requires TokenName(name) && TokenName(other) && name != other
    ensures Count(Placeholder(name), Placeholder(other) + rest) == Count(Placeholder(name), rest)
  {
    SkipsFrom(name, other, rest, 0);
  }

  lemma {:induction false} SkipsFrom(name: string, other: string, rest: string, d: nat)
    requires TokenName(name) && TokenName(other) && name != other && d <= |Placeholder(other)|
    ensures Count(Placeholder(name), Placeholder(other)[d..] + rest) == Count(Placeholder(name), rest)
    decreases |Placeholder(other)| - d
  {
    var p, q := Placeholder(name), Placeholder(other);
    var text := q[d..] + rest;
    if d == |q| {
      assert text == rest;
    } else {
      SkipsFrom(name, other, rest, d + 1);
      assert text[1..] == q[d + 1..] + rest;
      NotInside(name, other, rest, d);
    }
  }

  lemma NotInside(name: string, other: string, rest: string, d: nat)
    requires TokenName(name) && TokenName(other) && name != other && d < |Placeholder(other)|
    ensures !(Placeholder(name) <= Placeholder(other)[d..] + rest)
  {
    var q := Placeholder(other);
    var text := q[d..] + rest;
    assert text[0] == q[d];
    if d == 0 {
      assert text == q + rest;
      PlaceholdersDiffer(other, name, rest);
    } else if d == 1 {
      assert text[1] == q[2];
    } else {
      OpensOnce(other, d);
    }
  }

  /** The reader counts the placeholders the writer put in, if the text held none before. */
  lemma {:induction false} CountsHits(text: string, reps: seq<Replacement>, name: string)
    requires Wellformed(reps) && TokenName(name) && !Occurs(Placeholder(name), text)
    ensures Count(Placeholder(name), Tokenized(text, reps)) == Hits(text, reps, name)
    decreases |text|
  {
    if text != "" {
      var m, p := Match(text, reps), Placeholder(name);
      if m.Some? {
        var k := |m.value.value|;
        if Occurs(p, text[k..]) { OccursLater(p, text, k); }
        CountsHits(text[k..], reps, name);
        var rest := Tokenized(text[k..], reps);
        if m.value.name == name {
          assert (p + rest)[|p|..] == rest;
        } else {
          SkipsPlaceholder(name, m.value.name, rest);
        }
      } else {
        if Occurs(p, text[1..]) { OccursLater(p, text, 1); }
        CountsHits(text[1..], reps, name);
        if p <= Tokenized(text, reps) { NotStarted(name, text, reps); }
        assert Tokenized(text, reps)[1..] == Tokenized(text[1..], reps);
      }
    }
  }

  /** Undoing the placeholders restores the text, if it held none of them before. */
  lemma {:induction false} RoundTrip(text: string, reps: seq<Replacement>)
    requires Wellformed(reps) && forall i :: 0 <= i < |reps| ==> !Occurs(Placeholder(reps[i].name), text)
    ensures Restored(Tokenized(text, reps), reps) == text
    decreases |text|
  {
    if text != "" {
      var m := Match(text, reps);
      var k := if m.Some? then |m.value.value| else 1;
      forall i | 0 <= i < |reps| ensures !Occurs(Placeholder(reps[i].name), text[k..]) {
        if Occurs(Placeholder(reps[i].name), text[k..]) { OccursLater(Placeholder(reps[i].name), text, k); }
      }
      RoundTrip(text[k..], reps);
      if m.Some? {
        RestoresInserted(m.value, Tokenized(text[k..], reps), reps);
        assert text == m.value.value + text[k..];
      } else {
        RestoresPlain(text, reps);
      }
    }
  }

  lemma RestoresInserted(r: Replacement, rest: string, reps: seq<Replacement>)
    requires Wellformed(reps) && r in reps
    ensures Restored(Placeholder(r.name) + rest, reps) == r.value + Restored(rest, reps)
  {
    var out, p := Placeholder(r.name) + rest, Placeholder(r.name);
    assert p <= out && out[|p|..] == rest;
    var front := Marked(out, reps).value;
    if front.name != r.name { PlaceholdersDiffer(r.name, front.name, rest); }
    assert front == r;
  }

  lemma RestoresPlain(text: string, reps: seq<Replacement>)
    requires Wellformed(reps) && text != "" && Match(text, reps).None?
    requires forall i :: 0 <= i < |reps| ==> !Occurs(Placeholder(reps[i].name), text)
    ensures Restored(Tokenized(text, reps), reps) == [text[0]] + Restored(Tokenized(text[1..], reps), reps)
  {
    var out := Tokenized(text, reps);
    var front := Marked(out, reps);
    if front.Some? { NotStarted(front.value.name, text, reps); }
    assert out[1..] == Tokenized(text[1..], reps);
  }

  /** A text without any source value is left alone. */
  lemma {:induction false} NothingToDo(text: string, reps: seq<Replacement>)
    requires Wellformed(reps) && forall i :: 0 <= i < |reps| ==> !Occurs(reps[i].value, text)
    ensures Tokenized(text, reps) == text && forall name :: Hits(text, reps, name) == 0
    decreases |text|
  {
    if text != "" {
      assert text[0..] == text;
      assert Match(text, reps).None?;
      forall i | 0 <= i < |reps| ensures !Occurs(reps[i].value, text[1..]) {
        if Occurs(reps[i].value, text[1..]) { OccursLater(reps[i].value, text, 1); }
      }
      NothingToDo(text[1..], reps);
    }
  }

  // ---- a placeholder that is left standing ----

  /** Going through the text as the substitution does, some occurrence of `p` is met that no match cuts into. */
  predicate Survives(p: string, text: string, reps: seq<Replacement>)
    requires Wellformed(reps)
    decreases |text|
  {
    text != "" &&
    var m := Match(text, reps);
    if m.Some? then Survives(p, text[|m.value.value|..], reps)
    else (p <= text && Untouched(text, |p|, reps)) || Survives(p, text[1..], reps)
  }

  lemma {:induction false} Copied(text: string, k: nat, reps: seq<Replacement>)
    requires Wellformed(reps) && k <= |text| && Untouched(text, k, reps)
    ensures Tokenized(text, reps) == text[..k] + Tokenized(text[k..], reps)
    decreases k
  {
    assert text[0..] == text;
    if k > 0 {
      assert Match(text[0..], reps).None?;
      forall i | 0 <= i < k - 1 ensures Match(text[1..][i..], reps).None? {
        assert text[1..][i..] == text[i + 1..];
      }
      Copied(text[1..], k - 1, reps);
      assert text[1..][k - 1..] == text[k..] && text[..k] == [text[0]] + text[1..][..k - 1];
    }
  }

  lemma OccursSplit(p: string, q: string, rest: string)
    requires Occurs(p, q + rest)
    ensures Occurs(p, rest) || exists d :: 0 <= d < |q| && p <= q[d..] + rest
  {
    var text := q + rest;
    var i :| 0 <= i <= |text| - |p| && p <= text[i..];
    if i < |q| {
      assert text[i..] == q[i..] + rest;
    } else {
      assert text[i..] == rest[i - |q|..];
    }
  }

  /** The output holds the placeholder of a token that is not put in exactly when one of the input's is left standing. */
  lemma {:induction false} StandsIffSurvives(name: string, text: string, reps: seq<Replacement>)
    requires Wellformed(reps) && TokenName(name) && forall i :: 0 <= i < |reps| ==> reps[i].name != name
    ensures Occurs(Placeholder(name), Tokenized(text, reps)) <==> Survives(Placeholder(name), text, reps)
    decreases |text|
  {
    var p, out := Placeholder(name), Tokenized(text, reps);
    if text != "" {
      var m := Match(text, reps);
      if m.Some? {
        var q, rest := Placeholder(m.value.name), text[|m.value.value|..];
        StandsIffSurvives(name, rest, reps);
        var j :| 0 <= j < |reps| && reps[j] == m.value;
        forall d | 0 <= d < |q| ensures !(p <= q[d..] + Tokenized(rest, reps)) {
          NotInside(name, m.value.name, Tokenized(rest, reps), d);
        }
        if Occurs(p, out) { OccursSplit(p, q, Tokenized(rest, reps)); }
        assert out[|q|..] == Tokenized(rest, reps);
        if Occurs(p, Tokenized(rest, reps)) { OccursLater(p, out, |q|); }
      } else {
        StandsIffSurvives(name, text[1..], reps);
        PlainStands(name, text, reps);
      }
    }
  }

  lemma PlainStands(name: string, text: string, reps: seq<Replacement>)
    requires Wellformed(reps) && TokenName(name) && text != "" && Match(text, reps).None?
    requires Occurs(Placeholder(name), Tokenized(text[1..], reps)) <==> Survives(Placeholder(name), text[1..], reps)
    ensures Occurs(Placeholder(name), Tokenized(text, reps)) <==> Survives(Placeholder(name), text, reps)
  {
    var p, out, rest := Placeholder(name), Tokenized(text, reps), Tokenized(text[1..], reps);
    assert out == [text[0]] + rest && out[1..] == rest;
    if p <= text && Untouched(text, |p|, reps) {
      Copied(text, |p|, reps);
      assert out[0..] == out && p <= out;
    }
    if Occurs(p, rest) { OccursLater(p, out, 1); }
    if p <= out { NotStarted(name, text, reps); }
    if Occurs(p, out) {
      OccursSplit(p, [text[0]], rest);
      assert [text[0]][0..] + rest == out;
    }
  }

  /** A source value that no match can use to cut into the placeholder `p`. */
  predicate Harmless(value: string, p: string) {
    '{' !in value && '}' !in value && !Occurs(value, p)
  }

  /** Such values leave every placeholder of the input standing. */
  lemma {:induction false} HarmlessSurvives(name: string, text: string, reps: seq<Replacement>)
    requires Wellformed(reps) && TokenName(name)
    requires forall i :: 0 <= i < |reps| ==> Harmless(reps[i].value, Placeholder(name))
    ensures Survives(Placeholder(name), text, reps) <==> Occurs(Placeholder(name), text)
    decreases |text|
  {
    var p := Placeholder(name);
    if text != "" {
      var m := Match(text, reps);
      var k := if m.Some? then |m.value.value| else 1;
      HarmlessSurvives(name, text[k..], reps);
      assert text[0..] == text;
      if m.None? && p <= text { HarmlessUntouched(name, text, reps); }
      if m.Some? { OccursAfter(m.value.value, p, text); }
      OccursHere(p, text);
    }
  }

  /** A value without a brace at the front of the text cuts into no placeholder, so each is still there after it. */
  lemma OccursAfter(value: string, p: string, text: string)
    requires value <= text && p != "" && p[0] == '{' && '{' !in value
    ensures Occurs(p, text) <==> Occurs(p, text[|value|..])
  {
    var k := |value|;
    if Occurs(p, text[k..]) { OccursLater(p, text, k); }
    if Occurs(p, text) {
      var i :| 0 <= i <= |text| - |p| && p <= text[i..];
      OpensAfter(value, p, text, i);
      assert text[k..][i - k..] == text[i..];
    }
  }

  lemma OpensAfter(value: string, p: string, text: string, i: nat)
    requires value <= text && i <= |text| && p <= text[i..] && p != "" && p[0] == '{'
    ensures i < |value| ==> '{' in value
  {
    if i < |value| { assert value[i] == text[i] == text[i..][0] == p[0]; }
  }

  lemma HarmlessUntouched(name: string, text: string, reps: seq<Replacement>)
    requires Wellformed(reps) && TokenName(name) && Placeholder(name) <= text
    requires forall i :: 0 <= i < |reps| ==> Harmless(reps[i].value, Placeholder(name))
    ensures Untouched(text, |Placeholder(name)|, reps)
  {
    var p := Placeholder(name);
    forall i, x | 0 <= i < |p| && x in reps ensures !(x.value <= text[i..]) {
      HarmlessMisses(x.value, p, text, i);
    }
  }

  lemma HarmlessMisses(value: string, p: string, text: string, i: nat)
    requires p <= text && i < |p| && value != "" && p[|p| - 1] == '}'
    ensures Harmless(value, p) ==> !(value <= text[i..])
  {
    if value <= text[i..] {
      if i + |value| <= |p| {
        assert value == text[i..][..|value|] == p[i..][..|value|];
      } else {
        assert value[|p| - 1 - i] == text[|p| - 1] == p[|p| - 1];
      }
    }
  }

  // ---- overlapping sources ----

  predicate LexLess(x: string, y: string) {
    if y == "" then false
    else if x == "" then true
    else x[0] < y[0] || (x[0] == y[0] && LexLess(x[1..], y[1..]))
  }

  /** The check the source makes: a source value inside one that sorts after it. */
  predicate Overlapping(reps: seq<Replacement>) {
    exists i, j :: 0 <= i < |reps| && 0 <= j < |reps| && LexLess(reps[i].value, reps[j].value) && Occurs(reps[i].value, reps[j].value)
  }

  lemma {:induction false} PrefixSortsFirst(x: string, y: string)
    requires x < y
    ensures LexLess(x, y)
  {
    if x != "" { PrefixSortsFirst(x[1..], y[1..]); }
  }

  /** The check is enough to make the match at any place unique, so the order of alternatives does not matter. */
  lemma MatchesAreUnique(text: string, reps: seq<Replacement>, i: nat, j: nat)
    requires !Overlapping(reps) && i < |reps| && j < |reps|
    requires reps[i].value <= text && reps[j].value <= text
    ensures reps[i].value == reps[j].value
  {
    var x, y := reps[i].value, reps[j].value;
    assert x[0..] == x && y[0..] == y;
    if |x| < |y| {
      assert x < y;
      PrefixSortsFirst(x, y);
    } else if |y| < |x| {
      assert y < x;
      PrefixSortsFirst(y, x);
    }
  }

  /** A source value inside one that sorts before it, which the check does not look for. */
  predicate InsideEarlier(reps: seq<Replacement>) {
    exists i, j :: 0 <= i < |reps| && 0 <= j < |reps| && LexLess(reps[j].value, reps[i].value) && Occurs(reps[i].value, reps[j].value)
  }

  /** No source value is inside a different one. */
  predicate SubstringFree(reps: seq<Replacement>) {
    forall i, j :: 0 <= i < |reps| && 0 <= j < |reps| && reps[i].value != reps[j].value ==> !Occurs(reps[i].value, reps[j].value)
  }

  lemma {:induction false} LexTotal(x: string, y: string)
    ensures LexLess(x, y) || LexLess(y, x) <==> x != y
  {
    if x != "" && y != "" {
      LexTotal(x[1..], y[1..]);
      assert x == [x[0]] + x[1..] && y == [y[0]] + y[1..];
    }
  }

  /** Sources that pass the check are free of each other exactly when none is inside one that sorts before it. */
  lemma SubstringFreeIff(reps: seq<Replacement>)
    ensures SubstringFree(reps) <==> !Overlapping(reps) && !InsideEarlier(reps)
  {
    forall i, j | 0 <= i < |reps| && 0 <= j < |reps|
      ensures reps[i].value != reps[j].value <==> LexLess(reps[i].value, reps[j].value) || LexLess(reps[j].value, reps[i].value)
    {
      LexTotal(reps[i].value, reps[j].value);
    }
  }

  /** It does not make sources free of each other: "b" is inside "ab", which sorts before it. */
  lemma OverlapCheckIsOneSided()
    ensures var reps := [Replacement("ab", "A", []), Replacement("b", "B", [])];
            !Overlapping(reps) && Occurs(reps[1].value, reps[0].value)
  {
    assert "b" <= "ab"[1..];
    assert !Occurs("ab", "b");
  }
}
