/** What the bundle writer and its reader agree on: what is written, when it can be read back, and what a bundle that
    cannot be read back does to later writes. */
module BundleAgreement {
  import opened Wrappers
  import opened Tokens
  import opened DefinitionBundle

  lemma OldFilesGo(files: map<string, string>, before: set<string>, parts: map<string, string>)
    requires files.Keys <= before
    ensures (files - (before - parts.Keys)) + parts == parts
  {
  }

  /** Writing leaves exactly the prepared parts: nothing stale and nothing foreign. */
  lemma WritesPrepared(tree: Tree, d: Definition, reps: seq<Replacement>, itemType: Option<string>, expected: Option<string>,
                       utf8: string -> bool)
    requires Written(tree, d, reps, itemType, expected, utf8).Some?
    ensures var prepared := Prepare(d, reps, itemType, expected, utf8);
      prepared.Some? && Written(tree, d, reps, itemType, expected, utf8) == Some(Tree(Readable(prepared.value.metadata), prepared.value.parts))
  {
    var prepared := Prepare(d, reps, itemType, expected, utf8).value;
    assert tree.files.Keys <= OldPaths(tree);
    OldFilesGo(tree.files, OldPaths(tree), prepared.parts);
  }

  lemma PreparesTokenized(d: Definition, reps: seq<Replacement>, itemType: Option<string>, expected: Option<string>, utf8: string -> bool)
    requires Prepare(d, reps, itemType, expected, utf8).Some?
    ensures Decode(d.parts).Some? && Wellformed(reps) && FormatOf(d, expected).Some?
    ensures Prepare(d, reps, itemType, expected, utf8).value.parts == TokenizedParts(Decode(d.parts).value, reps)
    ensures Prepare(d, reps, itemType, expected, utf8).value.metadata.format == FormatOf(d, expected).value
  {
  }

  /** The files afterwards are the tokenised parts of the definition. */
  lemma WritesExactly(tree: Tree, d: Definition, reps: seq<Replacement>, itemType: Option<string>, expected: Option<string>,
                      utf8: string -> bool)
    requires Written(tree, d, reps, itemType, expected, utf8).Some?
    ensures Decode(d.parts).Some? && Wellformed(reps) && FormatOf(d, expected).Some?
    ensures Written(tree, d, reps, itemType, expected, utf8).value.files == TokenizedParts(Decode(d.parts).value, reps)
  {
    WritesPrepared(tree, d, reps, itemType, expected, utf8);
    PreparesTokenized(d, reps, itemType, expected, utf8);
  }

  /** No token's placeholder is in a part outside its scope. */
  ghost predicate CleanOutside(files: map<string, string>, reps: seq<Replacement>) {
    forall i :: 0 <= i < |reps| ==> CleanOf(files, reps[i])
  }

  ghost predicate CleanOf(files: map<string, string>, r: Replacement) {
    forall path :: path in files && !InScope(r, path) ==> !Occurs(Placeholder(r.name), files[path])
  }

  /** A replacement is not made outside its scope. */
  lemma {:induction false} NoHitsOutside(text: string, scope: seq<Replacement>, name: string)
    requires Wellformed(scope) && forall i :: 0 <= i < |scope| ==> scope[i].name != name
    ensures Hits(text, scope, name) == 0
    decreases |text|
  {
    if text != "" {
      var m := Match(text, scope);
      NoHitsOutside(if m.Some? then text[|m.value.value|..] else text[1..], scope, name);
    }
  }

  /** In a part that held none of a token's placeholders the reader counts what the writer counted. */
  lemma PartCounts(parts: map<string, string>, reps: seq<Replacement>, name: string, path: string)
    requires Wellformed(reps) && TokenName(name) && path in parts && !Occurs(Placeholder(name), parts[path])
    ensures PlacesIn(TokenizedParts(parts, reps), name, path) == PartHits(parts, reps, name, path)
    ensures Occurs(Placeholder(name), TokenizedParts(parts, reps)[path]) <==> PartHits(parts, reps, name, path) > 0
  {
    CountsHits(parts[path], Scope(reps, path), name);
    CountsWhatOccurs(Placeholder(name), TokenizedParts(parts, reps)[path]);
  }

  lemma OutsidePartCounts(parts: map<string, string>, reps: seq<Replacement>, i: nat, path: string)
    requires Wellformed(reps) && i < |reps| && path in parts && !InScope(reps[i], path)
    ensures PartHits(parts, reps, reps[i].name, path) == 0
  {
    NotInScopeNames(reps, i, path);
    NoHitsOutside(parts[path], Scope(reps, path), reps[i].name);
  }

  /** The reader confirms a token exactly when its placeholder is in no tokenised part outside its scope. */
  lemma ConfirmedIffClean(parts: map<string, string>, reps: seq<Replacement>, i: nat)
    requires Normalized(reps, parts) && i < |reps|
    ensures var files := TokenizedParts(parts, reps);
      Observed(files, parts.Keys, reps[i].name) == TokenFor(parts, reps, reps[i].name) <==> CleanOf(files, reps[i])
  {
    var files, name := TokenizedParts(parts, reps), reps[i].name;
    forall path | path in parts
      ensures InScope(reps[i], path) || !Occurs(Placeholder(name), files[path]) ==>
        PlacesIn(files, name, path) == PartHits(parts, reps, name, path)
        && (Occurs(Placeholder(name), files[path]) <==> PartHits(parts, reps, name, path) > 0)
      ensures !InScope(reps[i], path) ==> PartHits(parts, reps, name, path) == 0
    {
      if InScope(reps[i], path) {
        PartCounts(parts, reps, name, path);
      } else {
        OutsidePartCounts(parts, reps, i, path);
        CountsWhatOccurs(Placeholder(name), files[path]);
      }
    }
    if CleanOf(files, reps[i]) {
      SumEqual(parts.Keys, PlacesOf(files, name), HitsIn(parts, reps, name));
      assert Observed(files, parts.Keys, name).parts == TokenFor(parts, reps, name).parts;
    } else {
      var path :| path in files && !InScope(reps[i], path) && Occurs(Placeholder(name), files[path]);
      assert path in Observed(files, parts.Keys, name).parts && path !in TokenFor(parts, reps, name).parts;
    }
  }

  lemma {:induction false} DecodesSafely(raw: seq<RawPart>)
    requires Decode(raw).Some?
    ensures forall path :: path in Decode(raw).value ==> SafePath(path)
    ensures raw != [] ==> Decode(raw).value != map[]
  {
    if raw != [] {
      DecodesSafely(raw[..|raw| - 1]);
      assert raw[|raw| - 1].path in Decode(raw).value;
    }
  }

  /** Some part is touched by every token that was counted. */
  lemma {:induction false} SomePart(keys: set<string>, f: string -> nat)
    requires Sum(keys, f) > 0
    ensures exists k :: k in keys && f(k) > 0
  {
    var k :| k in keys && Sum(keys, f) == f(k) + Sum(keys - {k}, f);
    if f(k) == 0 {
      SomePart(keys - {k}, f);
    }
  }

  /** In no part that the token does not apply to is its placeholder left standing by the substitution. */
  predicate NoneStandsOf(parts: map<string, string>, reps: seq<Replacement>, r: Replacement)
    requires Wellformed(reps)
  {
    forall path :: path in parts && !InScope(r, path) ==> !Survives(Placeholder(r.name), parts[path], Scope(reps, path))
  }

  predicate NoneStands(parts: map<string, string>, reps: seq<Replacement>)
    requires Wellformed(reps)
  {
    forall i :: 0 <= i < |reps| ==> NoneStandsOf(parts, reps, reps[i])
  }

  lemma CleanIffNoneStands(parts: map<string, string>, reps: seq<Replacement>)
    requires Wellformed(reps)
    ensures CleanOutside(TokenizedParts(parts, reps), reps) <==> NoneStands(parts, reps)
  {
    forall i, path | 0 <= i < |reps| && path in parts && !InScope(reps[i], path)
      ensures Occurs(Placeholder(reps[i].name), TokenizedParts(parts, reps)[path])
              <==> Survives(Placeholder(reps[i].name), parts[path], Scope(reps, path))
    {
      NotInScopeNames(reps, i, path);
      StandsIffSurvives(reps[i].name, parts[path], Scope(reps, path));
    }
    forall i | 0 <= i < |reps| ensures CleanOf(TokenizedParts(parts, reps), reps[i]) <==> NoneStandsOf(parts, reps, reps[i]) {}
  }

  lemma NotInScopeNames(reps: seq<Replacement>, i: nat, path: string)
    requires Wellformed(reps) && i < |reps| && !InScope(reps[i], path)
    ensures forall j :: 0 <= j < |Scope(reps, path)| ==> Scope(reps, path)[j].name != reps[i].name
  {
    forall j | 0 <= j < |Scope(reps, path)| ensures Scope(reps, path)[j].name != reps[i].name {
      assert Scope(reps, path)[j] in reps;
    }
  }

  /** Reading back what was written succeeds exactly when the substitution leaves standing, in no part of the definition,
      a placeholder of a token that does not apply to that part; then it gives the tokenised parts under the format. */
  lemma WriteThenRead(tree: Tree, d: Definition, reps: seq<Replacement>, itemType: Option<string>, expected: Option<string>,
                      utf8: string -> bool)
    requires Written(tree, d, reps, itemType, expected, utf8).Some?
    ensures Decode(d.parts).Some? && Wellformed(reps)
    ensures var tree' := Written(tree, d, reps, itemType, expected, utf8).value;
      && (Read(tree').Some? <==> NoneStands(Decode(d.parts).value, reps))
      && (Read(tree').Some? ==>
            Read(tree').value == (FormatOf(d, expected).value, TokenizedParts(Decode(d.parts).value, reps)))
  {
    WritesPrepared(tree, d, reps, itemType, expected, utf8);
    PreparesTokenized(d, reps, itemType, expected, utf8);
    PreparedIsConsistent(d, reps, itemType, expected, utf8);
    PreparedReadIffClean(d, reps, itemType, expected, utf8);
    ReadsIfConfirmed(Prepare(d, reps, itemType, expected, utf8).value);
    CleanIffNoneStands(Decode(d.parts).value, reps);
  }

  lemma ReadsIfConfirmed(p: Prepared)
    requires ValidMetadata(p.metadata) && PartsConfirmed(p.metadata, p.parts) && TreeShaped(p.metadata.parts.Keys)
    requires p.metadata.content == Descriptor(p.metadata.format, p.metadata.itemType, p.metadata.parts)
    requires p.parts.Keys == p.metadata.parts.Keys
    ensures Read(Tree(Readable(p.metadata), p.parts)) == if TokensConfirmed(p.metadata, p.parts) then Some((p.metadata.format, p.parts)) else None
  {
  }

  /** Everything the reader checks, apart from the token counts, holds of what was prepared. */
  lemma PreparedIsConsistent(d: Definition, reps: seq<Replacement>, itemType: Option<string>, expected: Option<string>, utf8: string -> bool)
    requires Prepare(d, reps, itemType, expected, utf8).Some?
    ensures var p := Prepare(d, reps, itemType, expected, utf8).value;
      && ValidMetadata(p.metadata) && PartsConfirmed(p.metadata, p.parts) && TreeShaped(p.metadata.parts.Keys)
      && p.metadata.content == Descriptor(p.metadata.format, p.metadata.itemType, p.metadata.parts)
      && p.parts.Keys == p.metadata.parts.Keys
      && (forall name :: name in p.metadata.tokens ==> p.metadata.tokens[name].parts <= p.metadata.parts.Keys)
  {
    var parts := Decode(d.parts).value;
    var p := Prepare(d, reps, itemType, expected, utf8).value;
    DecodesSafely(d.parts);
    assert p.metadata.parts.Keys == parts.Keys;
    forall name | name in p.metadata.tokens
      ensures TokenName(name) && p.metadata.tokens[name].occurrences >= 1
      ensures p.metadata.tokens[name].parts != {} && p.metadata.tokens[name].parts <= parts.Keys
    {
      TokenIsValid(parts, reps, name);
    }
  }

  lemma TokenIsValid(parts: map<string, string>, reps: seq<Replacement>, name: string)
    requires Wellformed(reps) && name in Names(reps) && TokenFor(parts, reps, name).occurrences > 0
    ensures TokenName(name) && TokenFor(parts, reps, name).parts != {} && TokenFor(parts, reps, name).parts <= parts.Keys
  {
    SomePart(parts.Keys, HitsIn(parts, reps, name));
    var path :| path in parts && HitsIn(parts, reps, name)(path) > 0;
    assert path in TokenFor(parts, reps, name).parts;
  }

  lemma PreparedReadIffClean(d: Definition, reps: seq<Replacement>, itemType: Option<string>, expected: Option<string>, utf8: string -> bool)
    requires Prepare(d, reps, itemType, expected, utf8).Some?
    ensures var p := Prepare(d, reps, itemType, expected, utf8).value;
            TokensConfirmed(p.metadata, p.parts) <==> CleanOutside(p.parts, reps)
  {
    var p := Prepare(d, reps, itemType, expected, utf8).value;
    PreparedIsConsistent(d, reps, itemType, expected, utf8);
    TokensConfirmedIffClean(Decode(d.parts).value, reps, p.metadata);
  }

  lemma TokensConfirmedIffClean(parts: map<string, string>, reps: seq<Replacement>, m: Metadata)
    requires Normalized(reps, parts) && m.parts.Keys == parts.Keys && m.tokens == TokensFor(parts, reps)
    ensures TokensConfirmed(m, TokenizedParts(parts, reps)) <==> CleanOutside(TokenizedParts(parts, reps), reps)
  {
    var files := TokenizedParts(parts, reps);
    forall i | 0 <= i < |reps|
      ensures reps[i].name in m.tokens && (TokenConfirmed(m, files, reps[i].name) <==> CleanOf(files, reps[i]))
    {
      OneConfirmedIffClean(parts, reps, m, i);
    }
    if CleanOutside(files, reps) {
      forall name | name in m.tokens ensures TokenConfirmed(m, files, name) {
        var i :| 0 <= i < |reps| && reps[i].name == name;
        assert CleanOf(files, reps[i]);
      }
    }
  }

  lemma OneConfirmedIffClean(parts: map<string, string>, reps: seq<Replacement>, m: Metadata, i: nat)
    requires Normalized(reps, parts) && m.parts.Keys == parts.Keys && m.tokens == TokensFor(parts, reps) && i < |reps|
    ensures reps[i].name in m.tokens
    ensures TokenConfirmed(m, TokenizedParts(parts, reps), reps[i].name) <==> CleanOf(TokenizedParts(parts, reps), reps[i])
  {
    assert reps[i].name in Names(reps);
    ConfirmedIffClean(parts, reps, i);
  }

  lemma {:induction false} SurvivorsOccur(p: string, text: string, reps: seq<Replacement>)
    requires Wellformed(reps) && Survives(p, text, reps)
    ensures Occurs(p, text)
    decreases |text|
  {
    var m := Match(text, reps);
    var k := if m.Some? then |m.value.value| else 1;
    assert text[0..] == text;
    if Survives(p, text[k..], reps) {
      SurvivorsOccur(p, text[k..], reps);
      OccursLater(p, text, k);
    }
  }

  lemma CleanNoneStands(parts: map<string, string>, reps: seq<Replacement>)
    requires Wellformed(reps) && CleanOutside(parts, reps)
    ensures NoneStands(parts, reps)
  {
    forall i, path | 0 <= i < |reps| && path in parts && !InScope(reps[i], path)
      ensures !Survives(Placeholder(reps[i].name), parts[path], Scope(reps, path))
    {
      assert CleanOf(parts, reps[i]);
      if Survives(Placeholder(reps[i].name), parts[path], Scope(reps, path)) {
        SurvivorsOccur(Placeholder(reps[i].name), parts[path], Scope(reps, path));
      }
    }
  }

  /** If no part of the definition holds a placeholder of a token that does not apply to it, what is written can be read. */
  lemma CleanDefinitionIsReadable(tree: Tree, d: Definition, reps: seq<Replacement>, itemType: Option<string>,
                                  expected: Option<string>, utf8: string -> bool)
    requires Written(tree, d, reps, itemType, expected, utf8).Some?
    requires CleanOutside(Decode(d.parts).value, reps)
    ensures Read(Written(tree, d, reps, itemType, expected, utf8).value).Some?
  {
    WriteThenRead(tree, d, reps, itemType, expected, utf8);
    CleanNoneStands(Decode(d.parts).value, reps);
  }

  /** No source value has a brace or is inside a placeholder. */
  predicate AllHarmless(reps: seq<Replacement>) {
    forall i, j :: 0 <= i < |reps| && 0 <= j < |reps| ==> Harmless(reps[i].value, Placeholder(reps[j].name))
  }

  /** With ordinary source values the definition's own placeholders decide: it can be read back exactly when no part holds
      a placeholder of a token that does not apply to that part. */
  lemma HarmlessReadIffClean(tree: Tree, d: Definition, reps: seq<Replacement>, itemType: Option<string>,
                             expected: Option<string>, utf8: string -> bool)
    requires Written(tree, d, reps, itemType, expected, utf8).Some? && AllHarmless(reps)
    ensures Decode(d.parts).Some?
    ensures Read(Written(tree, d, reps, itemType, expected, utf8).value).Some? <==> CleanOutside(Decode(d.parts).value, reps)
  {
    WriteThenRead(tree, d, reps, itemType, expected, utf8);
    var parts := Decode(d.parts).value;
    forall i, path | 0 <= i < |reps| && path in parts
      ensures Survives(Placeholder(reps[i].name), parts[path], Scope(reps, path)) <==> Occurs(Placeholder(reps[i].name), parts[path])
    {
      HarmlessScope(reps, i, path);
      HarmlessSurvives(reps[i].name, parts[path], Scope(reps, path));
    }
    forall i | 0 <= i < |reps| ensures CleanOf(parts, reps[i]) <==> NoneStandsOf(parts, reps, reps[i]) {}
  }

  lemma HarmlessScope(reps: seq<Replacement>, i: nat, path: string)
    requires AllHarmless(reps) && i < |reps|
    ensures forall k :: 0 <= k < |Scope(reps, path)| ==> Harmless(Scope(reps, path)[k].value, Placeholder(reps[i].name))
  {
    forall k | 0 <= k < |Scope(reps, path)| ensures Harmless(Scope(reps, path)[k].value, Placeholder(reps[i].name)) {
      assert Scope(reps, path)[k] in reps;
      var j :| 0 <= j < |reps| && reps[j] == Scope(reps, path)[k];
    }
  }

  /** A directory once written accepts a later definition exactly when that one is acceptable and the first can be read
      back: a bundle that cannot be read back refuses every later write. */
  lemma RewriteIffReadable(tree: Tree, d: Definition, reps: seq<Replacement>, d2: Definition, reps2: seq<Replacement>,
                           itemType: Option<string>, expected: Option<string>, utf8: string -> bool)
    requires Written(tree, d, reps, itemType, expected, utf8).Some?
    ensures Decode(d.parts).Some? && Wellformed(reps)
    ensures Written(Written(tree, d, reps, itemType, expected, utf8).value, d2, reps2, itemType, expected, utf8).Some? <==>
      Prepare(d2, reps2, itemType, expected, utf8).Some? && NoneStands(Decode(d.parts).value, reps)
  {
    WriteThenRead(tree, d, reps, itemType, expected, utf8);
  }

  // ---- a definition that is written and cannot be read back ----

  const UNREADABLE := Definition(Some("f"), [RawPart("a", Some("x")), RawPart("b", Some("{{ .T }}"))])
  const TWO_PARTS := map["a" := "x", "b" := "{{ .T }}"]
  const ONLY_IN_A := [Replacement("x", "T", ["a"])]

  lemma OneSegment(c: char)
    requires c != '/'
    ensures Segments([c]) == [[c]]
  {
    var rest := Segments([c][1..]);
    assert rest == [""];
    assert [c] + rest[0] == [c] && rest[1..] == [];
  }

  lemma UnreadableDecodes()
    ensures DefinitionOk(UNREADABLE, None, None) && Decode(UNREADABLE.parts) == Some(TWO_PARTS)
  {
    var raw := UNREADABLE.parts;
    OneSegment('a');
    OneSegment('b');
    assert "a" == ['a'] && "b" == ['b'];
    assert raw[..1][..0] == [];
    assert Decode(raw[..1]) == Some(map["a" := "x"]);
    assert Decode(raw) == Some(TWO_PARTS);
  }

  lemma OnlyInAIsNormalized()
    ensures Normalized(ONLY_IN_A, TWO_PARTS)
  {
    OneSegment('a');
    assert "a" == ['a'];
    assert SafePath("a");
    assert |Placeholder("T")| > |"x"|;
    assert !Occurs(Placeholder("T"), "x");
    assert !Overlapping(ONLY_IN_A) by { assert !LexLess("x", "x"); }
  }

  lemma OnlyInAIsPutIn()
    ensures Wellformed(ONLY_IN_A) && TokenFor(TWO_PARTS, ONLY_IN_A, "T").occurrences > 0
  {
    assert Scope(ONLY_IN_A, "a") == ONLY_IN_A;
    PutInOnce("x", ONLY_IN_A);
    SumRemove(TWO_PARTS.Keys, HitsIn(TWO_PARTS, ONLY_IN_A, "T"), "a");
  }

  lemma PutInOnce(text: string, reps: seq<Replacement>)
    requires Wellformed(reps) && |reps| == 1 && reps[0].value == text
    ensures Hits(text, reps, reps[0].name) == 1
  {
    var m := Match(text, reps);
    assert reps[0] in reps;
    assert text[|text|..] == "";
  }

  /** A definition the writer takes on an empty directory. */
  lemma TakenWhenEmpty(d: Definition, reps: seq<Replacement>, utf8: string -> bool)
    requires DefinitionOk(d, None, None) && Tokenizable(Decode(d.parts).value, reps, utf8)
    ensures Written(Tree(Absent, map[]), d, reps, None, None, utf8).Some?
  {
  }

  lemma TokenStandsInB()
    ensures Wellformed(ONLY_IN_A) && !NoneStands(TWO_PARTS, ONLY_IN_A)
  {
    assert Scope(ONLY_IN_A, "b") == [];
    assert Placeholder("T") == "{{ .T }}";
    assert Untouched("{{ .T }}", 8, []);
    assert Survives(Placeholder("T"), TWO_PARTS["b"], Scope(ONLY_IN_A, "b"));
    assert !InScope(ONLY_IN_A[0], "b") && !NoneStandsOf(TWO_PARTS, ONLY_IN_A, ONLY_IN_A[0]);
  }

  /** The second part holds, as plain text, the placeholder of a token that applies to the first alone: the definition is
      written, cannot be read back, and the directory refuses every later write. */
  lemma UnreadableIsWritten(d2: Definition, reps2: seq<Replacement>, utf8: string -> bool)
    requires utf8("x")
    ensures Written(Tree(Absent, map[]), UNREADABLE, ONLY_IN_A, None, None, utf8).Some?
    ensures var tree' := Written(Tree(Absent, map[]), UNREADABLE, ONLY_IN_A, None, None, utf8).value;
            Read(tree').None? && Written(tree', d2, reps2, None, None, utf8).None?
  {
    UnreadableDecodes();
    OnlyInAIsNormalized();
    OnlyInAIsPutIn();
    assert Names(ONLY_IN_A) == {"T"};
    TakenWhenEmpty(UNREADABLE, ONLY_IN_A, utf8);
    RewriteIffReadable(Tree(Absent, map[]), UNREADABLE, ONLY_IN_A, d2, reps2, None, None, utf8);
    WriteThenRead(Tree(Absent, map[]), UNREADABLE, ONLY_IN_A, None, None, utf8);
    TokenStandsInB();
  }

  /** Undoing, in every written part, the placeholders of the tokens in its scope restores the definition's parts. */
  lemma PartsAreRecoverable(tree: Tree, d: Definition, reps: seq<Replacement>, itemType: Option<string>,
                            expected: Option<string>, utf8: string -> bool, path: string)
    requires Written(tree, d, reps, itemType, expected, utf8).Some? && path in Decode(d.parts).value
    ensures var files := Written(tree, d, reps, itemType, expected, utf8).value.files;
            path in files && Restored(files[path], Scope(reps, path)) == Decode(d.parts).value[path]
  {
    WritesExactly(tree, d, reps, itemType, expected, utf8);
    var parts, scope := Decode(d.parts).value, Scope(reps, path);
    forall i | 0 <= i < |scope| ensures !Occurs(Placeholder(scope[i].name), parts[path]) {
      assert scope[i] in reps;
    }
    RoundTrip(parts[path], scope);
  }
}
