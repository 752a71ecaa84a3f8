/** Which definitions and bundle directories are accepted, and what the metadata written for a definition says, in the fields
    of both. */
module BundleRules {
  import opened Wrappers
  import opened Tokens
  import opened DefinitionBundle
  import BundleAgreement

  // ---- paths ----

  function Joined(segments: seq<string>): string
    requires segments != []
  {
    if |segments| == 1 then segments[0] else segments[0] + "/" + Joined(segments[1..])
  }

  /** The segments are what stands between the slashes of the path. */
  predicate SplitAtSlashes(path: string, segments: seq<string>) {
    && segments != [] && Joined(segments) == path
    && forall i :: 0 <= i < |segments| ==> '/' !in segments[i]
  }

  lemma {:induction false} SegmentsSplit(path: string)
    ensures SplitAtSlashes(path, Segments(path))
  {
    var segments := Segments(path);
    if path != "" {
      var rest := Segments(path[1..]);
      SegmentsSplit(path[1..]);
      assert path == [path[0]] + path[1..];
      if path[0] == '/' {
        assert segments[1..] == rest;
      } else {
        var front := [path[0]] + rest[0];
        FrontGrows(path[0], rest[0], rest[1..]);
        assert rest == [rest[0]] + rest[1..] && '/' !in front;
        forall i | 0 <= i < |segments| ensures '/' !in segments[i] {
          assert segments[i] == if i == 0 then front else rest[i];
        }
      }
    }
  }

  lemma FrontGrows(c: char, first: string, more: seq<string>)
    ensures Joined([[c] + first] + more) == [c] + Joined([first] + more)
  {
    JoinFront([c] + first, more);
    JoinFront(first, more);
    if more != [] { Reassociated([c], first, "/" + Joined(more)); }
  }

  lemma Reassociated(x: string, y: string, z: string)
    ensures x + y + z == x + (y + z)
  {
  }

  lemma JoinFront(first: string, more: seq<string>)
    ensures Joined([first] + more) == if more == [] then first else first + ("/" + Joined(more))
  {
    var segments := [first] + more;
    assert segments[1..] == more;
    if more != [] { Reassociated(first, "/", Joined(more)); }
  }

  /** A path part must be a relative path of plain names: no backslash or NUL, and no segment that is empty, dots, or the
      metadata file's name. */
  lemma SafePathIff(path: string)
    ensures SafePath(path) <==>
      && |path| > 0 && (forall i :: 0 <= i < |path| ==> path[i] != '\\' && path[i] != '\0')
      && exists segments {:trigger SplitAtSlashes(path, segments)} :: SplitAtSlashes(path, segments)
           && forall i :: 0 <= i < |segments| ==>
                segments[i] != "" && segments[i] != "." && segments[i] != ".." && segments[i] != ".fabric-item.json"
  {
    SegmentsSplit(path);
    forall segments | SplitAtSlashes(path, segments) ensures segments == Segments(path) {
      SplitUnique(path, segments, Segments(path));
    }
  }

  lemma {:induction false} SplitUnique(path: string, xs: seq<string>, ys: seq<string>)
    requires SplitAtSlashes(path, xs) && SplitAtSlashes(path, ys)
    ensures xs == ys
    decreases |xs|
  {
    FirstSlash(path, xs);
    FirstSlash(path, ys);
    assert xs[0] == path[..|xs[0]|] == ys[0];
    if |xs| > 1 && |ys| > 1 {
      SplitUnique(path[|xs[0]| + 1..], xs[1..], ys[1..]);
      assert xs == [xs[0]] + xs[1..] && ys == [ys[0]] + ys[1..];
    }
  }

  lemma FirstSlash(path: string, xs: seq<string>)
    requires SplitAtSlashes(path, xs)
    ensures xs[0] <= path && (|path| > |xs[0]| <==> |xs| > 1)
    ensures forall k :: 0 <= k < |xs[0]| ==> path[k] != '/'
    ensures |xs| > 1 ==> path[|xs[0]|] == '/' && SplitAtSlashes(path[|xs[0]| + 1..], xs[1..])
  {
    if |xs| > 1 {
      assert path == xs[0] + ("/" + Joined(xs[1..]));
      assert path[|xs[0]| + 1..] == Joined(xs[1..]);
    }
  }

  // ---- definitions ----

  /** Every part has a safe path and a payload, and no path is given twice or is a directory on the way to another. */
  predicate SoundParts(parts: seq<RawPart>) {
    && (forall i :: 0 <= i < |parts| ==> SafePath(parts[i].path) && parts[i].payload.Some?)
    && (forall i, j :: 0 <= i < j < |parts| ==> parts[i].path != parts[j].path)
    && (forall i, j :: 0 <= i < |parts| && 0 <= j < |parts| ==> !(parts[i].path + "/" <= parts[j].path))
  }

  /** The definition has parts and a format, its own or the expected one, and the two do not differ; an item type is not empty
      and has no blanks around it. */
  predicate SoundDefinition(d: Definition, itemType: Option<string>, expected: Option<string>) {
    && |d.parts| > 0 && SoundParts(d.parts)
    && (if expected.Some? then |expected.value| > 0 && (d.format.Some? && |d.format.value| > 0 ==> d.format.value == expected.value)
        else d.format.Some? && |d.format.value| > 0)
    && (itemType.Some? ==>
          var t := itemType.value;
          |t| > 0 && t[0] !in {' ', '\t', '\n', '\r'} && t[|t| - 1] !in {' ', '\t', '\n', '\r'})
  }

  /** The decoded parts are the payloads under their paths. */
  predicate Decoded(parts: seq<RawPart>, files: map<string, string>) {
    && (forall i :: 0 <= i < |parts| ==> parts[i].path in files && parts[i].payload == Some(files[parts[i].path]))
    && (forall path :: path in files ==> exists i :: 0 <= i < |parts| && parts[i].path == path)
  }

  predicate PlainParts(parts: seq<RawPart>) {
    && (forall i :: 0 <= i < |parts| ==> SafePath(parts[i].path) && parts[i].payload.Some?)
    && (forall i, j :: 0 <= i < j < |parts| ==> parts[i].path != parts[j].path)
  }

  lemma {:induction false} DecodesIff(parts: seq<RawPart>)
    ensures Decode(parts).Some? <==> PlainParts(parts)
  {
    if parts != [] {
      var n := |parts| - 1;
      var few, last := parts[..n], parts[n];
      DecodesIff(few);
      assert parts == few + [last];
      PlainGrows(few, last);
      if Decode(few).Some? { DecodesParts(few); }
    }
  }

  lemma PlainGrows(few: seq<RawPart>, last: RawPart)
    ensures PlainParts(few + [last]) <==>
      PlainParts(few) && SafePath(last.path) && last.payload.Some? && forall i :: 0 <= i < |few| ==> few[i].path != last.path
  {
    var parts := few + [last];
    forall i | 0 <= i < |few| ensures parts[i] == few[i] {}
    if PlainParts(parts) {
      forall i | 0 <= i < |few| ensures few[i].path != last.path { assert parts[i].path != parts[|few|].path; }
      forall i | 0 <= i < |few| ensures SafePath(few[i].path) && few[i].payload.Some? { assert SafePath(parts[i].path); }
      forall i, j | 0 <= i < j < |few| ensures few[i].path != few[j].path { assert parts[i].path != parts[j].path; }
      assert SafePath(parts[|few|].path);
    }
  }

  lemma {:induction false} DecodesParts(parts: seq<RawPart>)
    requires Decode(parts).Some?
    ensures Decoded(parts, Decode(parts).value)
  {
    if parts != [] {
      var n := |parts| - 1;
      var few := parts[..n];
      DecodesParts(few);
      forall i | 0 <= i < n ensures few[i] == parts[i] {}
      forall path | path in Decode(parts).value ensures exists i :: 0 <= i < |parts| && parts[i].path == path {
        if path != parts[n].path {
          var i :| 0 <= i < n && few[i].path == path;
        }
      }
    }
  }

  lemma DefinitionSound(d: Definition, itemType: Option<string>, expected: Option<string>)
    ensures DefinitionOk(d, itemType, expected) <==> SoundDefinition(d, itemType, expected)
    ensures DefinitionOk(d, itemType, expected) ==>
      Decoded(d.parts, Decode(d.parts).value)
      && FormatOf(d, expected) == if expected.Some? then expected else d.format
  {
    PartsSound(d.parts);
  }

  lemma PartsSound(parts: seq<RawPart>)
    ensures Decode(parts).Some? && TreeShaped(Decode(parts).value.Keys) <==> SoundParts(parts)
    ensures Decode(parts).Some? ==> Decoded(parts, Decode(parts).value)
  {
    DecodesIff(parts);
    if Decode(parts).Some? {
      DecodesParts(parts);
      ShapedIff(parts, Decode(parts).value);
    }
  }

  lemma ShapedIff(parts: seq<RawPart>, files: map<string, string>)
    requires Decoded(parts, files)
    ensures TreeShaped(files.Keys) <==>
      forall i, j :: 0 <= i < |parts| && 0 <= j < |parts| ==> !(parts[i].path + "/" <= parts[j].path)
  {
    if forall i, j :: 0 <= i < |parts| && 0 <= j < |parts| ==> !(parts[i].path + "/" <= parts[j].path) {
      forall p, q | p in files && q in files ensures !(p + "/" <= q) {
        var i :| 0 <= i < |parts| && parts[i].path == p;
        var j :| 0 <= j < |parts| && parts[j].path == q;
      }
    }
    if TreeShaped(files.Keys) {
      forall i, j | 0 <= i < |parts| && 0 <= j < |parts| ensures !(parts[i].path + "/" <= parts[j].path) {
        assert parts[i].path in files.Keys && parts[j].path in files.Keys;
      }
    }
  }

  // ---- replacements ----

  /** Values are not empty, names are words that begin with a letter, and neither is given twice. */
  predicate SoundNames(reps: seq<Replacement>) {
    && (forall i :: 0 <= i < |reps| ==> |reps[i].value| > 0 && TokenName(reps[i].name))
    && (forall i, j :: 0 <= i < j < |reps| ==> reps[i].name != reps[j].name && reps[i].value != reps[j].value)
  }

  /** The parts a replacement is for are parts of the definition, each listed once; in none of them, or of all if none is
      listed, does its placeholder stand already. */
  predicate SoundScope(r: Replacement, files: map<string, string>) {
    && (forall k :: 0 <= k < |r.parts| ==> r.parts[k] in files)
    && (forall j, k :: 0 <= j < k < |r.parts| ==> r.parts[j] != r.parts[k])
    && (forall path :: path in files && (|r.parts| == 0 || path in r.parts) ==> !Occurs(Placeholder(r.name), files[path]))
  }

  /** The replacement is for the part. */
  predicate AppliesTo(r: Replacement, path: string) {
    |r.parts| == 0 || path in r.parts
  }

  /** No source value stands in a part, to which it applies, that is not text. */
  predicate InText(reps: seq<Replacement>, files: map<string, string>, utf8: string -> bool) {
    forall path, i :: path in files && 0 <= i < |reps| && AppliesTo(reps[i], path) && Occurs(reps[i].value, files[path]) ==>
      utf8(files[path])
  }

  /** The replacements accepted for the parts: sound, not one inside another that sorts after it, in text, and all used. */
  ghost predicate SoundReplacements(reps: seq<Replacement>, files: map<string, string>, utf8: string -> bool) {
    && SoundNames(reps) && (forall i :: 0 <= i < |reps| ==> SoundScope(reps[i], files)) && !Overlapping(reps)
    && InText(reps, files, utf8)
    && forall i :: 0 <= i < |reps| ==> Used(reps, files, i)
  }

  /** Some part to which the replacement applies gets its token. */
  ghost predicate Used(reps: seq<Replacement>, files: map<string, string>, i: nat)
    requires SoundNames(reps) && i < |reps|
  {
    exists path :: path in files && AppliesTo(reps[i], path) && PutIn(files[path], reps, path, reps[i].name)
  }

  /** The substitution puts the token in at least once. */
  ghost predicate PutIn(text: string, reps: seq<Replacement>, path: string, name: string)
    requires SoundNames(reps)
  {
    Hits(text, Scope(reps, path), name) > 0
  }

  lemma ReplacementsSound(reps: seq<Replacement>, files: map<string, string>, utf8: string -> bool)
    requires forall path :: path in files ==> SafePath(path)
    ensures Tokenizable(files, reps, utf8) <==> SoundReplacements(reps, files, utf8)
  {
    assert Normalized(reps, files) <==>
      SoundNames(reps) && (forall i :: 0 <= i < |reps| ==> SoundScope(reps[i], files)) && !Overlapping(reps);
    TextIff(reps, files, utf8);
    if SoundNames(reps) { AllUsedIff(reps, files); }
  }

  lemma TextIff(reps: seq<Replacement>, files: map<string, string>, utf8: string -> bool)
    ensures (forall path :: path in files ==> !NotText(files, reps, utf8, path)) <==> InText(reps, files, utf8)
  {
    forall path | path in files
      ensures NotText(files, reps, utf8, path) <==> !utf8(files[path]) && StandsIn(reps, path, files[path])
    {
      ScopeApplies(reps, path, files[path]);
    }
    if InText(reps, files, utf8) {
      forall path | path in files ensures !NotText(files, reps, utf8, path) {
        if StandsIn(reps, path, files[path]) {
          var i :| 0 <= i < |reps| && AppliesTo(reps[i], path) && Occurs(reps[i].value, files[path]);
        }
      }
    }
    if forall path :: path in files ==> !NotText(files, reps, utf8, path) {
      forall path, i | path in files && 0 <= i < |reps| && AppliesTo(reps[i], path) && Occurs(reps[i].value, files[path])
        ensures utf8(files[path])
      {
        assert StandsIn(reps, path, files[path]);
      }
    }
  }

  lemma AllUsedIff(reps: seq<Replacement>, files: map<string, string>)
    requires SoundNames(reps)
    ensures (forall name :: name in Names(reps) ==> TokenFor(files, reps, name).occurrences > 0)
            <==> forall i :: 0 <= i < |reps| ==> Used(reps, files, i)
  {
    forall i | 0 <= i < |reps| ensures TokenFor(files, reps, reps[i].name).occurrences > 0 <==> Used(reps, files, i) {
      UsedIff(reps, files, i);
    }
    if forall name :: name in Names(reps) ==> TokenFor(files, reps, name).occurrences > 0 {
      forall i | 0 <= i < |reps| ensures Used(reps, files, i) { assert reps[i].name in Names(reps); }
    }
  }

  /** Some source value that applies to the part stands in the text. */
  predicate StandsIn(reps: seq<Replacement>, path: string, text: string) {
    exists i :: 0 <= i < |reps| && AppliesTo(reps[i], path) && Occurs(reps[i].value, text)
  }

  lemma ScopeApplies(reps: seq<Replacement>, path: string, text: string)
    ensures (exists i :: 0 <= i < |Scope(reps, path)| && Occurs(Scope(reps, path)[i].value, text)) <==> StandsIn(reps, path, text)
  {
    if exists i :: 0 <= i < |Scope(reps, path)| && Occurs(Scope(reps, path)[i].value, text) {
      var i :| 0 <= i < |Scope(reps, path)| && Occurs(Scope(reps, path)[i].value, text);
      var r := Scope(reps, path)[i];
      assert r in reps && AppliesTo(r, path);
      var j :| 0 <= j < |reps| && reps[j] == r;
    }
    if StandsIn(reps, path, text) {
      var i :| 0 <= i < |reps| && AppliesTo(reps[i], path) && Occurs(reps[i].value, text);
      assert reps[i] in Scope(reps, path);
      var j :| 0 <= j < |Scope(reps, path)| && Scope(reps, path)[j] == reps[i];
    }
  }

  /** A token is counted exactly when some part it applies to gets it. */
  lemma UsedIff(reps: seq<Replacement>, files: map<string, string>, i: nat)
    requires SoundNames(reps) && i < |reps|
    ensures TokenFor(files, reps, reps[i].name).occurrences > 0 <==> Used(reps, files, i)
  {
    var name := reps[i].name;
    forall path | path in files && PutIn(files[path], reps, path, name) ensures AppliesTo(reps[i], path) {
      if !InScope(reps[i], path) { BundleAgreement.OutsidePartCounts(files, reps, i, path); }
    }
    SumPositive(files.Keys, HitsIn(files, reps, name));
  }

  lemma {:induction false} SumPositive(keys: set<string>, f: string -> nat)
    ensures Sum(keys, f) > 0 <==> exists k :: k in keys && f(k) > 0
  {
    if keys != {} {
      var k :| k in keys && Sum(keys, f) == f(k) + Sum(keys - {k}, f);
      SumPositive(keys - {k}, f);
    }
  }

  // ---- what is prepared ----

  /** The metadata says the format, the item type, and of each part its content and size; its content descriptor repeats them. */
  predicate Describes(m: Metadata, parts: map<string, string>, format: string, itemType: Option<string>) {
    && m.format == format && m.itemType == itemType && m.parts.Keys == parts.Keys
    && (forall path :: path in parts ==> m.parts[path].digest == parts[path] && m.parts[path].size == |parts[path]|)
    && m.content.format == format && m.content.itemType == itemType && m.content.parts == m.parts
  }

  /** Exactly sound definitions with sound replacements are prepared, and the metadata prepared describes the tokenised parts. */
  lemma PreparesIff(d: Definition, reps: seq<Replacement>, itemType: Option<string>, expected: Option<string>, utf8: string -> bool)
    ensures Prepare(d, reps, itemType, expected, utf8).Some? <==>
      SoundDefinition(d, itemType, expected)
      && exists files {:trigger Decoded(d.parts, files)} :: Decoded(d.parts, files) && SoundReplacements(reps, files, utf8)
    ensures Prepare(d, reps, itemType, expected, utf8).Some? ==>
      var p := Prepare(d, reps, itemType, expected, utf8).value;
      && Describes(p.metadata, p.parts, if expected.Some? then expected.value else d.format.value, itemType)
      && p.parts.Keys == set i | 0 <= i < |d.parts| :: d.parts[i].path
  {
    DefinitionSound(d, itemType, expected);
    if DefinitionOk(d, itemType, expected) {
      var files := Decode(d.parts).value;
      forall path | path in files ensures SafePath(path) {
        var i :| 0 <= i < |d.parts| && d.parts[i].path == path;
      }
      ReplacementsSound(reps, files, utf8);
      forall other | Decoded(d.parts, other) ensures other == files { OnlyDecoding(d.parts, files, other); }
      if Prepare(d, reps, itemType, expected, utf8).Some? {
        assert Prepare(d, reps, itemType, expected, utf8).value.parts.Keys == files.Keys;
      }
    }
  }

  lemma OnlyDecoding(parts: seq<RawPart>, files: map<string, string>, other: map<string, string>)
    requires Decoded(parts, files) && Decoded(parts, other)
    ensures other == files
  {
    forall path ensures path in files <==> path in other {}
    forall path | path in files ensures other[path] == files[path] {
      var i :| 0 <= i < |parts| && parts[i].path == path;
    }
  }

  // ---- what is read ----

  /** The metadata lists at least one part under safe paths, none a directory on the way to another, each with the content and
      the size it says, and there is no other file. */
  predicate ListsFiles(m: Metadata, files: map<string, string>) {
    && m.parts.Keys == files.Keys && |files| > 0
    && (forall path :: path in files ==>
          SafePath(path) && m.parts[path].digest == files[path] && m.parts[path].size == |files[path]|)
    && forall p, q :: p in files && q in files ==> !(p + "/" <= q)
  }

  /** The token's places are those in which its placeholder stands, and it is counted as often as it stands there. */
  ghost predicate CountsToken(m: Metadata, files: map<string, string>, name: string)
    requires name in m.tokens
  {
    && TokenName(name) && m.tokens[name].occurrences > 0
    && (forall path :: path in m.tokens[name].parts <==> path in files && Occurs(Placeholder(name), files[path]))
    && m.tokens[name].occurrences == Sum(files.Keys, PlacesOf(files, name))
  }

  /** A bundle is read back exactly when its metadata lists the files and counts every token as they stand. */
  lemma ReadsIff(tree: Tree)
    ensures Read(tree).Some? <==>
      && tree.metadata.Readable?
      && (var m := tree.metadata.metadata;
          && |m.format| > 0 && ListsFiles(m, tree.files)
          && (m.itemType.Some? ==>
                var t := m.itemType.value;
                |t| > 0 && t[0] !in {' ', '\t', '\n', '\r'} && t[|t| - 1] !in {' ', '\t', '\n', '\r'})
          && m.content.format == m.format && m.content.itemType == m.itemType && m.content.parts == m.parts
          && forall name {:trigger CountsToken(m, tree.files, name)} :: name in m.tokens ==> CountsToken(m, tree.files, name))
    ensures Read(tree).Some? ==> Read(tree).value == (tree.metadata.metadata.format, tree.files)
  {
    if tree.metadata.Readable? {
      var m, files := tree.metadata.metadata, tree.files;
      ListedIff(m, files);
      if ListsFiles(m, files) {
        forall name | name in m.tokens
          ensures CountsToken(m, files, name) <==>
                  TokenConfirmed(m, files, name) && TokenName(name) && m.tokens[name].occurrences >= 1 && m.tokens[name].parts != {}
        {
          TokenCountedIff(m, files, name);
        }
      }
    }
  }

  /** A definition is written exactly when it can be prepared and the directory is empty or holds a bundle that can be read; the
      files are then the prepared parts, and the metadata describes them. */
  lemma WritesIff(tree: Tree, d: Definition, reps: seq<Replacement>, itemType: Option<string>, expected: Option<string>,
                  utf8: string -> bool)
    ensures var prepared, written := Prepare(d, reps, itemType, expected, utf8), Written(tree, d, reps, itemType, expected, utf8);
            && (written.Some? <==> prepared.Some? && Replaceable(tree))
            && (written.Some? ==>
                  && written.value == Tree(Readable(prepared.value.metadata), prepared.value.parts)
                  && Describes(prepared.value.metadata, prepared.value.parts,
                               if expected.Some? then expected.value else d.format.value, itemType))
  {
    SafeIffReplaceable(tree);
    if Written(tree, d, reps, itemType, expected, utf8).Some? {
      PreparesIff(d, reps, itemType, expected, utf8);
      BundleAgreement.WritesPrepared(tree, d, reps, itemType, expected, utf8);
    }
  }

  /** The directory is empty or holds a bundle that can be read. */
  ghost predicate Replaceable(tree: Tree) {
    (tree.metadata.Absent? && |tree.files| == 0) || Read(tree).Some?
  }

  lemma SafeIffReplaceable(tree: Tree)
    ensures SafeToWrite(tree) <==> Replaceable(tree)
  {
  }

  lemma ListedIff(m: Metadata, files: map<string, string>)
    ensures ListsFiles(m, files) <==>
      m.parts != map[] && PartsConfirmed(m, files) && TreeShaped(m.parts.Keys) && files.Keys <= m.parts.Keys
  {
  }

  lemma TokenCountedIff(m: Metadata, files: map<string, string>, name: string)
    requires name in m.tokens && m.parts.Keys == files.Keys
    ensures CountsToken(m, files, name) <==>
            TokenConfirmed(m, files, name) && TokenName(name) && m.tokens[name].occurrences >= 1 && m.tokens[name].parts != {}
  {
    var info, seen := m.tokens[name], Observed(files, m.parts.Keys, name);
    if CountsToken(m, files, name) {
      assert info.parts == seen.parts;
      SumPositive(files.Keys, PlacesOf(files, name));
      var k :| k in files && PlacesIn(files, name, k) > 0;
      CountsWhatOccurs(Placeholder(name), files[k]);
    }
  }
}
