/** Definition bundles: a directory tree written from a definition, and a reader that recounts what the writer claimed.

    A digest is modelled by the content it was computed from, a sorted list without repeats by a set, and the canonical
    metadata file by the value it holds.  Every refusal is the source's one error class, so results are optional. */
module DefinitionBundle {
  import opened Wrappers
  import opened Tokens

  /** A part of a definition; the payload is missing when it is not inline base64 that decodes. */
  datatype RawPart = RawPart(path: string, payload: Option<string>)

  datatype Definition = Definition(format: Option<string>, parts: seq<RawPart>)

  datatype PartInfo = PartInfo(digest: string, size: nat)

  datatype TokenInfo = TokenInfo(occurrences: int, parts: set<string>)

  datatype Descriptor = Descriptor(format: string, itemType: Option<string>, parts: map<string, PartInfo>)

  datatype Metadata = Metadata(format: string, itemType: Option<string>, parts: map<string, PartInfo>,
                               tokens: map<string, TokenInfo>, content: Descriptor)

  datatype MetadataFile = Absent | Unreadable | Readable(metadata: Metadata)

  /** The files of a bundle directory, apart from its metadata file. */
  datatype Tree = Tree(metadata: MetadataFile, files: map<string, string>)

  datatype Prepared = Prepared(parts: map<string, string>, metadata: Metadata)

  const METADATA_FILE := ".fabric-item.json"

  // ---- paths ----

  function Segments(path: string): (s: seq<string>)
    ensures |s| >= 1
  {
    if path == "" then [""]
    else
      var rest := Segments(path[1..]);
      if path[0] == '/' then [""] + rest else [[path[0]] + rest[0]] + rest[1..]
  }

  predicate SafePath(path: string) {
    path != "" && '\\' !in path && '\0' !in path &&
    forall i :: 0 <= i < |Segments(path)| ==> Segments(path)[i] !in {"", ".", "..", METADATA_FILE}
  }

  /** No part's path is a directory on the way to another's. */
  predicate TreeShaped(paths: set<string>) {
    forall p, q :: p in paths && q in paths ==> !(p + "/" <= q)
  }

  // ---- sums over the parts of a bundle ----

  ghost function Sum(keys: set<string>, f: string -> nat): nat {
    if keys == {} then 0
    else
      var k :| k in keys;
      f(k) + Sum(keys - {k}, f)
  }

  lemma {:induction false} SumEqual(keys: set<string>, f: string -> nat, g: string -> nat)
    requires forall k :: k in keys ==> f(k) == g(k)
    ensures Sum(keys, f) == Sum(keys, g)
  {
    if keys != {} {
      var k :| k in keys && Sum(keys, f) == f(k) + Sum(keys - {k}, f) && Sum(keys, g) == g(k) + Sum(keys - {k}, g);
      SumEqual(keys - {k}, f, g);
    }
  }

  lemma {:induction false} SumRemove(keys: set<string>, f: string -> nat, k: string)
    requires k in keys
    ensures Sum(keys, f) == f(k) + Sum(keys - {k}, f)
  {
    var j :| j in keys && Sum(keys, f) == f(j) + Sum(keys - {j}, f);
    if j != k {
      SumRemove(keys - {j}, f, k);
      SumRemove(keys - {k}, f, j);
      assert keys - {j} - {k} == keys - {k} - {j};
    }
  }

  lemma {:induction false} SumAdd(keys: set<string>, f: string -> nat, k: string)
    requires k !in keys
    ensures Sum(keys + {k}, f) == Sum(keys, f) + f(k)
  {
    SumRemove(keys + {k}, f, k);
    assert keys + {k} - {k} == keys;
  }

  // ---- decoding and normalising ----

  function Decode(raw: seq<RawPart>): Option<map<string, string>> {
    if raw == [] then Some(map[])
    else
      var rest := Decode(raw[..|raw| - 1]);
      var part := raw[|raw| - 1];
      if rest.None? || !SafePath(part.path) || part.path in rest.value || part.payload.None? then None
      else Some(rest.value[part.path := part.payload.value])
  }

  predicate InScope(r: Replacement, path: string) {
    r.parts == [] || path in r.parts
  }

  /** The replacements that apply to a part. */
  function Scope(reps: seq<Replacement>, path: string): (s: seq<Replacement>)
    ensures forall r :: r in s <==> r in reps && InScope(r, path)
    ensures Wellformed(reps) ==> Wellformed(s)
  {
    if reps == [] then []
    else
      var rest := Scope(reps[1..], path);
      assert Wellformed(reps) ==> forall j :: 0 <= j < |rest| ==> rest[j].name != reps[0].name by {
        forall j | Wellformed(reps) && 0 <= j < |rest| ensures rest[j].name != reps[0].name {
          assert rest[j] in reps[1..];
          var k :| 0 <= k < |reps[1..]| && reps[1..][k] == rest[j];
        }
      }
      if InScope(reps[0], path) then [reps[0]] + rest else rest
  }

  predicate Normalized(reps: seq<Replacement>, parts: map<string, string>) {
    && Wellformed(reps)
    && (forall i, j :: 0 <= i < j < |reps| ==> reps[i].value != reps[j].value)
    && (forall i :: 0 <= i < |reps| ==>
          && (forall k :: 0 <= k < |reps[i].parts| ==> SafePath(reps[i].parts[k]) && reps[i].parts[k] in parts)
          && (forall j, k :: 0 <= j < k < |reps[i].parts| ==> reps[i].parts[j] != reps[i].parts[k])
          && (forall path :: path in parts && InScope(reps[i], path) ==> !Occurs(Placeholder(reps[i].name), parts[path])))
    && !Overlapping(reps)
  }

  // ---- tokenising the parts ----

  function PartHits(parts: map<string, string>, reps: seq<Replacement>, name: string, path: string): nat
    requires Wellformed(reps)
  {
    if path in parts then Hits(parts[path], Scope(reps, path), name) else 0
  }

  ghost function HitsIn(parts: map<string, string>, reps: seq<Replacement>, name: string): string -> nat
    requires Wellformed(reps)
  {
    path => PartHits(parts, reps, name, path)
  }

  function TokenizedParts(parts: map<string, string>, reps: seq<Replacement>): map<string, string>
    requires Wellformed(reps)
  {
    map path | path in parts :: Tokenized(parts[path], Scope(reps, path))
  }

  /** A source value occurs in a part that is not text. */
  predicate NotText(parts: map<string, string>, reps: seq<Replacement>, utf8: string -> bool, path: string)
    requires path in parts
  {
    !utf8(parts[path]) && exists i :: 0 <= i < |Scope(reps, path)| && Occurs(Scope(reps, path)[i].value, parts[path])
  }

  ghost function TokenFor(parts: map<string, string>, reps: seq<Replacement>, name: string): TokenInfo
    requires Wellformed(reps)
  {
    TokenInfo(Sum(parts.Keys, HitsIn(parts, reps, name)),
              set path | path in parts && PartHits(parts, reps, name, path) > 0)
  }

  function Names(reps: seq<Replacement>): set<string> {
    set i | 0 <= i < |reps| :: reps[i].name
  }

  ghost function TokensFor(parts: map<string, string>, reps: seq<Replacement>): map<string, TokenInfo>
    requires Wellformed(reps)
  {
    map name | name in Names(reps) :: TokenFor(parts, reps, name)
  }

  ghost predicate Tokenizable(parts: map<string, string>, reps: seq<Replacement>, utf8: string -> bool) {
    && Normalized(reps, parts)
    && (forall path :: path in parts ==> !NotText(parts, reps, utf8, path))
    && (forall name :: name in Names(reps) ==> TokenFor(parts, reps, name).occurrences > 0)
  }

  /** The counters once the parts of `done` have been substituted. */
  ghost predicate AllCounted(parts: map<string, string>, reps: seq<Replacement>, done: set<string>, counts: map<string, nat>,
                             touched: map<string, set<string>>)
    requires Wellformed(reps)
  {
    counts.Keys == touched.Keys == Names(reps) &&
    forall name {:trigger CountedSoFar(parts, reps, done, counts, touched, name)} :: name in Names(reps) ==>
      CountedSoFar(parts, reps, done, counts, touched, name)
  }

  /** The substitution in one part, with its counters. */
  method TokenizePart(parts: map<string, string>, reps: seq<Replacement>, path: string, counts: map<string, nat>,
                      touched: map<string, set<string>>, ghost done: set<string>)
    returns (text: string, counts': map<string, nat>, touched': map<string, set<string>>)
    requires Wellformed(reps) && path in parts && path !in done && AllCounted(parts, reps, done, counts, touched)
    ensures text == Tokenized(parts[path], Scope(reps, path))
    ensures AllCounted(parts, reps, done + {path}, counts', touched')
  {
    ScopeNames(reps, path);
    text, counts' := Substitute(parts[path], Scope(reps, path), counts);
    touched' := Touch(touched, counts, counts', path);
    ghost var done' := done + {path};
    forall name | name in Names(reps) ensures CountedSoFar(parts, reps, done', counts', touched', name) {
      CountedStep(parts, reps, done, path, counts, touched, counts', touched', name);
    }
  }

  function Touch(touched: map<string, set<string>>, counts: map<string, nat>, counts': map<string, nat>, path: string)
    : (touched': map<string, set<string>>)
    requires touched.Keys == counts.Keys == counts'.Keys
    ensures touched'.Keys == touched.Keys
    ensures forall name :: name in touched ==>
      touched'[name] == if counts'[name] > counts[name] then touched[name] + {path} else touched[name]
  {
    map name | name in touched :: if counts'[name] > counts[name] then touched[name] + {path} else touched[name]
  }

  lemma CountedStep(parts: map<string, string>, reps: seq<Replacement>, done: set<string>, path: string,
                    counts: map<string, nat>, touched: map<string, set<string>>,
                    counts': map<string, nat>, touched': map<string, set<string>>, name: string)
    requires Wellformed(reps) && path in parts && path !in done && CountedSoFar(parts, reps, done, counts, touched, name)
    requires name in counts' && counts'[name] == counts[name] + Hits(parts[path], Scope(reps, path), name)
    requires name in touched' && touched'[name] == if counts'[name] > counts[name] then touched[name] + {path} else touched[name]
    ensures CountedSoFar(parts, reps, done + {path}, counts', touched', name)
  {
    SumAdd(done, HitsIn(parts, reps, name), path);
  }

  lemma NoneCounted(parts: map<string, string>, reps: seq<Replacement>, counts: map<string, nat>, touched: map<string, set<string>>)
    requires Wellformed(reps) && counts == (map name | name in Names(reps) :: 0) && touched == (map name | name in Names(reps) :: {})
    ensures AllCounted(parts, reps, {}, counts, touched)
  {
  }

  lemma CountedTokens(parts: map<string, string>, reps: seq<Replacement>, counts: map<string, nat>, touched: map<string, set<string>>)
    requires Wellformed(reps) && AllCounted(parts, reps, parts.Keys, counts, touched)
    ensures (map name | name in counts :: TokenInfo(counts[name], touched[name])) == TokensFor(parts, reps)
  {
    forall name | name in Names(reps) ensures TokenInfo(counts[name], touched[name]) == TokenFor(parts, reps, name) {
      assert CountedSoFar(parts, reps, parts.Keys, counts, touched, name);
      assert touched[name] == TokenFor(parts, reps, name).parts;
    }
  }

  /** The substitution over all parts as it runs; None is a source value in a part that is not text. */
  method TokenizeParts(parts: map<string, string>, reps: seq<Replacement>, utf8: string -> bool)
    returns (r: Option<(map<string, string>, map<string, TokenInfo>)>)
    requires Wellformed(reps)
    ensures r.None? <==> exists path :: path in parts && NotText(parts, reps, utf8, path)
    ensures r.Some? ==> r.value == (TokenizedParts(parts, reps), TokensFor(parts, reps))
  {
    var result: map<string, string> := map[];
    var counts: map<string, nat> := map name | name in Names(reps) :: 0;
    var touched: map<string, set<string>> := map name | name in Names(reps) :: {};
    NoneCounted(parts, reps, counts, touched);
    var todo := parts.Keys;
    ghost var done := {};
    while todo != {}
      invariant Split(parts.Keys, done, todo) && TextDone(parts, reps, utf8, done, result)
      invariant AllCounted(parts, reps, done, counts, touched)
      decreases |todo|
    {
      var path :| path in todo;
      if NotText(parts, reps, utf8, path) { return None; }
      var text;
      text, counts, touched := TokenizePart(parts, reps, path, counts, touched, done);
      TextStep(parts, reps, utf8, done, result, path);
      result := result[path := text];
      todo, done := Moved(parts.Keys, done, todo, path);
    }
    assert done == parts.Keys;
    CountedTokens(parts, reps, counts, touched);
    TextAll(parts, reps, utf8, result);
    var tokens := map name | name in counts :: TokenInfo(counts[name], touched[name]);
    r := Some((result, tokens));
  }

  /** The parts of `done` have been substituted, and were text wherever that mattered. */
  ghost predicate TextDone(parts: map<string, string>, reps: seq<Replacement>, utf8: string -> bool, done: set<string>, result: map<string, string>)
    requires Wellformed(reps)
  {
    && done <= parts.Keys && result.Keys == done
    && (forall path :: path in done ==> result[path] == Tokenized(parts[path], Scope(reps, path)))
    && (forall path :: path in done ==> !NotText(parts, reps, utf8, path))
  }

  lemma TextStep(parts: map<string, string>, reps: seq<Replacement>, utf8: string -> bool, done: set<string>, result: map<string, string>, path: string)
    requires Wellformed(reps) && TextDone(parts, reps, utf8, done, result) && path in parts && !NotText(parts, reps, utf8, path)
    ensures TextDone(parts, reps, utf8, done + {path}, result[path := Tokenized(parts[path], Scope(reps, path))])
  {
  }

  lemma TextAll(parts: map<string, string>, reps: seq<Replacement>, utf8: string -> bool, result: map<string, string>)
    requires Wellformed(reps) && TextDone(parts, reps, utf8, parts.Keys, result)
    ensures result == TokenizedParts(parts, reps) && forall path :: path in parts ==> !NotText(parts, reps, utf8, path)
  {
  }

  ghost predicate CountedSoFar(parts: map<string, string>, reps: seq<Replacement>, done: set<string>, counts: map<string, nat>,
                               touched: map<string, set<string>>, name: string)
    requires Wellformed(reps)
  {
    && name in counts && name in touched
    && counts[name] == Sum(done, HitsIn(parts, reps, name))
    && touched[name] == set path | path in done && PartHits(parts, reps, name, path) > 0
  }

  lemma ScopeNames(reps: seq<Replacement>, path: string)
    ensures forall i :: 0 <= i < |Scope(reps, path)| ==> Scope(reps, path)[i].name in Names(reps)
  {
    forall i | 0 <= i < |Scope(reps, path)| ensures Scope(reps, path)[i].name in Names(reps) {
      assert Scope(reps, path)[i] in reps;
      var j :| 0 <= j < |reps| && reps[j] == Scope(reps, path)[i];
    }
  }

  // ---- preparing a bundle ----

  function InfoOf(content: string): PartInfo {
    PartInfo(content, |content|)
  }

  function InfosOf(parts: map<string, string>): map<string, PartInfo> {
    map path | path in parts :: InfoOf(parts[path])
  }

  /** A non-empty string without surrounding blanks. */
  predicate ItemType(t: string) {
    t != "" && t[0] !in " \t\n\r" && t[|t| - 1] !in " \t\n\r"
  }

  function FormatOf(d: Definition, expected: Option<string>): Option<string> {
    if (d.format.None? || d.format.value == "") && expected.Some? && expected.value != "" then expected else d.format
  }

  predicate DefinitionOk(d: Definition, itemType: Option<string>, expected: Option<string>) {
    var format := FormatOf(d, expected);
    && format.Some? && format.value != "" && d.parts != []
    && (expected.Some? ==> format == expected)
    && (itemType.Some? ==> ItemType(itemType.value))
    && Decode(d.parts).Some? && TreeShaped(Decode(d.parts).value.Keys)
  }

  /** What is written for a definition; None is a refused definition or replacement. */
  ghost function Prepare(d: Definition, reps: seq<Replacement>, itemType: Option<string>, expected: Option<string>,
                         utf8: string -> bool): Option<Prepared>
  {
    if !DefinitionOk(d, itemType, expected) || !Tokenizable(Decode(d.parts).value, reps, utf8) then None
    else
      var parts, format := Decode(d.parts).value, FormatOf(d, expected).value;
      var infos := InfosOf(TokenizedParts(parts, reps));
      Some(Prepared(TokenizedParts(parts, reps),
                    Metadata(format, itemType, infos, TokensFor(parts, reps), Descriptor(format, itemType, infos))))
  }

  method PrepareBundle(d: Definition, reps: seq<Replacement>, itemType: Option<string>, expected: Option<string>,
                       utf8: string -> bool) returns (r: Option<Prepared>)
    ensures r == Prepare(d, reps, itemType, expected, utf8)
  {
    if !DefinitionOk(d, itemType, expected) { return None; }
    var decoded, format := Decode(d.parts).value, FormatOf(d, expected).value;
    if !Normalized(reps, decoded) { return None; }
    var tokenized := TokenizeParts(decoded, reps, utf8);
    if tokenized.None? { return None; }
    var parts, tokens := tokenized.value.0, tokenized.value.1;
    assert tokens.Keys == Names(reps) && forall name :: name in tokens ==> tokens[name] == TokenFor(decoded, reps, name);
    if exists name :: name in tokens && tokens[name].occurrences <= 0 { return None; }
    var infos := InfosOf(parts);
    r := Some(Prepared(parts, Metadata(format, itemType, infos, tokens, Descriptor(format, itemType, infos))));
  }

  // ---- the reader ----

  predicate ValidMetadata(m: Metadata) {
    && m.format != "" && (m.itemType.Some? ==> ItemType(m.itemType.value)) && m.parts != map[]
    && forall name :: name in m.tokens ==>
         TokenName(name) && m.tokens[name].occurrences >= 1 && m.tokens[name].parts != {}
  }

  function PlacesIn(files: map<string, string>, name: string, path: string): nat {
    if path in files then Count(Placeholder(name), files[path]) else 0
  }

  ghost function PlacesOf(files: map<string, string>, name: string): string -> nat {
    path => PlacesIn(files, name, path)
  }

  ghost function Observed(files: map<string, string>, listed: set<string>, name: string): TokenInfo {
    TokenInfo(Sum(listed, PlacesOf(files, name)),
              set path | path in listed && path in files && Occurs(Placeholder(name), files[path]))
  }

  predicate PartsConfirmed(m: Metadata, files: map<string, string>) {
    forall path :: path in m.parts ==> SafePath(path) && path in files && m.parts[path] == InfoOf(files[path])
  }

  ghost predicate TokenConfirmed(m: Metadata, files: map<string, string>, name: string)
    requires name in m.tokens
  {
    m.tokens[name].parts <= m.parts.Keys && m.tokens[name] == Observed(files, m.parts.Keys, name)
  }

  ghost predicate TokensConfirmed(m: Metadata, files: map<string, string>) {
    forall name {:trigger TokenConfirmed(m, files, name)} :: name in m.tokens ==> TokenConfirmed(m, files, name)
  }

  /** The metadata's claims hold of the files, and no other file is there. */
  ghost predicate Confirmed(m: Metadata, files: map<string, string>) {
    && ValidMetadata(m) && PartsConfirmed(m, files) && TreeShaped(m.parts.Keys) && TokensConfirmed(m, files)
    && m.content == Descriptor(m.format, m.itemType, m.parts)
    && files.Keys <= m.parts.Keys
  }

  /** Counts the placeholders of one token in the listed parts. */
  method Recount(files: map<string, string>, listed: set<string>, name: string) returns (info: TokenInfo)
    requires listed <= files.Keys
    ensures info == Observed(files, listed, name)
  {
    var todo := listed;
    info := TokenInfo(0, {});
    ghost var done := {};
    while todo != {}
      invariant Split(listed, done, todo)
      invariant info == Observed(files, done, name)
      decreases |todo|
    {
      var path :| path in todo;
      info := RecountPart(files, name, path, info, done);
      todo, done := Moved(listed, done, todo, path);
    }
    assert done == listed;
  }

  predicate Split(all: set<string>, done: set<string>, todo: set<string>) {
    done + todo == all && done !! todo
  }

  /** One element goes from what is left to what is done. */
  method Moved(ghost all: set<string>, ghost done: set<string>, todo: set<string>, x: string)
    returns (todo': set<string>, ghost done': set<string>)
    requires Split(all, done, todo) && x in todo
    ensures Split(all, done', todo') && done' == done + {x} && todo' < todo && |todo'| < |todo|
  {
    todo', done' := todo - {x}, done + {x};
  }

  method RecountPart(files: map<string, string>, name: string, path: string, before: TokenInfo, ghost done: set<string>)
    returns (info: TokenInfo)
    requires path in files && path !in done && before == Observed(files, done, name)
    ensures info == Observed(files, done + {path}, name)
  {
    var n := Count(Placeholder(name), files[path]);
    CountsWhatOccurs(Placeholder(name), files[path]);
    SumAdd(done, PlacesOf(files, name), path);
    info := TokenInfo(before.occurrences + n, if n > 0 then before.parts + {path} else before.parts);
  }

  method ConfirmTokens(m: Metadata, files: map<string, string>) returns (ok: bool)
    requires m.parts.Keys <= files.Keys
    ensures ok <==> TokensConfirmed(m, files)
  {
    var todo := m.tokens.Keys;
    while todo != {}
      invariant todo <= m.tokens.Keys
      invariant forall name {:trigger TokenConfirmed(m, files, name)} :: name in m.tokens && name !in todo ==> TokenConfirmed(m, files, name)
      decreases |todo|
    {
      var name :| name in todo;
      todo := todo - {name};
      var observed := Recount(files, m.parts.Keys, name);
      if !(m.tokens[name].parts <= m.parts.Keys) || m.tokens[name] != observed {
        assert !TokenConfirmed(m, files, name);
        return false;
      }
      assert TokenConfirmed(m, files, name);
    }
    ok := true;
  }

  /** The definition read back: its format and its parts. */
  ghost function Read(tree: Tree): Option<(string, map<string, string>)> {
    if tree.metadata.Readable? && Confirmed(tree.metadata.metadata, tree.files)
    then Some((tree.metadata.metadata.format, tree.files)) else None
  }

  // ---- the writer ----

  /** Only an empty directory, or one the reader accepts, may be written over. */
  ghost predicate SafeToWrite(tree: Tree) {
    match tree.metadata
    case Absent => tree.files == map[]
    case Unreadable => false
    case Readable(_) => Read(tree).Some?
  }

  function OldPaths(tree: Tree): set<string> {
    if tree.metadata.Readable? then tree.metadata.metadata.parts.Keys else {}
  }

  /** The directory afterwards; None is a refusal, which leaves it alone. */
  ghost function Written(tree: Tree, d: Definition, reps: seq<Replacement>, itemType: Option<string>, expected: Option<string>,
                         utf8: string -> bool): Option<Tree>
  {
    var prepared := Prepare(d, reps, itemType, expected, utf8);
    if prepared.None? || !SafeToWrite(tree) then None
    else
      var stale := OldPaths(tree) - prepared.value.parts.Keys;
      Some(Tree(Readable(prepared.value.metadata), (tree.files - stale) + prepared.value.parts))
  }

  /** The bundle directory as it is written in place. */
  class Directory {
    var metadata: MetadataFile
    var files: map<string, string>

    constructor ()
      ensures Contents() == Tree(Absent, map[])
    {
      metadata, files := Absent, map[];
    }

    function Contents(): Tree
      reads this
    {
      Tree(metadata, files)
    }

    /** Validates the bundle and rebuilds its definition. */
    method ReadBundle() returns (r: Option<(string, map<string, string>)>)
      ensures r == Read(Contents())
    {
      if !metadata.Readable? { return None; }
      var m := metadata.metadata;
      if !ValidMetadata(m) { return None; }
      if !PartsConfirmed(m, files) { return None; }
      if !TreeShaped(m.parts.Keys) { return None; }
      var tokens := ConfirmTokens(m, files);
      if !tokens { return None; }
      if m.content != Descriptor(m.format, m.itemType, m.parts) { return None; }
      if !(files.Keys <= m.parts.Keys) { return None; }
      r := Some((m.format, files));
    }

    /** Replaces the bundle: deletes the parts that are gone, writes every part, then the metadata. */
    method WriteBundle(d: Definition, reps: seq<Replacement>, itemType: Option<string>, expected: Option<string>,
                       utf8: string -> bool) returns (ok: bool)
      modifies this
      ensures ok <==> old(Written(Contents(), d, reps, itemType, expected, utf8)).Some?
      ensures if ok then Some(Contents()) == old(Written(Contents(), d, reps, itemType, expected, utf8))
              else Contents() == old(Contents())
    {
      ghost var before := Contents();
      var prepared := PrepareBundle(d, reps, itemType, expected, utf8);
      if prepared.None? { return false; }
      if metadata.Absent? {
        if files != map[] { return false; }
      } else {
        var existing := ReadBundle();
        if existing.None? { return false; }
      }
      var parts := prepared.value.parts;
      RemoveFiles(OldPaths(Contents()) - parts.Keys);
      WriteFiles(parts);
      metadata := Readable(prepared.value.metadata);
      ok := true;
    }

    method RemoveFiles(stale: set<string>)
      modifies this`files
      ensures files == old(files) - stale
    {
      var todo := stale;
      while todo != {}
        invariant todo <= stale && files == old(files) - (stale - todo)
        decreases |todo|
      {
        var path :| path in todo;
        todo := todo - {path};
        files := files - {path};
      }
      assert stale - todo == stale;
    }

    method WriteFiles(parts: map<string, string>)
      modifies this`files
      ensures files == old(files) + parts
    {
      var todo := parts.Keys;
      while todo != {}
        invariant todo <= parts.Keys && files.Keys == old(files).Keys + (parts.Keys - todo)
        invariant forall path :: path in files ==>
          files[path] == if path in parts && path !in todo then parts[path] else old(files)[path]
        decreases |todo|
      {
        var path :| path in todo;
        todo := todo - {path};
        files := files[path := parts[path]];
      }
    }
  }
}
