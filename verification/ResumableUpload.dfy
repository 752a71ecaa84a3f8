/** The resumable upload of a local file to a remote object that grows by append and flush.

    The upload may be cut off before any append or flush.  The file is read in pieces of any size; the bytes seen by the
    first pass over it, which checks what is already there, and by the second pass, which sends, are given separately, so
    a file that changes in between is covered.  A digest is modelled by the bytes it was computed from. */
module ResumableUpload {
  import opened Wrappers

  type Byte = x: int | 0 <= x < 256

  datatype Ending = Completed | Refused | CutOff

  /** The remote object: what is flushed, and what is appended but not flushed. */
  class RemoteObject {
    var content: Option<seq<Byte>>
    var appended: seq<Byte>
    ghost var sent: seq<Byte>  // every byte ever appended

    constructor (content: Option<seq<Byte>>)
      ensures this.content == content && appended == [] && sent == []
    {
      this.content, appended, sent := content, [], [];
    }

    method Create()
      modifies this
      ensures content == Some([]) && appended == [] && sent == old(sent)
    {
      content, appended := Some([]), [];
    }

    /** The service takes an append only at the end of what is flushed and drops an earlier unflushed one. */
    method Append(data: seq<Byte>, offset: nat)
      requires content.Some? && offset == |content.value|
      modifies this
      ensures content == old(content) && appended == data && sent == old(sent) + data
    {
      appended := data;
      sent := sent + data;
    }

    method Flush(position: nat)
      requires content.Some? && position == |content.value| + |appended|
      modifies this`content, this`appended
      ensures content == Some(old(content.value) + old(appended)) && appended == []
    {
      content, appended := Some(content.value + appended), [];
    }
  }

  function Min(a: nat, b: nat): nat {
    if a < b then a else b
  }

  /** How much of the remote object the upload keeps: all of it if it is what the file begins with, else nothing. */
  function Kept(remote: Option<seq<Byte>>, first: seq<Byte>): nat {
    if remote.Some? && remote.value <= first then |remote.value| else 0
  }

  /** Reads the first `wanted` bytes in pieces; fewer if the file ends. */
  method ReadPrefix(file: seq<Byte>, wanted: nat, chunk: nat) returns (prefix: seq<Byte>, remaining: nat)
    requires chunk > 0
    ensures prefix == file[..Min(wanted, |file|)] && remaining == wanted - |prefix|
  {
    prefix, remaining := [], wanted;
    while remaining > 0
      invariant remaining + |prefix| == wanted && |prefix| <= |file| && prefix == file[..|prefix|]
    {
      var piece := file[|prefix|..Min(|prefix| + Min(chunk, remaining), |file|)];
      if piece == [] { break; }
      prefix, remaining := prefix + piece, remaining - |piece|;
    }
  }

  /** The remote object holds the kept bytes and then the file as sent, up to position `n`. */
  ghost predicate Reached(content: Option<seq<Byte>>, kept: seq<Byte>, second: seq<Byte>, n: nat) {
    |kept| <= n <= |second| && content == Some(kept + second[|kept|..n])
  }

  lemma ReachedGrows(content: Option<seq<Byte>>, kept: seq<Byte>, second: seq<Byte>, n: nat, end: nat)
    requires Reached(content, kept, second, n) && n < end <= |second|
    ensures Reached(Some(content.value + second[n..end]), kept, second, end) && |content.value| == n
    ensures second[|kept|..n] + second[n..end] == second[|kept|..end]
  {
    assert second[|kept|..n] + second[n..end] == second[|kept|..end];
    assert content.value + second[n..end] == kept + second[|kept|..end];
  }

  /** Decides what to keep of the remote object, and empties it if that is nothing. */
  method Begin(target: RemoteObject, first: seq<Byte>, chunk: nat) returns (offset: nat)
    requires chunk > 0
    modifies target
    ensures offset == Kept(old(target.content), first) && target.content == Some(first[..offset]) && target.sent == old(target.sent)
  {
    offset := if target.content.Some? then |target.content.value| else 0;
    if target.content.None? {
      target.Create();
    } else if offset > 0 {
      var prefix, remaining := ReadPrefix(first, offset, chunk);
      if remaining > 0 || prefix != target.content.value {
        target.Create();
        offset := 0;
      }
    }
  }

  /** Reads the file again from its start and sends what lies beyond `start`. */
  method Send(target: RemoteObject, second: seq<Byte>, start: nat, read: nat -> nat, budget: nat) returns (cut: bool)
    requires target.content.Some? && start == |target.content.value| && forall at :: read(at) > 0
    modifies target
    ensures start <= |second| && !cut ==> Reached(target.content, old(target.content.value), second, |second|)
    ensures start <= |second| && !cut ==> target.sent == old(target.sent) + second[start..]
    ensures start > |second| ==> !cut && target.content == old(target.content) && target.sent == old(target.sent)
    ensures cut ==> budget < 2 * |second| && exists n, m ::
      start <= n <= m <= |second| && Reached(target.content, old(target.content.value), second, n)
      && target.sent == old(target.sent) + second[start..m]
  {
    ghost var kept, sent := target.content.value, target.sent;
    var at, offset, left := 0, start, budget;
    assert start <= |second| ==> kept + second[start..start] == kept && sent + second[start..start] == sent;
    while at < |second|
      invariant at <= |second| && offset == (if at < start then start else at) && left <= budget && budget - left <= 2 * at
      invariant start <= |second| ==> Reached(target.content, kept, second, offset) && target.sent == sent + second[start..offset]
      invariant start > |second| ==> target.content == Some(kept) && target.sent == sent
    {
      var end := Min(at + read(at), |second|);
      if end <= offset {
        at := end;
      } else {
        var upload := second[at..end][if offset > at then offset - at else 0..];
        assert upload == second[offset..end];
        ReachedGrows(target.content, kept, second, offset, end);
        if left == 0 { return true; }
        target.Append(upload, offset);
        assert target.sent == sent + second[start..end];
        if left == 1 { return true; }
        left := left - 2;
        offset := offset + |upload|;
        at := end;
        target.Flush(offset);
      }
    }
    cut := false;
  }

  /** After the last byte the remote object is the local file exactly when the file still began, in the second pass, with the bytes that
      were kept. */
  lemma EqualsFileIff(content: Option<seq<Byte>>, first: seq<Byte>, second: seq<Byte>, kept: nat)
    requires kept <= |first| && Reached(content, first[..kept], second, |second|)
    ensures content == Some(second) <==> first[..kept] == second[..kept]
  {
    var whole := first[..kept] + second[kept..];
    assert |first[..kept]| == kept && second[kept..|second|] == second[kept..];
    assert content == Some(whole) && whole[..kept] == first[..kept];
    assert second == second[..kept] + second[kept..];
  }

  /** The whole upload.  `first` and `second` are what the two passes over the file see, `read` gives the size of the read
      at each position, `budget` the appends and flushes that happen before the upload is cut off. */
  method Upload(target: RemoteObject, statSize: nat, first: seq<Byte>, second: seq<Byte>, expectedSize: nat,
                expected: seq<Byte>, chunk: nat, read: nat -> nat, budget: nat)
    returns (ending: Ending)
    requires chunk > 0 && forall at :: read(at) > 0
    modifies target
    // a normal return: what was sent is what was expected, after bytes that the first pass saw
    ensures ending.Completed? ==>
      var kept := Kept(old(target.content), first);
      && second == expected && statSize == |expected| == expectedSize
      && Reached(target.content, first[..kept], second, |second|) && target.sent == old(target.sent) + second[kept..]
    // and the remote object is then the file exactly when the file still begins with the bytes that were kept
      && (target.content == Some(second) <==> first[..kept] == second[..kept])
      && (kept == 0 ==> target.content == Some(second))
    // cut off: a beginning of that, and no kept byte sent again
    ensures ending.CutOff? ==>
      var kept := Kept(old(target.content), first);
      budget < 2 * |second| &&
      (exists n, m :: kept <= n <= m <= |second| && Reached(target.content, first[..kept], second, n)
                      && target.sent == old(target.sent) + second[kept..m])
    // refused for a reason, and for no other
    ensures ending.Refused? ==>
      || statSize != expectedSize || (old(target.content).Some? && |old(target.content.value)| > expectedSize)
      || |second| != expectedSize || second != expected
    // an object larger than the file is refused and left alone
    ensures (statSize != expectedSize || (old(target.content).Some? && |old(target.content.value)| > expectedSize)) ==>
      ending.Refused? && target.content == old(target.content)
  {
    if statSize != expectedSize { return Refused; }
    if target.content.Some? && |target.content.value| > expectedSize { return Refused; }
    var offset := Begin(target, first, chunk);
    var cut := Send(target, second, offset, read, budget);
    if cut { return CutOff; }
    if |second| != expectedSize || second != expected { return Refused; }
    if |target.content.value| != expectedSize { return Refused; }
    EqualsFileIff(target.content, first, second, offset);
    ending := Completed;
  }

  /** An upload of a changed file that returns normally with other bytes than were expected: the object held 9, the first
      pass still saw it, and the second pass sent only what follows. */
  method ChangedFileCompletes() returns (target: RemoteObject, expected: seq<Byte>, ending: Ending)
    ensures ending.Completed? && expected == [8, 1] && target.content == Some([9, 1])
  {
    target := new RemoteObject(Some([9]));
    expected := [8, 1];
    var first: seq<Byte> := [9, 1];
    assert [9] == first[..1];
    ending := Upload(target, 2, first, expected, 2, expected, 4, _ => 4, 4);
    assert first[..1] + expected[1..2] == [9, 1];
  }

  /** Cut off any number of times and called again, the upload of an unchanged file completes in the end, and sends no
      byte that the remote object already held as a beginning of the file. */
  method UploadRepeatedly(target: RemoteObject, file: seq<Byte>, chunk: nat, read: nat -> nat, budgets: seq<nat>)
    returns (ending: Ending)
    requires chunk > 0 && forall at :: read(at) > 0
    requires target.content.Some? ==> |target.content.value| <= |file|
    modifies target
    ensures ending.Completed? ==> target.content == Some(file)
    ensures !ending.Completed? ==> ending.CutOff? && (budgets != [] ==> target.content.Some? && target.content.value <= file)
    ensures (exists i :: 0 <= i < |budgets| && budgets[i] >= 2 * |file|) ==> ending.Completed?
  {
    ending := CutOff;
    for i := 0 to |budgets|
      invariant ending.CutOff? && (i > 0 ==> target.content.Some? && target.content.value <= file)
      invariant target.content.Some? ==> |target.content.value| <= |file|
      invariant forall k :: 0 <= k < i ==> budgets[k] < 2 * |file|
    {
      ghost var before := target.content;
      ending := Upload(target, |file|, file, file, |file|, file, chunk, read, budgets[i]);
      if ending.Completed? { return; }
      ghost var kept := Kept(before, file);
      ghost var n :| kept <= n <= |file| && Reached(target.content, file[..kept], file, n);
      assert file[..kept] + file[kept..n] == file[..n];
    }
  }
}
