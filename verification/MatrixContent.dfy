/**
  The last guard before an edit is sent: comparing a post with what Matrix shows of it
  (server/sync_to_matrix.go).
*/
module MatrixContent {
  import opened Prelude

  /** A message as Matrix holds it, with and without formatting; no formatting is the empty string. */
  datatype Text = Text(body: string, html: string)

  datatype File = File(name: string, uri: string, mimeType: string, size: int)

  /** An event as the relations lookup gives it: its file, if it is a file message, and the post group it names. */
  datatype Related = Related(file: Option<File>, group: Option<int>)

  predicate HasText(t: Text) {
    t.body != "" || t.html != ""
  }

  // ---------- the files of a post ----------

  /** The attachments that can be looked up; Mattermost does not know where Matrix keeps them. */
  function Readable(files: seq<File>, unreadable: set<int>): (found: seq<File>)
    ensures forall i :: 0 <= i < |found| ==> found[i].uri == ""
  {
    if files == [] then []
    else
      var n := |files| - 1;
      Readable(files[..n], unreadable) + if n in unreadable then [] else [files[n].(uri := "")]
  }

  /** The attachments before the n-th that can be looked up. */
  function Found(unreadable: set<int>, n: int): set<int> {
    set j | 0 <= j < n && j !in unreadable
  }

  lemma FoundMore(unreadable: set<int>, n: nat)
    ensures |Found(unreadable, n + 1)| == |Found(unreadable, n)| + if n in unreadable then 0 else 1
    ensures Found(unreadable, 0) == {}
  {
    assert Found(unreadable, n + 1) == Found(unreadable, n) + if n in unreadable then {} else {n};
  }

  /** Every attachment that can be looked up is there, without an address, after those found before it; no other is. */
  lemma {:induction false} ReadableAre(files: seq<File>, unreadable: set<int>)
    ensures |Readable(files, unreadable)| == |Found(unreadable, |files|)|
    ensures forall i :: 0 <= i < |files| && i !in unreadable ==>
              var k := |Found(unreadable, i)|;
              k < |Readable(files, unreadable)| && Readable(files, unreadable)[k] == files[i].(uri := "")
  {
    hide Found;
    FoundMore(unreadable, 0);
    if files != [] {
      var n := |files| - 1;
      ReadableAre(files[..n], unreadable);
      FoundMore(unreadable, n);
    }
  }

  lemma {:induction false} AllReadable(files: seq<File>, unreadable: set<int>)
    requires forall i :: 0 <= i < |files| ==> i !in unreadable
    ensures |Readable(files, unreadable)| == |files|
    ensures forall i :: 0 <= i < |files| ==> Readable(files, unreadable)[i] == files[i].(uri := "")
  {
    if files != [] {
      AllReadable(files[..|files| - 1], unreadable);
    }
  }

  /** Files waiting to be sent take precedence over the post's attachments. */
  function CurrentFiles(pending: seq<File>, attached: seq<File>, unreadable: set<int>): seq<File> {
    if pending != [] then pending else Readable(attached, unreadable)
  }

  method GetCurrentFiles(pending: seq<File>, attached: seq<File>, unreadable: set<int>) returns (current: seq<File>)
    ensures current == CurrentFiles(pending, attached, unreadable)
  {
    current := pending;
    if |current| == 0 && |attached| > 0 {
      for i := 0 to |attached|
        invariant current == Readable(attached[..i], unreadable)
      {
        assert attached[..i + 1][..i] == attached[..i];
        if i in unreadable {
          continue;
        }
        current := current + [attached[i].(uri := "")];
      }
      assert attached[..|attached|] == attached;
    }
  }

  // ---------- the files Matrix shows ----------

  /** Of the related events, the files grouped with event `id`. */
  function FilesOf(related: seq<Related>, id: int): seq<File> {
    if related == [] then []
    else
      var last := related[|related| - 1];
      FilesOf(related[..|related| - 1], id)
      + if last.file.Some? && last.group == Some(id) then [last.file.value] else []
  }

  lemma {:induction false} FilesOfAre(related: seq<Related>, id: int)
    ensures forall f :: f in FilesOf(related, id) <==> Related(Some(f), Some(id)) in related
  {
    if related != [] {
      FilesOfAre(related[..|related| - 1], id);
      assert related == related[..|related| - 1] + [related[|related| - 1]];
    }
  }

  /** A file event grouped with `id` has its file taken, any other event nothing, and the files keep their order. */
  lemma {:induction false} FilesOfAppend(a: seq<Related>, b: seq<Related>, id: int)
    ensures FilesOf(a + b, id) == FilesOf(a, id) + FilesOf(b, id)
    decreases |b|
  {
    if b == [] {
      assert a + b == a;
    } else {
      var init, last := b[..|b| - 1], b[|b| - 1];
      assert (a + b)[..|a + b| - 1] == a + init && (a + b)[|a + b| - 1] == last;
      FilesOfAppend(a, init, id);
    }
  }

  lemma FilesOfOne(e: Related, id: int)
    ensures FilesOf([e], id) == if e.file.Some? && e.group == Some(id) then [e.file.value] else []
  {
    assert [e][..0] == [];
  }

  method GetCurrentMatrixFileAttachments(related: seq<Related>, id: int) returns (files: seq<File>)
    ensures files == FilesOf(related, id)
    ensures forall f :: f in files <==> Related(Some(f), Some(id)) in related
  {
    FilesOfAre(related, id);
    files := [];
    for i := 0 to |related|
      invariant files == FilesOf(related[..i], id)
    {
      assert related[..i + 1][..i] == related[..i];
      if related[i].file.None? {
        continue;
      }
      if related[i].group != Some(id) {
        continue;
      }
      files := files + [related[i].file.value];
    }
    assert related[..|related|] == related;
  }

  // ---------- the comparison ----------

  /** A post of files only, whose event shows the name of one of them. */
  predicate FileOnly(current: Text, wanted: Text, files: seq<File>) {
    wanted.body == "" && current.body != "" && exists i :: 0 <= i < |files| && files[i].name == current.body
  }

  predicate SameText(current: Text, wanted: Text, files: seq<File>) {
    current.html == wanted.html && (current.body == wanted.body || FileOnly(current, wanted, files))
  }

  /** `shown` are the files Matrix shows, None if they cannot be looked up. */
  predicate Identical(current: Text, shown: Option<seq<File>>, wanted: Text, files: seq<File>) {
    SameText(current, wanted, files) && (FileOnly(current, wanted, files) || shown == Some(files))
  }

  method NamesFile(body: string, files: seq<File>) returns (found: bool)
    ensures found == exists i :: 0 <= i < |files| && files[i].name == body
  {
    for i := 0 to |files|
      invariant forall j :: 0 <= j < i ==> files[j].name != body
    {
      if body == files[i].name {
        return true;
      }
    }
    return false;
  }

  method CompareTextContent(current: Text, wanted: Text, files: seq<File>) returns (same: bool)
    ensures same == SameText(current, wanted, files)
    ensures same
       <==> && current.html == wanted.html
            && (current.body == wanted.body
                || (wanted.body == "" && exists i :: 0 <= i < |files| && files[i].name == current.body))
  {
    if current.body != wanted.body {
      if wanted.body != "" || |files| == 0 {
        return false;
      }
      var filenameMatch := NamesFile(current.body, files);
      if !filenameMatch {
        return false;
      }
    }
    if wanted.html != "" {
      return current.html == wanted.html;
    }
    return current.html == "";
  }

  method AreFileAttachmentsIdentical(shown: Option<seq<File>>, files: seq<File>) returns (same: bool)
    ensures same == (shown == Some(files))
  {
    if shown.None? || |shown.value| != |files| {
      return false;
    }
    for i := 0 to |files|
      invariant shown.value[..i] == files[..i]
    {
      if shown.value[i] != files[i] {
        return false;
      }
    }
    assert shown.value[..|files|] == shown.value && files[..|files|] == files;
    return true;
  }

  /**
    A post with text is unchanged when text, formatting and files are the same; a post without text also when its event
    shows the name of one of its files, whatever files Matrix shows.
  */
  lemma IdenticalIff(current: Text, shown: Option<seq<File>>, wanted: Text, files: seq<File>)
    ensures wanted.body != "" ==>
              (Identical(current, shown, wanted, files) <==> current == wanted && shown == Some(files))
    ensures wanted.body == "" && current.body == "" ==>
              (Identical(current, shown, wanted, files) <==> current == wanted && shown == Some(files))
    ensures wanted.body == "" && current.body != "" ==>
              (Identical(current, shown, wanted, files)
               <==> current.html == wanted.html && exists i :: 0 <= i < |files| && files[i].name == current.body)
  {
  }

  method IsMatrixContentIdentical(current: Text, shown: Option<seq<File>>, wanted: Text, files: seq<File>)
    returns (same: bool)
    ensures same == Identical(current, shown, wanted, files)
    ensures (same
             <==> && current.html == wanted.html
                  && if wanted.body == "" && current.body != ""
                     then exists i :: 0 <= i < |files| && files[i].name == current.body
                     else current.body == wanted.body && shown == Some(files))
  {
    IdenticalIff(current, shown, wanted, files);
    var textSame := CompareTextContent(current, wanted, files);
    if !textSame {
      return false;
    }
    if wanted.body == "" && |files| > 0 && current.body != "" {
      var fileOnly := NamesFile(current.body, files);
      if fileOnly {
        return true;
      }
    }
    same := AreFileAttachmentsIdentical(shown, files);
  }

  /**
    A post with text, and no files waiting, is found unchanged exactly when text and formatting are the same, the
    files could be looked up, and neither side has any: attachments never match files that have an address.
  */
  lemma AttachmentsNeverMatch(current: Text, related: Option<seq<Related>>, id: int, wanted: Text, attached: seq<File>,
                              unreadable: set<int>)
    requires wanted.body != ""
    requires related.Some? ==> forall f :: Related(Some(f), Some(id)) in related.value ==> f.uri != ""
    ensures var shown := if related.Some? then Some(FilesOf(related.value, id)) else None;
            Identical(current, shown, wanted, CurrentFiles([], attached, unreadable))
            <==> && current == wanted && related.Some?
                 && FilesOf(related.value, id) == [] && Readable(attached, unreadable) == []
  {
    if related.Some? {
      var shown := FilesOf(related.value, id);
      FilesOfAre(related.value, id);
      assert shown != [] ==> shown[0] in shown;
    }
  }
}
