/** Files waiting for their posts (server/post_tracker.go).  Times are milliseconds. */
module PendingFiles {

  datatype File = File(fileID: string, filename: string, uploadedAt: int)

  type Files = map<string, seq<File>>

  const CLEANUP_FREQ: int := 50
  const MAX_AGE: int := 1_800_000

  datatype Tracked = Tracked(files: Files, addCounter: int)

  /** AddFile reads the clock twice: for the upload time and, if it cleans up, for the cutoff. */
  datatype Op =
    | Add(post: string, file: File, now: int, later: int)
    | Get(post: string)
    | Remove(post: string, fileID: string)
    | Cleanup(now: int)

  function Waiting(files: Files, post: string): seq<File> {
    if post in files then files[post] else []
  }

  function Kept(fs: seq<File>, cutoff: int): seq<File> {
    if fs == [] then []
    else Kept(fs[..|fs| - 1], cutoff) + if fs[|fs| - 1].uploadedAt >= cutoff then [fs[|fs| - 1]] else []
  }

  function Expired(fs: seq<File>, cutoff: int): seq<File> {
    if fs == [] then []
    else Expired(fs[..|fs| - 1], cutoff) + if fs[|fs| - 1].uploadedAt < cutoff then [fs[|fs| - 1]] else []
  }

  function Cleaned(files: Files, cutoff: int): Files {
    map post | post in files && Kept(files[post], cutoff) != [] :: Kept(files[post], cutoff)
  }

  /** The first file with the given ID, or the length. */
  function Position(fs: seq<File>, fileID: string): (i: int)
    ensures 0 <= i <= |fs|
    ensures forall j :: 0 <= j < i ==> fs[j].fileID != fileID
    ensures i < |fs| ==> fs[i].fileID == fileID
  {
    if fs == [] || fs[0].fileID == fileID then 0 else 1 + Position(fs[1..], fileID)
  }

  function Put(files: Files, post: string, fs: seq<File>): Files {
    if fs == [] then files - {post} else files[post := fs]
  }

  function Without(fs: seq<File>, i: int): seq<File>
    requires 0 <= i < |fs|
  {
    fs[..i] + fs[i + 1..]
  }

  function Uploaded(op: Op): File
    requires op.Add?
  {
    op.file.(uploadedAt := op.now)
  }

  function AfterAdd(files: Files, op: Op): Files
    requires op.Add?
  {
    files[op.post := Waiting(files, op.post) + [Uploaded(op)]]
  }

  function Do(s: Tracked, op: Op): Tracked {
    match op
    case Add(post, _, _, later) =>
      if (s.addCounter + 1) % CLEANUP_FREQ == 0 then Tracked(Cleaned(AfterAdd(s.files, op), later - MAX_AGE), 0)
      else Tracked(AfterAdd(s.files, op), s.addCounter + 1)
    case Get(post) => s.(files := s.files - {post})
    case Remove(post, fileID) =>
      var fs := Waiting(s.files, post);
      var i := Position(fs, fileID);
      if i == |fs| then s else s.(files := Put(s.files, post, Without(fs, i)))
    case Cleanup(now) => Tracked(Cleaned(s.files, now - MAX_AGE), 0)
  }

  function Run(s: Tracked, ops: seq<Op>): Tracked
    decreases |ops|
  {
    if ops == [] then s else Run(Do(s, ops[0]), ops[1..])
  }

  const NONE: Tracked := Tracked(map[], 0)

  // ---------- the ledger of one post ----------

  function Came(op: Op, post: string): seq<File> {
    if op.Add? && op.post == post then [Uploaded(op)] else []
  }

  function Fetched(s: Tracked, op: Op, post: string): seq<File> {
    if op.Get? && op.post == post then Waiting(s.files, post) else []
  }

  function Removed(s: Tracked, op: Op, post: string): seq<File> {
    if op.Remove? && op.post == post then
      var fs := Waiting(s.files, post);
      var i := Position(fs, op.fileID);
      if i < |fs| then [fs[i]] else []
    else []
  }

  /** What a cleanup, asked for or due, lets go of. */
  function TimedOut(s: Tracked, op: Op, post: string): seq<File> {
    match op
    case Add(_, _, _, later) =>
      if (s.addCounter + 1) % CLEANUP_FREQ != 0 then []
      else Expired(Waiting(AfterAdd(s.files, op), post), later - MAX_AGE)
    case Cleanup(now) => Expired(Waiting(s.files, post), now - MAX_AGE)
    case _ => []
  }

  function Left(s: Tracked, op: Op, post: string): seq<File> {
    Fetched(s, op, post) + Removed(s, op, post) + TimedOut(s, op, post)
  }

  function AllCame(ops: seq<Op>, post: string): seq<File> {
    if ops == [] then [] else Came(ops[0], post) + AllCame(ops[1..], post)
  }

  function AllLeft(s: Tracked, ops: seq<Op>, post: string): seq<File>
    decreases |ops|
  {
    if ops == [] then [] else Left(s, ops[0], post) + AllLeft(Do(s, ops[0]), ops[1..], post)
  }

  function Times(fs: seq<File>, f: File): int {
    multiset(fs)[f]
  }

  lemma TimesAppend(a: seq<File>, b: seq<File>, f: File)
    ensures Times(a + b, f) == Times(a, f) + Times(b, f) && Times([], f) == 0
  {
  }

  lemma {:induction false} KeptAndExpired(fs: seq<File>, cutoff: int, f: File)
    ensures Times(fs, f) == Times(Kept(fs, cutoff), f) + Times(Expired(fs, cutoff), f)
    ensures |fs| == |Kept(fs, cutoff)| + |Expired(fs, cutoff)|
  {
    TimesAppend([], [], f);
    hide Times;
    if fs != [] {
      var init, last := fs[..|fs| - 1], fs[|fs| - 1];
      KeptAndExpired(init, cutoff, f);
      assert fs == init + [last];
      TimesAppend(init, [last], f);
      TimesAppend(Kept(init, cutoff), if last.uploadedAt >= cutoff then [last] else [], f);
      TimesAppend(Expired(init, cutoff), if last.uploadedAt < cutoff then [last] else [], f);
    }
  }

  lemma CleanedWaiting(files: Files, cutoff: int, post: string)
    ensures Waiting(Cleaned(files, cutoff), post) == Kept(Waiting(files, post), cutoff)
  {
  }

  lemma WithoutTimes(fs: seq<File>, i: int, f: File)
    requires 0 <= i < |fs|
    ensures Times(fs, f) == Times(Without(fs, i), f) + Times([fs[i]], f)
  {
    assert fs == fs[..i] + [fs[i]] + fs[i + 1..];
    TimesAppend(fs[..i] + [fs[i]], fs[i + 1..], f);
    TimesAppend(fs[..i], [fs[i]], f);
    TimesAppend(fs[..i], fs[i + 1..], f);
  }

  lemma StepBalances(s: Tracked, op: Op, post: string, f: File)
    ensures Times(Waiting(s.files, post), f) + Times(Came(op, post), f)
         == Times(Left(s, op, post), f) + Times(Waiting(Do(s, op).files, post), f)
  {
    TimesAppend(Fetched(s, op, post) + Removed(s, op, post), TimedOut(s, op, post), f);
    TimesAppend(Fetched(s, op, post), Removed(s, op, post), f);
    hide Times, Kept, Expired, Position, Without;
    match op
    case Add(p, _, _, later) =>
      var after := AfterAdd(s.files, op);
      TimesAppend(Waiting(s.files, post), Came(op, post), f);
      assert Waiting(after, post) == Waiting(s.files, post) + Came(op, post);
      CleanedWaiting(after, later - MAX_AGE, post);
      KeptAndExpired(Waiting(after, post), later - MAX_AGE, f);
    case Get(p) =>
    case Remove(p, fileID) =>
      var fs := Waiting(s.files, post);
      var i := Position(fs, fileID);
      if p == post && i < |fs| {
        WithoutTimes(fs, i, f);
      }
    case Cleanup(now) =>
      CleanedWaiting(s.files, now - MAX_AGE, post);
      KeptAndExpired(Waiting(s.files, post), now - MAX_AGE, f);
  }

  lemma {:induction false} RunBalances(s: Tracked, ops: seq<Op>, post: string, f: File)
    ensures Times(Waiting(s.files, post), f) + Times(AllCame(ops, post), f)
         == Times(AllLeft(s, ops, post), f) + Times(Waiting(Run(s, ops).files, post), f)
    decreases |ops|
  {
    TimesAppend([], [], f);
    hide Times, Left, Do, Came, Waiting;
    if ops != [] {
      StepBalances(s, ops[0], post, f);
      RunBalances(Do(s, ops[0]), ops[1..], post, f);
      TimesAppend(Came(ops[0], post), AllCame(ops[1..], post), f);
      TimesAppend(Left(s, ops[0], post), AllLeft(Do(s, ops[0]), ops[1..], post), f);
    }
  }

  /** Every file added for a post has left by exactly one of GetFiles, RemoveFile and expiry, or is still waiting. */
  lemma FilesConserved(ops: seq<Op>, post: string, f: File)
    ensures multiset(AllCame(ops, post))[f]
         == multiset(AllLeft(NONE, ops, post))[f] + multiset(Waiting(Run(NONE, ops).files, post))[f]
  {
    RunBalances(NONE, ops, post, f);
    TimesAppend([], [], f);
  }

  /** Only files uploaded more than thirty minutes before the cleanup expire. */
  lemma {:induction false} ExpiredAreOld(fs: seq<File>, cutoff: int, f: File)
    ensures f in Expired(fs, cutoff) <==> f in fs && f.uploadedAt < cutoff
  {
    if fs != [] {
      ExpiredAreOld(fs[..|fs| - 1], cutoff, f);
      assert fs == fs[..|fs| - 1] + [fs[|fs| - 1]];
    }
  }

  lemma TimedOutAreOld(s: Tracked, op: Op, post: string, f: File)
    requires f in TimedOut(s, op, post)
    ensures match op
            case Add(_, _, _, later) => f.uploadedAt + 1_800_000 < later
            case Cleanup(now) => f.uploadedAt + 1_800_000 < now
            case _ => false
  {
    match op
    case Add(_, _, _, later) => ExpiredAreOld(Waiting(AfterAdd(s.files, op), post), later - MAX_AGE, f);
    case Cleanup(now) => ExpiredAreOld(Waiting(s.files, post), now - MAX_AGE, f);
    case _ =>
  }

  // ---------- order ----------

  /** `a` is left when some elements of `b` are dropped. */
  predicate Thinned(a: seq<File>, b: seq<File>) {
    if b == [] then a == []
    else Thinned(a, b[..|b| - 1]) || (a != [] && a[|a| - 1] == b[|b| - 1] && Thinned(a[..|a| - 1], b[..|b| - 1]))
  }

  lemma {:induction false} ThinnedSelf(a: seq<File>)
    ensures Thinned(a, a)
  {
    if a != [] {
      ThinnedSelf(a[..|a| - 1]);
    }
  }

  lemma {:induction false} ThinnedNone(b: seq<File>)
    ensures Thinned([], b)
  {
    if b != [] {
      ThinnedNone(b[..|b| - 1]);
    }
  }

  lemma ThinnedMore(a: seq<File>, b: seq<File>, f: File)
    requires Thinned(a, b)
    ensures Thinned(a + [f], b + [f]) && Thinned(a, b + [f])
  {
    assert (b + [f])[..|b|] == b && (a + [f])[..|a|] == a;
  }

  lemma {:induction false} ThinnedTwice(a: seq<File>, b: seq<File>, c: seq<File>)
    requires Thinned(a, b) && Thinned(b, c)
    ensures Thinned(a, c)
    decreases |b| + |c|
  {
    if c != [] {
      var c' := c[..|c| - 1];
      if Thinned(b, c') {
        ThinnedTwice(a, b, c');
      } else {
        var b' := b[..|b| - 1];
        if Thinned(a, b') {
          ThinnedTwice(a, b', c');
        } else {
          ThinnedTwice(a[..|a| - 1], b', c');
        }
      }
    }
  }

  lemma {:induction false} KeptThins(fs: seq<File>, cutoff: int)
    ensures Thinned(Kept(fs, cutoff), fs)
  {
    if fs != [] {
      KeptThins(fs[..|fs| - 1], cutoff);
      assert Kept(fs[..|fs| - 1], cutoff) + [] == Kept(fs[..|fs| - 1], cutoff);
      assert fs == fs[..|fs| - 1] + [fs[|fs| - 1]];
      ThinnedMore(Kept(fs[..|fs| - 1], cutoff), fs[..|fs| - 1], fs[|fs| - 1]);
    }
  }

  lemma {:induction false} WithoutThins(fs: seq<File>, i: int)
    requires 0 <= i < |fs|
    ensures Thinned(Without(fs, i), fs)
    decreases |fs|
  {
    var init, last := fs[..|fs| - 1], fs[|fs| - 1];
    assert fs == init + [last];
    if i == |fs| - 1 {
      ThinnedSelf(init);
      assert Without(fs, i) == init;
      ThinnedMore(init, init, last);
    } else {
      WithoutThins(init, i);
      assert Without(fs, i) == Without(init, i) + [last];
      ThinnedMore(Without(init, i), init, last);
    }
  }

  lemma AddedWaiting(files: Files, op: Op, post: string)
    requires op.Add?
    ensures Waiting(AfterAdd(files, op), post) == Waiting(files, post) + Came(op, post)
  {
  }

  lemma AddThins(s: Tracked, op: Op, post: string)
    requires op.Add?
    ensures Thinned(Waiting(Do(s, op).files, post), Waiting(s.files, post) + Came(op, post))
  {
    hide Thinned, Kept, AfterAdd, Waiting, Came, Cleaned;
    var after := AfterAdd(s.files, op);
    AddedWaiting(s.files, op, post);
    ThinnedSelf(Waiting(after, post));
    CleanedWaiting(after, op.later - MAX_AGE, post);
    KeptThins(Waiting(after, post), op.later - MAX_AGE);
  }

  lemma RemoveThins(s: Tracked, op: Op, post: string)
    requires op.Remove?
    ensures Thinned(Waiting(Do(s, op).files, post), Waiting(s.files, post))
  {
    hide Thinned, Position, Without;
    var before := Waiting(s.files, post);
    ThinnedSelf(before);
    var i := Position(before, op.fileID);
    if op.post == post && i < |before| {
      WithoutThins(before, i);
    }
  }

  lemma StepThins(s: Tracked, op: Op, post: string)
    ensures Thinned(Waiting(Do(s, op).files, post), Waiting(s.files, post) + Came(op, post))
  {
    hide Thinned, Kept, Position, Without;
    var before := Waiting(s.files, post);
    assert before + [] == before;
    match op
    case Add(_, _, _, _) => AddThins(s, op, post);
    case Get(p) =>
      ThinnedNone(before);
      ThinnedSelf(before);
    case Remove(_, _) => RemoveThins(s, op, post);
    case Cleanup(now) =>
      CleanedWaiting(s.files, now - MAX_AGE, post);
      KeptThins(before, now - MAX_AGE);
  }

  lemma {:induction false} ThinnedAppend(a: seq<File>, b: seq<File>, c: seq<File>)
    requires Thinned(a, b)
    ensures Thinned(a + c, b + c)
    decreases |c|
  {
    if c == [] {
      assert a + c == a && b + c == b;
    } else {
      var c', last := c[..|c| - 1], c[|c| - 1];
      ThinnedAppend(a, b, c');
      ThinnedMore(a + c', b + c', last);
      assert a + c == (a + c') + [last] && b + c == (b + c') + [last];
    }
  }

  lemma {:induction false} RunThins(s: Tracked, ops: seq<Op>, post: string)
    ensures Thinned(Waiting(Run(s, ops).files, post), Waiting(s.files, post) + AllCame(ops, post))
    decreases |ops|
  {
    hide Thinned, Do, Came, Waiting;
    if ops == [] {
      assert Waiting(s.files, post) + [] == Waiting(s.files, post);
      ThinnedSelf(Waiting(s.files, post));
    } else {
      var s1 := Do(s, ops[0]);
      StepThins(s, ops[0], post);
      RunThins(s1, ops[1..], post);
      ThinnedAppend(Waiting(s1.files, post), Waiting(s.files, post) + Came(ops[0], post), AllCame(ops[1..], post));
      ThinnedTwice(Waiting(Run(s, ops).files, post), Waiting(s1.files, post) + AllCame(ops[1..], post),
                   Waiting(s.files, post) + Came(ops[0], post) + AllCame(ops[1..], post));
      assert Waiting(s.files, post) + Came(ops[0], post) + AllCame(ops[1..], post)
          == Waiting(s.files, post) + (Came(ops[0], post) + AllCame(ops[1..], post));
    }
  }

  /** The files waiting for a post are in the order in which they were added. */
  lemma OrderKept(ops: seq<Op>, post: string)
    ensures Thinned(Waiting(Run(NONE, ops).files, post), AllCame(ops, post))
  {
    RunThins(NONE, ops, post);
    assert [] + AllCame(ops, post) == AllCame(ops, post);
  }

  // ---------- the whole tracker ----------

  /** No post is listed without files, and a cleanup has not been missed. */
  ghost predicate Tidy(s: Tracked) {
    && (forall post :: post in s.files ==> s.files[post] != [])
    && 0 <= s.addCounter < 50
  }

  lemma {:induction false} RunTidy(s: Tracked, ops: seq<Op>)
    requires Tidy(s)
    ensures Tidy(Run(s, ops))
    decreases |ops|
  {
    if ops != [] {
      assert Tidy(Do(s, ops[0]));
      hide Do, Tidy;
      RunTidy(Do(s, ops[0]), ops[1..]);
    }
  }

  ghost function Total(files: Files): int
    decreases |files|
  {
    if files == map[] then 0
    else
      var post :| post in files;
      |files[post]| + Total(files - {post})
  }

  lemma {:induction false} TotalWithout(files: Files, post: string)
    ensures Total(files) == |Waiting(files, post)| + Total(files - {post})
    decreases |files|
  {
    if post !in files {
      assert files - {post} == files;
    } else {
      var p :| p in files && Total(files) == |files[p]| + Total(files - {p});
      if p != post {
        TotalWithout(files - {p}, post);
        TotalWithout(files - {post}, p);
        assert files - {p} - {post} == files - {post} - {p};
      }
    }
  }

  lemma TotalPut(files: Files, post: string, fs: seq<File>)
    ensures Total(Put(files, post, fs)) == Total(files) - |Waiting(files, post)| + |fs|
  {
    TotalWithout(files, post);
    TotalWithout(Put(files, post, fs), post);
    assert Put(files, post, fs) - {post} == files - {post};
  }

  class PendingFileTracker {
    var filesByPost: Files
    var addCounter: int

    constructor ()
      ensures State() == NONE
    {
      filesByPost, addCounter := map[], 0;
    }

    function State(): Tracked
      reads this
    {
      Tracked(filesByPost, addCounter)
    }

    /** Appends the file under its upload time; every fiftieth addition drops what is then over thirty minutes old. */
    method AddFile(postID: string, file: File, now: int, later: int)
      modifies this
      ensures State() == Do(old(State()), Add(postID, file, now, later))
      ensures var added := old(filesByPost)[postID := Waiting(old(filesByPost), postID) + [file.(uploadedAt := now)]];
              if (old(addCounter) + 1) % 50 != 0 then filesByPost == added && addCounter == old(addCounter) + 1
              else filesByPost == Cleaned(added, later - 1_800_000) && addCounter == 0
    {
      hide Cleaned, Kept, Total;
      filesByPost := filesByPost[postID := (if postID in filesByPost then filesByPost[postID] else [])
                                 + [file.(uploadedAt := now)]];
      addCounter := addCounter + 1;
      if addCounter % CLEANUP_FREQ == 0 {
        var _ := CleanupOldFiles(later);
      }
    }

    method GetFiles(postID: string) returns (files: seq<File>)
      modifies this
      ensures State() == Do(old(State()), Get(postID))
      ensures files == Fetched(old(State()), Get(postID), postID)
      ensures files == Waiting(old(filesByPost), postID) && filesByPost == old(filesByPost) - {postID}
    {
      files := if postID in filesByPost then filesByPost[postID] else [];
      filesByPost := filesByPost - {postID};
    }

    method RemoveFile(postID: string, fileID: string) returns (found: bool)
      modifies this
      ensures State() == Do(old(State()), Remove(postID, fileID))
      ensures found == (Removed(old(State()), Remove(postID, fileID), postID) != [])
      ensures found <==> exists i :: 0 <= i < |Waiting(old(filesByPost), postID)|
                                    && Waiting(old(filesByPost), postID)[i].fileID == fileID
    {
      var files := if postID in filesByPost then filesByPost[postID] else [];
      for i := 0 to |files|
        invariant State() == old(State())
        invariant forall j :: 0 <= j < i ==> files[j].fileID != fileID
      {
        if files[i].fileID == fileID {
          assert i == Position(files, fileID);
          filesByPost := filesByPost[postID := files[..i] + files[i + 1..]];
          if |filesByPost[postID]| == 0 {
            filesByPost := filesByPost - {postID};
          }
          return true;
        }
      }
      return false;
    }

    /** Keeps the young files of every post in order and says how many others it dropped. */
    method CleanupOldFiles(now: int) returns (removedCount: int)
      modifies this
      ensures State() == Do(old(State()), Cleanup(now))
      ensures removedCount == Total(old(filesByPost)) - Total(filesByPost)
    {
      hide Total, CleanedBut, Put, Kept, Cleaned;
      var cutoffTime := now - MAX_AGE;
      removedCount := 0;
      var posts := filesByPost.Keys;
      ghost var start := filesByPost;
      NothingCleaned(start, cutoffTime);
      while posts != {}
        invariant posts <= filesByPost.Keys
        invariant CleanedBut(start, filesByPost, posts, cutoffTime)
        invariant removedCount == Total(start) - Total(filesByPost)
        decreases |posts|
      {
        var postID :| postID in posts;
        OneMoreCleaned(start, filesByPost, posts, cutoffTime, postID);
        var dropped := CleanPost(postID, cutoffTime);
        removedCount := removedCount + dropped;
        posts := posts - {postID};
      }
      AllCleaned(start, filesByPost, cutoffTime);
      addCounter := 0;
    }

    /** One turn of the loop over posts. */
    method CleanPost(postID: string, cutoffTime: int) returns (dropped: int)
      requires postID in filesByPost
      modifies this`filesByPost
      ensures filesByPost == Put(old(filesByPost), postID, Kept(old(filesByPost)[postID], cutoffTime))
      ensures dropped == Total(old(filesByPost)) - Total(filesByPost)
    {
      hide Total, Kept;
      var keepFiles;
      keepFiles, dropped := SplitByAge(filesByPost[postID], cutoffTime);
      TotalPut(filesByPost, postID, keepFiles);
      if |keepFiles| == 0 {
        filesByPost := filesByPost - {postID};
      } else {
        filesByPost := filesByPost[postID := keepFiles];
      }
    }

    /** All posts but `rest` have been cleaned. */
    ghost predicate CleanedBut(start: Files, files: Files, rest: set<string>, cutoff: int) {
      && (forall p :: p in files <==> p in start && (p in rest || Kept(start[p], cutoff) != []))
      && (forall p :: p in files ==> files[p] == if p in rest then start[p] else Kept(start[p], cutoff))
    }

    lemma NothingCleaned(start: Files, cutoff: int)
      ensures CleanedBut(start, start, start.Keys, cutoff)
    {
    }

    lemma AllCleaned(start: Files, files: Files, cutoff: int)
      requires CleanedBut(start, files, {}, cutoff)
      ensures files == Cleaned(start, cutoff)
    {
    }

    lemma OneMoreCleaned(start: Files, files: Files, rest: set<string>, cutoff: int, post: string)
      requires CleanedBut(start, files, rest, cutoff) && post in rest && post in files && rest <= files.Keys
      ensures CleanedBut(start, Put(files, post, Kept(files[post], cutoff)), rest - {post}, cutoff)
      ensures rest - {post} <= Put(files, post, Kept(files[post], cutoff)).Keys
    {
    }

    /** The inner loop over one post's files. */
    method SplitByAge(files: seq<File>, cutoffTime: int) returns (keepFiles: seq<File>, removedCount: int)
      ensures keepFiles == Kept(files, cutoffTime)
      ensures removedCount == |files| - |keepFiles|
    {
      keepFiles := [];
      removedCount := 0;
      for i := 0 to |files|
        invariant keepFiles == Kept(files[..i], cutoffTime)
        invariant removedCount == i - |keepFiles|
      {
        assert files[..i + 1][..i] == files[..i];
        if files[i].uploadedAt >= cutoffTime {
          keepFiles := keepFiles + [files[i]];
        } else {
          removedCount := removedCount + 1;
        }
      }
      assert files[..|files|] == files;
    }

    method Size() returns (total: int)
      ensures total == Total(filesByPost)
    {
      total := 0;
      var rest := filesByPost;
      while rest != map[]
        invariant total + Total(rest) == Total(filesByPost)
        decreases |rest|
      {
        var postID :| postID in rest;
        TotalWithout(rest, postID);
        total := total + |rest[postID]|;
        rest := rest - {postID};
      }
    }
  }
}
