/**
  The memory of post timestamps by which redundant edits are recognised (server/post_tracker.go). Times are
  milliseconds.
*/
module PostTracker {
  import opened Prelude

  const CLEANUP_FREQ: int := 100
  const MAX_AGE: int := 3_600_000

  /** Timestamps by post ID. */
  type Entries<K> = map<K, int>

  datatype State<K> = State(entries: Entries<K>, putCounter: int)

  /** A Put reads the clock once before and once after it stores, for the two cleanups it may do. */
  datatype Op<K> = Put(post: K, updateAt: int, now: int, later: int) | Delete(post: K)

  function Empty<K>(): State<K> {
    State(map[], 0)
  }

  function Recent<K(==)>(entries: Entries<K>, now: int): Entries<K> {
    map post | post in entries && entries[post] >= now - MAX_AGE :: entries[post]
  }

  /** What is there once a full tracker has tried to make room. */
  function MadeRoom<K(==)>(s: State<K>, max: int, now: int): State<K> {
    if |s.entries| >= max then State(Recent(s.entries, now), 0) else s
  }

  predicate Admits<K(==)>(s: State<K>, max: int, now: int) {
    |MadeRoom(s, max, now).entries| < max
  }

  function Do<K(==)>(s: State<K>, max: int, op: Op<K>): State<K> {
    match op
    case Delete(post) => s.(entries := s.entries - {post})
    case Put(post, updateAt, now, later) =>
      var room := MadeRoom(s, max, now);
      if !Admits(s, max, now) then room
      else if (room.putCounter + 1) % CLEANUP_FREQ == 0 then State(Recent(room.entries[post := updateAt], later), 0)
      else State(room.entries[post := updateAt], room.putCounter + 1)
  }

  function Run<K(==)>(s: State<K>, max: int, ops: seq<Op<K>>): State<K>
    decreases |ops|
  {
    if ops == [] then s else Run(Do(s, max, ops[0]), max, ops[1..])
  }

  function Known<K(==)>(entries: Entries<K>, post: K): Option<int> {
    if post in entries then Some(entries[post]) else None
  }

  /** The first timestamp is stored if the tracker takes any. */
  lemma FirstPut<K>(max: int, post: K, updateAt: int, now: int, later: int)
    ensures Known(Do(Empty(), max, Put(post, updateAt, now, later)).entries, post)
         == if max <= 0 then None else Some(updateAt)
  {
    var none: Entries<K> := map[];
    assert Recent(none, now) == none && |none| == 0;
  }

  lemma SubmapSize<K>(a: Entries<K>, b: Entries<K>)
    requires forall post :: post in a ==> post in b
    ensures |a| <= |b|
  {
    assert a.Keys <= b.Keys;
    SubsetSize(a.Keys, b.Keys);
  }

  /** The tracker holds at most its maximum, and its counter stays below the cleanup frequency. */
  ghost predicate Bounded<K>(s: State<K>, max: int) {
    |s.entries| <= (if max < 0 then 0 else max) && 0 <= s.putCounter < 100
  }

  lemma {:induction false} RunBounded<K>(s: State<K>, max: int, ops: seq<Op<K>>)
    requires Bounded(s, max)
    ensures Bounded(Run(s, max, ops), max)
    decreases |ops|
  {
    if ops != [] {
      StepBounded(s, max, ops[0]);
      hide Bounded, Do;
      RunBounded(Do(s, max, ops[0]), max, ops[1..]);
    }
  }

  lemma PutSize<K>(entries: Entries<K>, post: K, updateAt: int, later: int)
    ensures |Recent(entries, later)| <= |entries|
    ensures |entries[post := updateAt]| <= |entries| + 1
  {
    SubmapSize(Recent(entries, later), entries);
    assert entries[post := updateAt].Keys == entries.Keys + {post};
  }

  lemma StepBounded<K>(s: State<K>, max: int, op: Op<K>)
    requires Bounded(s, max)
    ensures Bounded(Do(s, max, op), max)
  {
    hide Recent;
    match op
    case Delete(post) => SubmapSize(s.entries - {post}, s.entries);
    case Put(post, updateAt, now, later) =>
      PutSize(s.entries, post, updateAt, now);
      var room := MadeRoom(s, max, now);
      PutSize(room.entries, post, updateAt, later);
      PutSize(room.entries[post := updateAt], post, updateAt, later);
  }

  /** Neither stores nor deletes `post`, and reads the clock no later than `until`. */
  predicate Spares<K(==)>(op: Op<K>, post: K, until: int) {
    match op
    case Delete(p) => p != post
    case Put(p, _, now, later) => p != post && now <= until && later <= until
  }

  lemma StepSpares<K>(s: State<K>, max: int, op: Op<K>, post: K)
    requires post in s.entries && Spares(op, post, s.entries[post] + MAX_AGE)
    ensures Known(Do(s, max, op).entries, post) == Known(s.entries, post)
  {
  }

  lemma {:induction false} RunSpares<K>(s: State<K>, max: int, ops: seq<Op<K>>, post: K, until: int)
    requires post in s.entries && until == s.entries[post] + MAX_AGE
    requires forall op :: op in ops ==> Spares(op, post, until)
    ensures Known(Run(s, max, ops).entries, post) == Known(s.entries, post)
    decreases |ops|
  {
    hide Do, Spares;
    if ops != [] {
      assert ops[0] in ops && forall op :: op in ops[1..] ==> op in ops;
      StepSpares(s, max, ops[0], post);
      RunSpares(Do(s, max, ops[0]), max, ops[1..], post, until);
    }
  }

  /**
    An accepted timestamp is found again until it is an hour old, whatever else is stored or deleted, so the
    edit that carries it is recognised as redundant.
  */
  lemma RecognisedForAnHour<K>(max: int, before: seq<Op<K>>, post: K, updateAt: int, now: int, later: int,
                               after: seq<Op<K>>)
    requires Admits(Run(Empty(), max, before), max, now) && later <= updateAt + 3_600_000
    requires forall op :: op in after ==> Spares(op, post, updateAt + 3_600_000)
    ensures Known(Run(Do(Run(Empty(), max, before), max, Put(post, updateAt, now, later)), max, after).entries, post)
         == Some(updateAt)
  {
    var s := Do(Run(Empty(), max, before), max, Put(post, updateAt, now, later));
    assert Known(s.entries, post) == Some(updateAt);
    RunSpares(s, max, after, post, updateAt + MAX_AGE);
  }

  class Tracker {
    var entries: Entries<string>
    var putCounter: int
    const maxEntries: int

    constructor (max: int)
      ensures Contents() == Empty() && maxEntries == max
    {
      entries, putCounter, maxEntries := map[], 0, max;
    }

    function Contents(): State<string>
      reads this
    {
      State(entries, putCounter)
    }

    /** Refuses, even for a post it knows, when a full tracker has nothing old to give up. */
    method Put(postID: string, updateAt: int, now: int, later: int) returns (ok: bool)
      modifies this
      ensures Contents() == Do(old(Contents()), maxEntries, Op.Put(postID, updateAt, now, later))
      ensures ok == Admits(old(Contents()), maxEntries, now)
    {
      if |entries| >= maxEntries {
        CleanupOldEntries(now);
        if |entries| >= maxEntries {
          return false;
        }
      }
      entries := entries[postID := updateAt];
      putCounter := putCounter + 1;
      if putCounter % CLEANUP_FREQ == 0 {
        CleanupOldEntries(later);
      }
      return true;
    }

    method Get(postID: string) returns (updateAt: Option<int>)
      ensures updateAt == Known(entries, postID)
    {
      return if postID in entries then Some(entries[postID]) else None;
    }

    method Delete(postID: string)
      modifies this
      ensures Contents() == Do(old(Contents()), maxEntries, Op.Delete(postID))
    {
      entries := entries - {postID};
    }

    method CleanupOldEntries(now: int)
      modifies this
      ensures Contents() == State(Recent(old(entries), now), 0)
    {
      var cutoffTime := now - MAX_AGE;
      var posts := entries.Keys;
      ghost var start := entries;
      while posts != {}
        invariant posts <= entries.Keys <= start.Keys
        invariant forall p :: p in entries ==> entries[p] == start[p]
        invariant forall p :: p in start && (p in posts || start[p] >= cutoffTime) ==> p in entries
        invariant forall p :: p in entries && p !in posts ==> start[p] >= cutoffTime
        decreases |posts|
      {
        var postID :| postID in posts;
        if entries[postID] < cutoffTime {
          entries := entries - {postID};
        }
        posts := posts - {postID};
      }
      assert entries == Recent(start, now);
      putCounter := 0;
    }
  }
}
