/**
  The abstract LRU + TTL cache: a sequence of entries, most recently used first.
  `Cache.Cache` refines it; the whole-run theorems of the cache are proved here.
*/
module Recency {
  import opened Prelude

  datatype Entry = Entry(key: string, value: string, expiresAt: int)

  type Entries = seq<Entry>

  /** Capacity and time to live, in nanoseconds. */
  datatype Policy = Policy(capacity: int, ttl: int)

  predicate Expired(e: Entry, now: int) {
    now > e.expiresAt
  }

  function Find(r: Entries, key: string): Option<Entry> {
    if r == [] then None else if r[0].key == key then Some(r[0]) else Find(r[1..], key)
  }

  /** The sequence without the entry of `key`. */
  function Without(r: Entries, key: string): Entries {
    if r == [] then []
    else if r[0].key == key then r[1..]
    else [r[0]] + Without(r[1..], key)
  }

  function Live(r: Entries, now: int): Entries {
    if r == [] then []
    else (if Expired(r[0], now) then [] else [r[0]]) + Live(r[1..], now)
  }

  function CountExpired(r: Entries, now: int): nat {
    if r == [] then 0 else (if Expired(r[0], now) then 1 else 0) + CountExpired(r[1..], now)
  }

  ghost predicate UniqueKeys(r: Entries) {
    forall i, j :: 0 <= i < j < |r| ==> r[i].key != r[j].key
  }

  // ---------- operations ----------

  datatype Op =
    | OpSet(key: string, value: string)
    | OpGet(key: string)
    | OpDelete(key: string)
    | OpClear
    | OpEvictExpired

  datatype Timed = Timed(at: int, op: Op)

  function SetStep(p: Policy, r: Entries, key: string, value: string, now: int): Entries {
    if p.capacity <= 0 then r
    else
      var e := Entry(key, value, now + p.ttl);
      if Find(r, key).Some? then RefreshStep(r, e) else InsertNew(p, r, e)
  }

  /** The entry replaces the one of its key and moves to the front. */
  function RefreshStep(r: Entries, e: Entry): Entries {
    [e] + Without(r, e.key)
  }

  /** A new entry goes in front; a full cache gives up its last entry for it. */
  function InsertNew(p: Policy, r: Entries, e: Entry): Entries {
    if |r| >= p.capacity && r != [] then [e] + r[..|r| - 1] else [e] + r
  }

  function GetStep(r: Entries, key: string, now: int): (Entries, Option<string>) {
    match Find(r, key)
    case None => (r, None)
    case Some(e) =>
      if Expired(e, now) then (Without(r, key), None)
      else ([e] + Without(r, key), Some(e.value))
  }

  function Step(p: Policy, r: Entries, t: Timed): Entries {
    match t.op
    case OpSet(key, value) => SetStep(p, r, key, value, t.at)
    case OpGet(key) => GetStep(r, key, t.at).0
    case OpDelete(key) => Without(r, key)
    case OpClear => []
    case OpEvictExpired => Live(r, t.at)
  }

  function Run(p: Policy, r: Entries, ops: seq<Timed>): Entries
    decreases |ops|
  {
    if ops == [] then r else Run(p, Step(p, r, ops[0]), ops[1..])
  }

  lemma {:induction false} RunAppend(p: Policy, r: Entries, a: seq<Timed>, b: seq<Timed>)
    ensures Run(p, r, a + b) == Run(p, Run(p, r, a), b)
    decreases |a|
  {
    if a == [] {
      assert a + b == b;
    } else {
      assert (a + b)[1..] == a[1..] + b;
      RunAppend(p, Step(p, r, a[0]), a[1..], b);
    }
  }

  // ---------- facts about the sequence operations ----------

  lemma {:induction false} FindSome(r: Entries, key: string)
    ensures Find(r, key).Some? ==> Find(r, key).value in r && Find(r, key).value.key == key
    ensures Find(r, key).None? <==> forall e :: e in r ==> e.key != key
  {
    if r != [] {
      FindSome(r[1..], key);
    }
  }

  lemma {:induction false} FindUnique(r: Entries, i: nat)
    requires i < |r| && UniqueKeys(r)
    ensures Find(r, r[i].key) == Some(r[i])
  {
    if i > 0 {
      FindUnique(r[1..], i - 1);
    }
  }

  lemma {:induction false} WithoutAbsent(r: Entries, key: string)
    requires forall e :: e in r ==> e.key != key
    ensures Without(r, key) == r
  {
    if r != [] {
      WithoutAbsent(r[1..], key);
    }
  }

  /** Removal by key is removal of one position. */
  lemma {:induction false} WithoutAt(r: Entries, i: nat)
    requires i < |r| && UniqueKeys(r)
    ensures Without(r, r[i].key) == r[..i] + r[i + 1..]
  {
    if i > 0 {
      WithoutAt(r[1..], i - 1);
      assert r[..i] + r[i + 1..] == [r[0]] + (r[1..][..i - 1] + r[1..][i..]);
    } else {
      assert r[..0] + r[1..] == r[1..];
    }
  }

  lemma {:induction false} WithoutMembers(r: Entries, key: string)
    requires UniqueKeys(r)
    ensures forall e :: e in Without(r, key) <==> e in r && e.key != key
  {
    if r != [] {
      WithoutMembers(r[1..], key);
      assert forall e :: e in r <==> e == r[0] || e in r[1..];
    }
  }

  lemma {:induction false} WithoutUnique(r: Entries, key: string)
    requires UniqueKeys(r)
    ensures UniqueKeys(Without(r, key))
  {
    if r != [] && r[0].key != key {
      WithoutUnique(r[1..], key);
      WithoutMembers(r[1..], key);
      var w := Without(r[1..], key);
      forall j | 0 <= j < |w| ensures r[0].key != w[j].key {
        assert w[j] in w;
      }
    }
  }

  lemma {:induction false} WithoutLength(r: Entries, key: string)
    ensures |Without(r, key)| == |r| - (if Find(r, key).Some? then 1 else 0)
  {
    if r != [] {
      WithoutLength(r[1..], key);
    }
  }

  lemma WithoutFacts(r: Entries, key: string)
    requires UniqueKeys(r)
    ensures UniqueKeys(Without(r, key))
    ensures forall e :: e in Without(r, key) <==> e in r && e.key != key
    ensures |Without(r, key)| == |r| - (if Find(r, key).Some? then 1 else 0)
  {
    WithoutMembers(r, key);
    WithoutUnique(r, key);
    WithoutLength(r, key);
  }

  lemma {:induction false} KeysCounted(r: Entries)
    requires UniqueKeys(r)
    ensures |set e | e in r :: e.key| == |r|
  {
    if r != [] {
      KeysCounted(r[1..]);
      assert (set e | e in r :: e.key) == {r[0].key} + set e | e in r[1..] :: e.key;
    }
  }

  lemma {:induction false} LiveFacts(r: Entries, now: int)
    ensures UniqueKeys(r) ==> UniqueKeys(Live(r, now))
    ensures forall e :: e in Live(r, now) <==> e in r && !Expired(e, now)
    ensures |Live(r, now)| == |r| - CountExpired(r, now)
  {
    if r != [] {
      LiveFacts(r[1..], now);
      assert forall e :: e in r <==> e == r[0] || e in r[1..];
      var l := Live(r[1..], now);
      if UniqueKeys(r) {
        forall j | 0 <= j < |l| ensures r[0].key != l[j].key {
          assert l[j] in l;
        }
      }
    }
  }

  lemma LiveUnfolds(r: Entries, now: int)
    requires r != []
    ensures if Expired(r[0], now) then Live(r, now) == Live(r[1..], now)
            else Live(r, now) != [] && Live(r, now)[0] == r[0] && Live(r, now)[1..] == Live(r[1..], now)
  {
  }

  /** One turn of an in-place eviction that has dealt with the first n entries. */
  lemma EvictionStep(r: Entries, n: nat, now: int)
    requires n < |r| && UniqueKeys(r)
    ensures if Expired(r[n], now) then
              var w := Without(r, r[n].key);
              && |w| == |r| - 1
              && w[..n] + Live(w[n..], now) == r[..n] + Live(r[n..], now)
              && 1 + CountExpired(w[n..], now) == CountExpired(r[n..], now)
            else
              && r[..n + 1] + Live(r[n + 1..], now) == r[..n] + Live(r[n..], now)
              && CountExpired(r[n + 1..], now) == CountExpired(r[n..], now)
  {
    LiveUnfolds(r[n..], now);
    assert r[n..][1..] == r[n + 1..];
    if Expired(r[n], now) {
      WithoutAt(r, n);
      var w := Without(r, r[n].key);
      assert w[..n] == r[..n] && w[n..] == r[n + 1..];
    } else {
      assert Live(r[n..], now) == [r[n]] + Live(r[n + 1..], now);
    }
  }

  // ---------- what every operation keeps ----------

  function Max0(n: int): nat {
    if n > 0 then n else 0
  }

  ghost predicate WellFormed(p: Policy, r: Entries) {
    UniqueKeys(r) && |r| <= Max0(p.capacity)
  }

  lemma StepKeepsWellFormed(p: Policy, r: Entries, t: Timed)
    requires WellFormed(p, r)
    ensures WellFormed(p, Step(p, r, t))
  {
    match t.op
    case OpSet(key, value) => FindSome(r, key); WithoutFacts(r, key);
    case OpGet(key) => FindSome(r, key); WithoutFacts(r, key);
    case OpDelete(key) => WithoutFacts(r, key);
    case OpClear =>
    case OpEvictExpired => LiveFacts(r, t.at);
  }

  /** In every run from an empty cache keys are unique and the length stays within the capacity. */
  lemma {:induction false} RunKeepsWellFormed(p: Policy, r: Entries, ops: seq<Timed>)
    requires WellFormed(p, r)
    ensures WellFormed(p, Run(p, r, ops))
    decreases |ops|
  {
    if ops != [] {
      StepKeepsWellFormed(p, r, ops[0]);
      RunKeepsWellFormed(p, Step(p, r, ops[0]), ops[1..]);
    }
  }

  // ---------- what each operation does to the list ----------

  predicate Holds(r: Entries, key: string) {
    exists i :: 0 <= i < |r| && r[i].key == key
  }

  lemma {:induction false} FindHolds(r: Entries, key: string)
    ensures Holds(r, key) <==> Find(r, key).Some?
    ensures Find(r, key).Some? ==> exists i :: 0 <= i < |r| && r[i].key == key && Find(r, key) == Some(r[i])
  {
    if r != [] {
      FindHolds(r[1..], key);
      if r[0].key != key && Find(r, key).Some? {
        var i :| 0 <= i < |r[1..]| && r[1..][i].key == key && Find(r[1..], key) == Some(r[1..][i]);
        assert r[i + 1] == r[1..][i];
      }
      if i :| 0 <= i < |r| && r[i].key == key && r[0].key != key {
        assert r[1..][i - 1] == r[i];
      }
    }
  }

  /** A lookup that misses in any run: the key is not held afterwards, and only its own entry, expired, is gone. */
  lemma MissRemoves(p: Policy, ops: seq<Timed>, key: string, now: int)
    requires GetStep(Run(p, [], ops), key, now).1.None?
    ensures var r, s := Run(p, [], ops), GetStep(Run(p, [], ops), key, now).0;
            && !Holds(s, key)
            && |s| == |r| - (if Holds(r, key) then 1 else 0)
            && (!Holds(r, key) ==> s == r)
            && forall i :: 0 <= i < |r| && r[i].key == key ==> now > r[i].expiresAt && s == r[..i] + r[i + 1..]
  {
    hide Run, Find, Without;
    var r := Run(p, [], ops);
    RunKeepsWellFormed(p, [], ops);
    FindHolds(r, key);
    WithoutFacts(r, key);
    forall i | 0 <= i < |r| && r[i].key == key
      ensures Find(r, key) == Some(r[i]) && Without(r, key) == r[..i] + r[i + 1..]
    {
      FindUnique(r, i);
      WithoutAt(r, i);
    }
  }

  /** A lookup that hits returns an unexpired entry of the key, which moves to the front of the others. */
  lemma HitMoves(p: Policy, ops: seq<Timed>, key: string, now: int)
    requires GetStep(Run(p, [], ops), key, now).1.Some?
    ensures var r, g := Run(p, [], ops), GetStep(Run(p, [], ops), key, now);
            exists i :: 0 <= i < |r| && r[i].key == key && now <= r[i].expiresAt
                     && g == ([r[i]] + r[..i] + r[i + 1..], Some(r[i].value))
  {
    hide Run, Find, Without;
    var r := Run(p, [], ops);
    RunKeepsWellFormed(p, [], ops);
    FindHolds(r, key);
    var i :| 0 <= i < |r| && r[i].key == key && Find(r, key) == Some(r[i]);
    WithoutAt(r, i);
    Regroup([r[i]], r[..i], r[i + 1..]);
  }

  /** What Set leaves: the new entry in front of the others, without the last one where a full cache got a new key. */
  lemma SetShape(p: Policy, ops: seq<Timed>, key: string, value: string, now: int)
    ensures var r, s := Run(p, [], ops), SetStep(p, Run(p, [], ops), key, value, now);
            var e := Entry(key, value, now + p.ttl);
            && (p.capacity <= 0 ==> s == [])
            && (p.capacity > 0 && !Holds(r, key) ==> s == [e] + if |r| == p.capacity then r[..|r| - 1] else r)
            && forall i :: 0 <= i < |r| && r[i].key == key ==> s == [e] + (r[..i] + r[i + 1..])
  {
    hide Run, Find, Without;
    var r := Run(p, [], ops);
    RunKeepsWellFormed(p, [], ops);
    FindHolds(r, key);
    forall i | 0 <= i < |r| && r[i].key == key ensures Without(r, key) == r[..i] + r[i + 1..] {
      WithoutAt(r, i);
    }
  }

  /** Delete takes away the key's entry and no other; an eviction takes the expired ones and keeps the order. */
  lemma RemovalShapes(p: Policy, ops: seq<Timed>, key: string, now: int)
    ensures var r := Run(p, [], ops);
            && (!Holds(r, key) ==> Step(p, r, Timed(now, OpDelete(key))) == r)
            && (forall i :: 0 <= i < |r| && r[i].key == key ==>
                  Step(p, r, Timed(now, OpDelete(key))) == r[..i] + r[i + 1..])
    ensures var r, s := Run(p, [], ops), Step(p, Run(p, [], ops), Timed(now, OpEvictExpired));
            && Sub(s, r)
            && forall e :: e in s <==> e in r && now <= e.expiresAt
  {
    var r := Run(p, [], ops);
    RunKeepsWellFormed(p, [], ops);
    FindHolds(r, key);
    FindSome(r, key);
    if !Holds(r, key) { WithoutAbsent(r, key); }
    forall i | 0 <= i < |r| && r[i].key == key ensures Without(r, key) == r[..i] + r[i + 1..] {
      WithoutAt(r, i);
    }
    LiveFacts(r, now);
    LiveIsSub(r, now);
  }

  lemma {:induction false} LiveIsSub(r: Entries, now: int)
    ensures Sub(Live(r, now), r)
  {
    if r != [] {
      LiveIsSub(r[1..], now);
      LiveUnfolds(r, now);
    }
  }

  // ---------- inclusion between capacities ----------

  /** `a` is a subsequence of `b`. */
  ghost predicate Sub(a: Entries, b: Entries) {
    a == [] || (b != [] && ((a[0] == b[0] && Sub(a[1..], b[1..])) || Sub(a, b[1..])))
  }

  lemma {:induction false} SubMembers(a: Entries, b: Entries)
    requires Sub(a, b)
    ensures forall e :: e in a ==> e in b
    ensures |a| <= |b|
  {
    if a != [] {
      assert forall e :: e in a <==> e == a[0] || e in a[1..];
      if a[0] == b[0] && Sub(a[1..], b[1..]) { SubMembers(a[1..], b[1..]); } else { SubMembers(a, b[1..]); }
    }
  }

  lemma {:induction false} SubWithout(a: Entries, b: Entries, key: string)
    requires Sub(a, b) && UniqueKeys(b)
    ensures Sub(Without(a, key), Without(b, key))
  {
    if a != [] {
      if a[0] == b[0] && Sub(a[1..], b[1..]) {
        SubWithout(a[1..], b[1..], key);
        if a[0].key != key {
          assert Without(a, key)[1..] == Without(a[1..], key);
          assert Without(b, key)[1..] == Without(b[1..], key);
        }
      } else if b[0].key == key {
        SubMembers(a, b[1..]);
        WithoutAbsent(a, key);
      } else {
        SubWithout(a, b[1..], key);
        assert Without(b, key)[1..] == Without(b[1..], key);
      }
    }
  }

  lemma {:induction false} SubLive(a: Entries, b: Entries, now: int)
    requires Sub(a, b)
    ensures Sub(Live(a, now), Live(b, now))
    ensures CountExpired(a, now) <= CountExpired(b, now)
  {
    if a != [] {
      if a[0] == b[0] && Sub(a[1..], b[1..]) {
        SubLive(a[1..], b[1..], now);
        LiveUnfolds(a, now);
        LiveUnfolds(b, now);
      } else {
        SubLive(a, b[1..], now);
        LiveUnfolds(b, now);
      }
    }
  }

  lemma {:induction false} SubDropLast(a: Entries, b: Entries)
    requires a != [] && b != [] && Sub(a, b)
    ensures Sub(a[..|a| - 1], b[..|b| - 1])
  {
    var a', b' := a[..|a| - 1], b[..|b| - 1];
    if a[0] == b[0] && Sub(a[1..], b[1..]) {
      if |a| > 1 {
        SubDropLast(a[1..], b[1..]);
        assert a'[1..] == a[1..][..|a| - 2] && b'[1..] == b[1..][..|b| - 2];
      }
    } else {
      SubMembers(a, b[1..]);
      SubDropLast(a, b[1..]);
      assert b'[1..] == b[1..][..|b| - 2];
    }
  }

  lemma {:induction false} SubFind(a: Entries, b: Entries, key: string)
    requires Sub(a, b) && UniqueKeys(b) && Find(a, key).Some?
    ensures Find(b, key) == Find(a, key)
  {
    FindSome(a, key);
    SubMembers(a, b);
    var i :| 0 <= i < |b| && b[i] == Find(a, key).value;
    FindUnique(b, i);
  }

  /** The smaller cache's list is a subsequence, and it has no more free slots. */
  ghost predicate Included(small: Policy, large: Policy, a: Entries, b: Entries) {
    && WellFormed(small, a)
    && WellFormed(large, b)
    && Sub(a, b)
    && Max0(small.capacity) - |a| <= Max0(large.capacity) - |b|
  }

  lemma StepKeepsIncluded(small: Policy, large: Policy, a: Entries, b: Entries, t: Timed)
    requires small.capacity <= large.capacity && small.ttl == large.ttl
    requires Included(small, large, a, b)
    ensures Included(small, large, Step(small, a, t), Step(large, b, t))
  {
    StepKeepsWellFormed(small, a, t);
    StepKeepsWellFormed(large, b, t);
    match t.op
    case OpSet(key, value) =>
      SetKeepsIncluded(small, large, a, b, key, value, t.at);
    case OpGet(key) =>
      SubUpdateFacts(a, b, key);
      assert forall e: Entry, s: Entries :: ([e] + s)[1..] == s;
    case OpDelete(key) =>
      SubUpdateFacts(a, b, key);
    case OpClear =>
    case OpEvictExpired =>
      SubLive(a, b, t.at);
      LiveFacts(a, t.at);
      LiveFacts(b, t.at);
  }

  lemma SubUpdateFacts(a: Entries, b: Entries, key: string)
    requires Sub(a, b) && UniqueKeys(a) && UniqueKeys(b)
    ensures Sub(Without(a, key), Without(b, key))
    ensures Find(a, key).Some? ==> Find(b, key) == Find(a, key)
    ensures Find(a, key).None? ==> Without(a, key) == a
    ensures |Without(a, key)| == |a| - (if Find(a, key).Some? then 1 else 0)
    ensures |Without(b, key)| == |b| - (if Find(b, key).Some? then 1 else 0)
  {
    SubWithout(a, b, key);
    WithoutFacts(a, key);
    WithoutFacts(b, key);
    if Find(a, key).Some? {
      SubFind(a, b, key);
    } else {
      FindSome(a, key);
      WithoutAbsent(a, key);
    }
  }

  lemma SetKeepsIncluded(small: Policy, large: Policy, a: Entries, b: Entries, key: string, value: string, now: int)
    requires small.capacity <= large.capacity && small.ttl == large.ttl
    requires Included(small, large, a, b)
    ensures Sub(SetStep(small, a, key, value, now), SetStep(large, b, key, value, now))
    ensures Max0(small.capacity) - |SetStep(small, a, key, value, now)|
         <= Max0(large.capacity) - |SetStep(large, b, key, value, now)|
  {
    SubUpdateFacts(a, b, key);
    SubMembers(a, b);
    assert forall e: Entry, s: Entries :: ([e] + s)[1..] == s;
    if 0 < small.capacity && Find(a, key).None? && |a| >= small.capacity {
      var a' := a[..|a| - 1];
      SubDropLast(a, b);
      SubPrefix(a, |a| - 1);
      SubTransitive(a', a, Without(b, key));
      SubTransitive(a', a, b);
    }
  }

  lemma {:induction false} SubPrefix(a: Entries, n: nat)
    requires n <= |a|
    ensures Sub(a[..n], a)
  {
    if n > 0 {
      SubPrefix(a[1..], n - 1);
      assert a[..n][1..] == a[1..][..n - 1];
    }
  }

  lemma {:induction false} SubTransitive(a: Entries, b: Entries, c: Entries)
    requires Sub(a, b) && Sub(b, c)
    ensures Sub(a, c)
    decreases |c|
  {
    if a != [] {
      if b[0] == c[0] && Sub(b[1..], c[1..]) {
        if a[0] == b[0] && Sub(a[1..], b[1..]) {
          SubTransitive(a[1..], b[1..], c[1..]);
        } else {
          SubTransitive(a, b[1..], c[1..]);
        }
      } else {
        SubTransitive(a, b, c[1..]);
      }
    }
  }

  lemma {:induction false} RunsStayIncluded(small: Policy, large: Policy, a: Entries, b: Entries, ops: seq<Timed>)
    requires small.capacity <= large.capacity && small.ttl == large.ttl
    requires Included(small, large, a, b)
    ensures Included(small, large, Run(small, a, ops), Run(large, b, ops))
    decreases |ops|
  {
    if ops != [] {
      StepKeepsIncluded(small, large, a, b, ops[0]);
      RunsStayIncluded(small, large, Step(small, a, ops[0]), Step(large, b, ops[0]), ops[1..]);
    }
  }

  /** LRU inclusion: a larger cache holds everything a smaller one does, after every run. */
  lemma LruInclusion(small: Policy, large: Policy, ops: seq<Timed>)
    requires small.capacity <= large.capacity && small.ttl == large.ttl
    ensures Sub(Run(small, [], ops), Run(large, [], ops))
  {
    RunsStayIncluded(small, large, [], [], ops);
  }

  /** Hence every hit in the smaller cache is the same hit in the larger one. */
  lemma HitInclusion(small: Policy, large: Policy, ops: seq<Timed>, key: string, now: int)
    requires small.capacity <= large.capacity && small.ttl == large.ttl
    requires GetStep(Run(small, [], ops), key, now).1.Some?
    ensures GetStep(Run(large, [], ops), key, now).1 == GetStep(Run(small, [], ops), key, now).1
  {
    RunsStayIncluded(small, large, [], [], ops);
    SubFind(Run(small, [], ops), Run(large, [], ops), key);
  }

  // ---------- freshness ----------

  /** The Set that a lookup of `key` should see after `ops`: the latest one, unless deleted or cleared since. */
  function CurrentSet(ops: seq<Timed>, key: string): Option<Timed> {
    if ops == [] then None
    else
      var last := ops[|ops| - 1];
      if last.op.OpSet? && last.op.key == key then Some(last)
      else if last.op.OpClear? || (last.op.OpDelete? && last.op.key == key) then None
      else CurrentSet(ops[..|ops| - 1], key)
  }

  ghost predicate FromCurrentSet(p: Policy, ops: seq<Timed>, e: Entry) {
    && CurrentSet(ops, e.key).Some?
    && var t := CurrentSet(ops, e.key).value;
       t.op == OpSet(e.key, e.value) && e.expiresAt == t.at + p.ttl
  }

  lemma {:induction false} EntriesAreCurrent(p: Policy, ops: seq<Timed>)
    ensures WellFormed(p, Run(p, [], ops))
    ensures forall e :: e in Run(p, [], ops) ==> FromCurrentSet(p, ops, e)
  {
    if ops != [] {
      var before, last := ops[..|ops| - 1], ops[|ops| - 1];
      assert ops == before + [last];
      RunAppend(p, [], before, [last]);
      EntriesAreCurrent(p, before);
      var r := Run(p, [], before);
      StepKeepsWellFormed(p, r, last);
      assert Run(p, [], ops) == Step(p, r, last);
      forall e | e in Step(p, r, last) ensures FromCurrentSet(p, ops, e) {
        if last.op.OpSet? { FindSome(r, last.op.key); WithoutFacts(r, last.op.key); }
        if last.op.OpGet? { FindSome(r, last.op.key); WithoutFacts(r, last.op.key); }
        if last.op.OpDelete? { WithoutFacts(r, last.op.key); }
        if last.op.OpEvictExpired? { LiveFacts(r, last.at); }
        if !(last.op.OpSet? && last.op.key == e.key) {
          assert e in r;
        } else {
          SetFront(p, r, last.op.key, last.op.value, last.at);
        }
      }
    }
  }

  lemma SetFront(p: Policy, r: Entries, key: string, value: string, now: int)
    requires WellFormed(p, r)
    ensures p.capacity <= 0 ==> SetStep(p, r, key, value, now) == []
    ensures p.capacity > 0 ==>
              var s := SetStep(p, r, key, value, now);
              && s != [] && s[0] == Entry(key, value, now + p.ttl)
              && forall e :: e in s && e.key == key ==> e == s[0]
  {
    FindSome(r, key);
    WithoutFacts(r, key);
  }

  /** Every hit returns the value of the key's current Set, made at most one TTL ago. */
  lemma HitIsFresh(p: Policy, ops: seq<Timed>, key: string, now: int)
    requires GetStep(Run(p, [], ops), key, now).1.Some?
    ensures CurrentSet(ops, key).Some?
    ensures var t := CurrentSet(ops, key).value;
            t.op == OpSet(key, GetStep(Run(p, [], ops), key, now).1.value) && now <= t.at + p.ttl
  {
    EntriesAreCurrent(p, ops);
    FindSome(Run(p, [], ops), key);
  }

  // ---------- survival ----------

  /** Keys used more recently than `key`. */
  function AheadKeys(r: Entries, key: string): set<string> {
    if r == [] || r[0].key == key then {} else {r[0].key} + AheadKeys(r[1..], key)
  }

  /** Those of the keys that have an entry. */
  function Held(r: Entries, keys: set<string>): set<string> {
    set k | k in keys && Find(r, k).Some?
  }

  /** Other keys that `ops` looks up or sets. */
  function Used(ops: seq<Timed>, key: string): set<string> {
    if ops == [] then {}
    else UsedBy(ops[0].op, key) + Used(ops[1..], key)
  }

  function UsedBy(op: Op, key: string): set<string> {
    if (op.OpSet? || op.OpGet?) && op.key != key then {op.key} else {}
  }

  lemma {:induction false} AheadFacts(r: Entries, key: string)
    requires UniqueKeys(r)
    ensures forall k :: k in AheadKeys(r, key) ==> Find(r, k).Some?
    ensures |AheadKeys(r, key)| <= |r|
    ensures Find(r, key).Some? ==> |AheadKeys(r, key)| < |r|
    ensures Find(r, key).Some? && r[|r| - 1].key == key ==> |AheadKeys(r, key)| == |r| - 1
  {
    if r != [] && r[0].key != key {
      AheadFacts(r[1..], key);
      HeadKeyOnce(r);
    }
  }

  lemma HeadKeyOnce(r: Entries)
    requires UniqueKeys(r) && r != []
    ensures Find(r[1..], r[0].key).None?
  {
    FindSome(r[1..], r[0].key);
  }

  lemma {:induction false} AheadOfWithout(r: Entries, key: string, other: string)
    requires UniqueKeys(r) && key != other
    ensures Find(Without(r, other), key) == Find(r, key)
    ensures AheadKeys(Without(r, other), key) == AheadKeys(r, key) - {other}
  {
    if r != [] {
      AheadOfWithout(r[1..], key, other);
      if r[0].key == other {
        AheadFacts(r[1..], key);
        HeadKeyOnce(r);
      } else {
        assert Without(r, other)[1..] == Without(r[1..], other);
      }
    }
  }

  lemma {:induction false} AheadOfLive(r: Entries, key: string, now: int)
    requires UniqueKeys(r) && Find(r, key).Some? && !Expired(Find(r, key).value, now)
    ensures Find(Live(r, now), key) == Find(r, key)
    ensures AheadKeys(Live(r, now), key) == Held(Live(r, now), AheadKeys(r, key))
  {
    LiveUnfolds(r, now);
    if r[0].key != key {
      AheadOfLive(r[1..], key, now);
      AheadFacts(r[1..], key);
      HeadKeyOnce(r);
      AbsentFromLive(r[1..], r[0].key, now);
    }
  }

  lemma AbsentFromLive(r: Entries, key: string, now: int)
    requires UniqueKeys(r) && Find(r, key).None?
    ensures Find(Live(r, now), key).None?
  {
    FindSome(r, key);
    LiveFacts(r, now);
    FindSome(Live(r, now), key);
  }

  lemma {:induction false} AheadOfDropLast(r: Entries, key: string)
    requires r != [] && UniqueKeys(r)
    ensures var d := r[..|r| - 1];
            if r[|r| - 1].key == key then Find(d, key).None?
            else Find(d, key) == Find(r, key)
                 && (Find(r, key).Some? ==> AheadKeys(d, key) == AheadKeys(r, key))
  {
    var d := r[..|r| - 1];
    if |r| > 1 {
      assert d[1..] == r[1..][..|r| - 2];
      AheadOfDropLast(r[1..], key);
    }
  }

  /** Setting another key: `key` goes exactly when it is the last of a full cache and the other is new. */
  lemma SetOfAnother(p: Policy, r: Entries, key: string, other: string, value: string, now: int)
    requires WellFormed(p, r) && p.capacity > 0 && key != other && Find(r, key).Some?
    ensures var s := SetStep(p, r, other, value, now);
            if Find(r, other).None? && |r| == p.capacity && r[|r| - 1].key == key then Find(s, key).None?
            else Find(s, key) == Find(r, key) && AheadKeys(s, key) == AheadKeys(r, key) + {other}
  {
    AheadOfWithout(r, key, other);
    AheadOfDropLast(r, key);
    var s := SetStep(p, r, other, value, now);
    assert s[1..] == Without(r, other) || s[1..] == r[..|r| - 1] || s[1..] == r;
  }

  /** `op` neither names `key` nor empties the cache; no eviction happens after the deadline. */
  predicate Spares(t: Timed, key: string, deadline: int) {
    match t.op
    case OpSet(k, _) => k != key
    case OpGet(k) => k != key
    case OpDelete(k) => k != key
    case OpClear => false
    case OpEvictExpired => t.at <= deadline
  }

  /** A Set of the key, or a hit on it. */
  predicate Uses(p: Policy, before: seq<Timed>, use: Timed, key: string) {
    || (use.op.OpSet? && use.op.key == key && p.capacity > 0)
    || (use.op == OpGet(key) && GetStep(Run(p, [], before), key, use.at).1.Some?)
  }

  /** A use puts the key in front. */
  lemma UseIsFront(p: Policy, before: seq<Timed>, use: Timed, key: string)
    requires Uses(p, before, use, key)
    ensures var r := Run(p, [], before + [use]);
            && WellFormed(p, r) && r != [] && r[0].key == key && Find(r, key) == Some(r[0])
            && (use.op.OpSet? ==> r[0] == Entry(key, use.op.value, use.at + p.ttl))
            && (use.op.OpGet? ==> Find(Run(p, [], before), key) == Some(r[0]))
  {
    var r0 := Run(p, [], before);
    RunKeepsWellFormed(p, [], before);
    RunAppend(p, [], before, [use]);
    assert Run(p, r0, [use]) == Step(p, r0, use);
    StepKeepsWellFormed(p, r0, use);
    FindSome(r0, key);
    if use.op.OpSet? {
      SetFront(p, r0, key, use.op.value, use.at);
    }
  }

  // ---------- exact survival ----------

  lemma WithoutFinds(r: Entries, other: string, k: string)
    requires UniqueKeys(r)
    ensures Find(Without(r, other), k) == if k == other then None else Find(r, k)
  {
    if k == other {
      WithoutFacts(r, other);
      FindSome(Without(r, other), other);
    } else {
      AheadOfWithout(r, k, other);
    }
  }

  /** One operation that spares `key`: what is then ahead of it is what was, and the key used, as far as held. */
  lemma AheadStep(p: Policy, r: Entries, key: string, e: Entry, t: Timed)
    requires WellFormed(p, r) && Find(r, key) == Some(e) && Spares(t, key, e.expiresAt)
    requires t.op.OpSet? ==> |AheadKeys(r, key) + {t.op.key}| < p.capacity
    ensures Find(Step(p, r, t), key) == Some(e)
    ensures AheadKeys(Step(p, r, t), key) == Held(Step(p, r, t), AheadKeys(r, key) + UsedBy(t.op, key))
    ensures forall k :: Find(Step(p, r, t), k).Some? ==>
                          Find(r, k).Some? || (t.op.OpSet? && k == t.op.key)
  {
    var s := Step(p, r, t);
    match t.op
    case OpSet(k, v) => SetAhead(p, r, key, t);
    case OpGet(k) => GetAhead(r, key, k, t.at);
    case OpDelete(k) =>
      AheadOfWithout(r, key, k);
      AheadFacts(r, key);
      forall o ensures Find(s, o) == if o == k then None else Find(r, o) { WithoutFinds(r, k, o); }
    case OpClear =>
    case OpEvictExpired =>
      AheadOfLive(r, key, t.at);
      forall o | Find(r, o).None? ensures Find(s, o).None? { AbsentFromLive(r, o, t.at); }
  }

  /** With a slot left the key is not the last of a full cache when another, new key is set. */
  lemma HasSlot(p: Policy, r: Entries, key: string, other: string)
    requires WellFormed(p, r) && Find(r, key).Some? && |AheadKeys(r, key) + {other}| < p.capacity
    ensures !(Find(r, other).None? && |r| == p.capacity && r[|r| - 1].key == key)
  {
    hide Find, AheadKeys, UniqueKeys;
    AheadFacts(r, key);
    assert other !in AheadKeys(r, key) ==> |AheadKeys(r, key) + {other}| == |AheadKeys(r, key)| + 1;
  }

  /** A Set adds no key but its own. */
  lemma SetKeys(p: Policy, r: Entries, t: Timed, k: string)
    requires WellFormed(p, r) && t.op.OpSet? && k != t.op.key && Find(Step(p, r, t), k).Some?
    ensures Find(r, k).Some?
  {
    var o, e := t.op.key, Entry(t.op.key, t.op.value, t.at + p.ttl);
    hide Find, Without;
    WithoutFinds(r, o, k);
    FrontIs(e, Without(r, o));
    FrontIs(e, r);
    if r != [] {
      AheadOfDropLast(r, k);
      FrontIs(e, r[..|r| - 1]);
    }
  }

  lemma SetAhead(p: Policy, r: Entries, key: string, t: Timed)
    requires WellFormed(p, r) && Find(r, key).Some? && t.op.OpSet? && t.op.key != key
    requires |AheadKeys(r, key) + {t.op.key}| < p.capacity
    ensures Find(Step(p, r, t), key) == Find(r, key)
    ensures AheadKeys(Step(p, r, t), key) == Held(Step(p, r, t), AheadKeys(r, key) + {t.op.key})
    ensures forall k :: Find(Step(p, r, t), k).Some? ==> Find(r, k).Some? || k == t.op.key
  {
    hide Find, AheadKeys, UniqueKeys, SetStep;
    var s := Step(p, r, t);
    HasSlot(p, r, key, t.op.key);
    SetOfAnother(p, r, key, t.op.key, t.op.value, t.at);
    StepKeepsWellFormed(p, r, t);
    AheadFacts(s, key);
    forall k | k != t.op.key && Find(s, k).Some? ensures Find(r, k).Some? {
      SetKeys(p, r, t, k);
    }
  }

  lemma FrontIs(e: Entry, w: Entries)
    ensures forall k :: Find([e] + w, k) == if k == e.key then Some(e) else Find(w, k)
    ensures forall k :: AheadKeys([e] + w, k) == if k == e.key then {} else {e.key} + AheadKeys(w, k)
  {
    assert ([e] + w)[1..] == w;
  }

  lemma GetAhead(r: Entries, key: string, other: string, now: int)
    requires UniqueKeys(r) && Find(r, key).Some? && other != key
    ensures var s := GetStep(r, other, now).0;
            && Find(s, key) == Find(r, key)
            && AheadKeys(s, key) == Held(s, AheadKeys(r, key) + {other})
            && forall k :: Find(s, k).Some? ==> Find(r, k).Some?
  {
    hide Find, AheadKeys, Without, UniqueKeys, Expired;
    AheadFacts(r, key);
    AheadOfWithout(r, key, other);
    forall k ensures Find(Without(r, other), k) == if k == other then None else Find(r, k) {
      WithoutFinds(r, other, k);
    }
    if Find(r, other).Some? {
      FindSome(r, other);
      FrontIs(Find(r, other).value, Without(r, other));
    }
  }

  /** The Set that takes the slot of a key with as many others ahead of it as there are slots left. */
  lemma SetEvicts(p: Policy, r: Entries, key: string, t: Timed)
    requires WellFormed(p, r) && p.capacity > 0 && Find(r, key).Some? && t.op.OpSet? && t.op.key != key
    requires |AheadKeys(r, key) + {t.op.key}| >= p.capacity
    ensures Find(Step(p, r, t), key).None?
  {
    AheadFacts(r, key);
    AheadEnough(r, key, t.op.key);
    SetOfAnother(p, r, key, t.op.key, t.op.value, t.at);
  }

  /** Those ahead of a key, with one more held or with a last entry behind it, do not fill the list. */
  lemma AheadEnough(r: Entries, key: string, other: string)
    requires UniqueKeys(r) && Find(r, key).Some? && other != key
    ensures Find(r, other).Some? ==> |AheadKeys(r, key) + {other}| < |r|
    ensures r[|r| - 1].key != key ==> |AheadKeys(r, key)| + 1 < |r|
  {
    var keys := set e | e in r :: e.key;
    KeysCounted(r);
    AheadFacts(r, key);
    forall k | Find(r, k).Some? ensures k in keys { FindSome(r, k); }
    if Find(r, other).Some? {
      NotAheadOfItself(r, key);
      SubsetSize(AheadKeys(r, key) + {other}, keys - {key});
    }
    if r[|r| - 1].key != key {
      AheadOfDropLast(r, key);
      AheadFacts(r[..|r| - 1], key);
    }
  }

  lemma {:induction false} NotAheadOfItself(r: Entries, key: string)
    ensures key !in AheadKeys(r, key)
  {
    if r != [] {
      NotAheadOfItself(r[1..], key);
    }
  }

  /** The other keys used since, as far as they still have an entry. */
  function HeldSince(p: Policy, r: Entries, ops: seq<Timed>, key: string): set<string> {
    set k | k in Used(ops, key) && Holds(Run(p, r, ops), k)
  }

  /** The i-th operation sets another key while the keys used since and still held leave it no slot. */
  predicate Crowds(p: Policy, r: Entries, ops: seq<Timed>, key: string, i: nat)
    requires i < |ops|
  {
    ops[i].op.OpSet? && |HeldSince(p, r, ops[..i], key) + {ops[i].op.key}| >= p.capacity
  }

  lemma {:induction false} UsedAppend(ops: seq<Timed>, t: Timed, key: string)
    ensures Used(ops + [t], key) == Used(ops, key) + UsedBy(t.op, key) && key !in Used(ops, key)
  {
    if ops == [] {
      assert [] + [t] == [t];
    } else {
      assert (ops + [t])[1..] == ops[1..] + [t];
      UsedAppend(ops[1..], t, key);
    }
  }

  lemma HeldAfter(p: Policy, r: Entries, ops: seq<Timed>, t: Timed, key: string)
    ensures Run(p, r, ops + [t]) == Step(p, Run(p, r, ops), t)
    ensures HeldSince(p, r, ops + [t], key) == Held(Run(p, r, ops + [t]), Used(ops, key) + UsedBy(t.op, key))
    ensures HeldSince(p, r, ops, key) == Held(Run(p, r, ops), Used(ops, key))
  {
    RunAppend(p, r, ops, [t]);
    assert Run(p, Run(p, r, ops), [t]) == Step(p, Run(p, r, ops), t);
    UsedAppend(ops, t, key);
    forall k
      ensures Holds(Run(p, r, ops), k) <==> Find(Run(p, r, ops), k).Some?
      ensures Holds(Run(p, r, ops + [t]), k) <==> Find(Run(p, r, ops + [t]), k).Some?
    {
      FindHolds(Run(p, r, ops), k);
      FindHolds(Run(p, r, ops + [t]), k);
    }
  }

  /** One more operation: the key stays unless it is a Set that finds no slot. */
  lemma StepSurvives(p: Policy, r: Entries, ops: seq<Timed>, t: Timed, key: string, e: Entry)
    requires WellFormed(p, Run(p, r, ops)) && Find(Run(p, r, ops), key) == Some(e) && p.capacity > 0
    requires AheadKeys(Run(p, r, ops), key) == HeldSince(p, r, ops, key) && Spares(t, key, e.expiresAt)
    ensures var x := Run(p, r, ops + [t]);
            if t.op.OpSet? && |HeldSince(p, r, ops, key) + {t.op.key}| >= p.capacity then Find(x, key).None?
            else Find(x, key) == Some(e) && AheadKeys(x, key) == HeldSince(p, r, ops + [t], key)
  {
    hide Run, Step, HeldSince, WellFormed, Used, AheadKeys, Find;
    var y := Run(p, r, ops);
    HeldAfter(p, r, ops, t, key);
    if t.op.OpSet? && |HeldSince(p, r, ops, key) + {t.op.key}| >= p.capacity {
      SetEvicts(p, y, key, t);
    } else {
      AheadStep(p, y, key, e, t);
    }
  }

  lemma {:induction false} RunSurvives(p: Policy, r: Entries, ops: seq<Timed>, key: string, e: Entry)
    requires WellFormed(p, r) && r != [] && r[0] == e && e.key == key
    requires forall t :: t in ops ==> Spares(t, key, e.expiresAt)
    ensures WellFormed(p, Run(p, r, ops))
    ensures var x := Run(p, r, ops);
            if forall i :: 0 <= i < |ops| ==> !Crowds(p, r, ops, key, i)
            then Find(x, key) == Some(e) && AheadKeys(x, key) == HeldSince(p, r, ops, key)
            else Find(x, key).None?
    decreases |ops|
  {
    hide Step, HeldSince, WellFormed, Used, Spares;
    RunKeepsWellFormed(p, r, ops);
    if ops == [] {
      NothingUsed(p, r, key);
    } else {
      var init, last := ops[..|ops| - 1], ops[|ops| - 1];
      assert ops == init + [last];
      RunSurvives(p, r, init, key, e);
      forall i | 0 <= i < |init| ensures Crowds(p, r, ops, key, i) <==> Crowds(p, r, init, key, i) {
        assert ops[..i] == init[..i];
      }
      assert ops[..|init|] == init && ops[|init|] == last;
      assert Spares(last, key, e.expiresAt);
      if Find(Run(p, r, init), key).None? {
        SparesNot(last, key, e.expiresAt);
        StaysAway(p, Run(p, r, init), key, last);
        HeldAfter(p, r, init, last, key);
      } else {
        HasCapacity(p, r);
        StepSurvives(p, r, init, last, key, e);
        assert Crowds(p, r, ops, key, |init|)
           <==> last.op.OpSet? && |HeldSince(p, r, init, key) + {last.op.key}| >= p.capacity;
      }
    }
  }

  lemma SparesNot(t: Timed, key: string, deadline: int)
    requires Spares(t, key, deadline)
    ensures !(t.op.OpSet? && t.op.key == key)
  {
  }

  lemma NothingUsed(p: Policy, r: Entries, key: string)
    ensures Run(p, r, []) == r && HeldSince(p, r, [], key) == {}
  {
  }

  lemma HasCapacity(p: Policy, r: Entries)
    requires WellFormed(p, r) && r != []
    ensures p.capacity > 0
  {
  }

  lemma StaysAway(p: Policy, r: Entries, key: string, t: Timed)
    requires WellFormed(p, r) && Find(r, key).None? && !(t.op.OpSet? && t.op.key == key)
    ensures Find(Step(p, r, t), key).None?
  {
    FindSome(r, key);
    if t.op.OpSet? || t.op.OpGet? || t.op.OpDelete? { WithoutFacts(r, t.op.key); FindSome(r, t.op.key); }
    LiveFacts(r, t.at);
    FindSome(Step(p, r, t), key);
  }

  /**
    Exact survival.  After its last use a key that is neither named, deleted, cleared nor evicted as expired is still
    held, with the value it had, if and only if no later Set of another key found all slots taken by the set key and
    the other keys used since that still have an entry.  A key dropped by a lookup that found it expired, by Delete or
    by an eviction has given its slot back.
  */
  lemma SurvivalIff(p: Policy, before: seq<Timed>, use: Timed, after: seq<Timed>, key: string, e: Entry, now: int)
    requires Uses(p, before, use, key)
    requires Find(Run(p, [], before + [use]), key) == Some(e)
    requires now <= e.expiresAt && forall t :: t in after ==> Spares(t, key, e.expiresAt)
    ensures var r := Run(p, [], before + [use]);
            GetStep(Run(p, [], before + [use] + after), key, now).1
            == if forall i :: 0 <= i < |after| ==> !Crowds(p, r, after, key, i) then Some(e.value) else None
  {
    UseIsFront(p, before, use, key);
    RunAppend(p, [], before + [use], after);
    RunSurvives(p, Run(p, [], before + [use]), after, key, e);
  }

  lemma {:induction false} UsedPrefix(ops: seq<Timed>, key: string, i: nat)
    requires i < |ops|
    ensures Used(ops[..i], key) + UsedBy(ops[i].op, key) <= Used(ops, key)
  {
    if i > 0 {
      UsedPrefix(ops[1..], key, i - 1);
      assert ops[..i][1..] == ops[1..][..i - 1];
    }
  }

  lemma FewAreNoCrowd(p: Policy, r: Entries, ops: seq<Timed>, key: string)
    requires |Used(ops, key)| < p.capacity && forall t :: t in ops ==> !(t.op.OpSet? && t.op.key == key)
    ensures forall i :: 0 <= i < |ops| ==> !Crowds(p, r, ops, key, i)
  {
    forall i | 0 <= i < |ops| ensures !Crowds(p, r, ops, key, i) {
      UsedPrefix(ops, key, i);
      if ops[i].op.OpSet? {
        assert ops[i] in ops;
        SubsetSize(HeldSince(p, r, ops[..i], key) + {ops[i].op.key}, Used(ops, key));
      }
    }
  }

  /**
    LRU survival.  A key whose last use was followed by uses of fewer than `capacity` other keys,
    and that was neither deleted, cleared nor expired, is still a hit with the value it had.
  */
  lemma LruSurvival(p: Policy, before: seq<Timed>, use: Timed, after: seq<Timed>, key: string, e: Entry, now: int)
    requires Uses(p, before, use, key)
    requires Find(Run(p, [], before + [use]), key) == Some(e)
    requires now <= e.expiresAt && forall t :: t in after ==> Spares(t, key, e.expiresAt)
    requires |Used(after, key)| < p.capacity
    ensures GetStep(Run(p, [], before + [use] + after), key, now).1 == Some(e.value)
  {
    FewAreNoCrowd(p, Run(p, [], before + [use]), after, key);
    SurvivalIff(p, before, use, after, key, e, now);
  }

  predicate OnlySetsOthers(ops: seq<Timed>, key: string) {
    forall t :: t in ops ==> t.op.OpSet? && t.op.key != key
  }

  lemma {:induction false} SetsOfOthers(p: Policy, r: Entries, key: string, ops: seq<Timed>)
    requires WellFormed(p, r) && p.capacity > 0 && OnlySetsOthers(ops, key)
    ensures Find(r, key).None? ==> Find(Run(p, r, ops), key).None?
    ensures WellFormed(p, Run(p, r, ops))
    ensures Find(Run(p, r, ops), key).Some? ==>
              AheadKeys(Run(p, r, ops), key) == AheadKeys(r, key) + Used(ops, key)
    decreases |ops|
  {
    if ops != [] {
      var s := Step(p, r, ops[0]);
      StepKeepsWellFormed(p, r, ops[0]);
      SetsOfOthers(p, s, key, ops[1..]);
      if Find(r, key).Some? {
        SetOfAnother(p, r, key, ops[0].op.key, ops[0].op.value, ops[0].at);
      } else {
        AheadOfWithout(r, key, ops[0].op.key);
        AheadOfDropAbsent(p, r, key, ops[0]);
      }
    }
  }

  lemma AheadOfDropAbsent(p: Policy, r: Entries, key: string, t: Timed)
    requires WellFormed(p, r) && Find(r, key).None? && t.op.OpSet? && t.op.key != key
    ensures Find(Step(p, r, t), key).None?
  {
    FindSome(r, key);
    WithoutFacts(r, t.op.key);
    FindSome(Step(p, r, t), key);
  }

  /**
    The survival bound is exact: when only other keys are set, the key stays iff fewer than `capacity` of them are
    distinct.
  */
  lemma EvictionIsExact(p: Policy, before: seq<Timed>, at: int, key: string, value: string, after: seq<Timed>)
    requires p.capacity > 0 && OnlySetsOthers(after, key)
    ensures Find(Run(p, [], before + [Timed(at, OpSet(key, value))] + after), key).Some?
       <==> |Used(after, key)| < p.capacity
  {
    var set1 := Timed(at, OpSet(key, value));
    UseIsFront(p, before, set1, key);
    var r := Run(p, [], before + [set1]);
    RunAppend(p, [], before + [set1], after);
    SetsOfOthers(p, r, key, after);
    assert {} + Used(after, key) == Used(after, key);
    if |Used(after, key)| < p.capacity {
      FewAreNoCrowd(p, r, after, key);
      RunSurvives(p, r, after, key, r[0]);
    } else {
      AheadFacts(Run(p, r, after), key);
    }
  }
}
