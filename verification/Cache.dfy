/**
  The in-memory cache (server/cache.go): a map from keys to list elements and a list of elements,
  most recently used first.  Elements are updated in place.  Each method is one lock section and
  receives the instant at which it reads the clock; it refines the operation of the same name on
  the abstract recency sequence.
*/
module Cache {
  import opened Prelude
  import opened Recency

  /** A list element together with the entry it holds. */
  class Element {
    const key: string
    var value: string
    var expiresAt: int

    constructor (key: string, value: string, expiresAt: int)
      ensures this.key == key && this.value == value && this.expiresAt == expiresAt
    {
      this.key, this.value, this.expiresAt := key, value, expiresAt;
    }

    function View(): Entry
      reads this
    {
      Entry(key, value, expiresAt)
    }
  }

  /** The entries of a list of elements. */
  function Views(list: seq<Element>): (r: Entries)
    reads list
    ensures |r| == |list|
  {
    seq(|list|, i requires 0 <= i < |list| reads list => list[i].View())
  }

  /** container/list's Remove. */
  function ListRemove(list: seq<Element>, e: Element): seq<Element> {
    if list == [] then []
    else if list[0] == e then list[1..]
    else [list[0]] + ListRemove(list[1..], e)
  }

  lemma {:induction false} ListRemoveAt(list: seq<Element>, i: nat)
    requires i < |list| && forall j, k :: 0 <= j < k < |list| ==> list[j] != list[k]
    ensures ListRemove(list, list[i]) == list[..i] + list[i + 1..]
  {
    if i > 0 {
      ListRemoveAt(list[1..], i - 1);
      assert list[..i] + list[i + 1..] == [list[0]] + (list[1..][..i - 1] + list[1..][i..]);
    }
  }

  /** The map's keys are exactly the listed keys, without duplicates, each pointing at its own element. */
  ghost predicate Linked(items: map<string, Element>, lru: seq<Element>) {
    DistinctKeys(lru) && PointsToListed(items, lru) && ListsMapped(items, lru)
  }

  ghost predicate DistinctKeys(lru: seq<Element>) {
    forall i, j :: 0 <= i < j < |lru| ==> lru[i].key != lru[j].key
  }

  ghost predicate PointsToListed(items: map<string, Element>, lru: seq<Element>) {
    forall i :: 0 <= i < |lru| ==> lru[i].key in items && items[lru[i].key] == lru[i]
  }

  ghost predicate ListsMapped(items: map<string, Element>, lru: seq<Element>) {
    forall k :: k in items ==> items[k].key == k && items[k] in lru
  }

  lemma LinkedRemove(items: map<string, Element>, lru: seq<Element>, i: nat)
    requires Linked(items, lru) && i < |lru|
    ensures ListRemove(lru, lru[i]) == lru[..i] + lru[i + 1..]
    ensures Linked(items - {lru[i].key}, lru[..i] + lru[i + 1..])
  {
    ListRemoveAt(lru, i);
    DistinctRemove(lru, i);
    PointsRemove(items, lru, i);
    ListsRemove(items, lru, i);
  }

  lemma DistinctRemove(lru: seq<Element>, i: nat)
    requires DistinctKeys(lru) && i < |lru|
    ensures DistinctKeys(lru[..i] + lru[i + 1..])
  {
    var rest := lru[..i] + lru[i + 1..];
    forall m, n | 0 <= m < n < |rest| ensures rest[m].key != rest[n].key {
      SpliceAt(lru, i, m);
      SpliceAt(lru, i, n);
    }
  }

  lemma PointsRemove(items: map<string, Element>, lru: seq<Element>, i: nat)
    requires DistinctKeys(lru) && PointsToListed(items, lru) && i < |lru|
    ensures PointsToListed(items - {lru[i].key}, lru[..i] + lru[i + 1..])
  {
    var rest := lru[..i] + lru[i + 1..];
    forall m | 0 <= m < |rest|
      ensures rest[m].key != lru[i].key && rest[m].key in items && items[rest[m].key] == rest[m]
    {
      SpliceAt(lru, i, m);
    }
  }

  lemma ListsRemove(items: map<string, Element>, lru: seq<Element>, i: nat)
    requires ListsMapped(items, lru) && i < |lru|
    ensures ListsMapped(items - {lru[i].key}, lru[..i] + lru[i + 1..])
  {
    forall k | k in items && k != lru[i].key ensures items[k] in lru[..i] + lru[i + 1..] {
      SpliceKeeps(lru, i, items[k]);
    }
  }

  lemma SpliceAt(lru: seq<Element>, i: nat, m: nat)
    requires i < |lru| && m < |lru| - 1
    ensures (lru[..i] + lru[i + 1..])[m] == lru[if m < i then m else m + 1]
  {
  }

  lemma SpliceKeeps(lru: seq<Element>, i: nat, e: Element)
    requires i < |lru| && e in lru && e != lru[i]
    ensures e in lru[..i] + lru[i + 1..]
  {
    assert lru == lru[..i] + [lru[i]] + lru[i + 1..];
  }

  lemma LinkedFront(items: map<string, Element>, lru: seq<Element>, i: nat)
    requires Linked(items, lru) && i < |lru|
    ensures Linked(items, [lru[i]] + (lru[..i] + lru[i + 1..]))
  {
    var e, rest := lru[i], lru[..i] + lru[i + 1..];
    var others := items - {e.key};
    assert others[e.key := e] == items;
    assert Linked(others, rest) by { LinkedRemove(items, lru, i); }
    LinkedPush(others, rest, e);
  }

  lemma LinkedPush(items: map<string, Element>, lru: seq<Element>, e: Element)
    requires Linked(items, lru) && e.key !in items
    ensures Linked(items[e.key := e], [e] + lru)
  {
    var items', lru' := items[e.key := e], [e] + lru;
    forall k | k in items' ensures items'[k].key == k && items'[k] in lru' {
      if k != e.key { assert items[k] in lru; } else { assert lru'[0] == e; }
    }
  }

  lemma ViewsWithout(list: seq<Element>, i: nat)
    requires i < |list|
    ensures Views(list[..i] + list[i + 1..]) == Views(list)[..i] + Views(list)[i + 1..]
  {
  }

  lemma ViewsPush(e: Element, list: seq<Element>)
    ensures Views([e] + list) == [e.View()] + Views(list)
  {
  }

  datatype CacheStats = CacheStats(size: nat, capacity: int, expired: nat)

  class Cache {
    const capacity: int
    const ttl: int
    var items: map<string, Element>
    var lru: seq<Element>

    function Rules(): Policy {
      Policy(capacity, ttl)
    }

    /** The abstract value. */
    function Contents(): Entries
      reads this, lru
    {
      Views(lru)
    }

    ghost predicate Valid()
      reads this
    {
      Linked(items, lru) && |lru| <= Max0(capacity)
    }

    constructor (capacity: int, ttl: int)
      ensures Valid() && Rules() == Policy(capacity, ttl) && Contents() == []
    {
      this.capacity, this.ttl := capacity, ttl;
      items, lru := map[], [];
    }

    lemma ContentsWellFormed()
      requires Valid()
      ensures WellFormed(Rules(), Contents())
    {
    }

    /** What the map's answer for `key` means for the contents. */
    lemma Lookup(key: string) returns (i: int)
      requires Valid()
      ensures key in items <==> Find(Contents(), key).Some?
      ensures key in items ==>
                && 0 <= i < |lru| && lru[i] == items[key]
                && Find(Contents(), key) == Some(items[key].View())
                && Without(Contents(), key) == Contents()[..i] + Contents()[i + 1..]
    {
      i := 0;
      ContentsWellFormed();
      if key in items {
        i :| 0 <= i < |lru| && lru[i] == items[key];
        assert Contents()[i] == lru[i].View();
        FindUnique(Contents(), i);
        WithoutAt(Contents(), i);
      } else {
        FindSome(Contents(), key);
      }
    }

    lemma MapAgrees(key: string)
      requires Valid()
      ensures key in items <==> Find(Contents(), key).Some?
      ensures key in items ==> items[key] in lru && items[key].key == key
    {
      var i := Lookup(key);
    }

    /** Removes an element from both the list and the map. */
    method RemoveElement(elem: Element)
      requires Valid() && elem in lru
      modifies this
      ensures Valid() && Contents() == Without(old(Contents()), elem.key)
      ensures lru == ListRemove(old(lru), elem) && items == old(items) - {elem.key}
      ensures forall e :: e in lru ==> e in old(lru)
    {
      ghost var i := Lookup(elem.key);
      LinkedRemove(items, lru, i);
      ViewsWithout(lru, i);
      items := items - {elem.key};
      lru := ListRemove(lru, elem);
    }

    /** container/list's MoveToFront. */
    method MoveToFront(elem: Element)
      requires Valid() && elem in lru
      modifies this`lru
      ensures Valid() && Contents() == [elem.View()] + Without(old(Contents()), elem.key)
      ensures forall e :: e in lru ==> e in old(lru)
    {
      FrontFacts(elem);
      lru := [elem] + ListRemove(lru, elem);
    }

    lemma FrontFacts(elem: Element)
      requires Valid() && elem in lru
      ensures var list := [elem] + ListRemove(lru, elem);
              && Linked(items, list) && |list| == |lru|
              && Views(list) == [elem.View()] + Without(Contents(), elem.key)
              && forall e :: e in list ==> e in lru
    {
      var i := Lookup(elem.key);
      assert ListRemove(lru, elem) == lru[..i] + lru[i + 1..] by { LinkedRemove(items, lru, i); }
      LinkedFront(items, lru, i);
      ViewsPush(elem, ListRemove(lru, elem));
      ViewsWithout(lru, i);
    }

    method Get(key: string, now: int) returns (found: Option<string>)
      requires Valid()
      modifies this
      ensures Valid()
      ensures (Contents(), found) == GetStep(old(Contents()), key, now)
      ensures found.None? ==> key !in items
      ensures forall e :: e in lru ==> e in old(lru)
    {
      ghost var i := Lookup(key);
      if key !in items {
        return None;
      }
      var elem := items[key];
      if now > elem.expiresAt {
        RemoveElement(elem);
        return None;
      }
      MoveToFront(elem);
      return Some(elem.value);
    }

    method Set(key: string, value: string, now: int)
      requires Valid()
      modifies this, lru
      ensures Valid() && Contents() == SetStep(Rules(), old(Contents()), key, value, now)
    {
      if capacity <= 0 {
        return;
      }
      MapAgrees(key);
      if key !in items {
        Insert(key, value, now + ttl);
        return;
      }
      Refresh(items[key], value, now + ttl);
    }

    method Insert(key: string, value: string, expiresAt: int)
      requires Valid() && key !in items && capacity > 0
      modifies this
      ensures Valid()
      ensures Contents() == InsertNew(Rules(), old(Contents()), Entry(key, value, expiresAt))
    {
      if |lru| >= capacity && lru != [] {
        RemoveLast();
      }
      PushFront(key, value, expiresAt);
    }

    method Refresh(elem: Element, value: string, expiresAt: int)
      requires Valid() && elem in lru
      modifies this`lru, elem
      ensures Valid()
      ensures Contents() == RefreshStep(old(Contents()), Entry(elem.key, value, expiresAt))
    {
      UpdateEntry(elem, value, expiresAt);
      MoveToFront(elem);
    }

    method UpdateEntry(elem: Element, value: string, expiresAt: int)
      requires Valid() && elem in lru
      modifies elem
      ensures Valid() && elem.View() == Entry(elem.key, value, expiresAt)
      ensures Without(Contents(), elem.key) == Without(old(Contents()), elem.key)
    {
      ghost var i := Lookup(elem.key);
      elem.value := value;
      elem.expiresAt := expiresAt;
      ghost var j := Lookup(elem.key);
      assert Contents()[..i] == old(Contents())[..i];
      assert Contents()[i + 1..] == old(Contents())[i + 1..];
    }

    method RemoveLast()
      requires Valid() && lru != []
      modifies this
      ensures Valid() && Contents() == old(Contents())[..|old(Contents())| - 1]
      ensures items.Keys <= old(items).Keys
    {
      var oldest := lru[|lru| - 1];
      ContentsWellFormed();
      WithoutAt(Contents(), |lru| - 1);
      RemoveElement(oldest);
    }

    method PushFront(key: string, value: string, expiresAt: int)
      requires Valid() && key !in items && |lru| < capacity
      modifies this
      ensures Valid() && Contents() == [Entry(key, value, expiresAt)] + old(Contents())
    {
      var elem := new Element(key, value, expiresAt);
      LinkedPush(items, lru, elem);
      ghost var rest := lru;
      lru := [elem] + lru;
      items := items[key := elem];
      ViewsPush(elem, rest);
    }

    method Delete(key: string)
      requires Valid()
      modifies this
      ensures Valid() && Contents() == Without(old(Contents()), key)
    {
      ghost var i := Lookup(key);
      if key in items {
        RemoveElement(items[key]);
      } else {
        FindSome(Contents(), key);
        WithoutAbsent(Contents(), key);
      }
    }

    method Clear()
      requires Valid()
      modifies this
      ensures Valid() && Contents() == []
    {
      items, lru := map[], [];
    }

    method Len() returns (n: nat)
      requires Valid()
      ensures n == |Contents()| == |items| && n <= Max0(capacity)
    {
      ContentsWellFormed();
      KeysCounted(Contents());
      assert items.Keys == set e | e in Contents() :: e.key by {
        forall k | k in items ensures k in (set e | e in Contents() :: e.key) {
          var i := Lookup(k);
          assert Contents()[i].key == k;
        }
      }
      return |lru|;
    }

    /** Removes exactly the expired entries, keeps the order of the others, and counts what it removed. */
    method EvictExpired(now: int) returns (evicted: nat)
      requires Valid()
      modifies this
      ensures Valid() && Contents() == Live(old(Contents()), now)
      ensures evicted == CountExpired(old(Contents()), now)
    {
      evicted := 0;
      var next := 0;
      ghost var was := Contents();
      assert was[0..] == was && was[..0] == [];
      while next < |lru|
        invariant Valid() && next <= |lru|
        invariant Contents()[..next] + Live(Contents()[next..], now) == Live(was, now)
        invariant evicted + CountExpired(Contents()[next..], now) == CountExpired(was, now)
        decreases |lru| - next
      {
        var elem := lru[next];
        ContentsWellFormed();
        EvictionStep(Contents(), next, now);
        if now > elem.expiresAt {
          RemoveElement(elem);
          evicted := evicted + 1;
        } else {
          next := next + 1;
        }
      }
      assert Contents()[..next] == Contents() && Contents()[next..] == [];
    }

    /** Stats counts the entries that an eviction at the same instant would remove. */
    method Stats(now: int) returns (stats: CacheStats)
      requires Valid()
      ensures stats == CacheStats(|Contents()|, capacity, CountExpired(Contents(), now))
    {
      var expired := 0;
      var i := 0;
      assert Contents()[0..] == Contents();
      while i < |lru|
        invariant 0 <= i <= |lru|
        invariant expired + CountExpired(Contents()[i..], now) == CountExpired(Contents(), now)
      {
        assert Contents()[i..][0] == lru[i].View() && Contents()[i..][1..] == Contents()[i + 1..];
        if now > lru[i].expiresAt {
          expired := expired + 1;
        }
        i := i + 1;
      }
      return CacheStats(|lru|, capacity, expired);
    }
  }
}
