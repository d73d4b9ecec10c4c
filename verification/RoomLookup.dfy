/**
  The read-through room lookup (server/bridge_utils.go): a channel's room is taken from the cache
  when it is there and from the KV store otherwise.  Commands write the store without touching the
  cache (server/command/command.go), so the cache may lag; this module bounds by how much.
*/
module RoomLookup {
  import opened Prelude
  import opened Recency
  import opened Keys
  import C = Cache

  type Store = map<Key, string>

  /** The store's answer for a channel; a missing key reads as an unmapped channel. */
  function Answer(kv: Store, channel: string): string {
    if ChannelMapping(channel) in kv then kv[ChannelMapping(channel)] else ""
  }

  function Stored(kv: Store, k: Key): Option<string> {
    if k in kv then Some(kv[k]) else None
  }

  function CacheKey(channel: string): string {
    Render(ChannelMapping(channel))
  }

  // ---------- concurrent steps ----------

  /** A value read from or written to the store by a thread that has yet to put it in the cache. */
  datatype InFlight = InFlight(channel: string, room: string, readAt: int)

  datatype World = World(kv: Store, cache: Entries, inFlight: seq<InFlight>)

  /**
    One step of some thread.  GetMatrixRoomID is Peek and, on a miss, ReadStore and Fill;
    setChannelRoomMapping is MapChannel and Fill; Bypass is a command's or a migration's write to the store.
  */
  datatype Event =
    | Peek(channel: string)
    | ReadStore(channel: string)
    | MapChannel(channel: string, room: string)
    | Fill(i: nat)
    | Bypass(channel: string, written: Option<string>)
    | EvictExpired

  datatype TimedEvent = At(at: int, ev: Event)

  function Advance(p: Policy, w: World, t: TimedEvent): World {
    match t.ev
    case Peek(ch) => w.(cache := GetStep(w.cache, CacheKey(ch), t.at).0)
    case ReadStore(ch) =>
      if ChannelMapping(ch) in w.kv
      then w.(inFlight := w.inFlight + [InFlight(ch, w.kv[ChannelMapping(ch)], t.at)])
      else w
    case MapChannel(ch, room) =>
      w.(kv := w.kv[ChannelMapping(ch) := room], inFlight := w.inFlight + [InFlight(ch, room, t.at)])
    case Fill(i) =>
      if i < |w.inFlight| then
        w.(cache := SetStep(p, w.cache, CacheKey(w.inFlight[i].channel), w.inFlight[i].room, t.at),
           inFlight := w.inFlight[..i] + w.inFlight[i + 1..])
      else w
    case Bypass(ch, room) =>
      w.(kv := if room.Some? then w.kv[ChannelMapping(ch) := room.value] else w.kv - {ChannelMapping(ch)})
    case EvictExpired => w.(cache := Live(w.cache, t.at))
  }

  /** The channel and room a lookup returns at this step, if a lookup returns here. */
  function Returns(w: World, t: TimedEvent): Option<(string, string)> {
    match t.ev
    case Peek(ch) =>
      var hit := GetStep(w.cache, CacheKey(ch), t.at).1;
      if hit.Some? then Some((ch, hit.value)) else None
    case ReadStore(ch) => if ChannelMapping(ch) in w.kv then None else Some((ch, ""))
    case Fill(i) => if i < |w.inFlight| then Some((w.inFlight[i].channel, w.inFlight[i].room)) else None
    case _ => None
  }

  /** The world after the first n events. */
  function After(p: Policy, kv0: Store, es: seq<TimedEvent>, n: nat): World
    requires n <= |es|
  {
    if n == 0 then World(kv0, [], []) else Advance(p, After(p, kv0, es, n - 1), es[n - 1])
  }

  lemma AfterNext(p: Policy, kv0: Store, es: seq<TimedEvent>, n: nat)
    requires n < |es|
    ensures After(p, kv0, es, n + 1) == Advance(p, After(p, kv0, es, n), es[n])
  {
    hide Advance;
  }

  /** Every thread reaches the cache within `lag` of its store access. */
  ghost predicate Prompt(p: Policy, kv0: Store, es: seq<TimedEvent>, lag: int) {
    forall n :: 0 <= n < |es| && es[n].ev.Fill? && es[n].ev.i < |After(p, kv0, es, n).inFlight| ==>
      es[n].at - After(p, kv0, es, n).inFlight[es[n].ev.i].readAt <= lag
  }

  /** At some moment no earlier than `since`, after one of the first n events, the store answered `room`. */
  ghost predicate Answered(p: Policy, kv0: Store, es: seq<TimedEvent>, n: nat, channel: string, room: string,
                           since: int)
    requires n <= |es|
  {
    exists m :: 0 <= m < n && es[m].at >= since && Answer(After(p, kv0, es, m + 1).kv, channel) == room
  }

  ghost predicate Accounted(p: Policy, kv0: Store, es: seq<TimedEvent>, n: nat, lag: int)
    requires n <= |es|
  {
    var w := After(p, kv0, es, n);
    && UniqueKeys(w.cache)
    && (forall q :: q in w.inFlight ==> Answered(p, kv0, es, n, q.channel, q.room, q.readAt))
    && (forall e :: e in w.cache ==> EntryAccounted(p, kv0, es, n, lag, e))
  }

  ghost predicate EntryAccounted(p: Policy, kv0: Store, es: seq<TimedEvent>, n: nat, lag: int, e: Entry)
    requires n <= |es|
  {
    forall ch :: e.key == CacheKey(ch) ==> Answered(p, kv0, es, n, ch, e.value, e.expiresAt - p.ttl - lag)
  }

  lemma CacheKeyInjective(a: string, b: string)
    requires CacheKey(a) == CacheKey(b)
    ensures a == b
  {
    assert a == CacheKey(a)[|Prefix(ChannelKind)|..];
    assert b == CacheKey(b)[|Prefix(ChannelKind)|..];
  }

  lemma AnsweredLater(p: Policy, kv0: Store, es: seq<TimedEvent>, n: nat, channel: string, room: string, since: int,
                      since': int)
    requires n < |es| && Answered(p, kv0, es, n, channel, room, since) && since' <= since
    ensures Answered(p, kv0, es, n + 1, channel, room, since')
  {
  }

  lemma AnsweredNow(p: Policy, kv0: Store, es: seq<TimedEvent>, n: nat, channel: string)
    requires n < |es|
    ensures Answered(p, kv0, es, n + 1, channel, Answer(After(p, kv0, es, n + 1).kv, channel), es[n].at)
  {
  }

  lemma {:induction false} AlwaysAccounted(p: Policy, kv0: Store, es: seq<TimedEvent>, n: nat, lag: int)
    requires n <= |es| && Prompt(p, kv0, es, lag)
    ensures Accounted(p, kv0, es, n, lag)
  {
    hide Advance, EntryAccounted, Answered, Prompt;
    if n > 0 {
      AlwaysAccounted(p, kv0, es, n - 1, lag);
      AfterNext(p, kv0, es, n - 1);
      InFlightAccounted(p, kv0, es, n - 1, lag);
      CacheStaysUnique(p, After(p, kv0, es, n - 1), es[n - 1]);
      forall e | e in After(p, kv0, es, n).cache ensures EntryAccounted(p, kv0, es, n, lag, e) {
        NewEntryAccounted(p, kv0, es, n - 1, lag, e);
      }
    }
  }

  lemma CacheStaysUnique(p: Policy, w: World, t: TimedEvent)
    requires UniqueKeys(w.cache)
    ensures UniqueKeys(Advance(p, w, t).cache)
  {
    match t.ev
    case Peek(ch) => UpdatesStayUnique(p, w.cache, CacheKey(ch), "", t.at);
    case Fill(i) =>
      if i < |w.inFlight| {
        UpdatesStayUnique(p, w.cache, CacheKey(w.inFlight[i].channel), w.inFlight[i].room, t.at);
      }
      hide SetStep;
    case EvictExpired => LiveFacts(w.cache, t.at);
    case _ =>
  }

  lemma UpdatesStayUnique(p: Policy, r: Entries, key: string, value: string, now: int)
    requires UniqueKeys(r)
    ensures UniqueKeys(SetStep(p, r, key, value, now)) && UniqueKeys(GetStep(r, key, now).0)
  {
    hide Without, Find, Expired;
    FindSome(r, key);
    WithoutFacts(r, key);
  }

  lemma InFlightAccounted(p: Policy, kv0: Store, es: seq<TimedEvent>, n: nat, lag: int)
    requires n < |es| && Accounted(p, kv0, es, n, lag)
    ensures forall q :: q in After(p, kv0, es, n + 1).inFlight ==>
              Answered(p, kv0, es, n + 1, q.channel, q.room, q.readAt)
  {
    var w, w' := After(p, kv0, es, n), After(p, kv0, es, n + 1);
    forall q | q in w'.inFlight ensures Answered(p, kv0, es, n + 1, q.channel, q.room, q.readAt) {
      if q in w.inFlight {
        AnsweredLater(p, kv0, es, n, q.channel, q.room, q.readAt, q.readAt);
      } else {
        AnsweredNow(p, kv0, es, n, q.channel);
      }
    }
  }

  /** An entry is either an old one or the value a thread has just put in, read at most `lag` ago. */
  lemma NewEntryAccounted(p: Policy, kv0: Store, es: seq<TimedEvent>, n: nat, lag: int, e: Entry)
    requires n < |es| && Prompt(p, kv0, es, lag) && Accounted(p, kv0, es, n, lag)
    requires e in After(p, kv0, es, n + 1).cache
    ensures EntryAccounted(p, kv0, es, n + 1, lag, e)
  {
    var w := After(p, kv0, es, n);
    var isNew := EntryOrigin(p, w, es[n], e);
    forall ch | e.key == CacheKey(ch)
      ensures Answered(p, kv0, es, n + 1, ch, e.value, e.expiresAt - p.ttl - lag)
    {
      if isNew {
        var q := w.inFlight[es[n].ev.i];
        CacheKeyInjective(ch, q.channel);
        AnsweredLater(p, kv0, es, n, ch, e.value, q.readAt, e.expiresAt - p.ttl - lag);
      } else {
        AnsweredLater(p, kv0, es, n, ch, e.value, e.expiresAt - p.ttl - lag, e.expiresAt - p.ttl - lag);
      }
    }
  }

  lemma EntryOrigin(p: Policy, w: World, t: TimedEvent, e: Entry) returns (isNew: bool)
    requires UniqueKeys(w.cache) && e in Advance(p, w, t).cache
    ensures !isNew ==> e in w.cache
    ensures isNew ==> t.ev.Fill? && t.ev.i < |w.inFlight|
                      && e == Entry(CacheKey(w.inFlight[t.ev.i].channel), w.inFlight[t.ev.i].room, t.at + p.ttl)
  {
    isNew := e !in w.cache;
    match t.ev
    case Peek(ch) => FindSome(w.cache, CacheKey(ch)); WithoutFacts(w.cache, CacheKey(ch));
    case Fill(i) =>
      if i < |w.inFlight| {
        WithoutFacts(w.cache, CacheKey(w.inFlight[i].channel));
      }
    case EvictExpired => LiveFacts(w.cache, t.at);
    case _ =>
  }

  /**
    Bounded staleness.  Whatever writers bypass the cache and however lookups interleave, every room
    a lookup returns was the store's answer for that channel at some moment within the last TTL,
    plus the time its thread took between the store and the cache.
  */
  lemma BoundedStaleness(p: Policy, kv0: Store, es: seq<TimedEvent>, n: nat, lag: nat)
    requires n < |es| && p.ttl >= 0 && Prompt(p, kv0, es, lag)
    requires Returns(After(p, kv0, es, n), es[n]).Some?
    ensures var (channel, room) := Returns(After(p, kv0, es, n), es[n]).value;
            Answered(p, kv0, es, n + 1, channel, room, es[n].at - p.ttl - lag)
  {
    var w := After(p, kv0, es, n);
    AlwaysAccounted(p, kv0, es, n, lag);
    match es[n].ev
    case Peek(ch) =>
      FindSome(w.cache, CacheKey(ch));
      var e := Find(w.cache, CacheKey(ch)).value;
      AnsweredLater(p, kv0, es, n, ch, e.value, e.expiresAt - p.ttl - lag, es[n].at - p.ttl - lag);
    case ReadStore(ch) =>
      AnsweredNow(p, kv0, es, n, ch);
    case Fill(i) =>
      var q := w.inFlight[i];
      AnsweredLater(p, kv0, es, n, q.channel, q.room, q.readAt, es[n].at - p.ttl - lag);
  }

  /** Even without bypassing writers two overlapping threads can leave an old room in the cache. */
  lemma OverlapLeavesOldRoom(p: Policy)
    requires p.capacity > 0 && p.ttl >= 5
    ensures var kv0 := map[ChannelMapping("c") := "old"];
            var es := [At(0, ReadStore("c")), At(1, MapChannel("c", "new")), At(2, Fill(1)), At(3, Fill(0)),
                       At(4, Peek("c"))];
            && Answer(After(p, kv0, es, 4).kv, "c") == "new"
            && Returns(After(p, kv0, es, 4), es[4]) == Some(("c", "old"))
  {
    var kv0: Store := map[ChannelMapping("c") := "old"];
    var es := [At(0, ReadStore("c")), At(1, MapChannel("c", "new")), At(2, Fill(1)), At(3, Fill(0)), At(4, Peek("c"))];
    var w1 := After(p, kv0, es, 1);
    assert After(p, kv0, es, 0) == World(kv0, [], []);
    assert w1 == Advance(p, World(kv0, [], []), es[0]);
    assert w1 == World(kv0, [], [InFlight("c", "old", 0)]);
    var kv2: Store := kv0[ChannelMapping("c") := "new"];
    var w2 := After(p, kv0, es, 2);
    assert w2 == World(kv2, [], [InFlight("c", "old", 0), InFlight("c", "new", 1)]);
    var w3 := After(p, kv0, es, 3);
    assert w3.inFlight == [InFlight("c", "old", 0)];
    assert w3 == World(kv2, [Entry(CacheKey("c"), "new", 2 + p.ttl)], [InFlight("c", "old", 0)]);
    var w4 := After(p, kv0, es, 4);
    assert w4.cache == [Entry(CacheKey("c"), "old", 3 + p.ttl)];
  }

  // ---------- lookups and mappings as single steps ----------

  /** Every cached room is the store's current answer. */
  ghost predicate Coherent(kv: Store, cache: Entries) {
    forall ch, e :: e in cache && e.key == CacheKey(ch) ==>
      ChannelMapping(ch) in kv && kv[ChannelMapping(ch)] == e.value
  }

  function LookupStep(p: Policy, kv: Store, cache: Entries, channel: string, now: int): (Entries, string) {
    var (cache', hit) := GetStep(cache, CacheKey(channel), now);
    if hit.Some? then (cache', hit.value)
    else if ChannelMapping(channel) !in kv then (cache', "")
    else (SetStep(p, cache', CacheKey(channel), kv[ChannelMapping(channel)], now), kv[ChannelMapping(channel)])
  }

  /** A lookup of a coherent cache gives the current answer and leaves it coherent. */
  lemma CoherentLookup(p: Policy, kv: Store, cache: Entries, channel: string, now: int)
    requires UniqueKeys(cache) && Coherent(kv, cache)
    ensures var (cache', room) := LookupStep(p, kv, cache, channel, now);
            UniqueKeys(cache') && Coherent(kv, cache') && room == Answer(kv, channel)
  {
    FindSome(cache, CacheKey(channel));
    WithoutFacts(cache, CacheKey(channel));
    var (cache1, hit) := GetStep(cache, CacheKey(channel), now);
    if hit.None? && ChannelMapping(channel) in kv {
      CoherentSet(p, kv, cache1, channel, now);
    }
  }

  lemma CoherentSet(p: Policy, kv: Store, cache: Entries, channel: string, now: int)
    requires UniqueKeys(cache) && Coherent(kv, cache) && ChannelMapping(channel) in kv
    ensures var cache' := SetStep(p, cache, CacheKey(channel), kv[ChannelMapping(channel)], now);
            UniqueKeys(cache') && Coherent(kv, cache')
  {
    FindSome(cache, CacheKey(channel));
    WithoutFacts(cache, CacheKey(channel));
    var cache' := SetStep(p, cache, CacheKey(channel), kv[ChannelMapping(channel)], now);
    forall ch, e | e in cache' && e.key == CacheKey(ch)
      ensures ChannelMapping(ch) in kv && kv[ChannelMapping(ch)] == e.value
    {
      if e !in cache { CacheKeyInjective(ch, channel); }
    }
  }

  /** setChannelRoomMapping's two writes keep the cache coherent, even when it was stale for that channel. */
  lemma CoherentMapping(p: Policy, kv: Store, cache: Entries, channel: string, room: string, now: int)
    requires UniqueKeys(cache) && p.capacity > 0
    requires forall ch, e :: ch != channel && e in cache && e.key == CacheKey(ch) ==>
               ChannelMapping(ch) in kv && kv[ChannelMapping(ch)] == e.value
    ensures var cache' := SetStep(p, cache, CacheKey(channel), room, now);
            UniqueKeys(cache') && Coherent(kv[ChannelMapping(channel) := room], cache')
  {
    var key := CacheKey(channel);
    SetIsOnlyChange(p, cache, key, room, now);
    UpdatesStayUnique(p, cache, key, room, now);
    hide SetStep, CacheKey;
    var cache' := SetStep(p, cache, key, room, now);
    var kv' := kv[ChannelMapping(channel) := room];
    forall ch, e | e in cache' && e.key == CacheKey(ch)
      ensures ChannelMapping(ch) in kv' && kv'[ChannelMapping(ch)] == e.value
    {
      if CacheKey(ch) == key { CacheKeyInjective(ch, channel); }
    }
  }

  lemma SetIsOnlyChange(p: Policy, r: Entries, key: string, value: string, now: int)
    requires UniqueKeys(r) && p.capacity > 0
    ensures forall e :: e in SetStep(p, r, key, value, now) ==> if e.key == key then e.value == value else e in r
  {
    FindSome(r, key);
    WithoutFacts(r, key);
  }

  datatype Call = Lookup(channel: string, at: int) | MapTo(channel: string, room: string, at: int)

  /** Every lookup of the run gives the store's answer at that moment. */
  ghost predicate AllExact(p: Policy, kv: Store, cache: Entries, calls: seq<Call>)
    decreases |calls|
  {
    calls == [] ||
    match calls[0]
    case Lookup(ch, at) =>
      var (cache', room) := LookupStep(p, kv, cache, ch, at);
      room == Answer(kv, ch) && AllExact(p, kv, cache', calls[1..])
    case MapTo(ch, room, at) =>
      AllExact(p, kv[ChannelMapping(ch) := room], SetStep(p, cache, CacheKey(ch), room, at), calls[1..])
  }

  /** When setChannelRoomMapping is the only writer and calls do not overlap, no lookup is ever stale. */
  lemma {:induction false} OnlyWriterIsExact(p: Policy, kv: Store, cache: Entries, calls: seq<Call>)
    requires WellFormed(p, cache) && Coherent(kv, cache)
    ensures AllExact(p, kv, cache, calls)
    decreases |calls|
  {
    if calls != [] {
      match calls[0]
      case Lookup(ch, at) =>
        CoherentLookup(p, kv, cache, ch, at);
        LookupKeepsWellFormed(p, kv, cache, ch, at);
        OnlyWriterIsExact(p, kv, LookupStep(p, kv, cache, ch, at).0, calls[1..]);
      case MapTo(ch, room, at) =>
        if p.capacity > 0 {
          CoherentMapping(p, kv, cache, ch, room, at);
        }
        StepKeepsWellFormed(p, cache, Timed(at, OpSet(CacheKey(ch), room)));
        OnlyWriterIsExact(p, kv[ChannelMapping(ch) := room], SetStep(p, cache, CacheKey(ch), room, at), calls[1..]);
    }
  }

  lemma LookupKeepsWellFormed(p: Policy, kv: Store, cache: Entries, channel: string, now: int)
    requires WellFormed(p, cache)
    ensures WellFormed(p, LookupStep(p, kv, cache, channel, now).0)
  {
    StepKeepsWellFormed(p, cache, Timed(now, OpGet(CacheKey(channel))));
    if ChannelMapping(channel) in kv {
      StepKeepsWellFormed(p, GetStep(cache, CacheKey(channel), now).0,
        Timed(now, OpSet(CacheKey(channel), kv[ChannelMapping(channel)])));
    }
  }

  /**
    After a bypassing write that changes the answer, the next lookup is right exactly when the channel is not
    cached live.
  */
  lemma BypassSeenIff(p: Policy, kv: Store, cache: Entries, channel: string, kv': Store, now: int)
    requires UniqueKeys(cache) && Coherent(kv, cache) && Answer(kv', channel) != Answer(kv, channel)
    ensures LookupStep(p, kv', cache, channel, now).1 == Answer(kv', channel)
       <==> GetStep(cache, CacheKey(channel), now).1.None?
  {
    FindSome(cache, CacheKey(channel));
  }

  /** The lookup object; `kvstore` is its KV store. */
  class BridgeUtils {
    var kvstore: Store
    const roomMappingCache: C.Cache

    ghost predicate Valid()
      reads this, roomMappingCache
    {
      roomMappingCache.Valid()
    }

    constructor (kv: Store, cache: C.Cache)
      requires cache.Valid()
      ensures Valid() && kvstore == kv && roomMappingCache == cache
    {
      kvstore, roomMappingCache := kv, cache;
    }

    method GetMatrixRoomID(channelID: string, now: int) returns (roomID: string)
      requires Valid()
      modifies roomMappingCache, roomMappingCache.lru
      ensures Valid()
      ensures (roomMappingCache.Contents(), roomID)
           == LookupStep(roomMappingCache.Rules(), kvstore, old(roomMappingCache.Contents()), channelID, now)
      ensures var hit := GetStep(old(roomMappingCache.Contents()), CacheKey(channelID), now).1;
              roomID == if hit.Some? then hit.value
                        else if ChannelMapping(channelID) in kvstore then kvstore[ChannelMapping(channelID)] else ""
    {
      var mappingKey := CacheKey(channelID);
      var found := roomMappingCache.Get(mappingKey, now);
      if found.Some? {
        return found.value;
      }
      if ChannelMapping(channelID) !in kvstore {
        return "";
      }
      roomID := kvstore[ChannelMapping(channelID)];
      roomMappingCache.Set(mappingKey, roomID, now);
    }

    /**
      Maps a channel to a room.  `resolved` is the homeserver's answer for the identifier, and the
      flags say which of the three store writes succeed.
    */
    method SetChannelRoomMapping(channelID: string, identifier: string, resolved: Option<string>, now: int,
                                 forwardOk: bool, reverseOk: bool, aliasOk: bool) returns (ok: bool)
      requires Valid()
      modifies this`kvstore, roomMappingCache, roomMappingCache.lru
      ensures Valid()
      ensures ok == (forwardOk && reverseOk)
      ensures var room := if resolved.Some? then resolved.value else identifier;
              && roomMappingCache.Contents()
                 == (if forwardOk then SetStep(roomMappingCache.Rules(), old(roomMappingCache.Contents()),
                                               CacheKey(channelID), room, now)
                     else old(roomMappingCache.Contents()))
              && kvstore == MappedStore(old(kvstore), channelID, identifier, room, forwardOk, reverseOk, aliasOk)
              && forall k :: Stored(kvstore, k)
                  == if forwardOk && k == ChannelMapping(channelID) then Some(room)
                     else if forwardOk && reverseOk
                             && (k == RoomMapping(room)
                                 || (aliasOk && "#" <= identifier && k == RoomMapping(identifier)))
                     then Some(channelID)
                     else Stored(old(kvstore), k)
    {
      hide SetStep;
      var roomID := if resolved.Some? then resolved.value else identifier;
      if !forwardOk {
        return false;
      }
      kvstore := kvstore[ChannelMapping(channelID) := roomID];
      roomMappingCache.Set(CacheKey(channelID), roomID, now);
      if !reverseOk {
        return false;
      }
      kvstore := kvstore[RoomMapping(roomID) := channelID];
      if "#" <= identifier && roomID != identifier {
        if aliasOk {
          kvstore := kvstore[RoomMapping(identifier) := channelID];
        }
      }
      return true;
    }
  }

  /** The store after a mapping, by which of its writes succeeded. */
  function MappedStore(kv: Store, channel: string, identifier: string, room: string,
                       forwardOk: bool, reverseOk: bool, aliasOk: bool): Store {
    if !forwardOk then kv
    else
      var kv1 := kv[ChannelMapping(channel) := room];
      if !reverseOk then kv1
      else
        var kv2 := kv1[RoomMapping(room) := channel];
        if "#" <= identifier && room != identifier && aliasOk then kv2[RoomMapping(identifier) := channel] else kv2
  }

  /** A fully successful mapping can be followed both ways, from the room and from the identifier given. */
  lemma MappingRoundTrip(kv: Store, channel: string, identifier: string, resolved: Option<string>)
    requires resolved.None? || "#" <= identifier || resolved.value == identifier
    ensures var room := if resolved.Some? then resolved.value else identifier;
            var kv' := MappedStore(kv, channel, identifier, room, true, true, true);
            && Answer(kv', channel) == room
            && RoomMapping(room) in kv' && kv'[RoomMapping(room)] == channel
            && RoomMapping(identifier) in kv' && kv'[RoomMapping(identifier)] == channel
            && forall ch :: ch != channel ==> Answer(kv', ch) == Answer(kv, ch)
  {
  }
}
