/**
  Lookups and mappings that overlap, when setChannelRoomMapping is the only writer (server/bridge_utils.go):
  which of them leave the cache right.
*/
module RoomRaces {
  import opened Prelude
  import opened Recency
  import opened Keys
  import opened RoomLookup

  /** No command or migration writes the store behind the cache's back. */
  predicate NoBypass(es: seq<TimedEvent>) {
    forall n :: 0 <= n < |es| ==> !es[n].ev.Bypass?
  }

  // ---------- threads ----------

  predicate InRange(p: Policy, kv0: Store, es: seq<TimedEvent>, n: nat, i: int) {
    n <= |es| && 0 <= i < |After(p, kv0, es, n).inFlight|
  }

  /** The event with which the i-th thread in flight after n events read or wrote the store. */
  function Started(p: Policy, kv0: Store, es: seq<TimedEvent>, n: nat, i: int): (m: int)
    requires InRange(p, kv0, es, n, i)
    ensures 0 <= m < n
  {
    var w := After(p, kv0, es, n - 1);
    match es[n - 1].ev
    case Fill(j) =>
      if j < |w.inFlight| && i >= j then Started(p, kv0, es, n - 1, i + 1) else Started(p, kv0, es, n - 1, i)
    case _ => if i < |w.inFlight| then Started(p, kv0, es, n - 1, i) else n - 1
  }

  /** The room of the last mapping of the channel among events m to n - 1. */
  function LastMapped(es: seq<TimedEvent>, m: int, n: nat, channel: string): Option<string>
    requires 0 <= m && n <= |es|
    decreases n
  {
    if n <= m then None
    else if es[n - 1].ev.MapChannel? && es[n - 1].ev.channel == channel then Some(es[n - 1].ev.room)
    else LastMapped(es, m, n - 1, channel)
  }

  /** The store's answer is the last mapping's, or what it was before. */
  lemma {:induction false} AnswerIsLastMapped(p: Policy, kv0: Store, es: seq<TimedEvent>, m: nat, n: nat,
                                              channel: string)
    requires m <= n <= |es| && NoBypass(es)
    ensures Answer(After(p, kv0, es, n).kv, channel)
         == match LastMapped(es, m, n, channel)
            case Some(room) => room
            case None => Answer(After(p, kv0, es, m).kv, channel)
    ensures ChannelMapping(channel) in After(p, kv0, es, m).kv ==> ChannelMapping(channel) in After(p, kv0, es, n).kv
    decreases n
  {
    hide Advance, Answer;
    if n > m {
      AnswerIsLastMapped(p, kv0, es, m, n - 1, channel);
      StoreAfter(p, After(p, kv0, es, n - 1), es[n - 1], channel);
    }
  }

  lemma StoreAfter(p: Policy, w: World, t: TimedEvent, channel: string)
    requires !t.ev.Bypass?
    ensures Answer(Advance(p, w, t).kv, channel)
         == if t.ev.MapChannel? && t.ev.channel == channel then t.ev.room else Answer(w.kv, channel)
    ensures ChannelMapping(channel) in w.kv ==> ChannelMapping(channel) in Advance(p, w, t).kv
  {
  }

  /** A thread carries what the store answered right after its store access. */
  lemma {:induction false} ThreadCarries(p: Policy, kv0: Store, es: seq<TimedEvent>, n: nat, i: int)
    requires InRange(p, kv0, es, n, i)
    ensures var q := After(p, kv0, es, n).inFlight[i];
            var kv := After(p, kv0, es, Started(p, kv0, es, n, i) + 1).kv;
            ChannelMapping(q.channel) in kv && kv[ChannelMapping(q.channel)] == q.room
    decreases n
  {
    var w, t := After(p, kv0, es, n - 1), es[n - 1];
    ThreadFrom(p, w, t, i);
    StartedFrom(p, kv0, es, n, i);
    hide After, Started, Advance;
    if ThreadBefore(w, t, i) >= 0 {
      ThreadCarries(p, kv0, es, n - 1, ThreadBefore(w, t, i));
    }
  }

  /** Where the i-th thread after an event was before it; -1 if the event is its store access. */
  function ThreadBefore(w: World, t: TimedEvent, i: int): int {
    if t.ev.Fill? && t.ev.i < |w.inFlight| && i >= t.ev.i then i + 1
    else if i < |w.inFlight| then i
    else -1
  }

  lemma ThreadFrom(p: Policy, w: World, t: TimedEvent, i: int)
    requires 0 <= i < |Advance(p, w, t).inFlight|
    ensures var q, j := Advance(p, w, t).inFlight[i], ThreadBefore(w, t, i);
            if j >= 0 then j < |w.inFlight| && q == w.inFlight[j]
            else
              && ChannelMapping(q.channel) in Advance(p, w, t).kv
              && Advance(p, w, t).kv[ChannelMapping(q.channel)] == q.room
  {
    hide SetStep, GetStep, Live;
  }

  lemma StartedFrom(p: Policy, kv0: Store, es: seq<TimedEvent>, n: nat, i: int)
    requires InRange(p, kv0, es, n, i)
    ensures n > 0 && After(p, kv0, es, n) == Advance(p, After(p, kv0, es, n - 1), es[n - 1])
    ensures var j := ThreadBefore(After(p, kv0, es, n - 1), es[n - 1], i);
            if j >= 0 then InRange(p, kv0, es, n - 1, j) && Started(p, kv0, es, n, i) == Started(p, kv0, es, n - 1, j)
            else Started(p, kv0, es, n, i) == n - 1
  {
    hide SetStep, GetStep, Live;
  }

  /** Since the thread's store access its channel has not been mapped away, or has been mapped back. */
  predicate UpToDate(p: Policy, kv0: Store, es: seq<TimedEvent>, n: nat, i: int)
    requires InRange(p, kv0, es, n, i)
  {
    var q := After(p, kv0, es, n).inFlight[i];
    var last := LastMapped(es, Started(p, kv0, es, n, i) + 1, n, q.channel);
    last.None? || last == Some(q.room)
  }

  lemma UpToDateIff(p: Policy, kv0: Store, es: seq<TimedEvent>, n: nat, i: int)
    requires InRange(p, kv0, es, n, i) && NoBypass(es)
    ensures var w := After(p, kv0, es, n);
            && ChannelMapping(w.inFlight[i].channel) in w.kv
            && (UpToDate(p, kv0, es, n, i) <==> w.inFlight[i].room == Answer(w.kv, w.inFlight[i].channel))
  {
    hide After, Started, LastMapped, Advance;
    ThreadCarries(p, kv0, es, n, i);
    AnswerIsLastMapped(p, kv0, es, Started(p, kv0, es, n, i) + 1, n, After(p, kv0, es, n).inFlight[i].channel);
  }

  /**
    A lookup right after a thread has filled the cache returns that thread's room, and this is the store's answer
    exactly when the last mapping of the channel since the thread's store access, if any, was to that room.
  */
  lemma FillExactIff(p: Policy, kv0: Store, es: seq<TimedEvent>, n: nat, i: nat)
    requires p.capacity > 0 && p.ttl >= 0 && NoBypass(es)
    requires n < |es| && es[n].ev == Fill(i) && InRange(p, kv0, es, n, i)
    ensures var q := After(p, kv0, es, n).inFlight[i];
            var w := After(p, kv0, es, n + 1);
            && Returns(w, At(es[n].at, Peek(q.channel))) == Some((q.channel, q.room))
            && (q.room == Answer(w.kv, q.channel) <==> UpToDate(p, kv0, es, n, i))
  {
    var w := After(p, kv0, es, n);
    var q := w.inFlight[i];
    UpToDateIff(p, kv0, es, n, i);
    assert After(p, kv0, es, n + 1) == Advance(p, w, es[n]);
    hide After, UpToDate;
    SetIsFound(p, w.cache, CacheKey(q.channel), q.room, es[n].at);
    hide SetStep;
  }

  lemma SetIsFound(p: Policy, r: Entries, key: string, value: string, now: int)
    requires p.capacity > 0 && p.ttl >= 0
    ensures GetStep(SetStep(p, r, key, value, now), key, now).1 == Some(value)
  {
  }

  // ---------- runs ----------

  /** Every thread that fills the cache is up to date when it does. */
  ghost predicate Orderly(p: Policy, kv0: Store, es: seq<TimedEvent>) {
    forall n: nat, i: nat :: n < |es| && es[n].ev == Fill(i) && InRange(p, kv0, es, n, i) ==> UpToDate(p, kv0, es, n, i)
  }

  /** A cached room is the store's answer, or a thread carrying that answer is on its way. */
  ghost predicate Catching(p: Policy, w: World) {
    && WellFormed(p, w.cache)
    && forall ch, e :: e in w.cache && e.key == CacheKey(ch) ==> Caught(w, ch, e)
  }

  ghost predicate Caught(w: World, channel: string, e: Entry) {
    ChannelMapping(channel) in w.kv && (e.value == Answer(w.kv, channel) || Coming(w, channel))
  }

  ghost predicate Coming(w: World, channel: string) {
    exists q :: q in w.inFlight && q.channel == channel && q.room == Answer(w.kv, channel)
  }

  lemma CacheStaysWellFormed(p: Policy, w: World, t: TimedEvent)
    requires WellFormed(p, w.cache)
    ensures WellFormed(p, Advance(p, w, t).cache)
  {
    hide WellFormed;
    match t.ev
    case Peek(ch) => StepKeepsWellFormed(p, w.cache, Timed(t.at, OpGet(CacheKey(ch))));
    case Fill(i) =>
      if i < |w.inFlight| {
        StepKeepsWellFormed(p, w.cache, Timed(t.at, OpSet(CacheKey(w.inFlight[i].channel), w.inFlight[i].room)));
      }
    case EvictExpired => StepKeepsWellFormed(p, w.cache, Timed(t.at, OpEvictExpired));
    case _ =>
  }

  lemma StepCatching(p: Policy, w: World, t: TimedEvent)
    requires Catching(p, w) && !t.ev.Bypass?
    requires t.ev.Fill? && t.ev.i < |w.inFlight| ==>
               var q := w.inFlight[t.ev.i]; ChannelMapping(q.channel) in w.kv && q.room == Answer(w.kv, q.channel)
    ensures Catching(p, Advance(p, w, t))
  {
    hide Advance, Caught, CacheKey;
    var w' := Advance(p, w, t);
    CacheStaysWellFormed(p, w, t);
    forall ch, e | e in w'.cache && e.key == CacheKey(ch) ensures Caught(w', ch, e) {
      EntryCaught(p, w, t, ch, e);
    }
    hide WellFormed;
  }

  lemma EntryCaught(p: Policy, w: World, t: TimedEvent, ch: string, e: Entry)
    requires Catching(p, w) && !t.ev.Bypass?
    requires t.ev.Fill? && t.ev.i < |w.inFlight| ==>
               var q := w.inFlight[t.ev.i]; ChannelMapping(q.channel) in w.kv && q.room == Answer(w.kv, q.channel)
    requires e in Advance(p, w, t).cache && e.key == CacheKey(ch)
    ensures Caught(Advance(p, w, t), ch, e)
  {
    var isNew := EntryOrigin(p, w, t, e);
    hide Advance, CacheKey, Coming, WellFormed;
    StoreAfter(p, w, t, ch);
    if isNew {
      CacheKeyInjective(ch, w.inFlight[t.ev.i].channel);
    } else {
      assert Caught(w, ch, e);
      EntryCatching(p, w, t, ch, e);
    }
  }

  lemma EntryCatching(p: Policy, w: World, t: TimedEvent, ch: string, e: Entry)
    requires Catching(p, w) && !t.ev.Bypass? && e in w.cache && e.key == CacheKey(ch)
    requires t.ev.Fill? && t.ev.i < |w.inFlight| ==> w.inFlight[t.ev.i].room == Answer(w.kv, w.inFlight[t.ev.i].channel)
    requires e in Advance(p, w, t).cache
    ensures e.value == Answer(Advance(p, w, t).kv, ch) || Coming(Advance(p, w, t), ch)
  {
    var w' := Advance(p, w, t);
    match t.ev
    case MapChannel(c, room) =>
      if c == ch {
        var q := InFlight(ch, room, t.at);
        assert q in w'.inFlight && q.room == Answer(w'.kv, ch);
      } else if e.value != Answer(w.kv, ch) {
        var q :| q in w.inFlight && q.channel == ch && q.room == Answer(w.kv, ch);
        assert q in w'.inFlight;
      }
    case Fill(i) =>
      if i < |w.inFlight| && e.value != Answer(w.kv, ch) {
        if w.inFlight[i].channel == ch {
          OldEntryGone(p, w, t, e);
        } else {
          var q :| q in w.inFlight && q.channel == ch && q.room == Answer(w.kv, ch);
          assert q in w'.inFlight;
        }
      }
    case ReadStore(c) =>
      if e.value != Answer(w.kv, ch) {
        var q :| q in w.inFlight && q.channel == ch && q.room == Answer(w.kv, ch);
        assert q in w'.inFlight;
      }
    case _ =>
  }

  /** Filling a channel's room leaves no other entry of that channel. */
  lemma OldEntryGone(p: Policy, w: World, t: TimedEvent, e: Entry)
    requires WellFormed(p, w.cache) && t.ev.Fill? && t.ev.i < |w.inFlight|
    requires e.key == CacheKey(w.inFlight[t.ev.i].channel) && e in Advance(p, w, t).cache
    ensures e.value == w.inFlight[t.ev.i].room
  {
    FindSome(w.cache, e.key);
    WithoutFacts(w.cache, e.key);
  }

  lemma {:induction false} RunCatching(p: Policy, kv0: Store, es: seq<TimedEvent>, n: nat)
    requires n <= |es| && NoBypass(es) && Orderly(p, kv0, es)
    ensures Catching(p, After(p, kv0, es, n))
  {
    hide After, Catching, Advance, Answer, Orderly, NoBypass;
    if n == 0 {
      NothingCached(p, kv0, es);
    } else {
      RunCatching(p, kv0, es, n - 1);
      FillsCarryAnswer(p, kv0, es, n - 1);
      AfterNext(p, kv0, es, n - 1);
      assert !es[n - 1].ev.Bypass? by { NotBypass(es, n - 1); }
      StepCatching(p, After(p, kv0, es, n - 1), es[n - 1]);
    }
  }

  lemma NothingCached(p: Policy, kv0: Store, es: seq<TimedEvent>)
    ensures Catching(p, After(p, kv0, es, 0))
  {
  }

  lemma NotBypass(es: seq<TimedEvent>, n: nat)
    requires NoBypass(es) && n < |es|
    ensures !es[n].ev.Bypass?
  {
  }

  lemma FillsCarryAnswer(p: Policy, kv0: Store, es: seq<TimedEvent>, n: nat)
    requires n < |es| && NoBypass(es) && Orderly(p, kv0, es)
    ensures var w := After(p, kv0, es, n);
            es[n].ev.Fill? && es[n].ev.i < |w.inFlight| ==>
              var q := w.inFlight[es[n].ev.i]; ChannelMapping(q.channel) in w.kv && q.room == Answer(w.kv, q.channel)
  {
    hide After, UpToDate, Answer;
    if es[n].ev.Fill? && es[n].ev.i < |After(p, kv0, es, n).inFlight| {
      assert InRange(p, kv0, es, n, es[n].ev.i) && es[n].ev == Fill(es[n].ev.i);
      UpToDateIff(p, kv0, es, n, es[n].ev.i);
    }
  }

  /**
    When every thread is up to date as it fills the cache, in particular when no mapping of a channel falls between
    another thread's store access and its fill, the cache agrees with the store whenever nothing is in flight.
  */
  lemma OrderlyRunsAreCoherent(p: Policy, kv0: Store, es: seq<TimedEvent>, n: nat)
    requires n <= |es| && NoBypass(es) && Orderly(p, kv0, es)
    requires After(p, kv0, es, n).inFlight == []
    ensures Coherent(After(p, kv0, es, n).kv, After(p, kv0, es, n).cache)
  {
    hide After, Orderly, NoBypass;
    RunCatching(p, kv0, es, n);
    EverythingCaught(p, After(p, kv0, es, n));
  }

  lemma EverythingCaught(p: Policy, w: World)
    requires Catching(p, w) && w.inFlight == []
    ensures Coherent(w.kv, w.cache)
  {
  }

  /** No mapping of the channel between a thread's store access and its fill. */
  predicate Undisturbed(p: Policy, kv0: Store, es: seq<TimedEvent>, n: nat, i: int)
    requires InRange(p, kv0, es, n, i)
  {
    var ch := After(p, kv0, es, n).inFlight[i].channel;
    forall k :: Started(p, kv0, es, n, i) < k < n ==> !(es[k].ev.MapChannel? && es[k].ev.channel == ch)
  }

  lemma UndisturbedIsUpToDate(p: Policy, kv0: Store, es: seq<TimedEvent>, n: nat, i: int)
    requires InRange(p, kv0, es, n, i) && Undisturbed(p, kv0, es, n, i)
    ensures UpToDate(p, kv0, es, n, i)
  {
    NothingMapped(es, Started(p, kv0, es, n, i) + 1, n, After(p, kv0, es, n).inFlight[i].channel);
    hide After, Started;
  }

  lemma {:induction false} NothingMapped(es: seq<TimedEvent>, m: int, n: nat, channel: string)
    requires 0 <= m && n <= |es|
    requires forall k :: m <= k < n ==> !(es[k].ev.MapChannel? && es[k].ev.channel == channel)
    ensures LastMapped(es, m, n, channel).None?
    decreases n
  {
    if n > m {
      NothingMapped(es, m, n - 1, channel);
    }
  }

  // ---------- single steps ----------

  /** A lookup whose steps follow each other at one instant is the single-step lookup. */
  lemma LookupIsItsSteps(p: Policy, w: World, channel: string, now: int)
    ensures var (cache, room) := LookupStep(p, w.kv, w.cache, channel, now);
            var peeked := Advance(p, w, At(now, Peek(channel)));
            var read := Advance(p, peeked, At(now, ReadStore(channel)));
            var filled := Advance(p, read, At(now, Fill(|w.inFlight|)));
            if Returns(w, At(now, Peek(channel))).Some?
            then Returns(w, At(now, Peek(channel))) == Some((channel, room)) && peeked == w.(cache := cache)
            else if Returns(peeked, At(now, ReadStore(channel))).Some?
            then Returns(peeked, At(now, ReadStore(channel))) == Some((channel, room)) && read == w.(cache := cache)
            else Returns(read, At(now, Fill(|w.inFlight|))) == Some((channel, room)) && filled == w.(cache := cache)
  {
    var peeked := Advance(p, w, At(now, Peek(channel)));
    if ChannelMapping(channel) in w.kv {
      var read := Advance(p, peeked, At(now, ReadStore(channel)));
      assert read.inFlight[..|w.inFlight|] + read.inFlight[|w.inFlight| + 1..] == w.inFlight;
    }
    hide SetStep, Without, Find;
  }

  /** So is a mapping. */
  lemma MappingIsItsSteps(p: Policy, w: World, channel: string, room: string, now: int)
    ensures Advance(p, Advance(p, w, At(now, MapChannel(channel, room))), At(now, Fill(|w.inFlight|)))
         == w.(kv := w.kv[ChannelMapping(channel) := room], cache := SetStep(p, w.cache, CacheKey(channel), room, now))
  {
    hide SetStep;
    var written := Advance(p, w, At(now, MapChannel(channel, room)));
    assert written.inFlight[..|w.inFlight|] + written.inFlight[|w.inFlight| + 1..] == w.inFlight;
  }
}
