/**
  The migration as it runs (server/migrations.go): loops over pages and keys that write the store
  step by step while operations of the store may fail.  Every write is also recorded in a ghost log, which
  the methods tie to the writes specified in MigrationFaults and, where nothing fails, in MigrationSpec.
*/
module Migrator {
  import opened Prelude
  import opened Keys
  import opened Listing
  import opened MigrationSpec
  import opened MigrationEffects
  import opened MigrationFaults

  datatype MigrationResult = MigrationResult(
    userMappingsCreated: int,
    channelMappingsCreated: int,
    roomMappingsCreated: int,
    dmMappingsCreated: int,
    reverseDMMappingsCreated: int)
  {
    function Add(other: MigrationResult): MigrationResult {
      MigrationResult(
        userMappingsCreated + other.userMappingsCreated,
        channelMappingsCreated + other.channelMappingsCreated,
        roomMappingsCreated + other.roomMappingsCreated,
        dmMappingsCreated + other.dmMappingsCreated,
        reverseDMMappingsCreated + other.reverseDMMappingsCreated)
    }
  }

  const NOTHING := MigrationResult(0, 0, 0, 0, 0)

  /** What one write counts for. */
  function Unit(purpose: Purpose): MigrationResult {
    match purpose
    case UserReverse => MigrationResult(1, 0, 0, 0, 0)
    case ChannelReverse => MigrationResult(0, 1, 0, 0, 0)
    case RoomID => MigrationResult(0, 0, 1, 0, 0)
    case Forward => MigrationResult(0, 0, 0, 1, 0)
    case DMReverse => MigrationResult(0, 0, 0, 0, 1)
    case Cleanup => NOTHING
    case VersionMark => NOTHING
  }

  /** The result that a sequence of writes amounts to: each counter counts the writes of one purpose. */
  function Counted(ws: seq<Write>): MigrationResult {
    MigrationResult(Count(ws, UserReverse), Count(ws, ChannelReverse), Count(ws, RoomID),
                    Count(ws, Forward), Count(ws, DMReverse))
  }

  lemma CountedAppend(a: seq<Write>, b: seq<Write>)
    ensures Counted(a + b) == Counted(a).Add(Counted(b))
  {
    hide Count;
    CountAppend(a, b, UserReverse);
    CountAppend(a, b, ChannelReverse);
    CountAppend(a, b, RoomID);
    CountAppend(a, b, Forward);
    CountAppend(a, b, DMReverse);
  }

  lemma CountedOne(w: Write)
    ensures Counted([w]) == Unit(w.purpose)
    ensures Counted([]) == NOTHING
  {
    hide Count;
    CountOne(w, UserReverse);
    CountOne(w, ChannelReverse);
    CountOne(w, RoomID);
    CountOne(w, Forward);
    CountOne(w, DMReverse);
  }

  lemma CountOne(w: Write, purpose: Purpose)
    ensures Count([w], purpose) == if w.purpose == purpose then 1 else 0
    ensures Count([], purpose) == 0
  {
    assert [w][1..] == [];
  }

  lemma WhenApplied(kv: Store, needed: bool, w: Write)
    ensures ApplyAll(kv, When(needed, w)) == if needed then Apply(kv, w) else kv
    ensures Counted(When(needed, w)) == if needed then Unit(w.purpose) else NOTHING
  {
    Apply0(kv);
    Apply1(kv, w);
    CountedOne(w);
    hide Count, Counted, ApplyAll;
  }

  /** More writes after those already logged. */
  lemma WritesMore(kv: Store, log: seq<Write>, a: seq<Write>, b: seq<Write>)
    ensures ApplyAll(kv, a + b) == ApplyAll(ApplyAll(kv, a), b)
    ensures Counted(a + b) == Counted(a).Add(Counted(b))
    ensures log + (a + b) == log + a + b
  {
    hide Count, Counted, ApplyAll;
    ApplyAppend(kv, a, b);
    CountedAppend(a, b);
  }

  class Plugin {
    var kvstore: Store
    ghost var log: seq<Write>

    /** The Matrix client's alias resolution. */
    const resolveRoomAlias: Net

    constructor (kv: Store, resolve: Net)
      ensures kvstore == kv && log == [] && resolveRoomAlias == resolve
    {
      kvstore, log, resolveRoomAlias := kv, [], resolve;
    }

    /** Since `from`, exactly the writes `ws` were made, on store `kv`. */
    ghost predicate Wrote(kv: Store, from: seq<Write>, ws: seq<Write>)
      reads this
    {
      log == from + ws && kvstore == ApplyAll(kv, ws)
    }

    method ListKeysWithPrefix(page: nat, perPage: nat, kind: Kind) returns (ids: seq<string>)
      ensures ids == Page(Listed(kvstore, kind), page, perPage)
    {
      ListedIsSorted(kvstore, kind);
      return Page(Sorted(Ids(kvstore, kind)), page, perPage);
    }

    method Get(key: Key, fails: bool) returns (value: Option<string>)
      ensures value == if fails then None else Val(kvstore, key)
    {
      if fails || key !in kvstore {
        return None;
      }
      return Some(kvstore[key]);
    }

    method Set(purpose: Purpose, key: Key, value: string, fails: bool) returns (ok: bool)
      modifies this`kvstore, this`log
      ensures ok == !fails
      ensures Wrote(old(kvstore), old(log), When(ok, Put(purpose, key, value)))
      ensures Counted(When(ok, Put(purpose, key, value))) == if ok then Unit(purpose) else NOTHING
    {
      WhenApplied(kvstore, !fails, Put(purpose, key, value));
      hide Counted, Count, ApplyAll;
      if fails {
        assert log + [] == log;
        return false;
      }
      kvstore := kvstore[key := value];
      log := log + [Put(purpose, key, value)];
      return true;
    }

    method Delete(key: Key, fails: bool)
      modifies this`kvstore, this`log
      ensures Wrote(old(kvstore), old(log), When(!fails, Del(Cleanup, key)))
      ensures Counted(When(!fails, Del(Cleanup, key))) == NOTHING
    {
      WhenApplied(kvstore, !fails, Del(Cleanup, key));
      hide Counted, Count, ApplyAll;
      if fails {
        assert log + [] == log;
        return;
      }
      kvstore := kvstore - {key};
      log := log + [Del(Cleanup, key)];
    }

    lemma StartWriting(kv: Store, from: seq<Write>)
      ensures ApplyAll(kv, []) == kv && Counted([]) == NOTHING && from + [] == from
    {
    }

    method MigrateUserEntry(matrixUserID: string, f: Faults) returns (r: MigrationResult)
      modifies this`kvstore, this`log
      ensures Wrote(old(kvstore), old(log), VisitWrites(resolveRoomAlias, old(kvstore), Visit(Users, matrixUserID, f)))
      ensures r == Counted(VisitWrites(resolveRoomAlias, old(kvstore), Visit(Users, matrixUserID, f)))
    {
      hide Counted, Count, ApplyAll;
      r := NOTHING;
      StartWriting(kvstore, log);
      var mattermostUserID := Get(MatrixUser(matrixUserID), f.entry);
      if mattermostUserID.None? {
        return;
      }
      var reverseKey := MattermostUser(mattermostUserID.value);
      var existing := Get(reverseKey, f.read1);
      if existing == Some(matrixUserID) {
        return;
      }
      var ok := Set(UserReverse, reverseKey, matrixUserID, f.write1);
      if ok {
        r := r.(userMappingsCreated := 1);
      }
    }

    method MigrateChannelEntry(channelID: string, f: Faults) returns (r: MigrationResult)
      modifies this`kvstore, this`log
      ensures Wrote(old(kvstore), old(log), VisitWrites(resolveRoomAlias, old(kvstore), Visit(Channels, channelID, f)))
      ensures r == Counted(VisitWrites(resolveRoomAlias, old(kvstore), Visit(Channels, channelID, f)))
    {
      hide Counted, Count, ApplyAll;
      r := NOTHING;
      StartWriting(kvstore, log);
      var roomIdentifier := Get(ChannelMapping(channelID), f.entry);
      if roomIdentifier.None? {
        return;
      }
      var first := MigrateChannelReverse(channelID, roomIdentifier.value, f);
      var second := MigrateRoomID(channelID, roomIdentifier.value, f);
      r := first.Add(second);
      WritesMore(old(kvstore), old(log), ChannelReverseWrites(old(kvstore), channelID, roomIdentifier.value, f),
                 RoomIDWrites(resolveRoomAlias, roomIdentifier.value, channelID, f));
    }

    function ChannelReverseWrites(kv: Store, channelID: string, roomIdentifier: string, f: Faults): seq<Write> {
      When((f.read1 || Val(kv, RoomMapping(roomIdentifier)) != Some(channelID)) && !f.write1,
           Put(ChannelReverse, RoomMapping(roomIdentifier), channelID))
    }

    /** The reverse mapping of the identifier, unless it is already right. */
    method MigrateChannelReverse(channelID: string, roomIdentifier: string, f: Faults) returns (r: MigrationResult)
      modifies this`kvstore, this`log
      ensures Wrote(old(kvstore), old(log), ChannelReverseWrites(old(kvstore), channelID, roomIdentifier, f))
      ensures r == Counted(ChannelReverseWrites(old(kvstore), channelID, roomIdentifier, f))
    {
      hide Counted, Count, ApplyAll;
      r := NOTHING;
      StartWriting(kvstore, log);
      var existing := Get(RoomMapping(roomIdentifier), f.read1);
      if existing == Some(channelID) {
        return;
      }
      var ok := Set(ChannelReverse, RoomMapping(roomIdentifier), channelID, f.write1);
      if ok {
        r := r.(channelMappingsCreated := 1);
      }
    }

    /** For an alias, always the reverse mapping of the room it resolves to. */
    method MigrateRoomID(channelID: string, roomIdentifier: string, f: Faults) returns (r: MigrationResult)
      modifies this`kvstore, this`log
      ensures Wrote(old(kvstore), old(log), RoomIDWrites(resolveRoomAlias, roomIdentifier, channelID, f))
      ensures r == Counted(RoomIDWrites(resolveRoomAlias, roomIdentifier, channelID, f))
    {
      hide Counted, Count, ApplyAll;
      r := NOTHING;
      StartWriting(kvstore, log);
      if "#" <= roomIdentifier {
        var resolved := resolveRoomAlias(roomIdentifier);
        if resolved.Some? {
          var ok := Set(RoomID, RoomMapping(resolved.value), channelID, f.write2);
          if ok {
            r := r.(roomMappingsCreated := 1);
          }
        }
      }
    }

    /** Writes a mapping unless a nonempty one can be read. */
    method SetIfBlank(purpose: Purpose, key: Key, value: string, unread: bool, fails: bool)
      returns (needed: bool, written: bool)
      modifies this`kvstore, this`log
      ensures needed == (unread || Blank(Val(old(kvstore), key))) && written == (needed && !fails)
      ensures Wrote(old(kvstore), old(log), When(written, Put(purpose, key, value)))
      ensures Counted(When(written, Put(purpose, key, value))) == if written then Unit(purpose) else NOTHING
    {
      hide Counted, Count, ApplyAll;
      StartWriting(kvstore, log);
      var existing := Get(key, unread);
      if existing.Some? && |existing.value| > 0 {
        return false, false;
      }
      written := Set(purpose, key, value, fails);
      return true, written;
    }

    /** `needed` and `reverse`: the forward mapping is to be written, and the reverse mapping is. */
    lemma DMVisitIs(kv: Store, id: string, f: Faults, value: string, needed: bool, reverse: bool)
      requires !f.entry && Val(kv, LegacyDM(id)) == Some(value)
      requires needed == (f.read1 || Blank(Val(kv, ChannelMapping(id))))
      requires reverse == ((f.read2 || Blank(Val(kv, RoomMapping(value)))) && !f.write2)
      ensures (VisitWrites(resolveRoomAlias, kv, Visit(DMs, id, f))
               == if needed && f.write1 then []
                  else When(needed, Put(Forward, ChannelMapping(id), value))
                       + When(reverse, Put(DMReverse, RoomMapping(value), id))
                       + When(!f.removal, Del(Cleanup, LegacyDM(id))))
    {
    }

    lemma DMCounts(needed: bool, reverse: bool)
      ensures (if needed then Unit(Forward) else NOTHING).Add(if reverse then Unit(DMReverse) else NOTHING)
           == MigrationResult(0, 0, 0, if needed then 1 else 0, if reverse then 1 else 0)
    {
    }

    lemma NothingWritten(kv: Store, v: Visit, w: Write)
      ensures v.faults.entry || Build(PhaseKind(v.phase), v.id) !in kv ==> VisitWrites(resolveRoomAlias, kv, v) == []
      ensures When(false, w) == [] && Counted([]) == NOTHING
    {
    }

    lemma NoneWrote()
      ensures Wrote(kvstore, log, [])
    {
    }

    method MigrateDMEntry(channelID: string, f: Faults) returns (r: MigrationResult)
      modifies this`kvstore, this`log
      ensures Wrote(old(kvstore), old(log), VisitWrites(resolveRoomAlias, old(kvstore), Visit(DMs, channelID, f)))
      ensures r == Counted(VisitWrites(resolveRoomAlias, old(kvstore), Visit(DMs, channelID, f)))
    {
      hide Counted, Count, ApplyAll, VisitWrites, When, Wrote, Unit, MigrationResult.Add;
      r := NOTHING;
      ghost var kv, from := kvstore, log;
      NoneWrote();
      var matrixRoomID := Get(LegacyDM(channelID), f.entry);
      NothingWritten(kv, Visit(DMs, channelID, f), VERSION_WRITE);
      if matrixRoomID.None? {
        return;
      }
      var room := matrixRoomID.value;
      NothingWritten(kv, Visit(DMs, channelID, f), Put(Forward, ChannelMapping(channelID), room));
      var needed, written := SetIfBlank(Forward, ChannelMapping(channelID), room, f.read1, f.write1);
      if needed && !written {
        DMVisitIs(kv, channelID, f, room, needed, (f.read2 || Blank(Val(kv, RoomMapping(room)))) && !f.write2);
        return;
      }
      if needed {
        r := r.(dmMappingsCreated := 1);
      }
      ghost var a := When(needed, Put(Forward, ChannelMapping(channelID), room));
      OnlyThisKey(kv, from, needed, Put(Forward, ChannelMapping(channelID), room), RoomMapping(room));
      var reverse := MigrateDMReverse(kv, from, a, channelID, room, f);
      DMVisitIs(kv, channelID, f, room, needed, reverse);
      DMCounts(needed, reverse);
      if reverse {
        r := r.(reverseDMMappingsCreated := 1);
      }
    }

    lemma OnlyThisKey(kv: Store, from: seq<Write>, needed: bool, w: Write, k: Key)
      requires Wrote(kv, from, When(needed, w)) && k != w.key
      ensures Val(kvstore, k) == Val(kv, k)
    {
      WhenApplied(kv, needed, w);
      hide ApplyAll;
    }

    /** The second half of a legacy channel entry: its reverse mapping, then its removal. */
    method MigrateDMReverse(ghost kv: Store, ghost from: seq<Write>, ghost a: seq<Write>, channelID: string,
                            room: string, f: Faults)
      returns (written: bool)
      requires Wrote(kv, from, a)
      modifies this`kvstore, this`log
      ensures written == ((f.read2 || Blank(Val(old(kvstore), RoomMapping(room)))) && !f.write2)
      ensures var ws := a + When(written, Put(DMReverse, RoomMapping(room), channelID))
                + When(!f.removal, Del(Cleanup, LegacyDM(channelID)));
              && Wrote(kv, from, ws)
              && Counted(ws) == Counted(a).Add(if written then Unit(DMReverse) else NOTHING)
    {
      hide Counted, Count, ApplyAll, When;
      var needed;
      needed, written := SetIfBlank(DMReverse, RoomMapping(room), channelID, f.read2, f.write2);
      ghost var b := When(written, Put(DMReverse, RoomMapping(room), channelID));
      WritesMore(kv, from, a, b);
      RemoveLegacy(kv, from, a + b, LegacyDM(channelID), f.removal);
    }

    /** Ends an entry's writes with the removal of its legacy key. */
    method RemoveLegacy(ghost kv: Store, ghost from: seq<Write>, ghost ws: seq<Write>, key: Key, fails: bool)
      requires Wrote(kv, from, ws)
      modifies this`kvstore, this`log
      ensures Wrote(kv, from, ws + When(!fails, Del(Cleanup, key)))
      ensures Counted(ws + When(!fails, Del(Cleanup, key))) == Counted(ws)
    {
      hide Counted, Count, ApplyAll;
      WritesMore(kv, from, ws, When(!fails, Del(Cleanup, key)));
      Delete(key, fails);
    }

    method MigrateMatrixDMEntry(matrixRoomID: string, f: Faults) returns (r: MigrationResult)
      modifies this`kvstore, this`log
      ensures Wrote(old(kvstore), old(log),
                    VisitWrites(resolveRoomAlias, old(kvstore), Visit(MatrixDMs, matrixRoomID, f)))
      ensures r == Counted(VisitWrites(resolveRoomAlias, old(kvstore), Visit(MatrixDMs, matrixRoomID, f)))
    {
      hide Counted, Count, ApplyAll;
      r := NOTHING;
      ghost var kv, from := kvstore, log;
      StartWriting(kv, from);
      var channelID := Get(LegacyMatrixDM(matrixRoomID), f.entry);
      if channelID.None? {
        return;
      }
      var needed, written := SetIfBlank(DMReverse, RoomMapping(matrixRoomID), channelID.value, f.read1, f.write1);
      if needed && !written {
        return;
      }
      if needed {
        r := r.(reverseDMMappingsCreated := 1);
      }
      RemoveLegacy(kv, from, When(needed, Put(DMReverse, RoomMapping(matrixRoomID), channelID.value)),
                   LegacyMatrixDM(matrixRoomID), f.removal);
    }

    /** One turn of a loop, with anything failing. */
    method MigrateEntry(ph: Phase, id: string) returns (r: MigrationResult, ghost v: Visit)
      modifies this`kvstore, this`log
      ensures v.phase == ph && v.id == id
      ensures Wrote(old(kvstore), old(log), VisitWrites(resolveRoomAlias, old(kvstore), v))
      ensures r == Counted(VisitWrites(resolveRoomAlias, old(kvstore), v))
    {
      hide Counted, Count, ApplyAll, VisitWrites;
      var f: Faults := *;
      v := Visit(ph, id, f);
      match ph
      case Users => r := MigrateUserEntry(id, f);
      case Channels => r := MigrateChannelEntry(id, f);
      case DMs => r := MigrateDMEntry(id, f);
      case MatrixDMs => r := MigrateMatrixDMEntry(id, f);
    }

    /** The keys of one page, in order. */
    method MigratePage(ph: Phase, keys: seq<string>) returns (r: MigrationResult, ghost vs: seq<Visit>)
      modifies this`kvstore, this`log
      ensures VisitsOf(ph, keys, vs)
      ensures Wrote(old(kvstore), old(log), VisitsWrites(resolveRoomAlias, old(kvstore), vs))
      ensures r == Counted(VisitsWrites(resolveRoomAlias, old(kvstore), vs))
    {
      r, vs := NOTHING, [];
      ghost var kv := kvstore;
      StartWriting(kv, log);
      hide Counted, Count, ApplyAll, VisitWrites;
      for i := 0 to |keys|
        invariant VisitsOf(ph, keys[..i], vs)
        invariant Wrote(kv, old(log), VisitsWrites(resolveRoomAlias, kv, vs))
        invariant r == Counted(VisitsWrites(resolveRoomAlias, kv, vs))
      {
        ghost var before := kvstore;
        var one, v := MigrateEntry(ph, keys[i]);
        OneMoreVisit(kv, old(log), before, vs, v);
        r := r.Add(one);
        vs := vs + [v];
      }
    }

    lemma OneMoreVisit(kv: Store, from: seq<Write>, before: Store, vs: seq<Visit>, v: Visit)
      requires before == ApplyAll(kv, VisitsWrites(resolveRoomAlias, kv, vs))
      ensures var a, b := VisitsWrites(resolveRoomAlias, kv, vs), VisitWrites(resolveRoomAlias, before, v);
              && VisitsWrites(resolveRoomAlias, kv, vs + [v]) == a + b
              && ApplyAll(kv, a + b) == ApplyAll(before, b)
              && Counted(a + b) == Counted(a).Add(Counted(b))
              && from + (a + b) == from + a + b
    {
      hide Counted, Count, ApplyAll, VisitWrites;
      VisitsAppend(resolveRoomAlias, kv, vs, [v]);
      VisitsOne(resolveRoomAlias, before, v);
      WritesMore(kv, from, VisitsWrites(resolveRoomAlias, kv, vs), VisitWrites(resolveRoomAlias, before, v));
    }

    /** A listing may fail; there is more to do after a full page. */
    method MigrateNextPage(ph: Phase, page: nat)
      returns (ok: bool, r: MigrationResult, more: bool, ghost vs: seq<Visit>)
      modifies this`kvstore, this`log
      ensures Wrote(old(kvstore), old(log), VisitsWrites(resolveRoomAlias, old(kvstore), vs))
      ensures r == Counted(VisitsWrites(resolveRoomAlias, old(kvstore), vs))
      ensures !ok ==> vs == []
      ensures ok ==> VisitsOf(ph, Page(Listed(old(kvstore), PhaseKind(ph)), page, BATCH_SIZE), vs)
      ensures ok ==> more == (|Page(Listed(old(kvstore), PhaseKind(ph)), page, BATCH_SIZE)| >= BATCH_SIZE)
      ensures more ==> Remaining(kvstore, PhaseKind(ph), page + 1) < Remaining(old(kvstore), PhaseKind(ph), page)
    {
      hide Counted, Count, ApplyAll, VisitsWrites, Remaining, Page;
      r, more, vs := NOTHING, false, [];
      StartWriting(kvstore, log);
      VisitsOne(resolveRoomAlias, kvstore, Visit(ph, "", NO_FAULTS));
      ok := *;
      if !ok {
        return;
      }
      var keys := ListKeysWithPrefix(page, BATCH_SIZE, PhaseKind(ph));
      if |keys| == 0 {
        return;
      }
      r, vs := MigratePage(ph, keys);
      VisitsProgress(ph, resolveRoomAlias, old(kvstore), page, vs);
      more := |keys| >= BATCH_SIZE;
    }

    /** One of the four paged loops: page after page, until one is not full or cannot be listed. */
    method MigrateMappings(ph: Phase) returns (r: Option<MigrationResult>, ghost vs: seq<Visit>)
      modifies this`kvstore, this`log
      ensures LoopVisits(ph, resolveRoomAlias, old(kvstore), 0, vs, r.Some?)
      ensures Wrote(old(kvstore), old(log), VisitsWrites(resolveRoomAlias, old(kvstore), vs))
      ensures r.Some? ==> r.value == Counted(VisitsWrites(resolveRoomAlias, old(kvstore), vs))
    {
      var total := NOTHING;
      var page := 0;
      ghost var kv := kvstore;
      vs := [];
      StartWriting(kv, log);
      VisitsOne(resolveRoomAlias, kv, Visit(ph, "", NO_FAULTS));
      hide Counted, Count, ApplyAll, VisitsWrites, LoopVisits, Remaining, Page, PagesBefore;
      FirstPage(ph, resolveRoomAlias, kv);
      while true
        invariant PagesBefore(ph, resolveRoomAlias, kv, vs, page)
        invariant Wrote(kv, old(log), VisitsWrites(resolveRoomAlias, kv, vs))
        invariant total == Counted(VisitsWrites(resolveRoomAlias, kv, vs))
        decreases Remaining(kvstore, PhaseKind(ph), page)
      {
        ghost var before := kvstore;
        var ok, batch, more, us := MigrateNextPage(ph, page);
        MoreVisits(kv, old(log), before, vs, us);
        NextPage(ph, resolveRoomAlias, kv, vs, page, us, ok);
        total := total.Add(batch);
        vs := vs + us;
        if !ok {
          return None, vs;
        }
        if !more {
          return Some(total), vs;
        }
        page := page + 1;
      }
    }

    lemma MoreVisits(kv: Store, from: seq<Write>, before: Store, vs: seq<Visit>, us: seq<Visit>)
      requires before == ApplyAll(kv, VisitsWrites(resolveRoomAlias, kv, vs))
      ensures var a, b := VisitsWrites(resolveRoomAlias, kv, vs), VisitsWrites(resolveRoomAlias, before, us);
              && VisitsWrites(resolveRoomAlias, kv, vs + us) == a + b
              && ApplyAll(kv, a + b) == ApplyAll(before, b)
              && Counted(a + b) == Counted(a).Add(Counted(b))
              && from + (a + b) == from + a + b
    {
      hide Counted, Count, ApplyAll, VisitsWrites;
      VisitsAppend(resolveRoomAlias, kv, vs, us);
      WritesMore(kv, from, VisitsWrites(resolveRoomAlias, kv, vs), VisitsWrites(resolveRoomAlias, before, us));
    }

    /** Version 1: the users' loop, then the channels'. */
    method RunMigrationToVersion1() returns (r: Option<MigrationResult>, ghost vs: seq<Visit>)
      modifies this`kvstore, this`log
      ensures LoopsVisit([Users, Channels], resolveRoomAlias, old(kvstore), vs, r.Some?)
      ensures Wrote(old(kvstore), old(log), VisitsWrites(resolveRoomAlias, old(kvstore), vs))
      ensures r.Some? ==> r.value == Counted(VisitsWrites(resolveRoomAlias, old(kvstore), vs))
    {
      r, vs := MigrateTwo(Users, Channels);
    }

    /** Version 2: the loops over the two legacy prefixes. */
    method RunMigrationToVersion2() returns (r: Option<MigrationResult>, ghost vs: seq<Visit>)
      modifies this`kvstore, this`log
      ensures LoopsVisit([DMs, MatrixDMs], resolveRoomAlias, old(kvstore), vs, r.Some?)
      ensures Wrote(old(kvstore), old(log), VisitsWrites(resolveRoomAlias, old(kvstore), vs))
      ensures r.Some? ==> r.value == Counted(VisitsWrites(resolveRoomAlias, old(kvstore), vs))
    {
      r, vs := MigrateTwo(DMs, MatrixDMs);
    }

    /** One loop, then another; an error of the first is an error of both. */
    method MigrateTwo(first: Phase, second: Phase) returns (r: Option<MigrationResult>, ghost vs: seq<Visit>)
      modifies this`kvstore, this`log
      ensures LoopsVisit([first, second], resolveRoomAlias, old(kvstore), vs, r.Some?)
      ensures Wrote(old(kvstore), old(log), VisitsWrites(resolveRoomAlias, old(kvstore), vs))
      ensures r.Some? ==> r.value == Counted(VisitsWrites(resolveRoomAlias, old(kvstore), vs))
    {
      hide Counted, Count, ApplyAll, VisitsWrites, LoopVisits, LoopsVisit;
      ghost var kv := kvstore;
      r, vs := MigrateMappings(first);
      if r.None? {
        FailedLoop([first, second], resolveRoomAlias, kv, vs);
        return;
      }
      ghost var kv1 := kvstore;
      var r2, us := MigrateMappings(second);
      TwoLoops(first, second, resolveRoomAlias, kv, vs, us, r2.Some?);
      MoreVisits(kv, old(log), kv1, vs, us);
      vs := vs + us;
      r := if r2.Some? then Some(r.value.Add(r2.value)) else None;
    }

    /**
      Runs the migrations that the version marker calls for; a marker that cannot be read counts as version 0.
      Faults of single entries are passed over; a failed listing or a marker that cannot be written is an error.
    */
    method RunKVStoreMigrations()
      returns (r: Option<MigrationResult>, ghost version: int, ghost vs: seq<Visit>, ghost looped: bool)
      modifies this`kvstore, this`log
      ensures version == VersionOf(old(kvstore)) || version == 0
      ensures LoopsVisit(PhasesFor(version), resolveRoomAlias, old(kvstore), vs, looped) && (r.Some? ==> looped)
      ensures var mark := When(r.Some? && version < CURRENT_VERSION, VERSION_WRITE);
              Wrote(old(kvstore), old(log), VisitsWrites(resolveRoomAlias, old(kvstore), vs) + mark)
      ensures r.Some? ==> r.value == Counted(VisitsWrites(resolveRoomAlias, old(kvstore), vs))
    {
      hide Counted, Count, ApplyAll, VisitsWrites, LoopsVisit, VersionOf;
      ghost var kv, net := kvstore, resolveRoomAlias;
      StartWriting(kv, log);
      VisitsOne(net, kv, Visit(Users, "", NO_FAULTS));
      NoLoops(net, kv);
      var unread := *;
      var currentVersion := if unread then 0 else VersionOf(kvstore);
      version, vs, looped := currentVersion, [], true;
      r := Some(NOTHING);
      if currentVersion >= CURRENT_VERSION {
        return;
      }
      if currentVersion < 1 {
        r, vs := RunMigrationToVersion1();
        if r.None? {
          LoopsFail([Users, Channels], [DMs, MatrixDMs], net, kv, vs);
          assert [Users, Channels] + [DMs, MatrixDMs] == PhasesFor(version);
          NoMark(net, kv, vs);
          looped := false;
          return;
        }
      }
      ghost var kv1 := kvstore;
      var r2, us := RunMigrationToVersion2();
      BothVersions(version, net, kv, vs, us, r2.Some?);
      MoreVisits(kv, old(log), kv1, vs, us);
      vs, looped := vs + us, r2.Some?;
      NoMark(net, kv, vs);
      if r2.None? {
        r := None;
        return;
      }
      var total := r.value.Add(r2.value);
      var failed := *;
      WritesMore(kv, old(log), VisitsWrites(net, kv, vs), When(!failed, VERSION_WRITE));
      var ok := Set(VersionMark, StoreVersion, "2", failed);
      r := if ok then Some(total) else None;
    }

    lemma NoMark(net: Net, kv: Store, vs: seq<Visit>)
      ensures VisitsWrites(net, kv, vs) + When(false, VERSION_WRITE) == VisitsWrites(net, kv, vs)
    {
    }
  }

  /** Where no entry was passed over, the run has made the plan's writes and counted them. */
  lemma FaultlessRun(net: Net, kv: Store, vs: seq<Visit>)
    requires LoopsVisit(PhasesFor(VersionOf(kv)), net, kv, vs, true) && Faultless(vs)
    ensures var ws := VisitsWrites(net, kv, vs);
            && ws + When(VersionOf(kv) < CURRENT_VERSION, VERSION_WRITE) == Plan(net, kv)
            && Counted(ws) == Counted(Plan(net, kv))
  {
    hide Counted, VisitsWrites, LoopsVisit, Plan, VersionOf;
    VisitsOne(net, kv, Visit(Users, "", NO_FAULTS));
    if VersionOf(kv) < CURRENT_VERSION {
      ErrorsAreCrashes(net, kv, vs, true);
      CountedAppend(VisitsWrites(net, kv, vs), [VERSION_WRITE]);
      CountedOne(VERSION_WRITE);
    } else {
      NothingPlanned(net, kv);
      assert vs == [] by { NoVisits(net, kv, vs); }
    }
  }

  lemma NothingPlanned(net: Net, kv: Store)
    requires VersionOf(kv) >= CURRENT_VERSION
    ensures Plan(net, kv) == []
  {
  }

  lemma NoVisits(net: Net, kv: Store, vs: seq<Visit>)
    requires LoopsVisit([], net, kv, vs, true)
    ensures vs == []
  {
  }
}
