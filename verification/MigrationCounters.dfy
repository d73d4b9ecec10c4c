/** What the counters a migration reports count, in terms of the stores before and after (server/migrations.go). */
module MigrationCounters {
  import opened Prelude
  import opened Keys
  import opened Listing
  import opened MigrationSpec
  import opened MigrationEffects
  import opened MigrationResults
  import opened MigrationCounts
  import opened Migrator

  /** The reverse key of an entry of version 1. */
  function OwnKey(ph: Phase, kv: Store, id: string): Key
    requires ph.Users? || ph.Channels?
    requires Build(PhaseKind(ph), id) in kv
  {
    if ph.Users? then MattermostUser(kv[MatrixUser(id)]) else RoomMapping(kv[ChannelMapping(id)])
  }

  /** The entry's reverse key does not name it, or an entry before it asks for the same key. */
  predicate Stale(ph: Phase, net: Net, kv: Store, ids: set<string>, id: string)
    requires ph.Users? || ph.Channels?
    requires Build(PhaseKind(ph), id) in kv
  {
    || Val(kv, OwnKey(ph, kv, id)) != Some(id)
    || exists o :: o in ids && Below(o, id) && Claims(ph, net, kv, o, OwnKey(ph, kv, id))
  }

  /** The entries that a loop of version 1 records anew. */
  function Rewritten(ph: Phase, net: Net, kv: Store): set<string>
    requires ph.Users? || ph.Channels?
  {
    set id | id in Ids(kv, PhaseKind(ph)) && Stale(ph, net, kv, Ids(kv, PhaseKind(ph)), id)
  }

  /** The channels mapped to an alias that resolves. */
  function Resolved(net: Net, kv: Store): set<string> {
    set id | id in Ids(kv, ChannelKind) && IsAlias(kv[ChannelMapping(id)]) && net(kv[ChannelMapping(id)]).Some?
  }

  function ReversePurpose(ph: Phase): Purpose {
    if ph.Users? then UserReverse else ChannelReverse
  }

  // ---------- one entry ----------

  lemma EntryCounts(ph: Phase, net: Net, kv: Store, id: string)
    requires (ph.Users? || ph.Channels?) && Build(PhaseKind(ph), id) in kv
    ensures var ws := EntryWrites(ph, net, kv, id);
            && Count(ws, ReversePurpose(ph)) == (if Val(kv, OwnKey(ph, kv, id)) == Some(id) then 0 else 1)
            && Count(ws, RoomID) == (if ph.Channels? && id in Resolved(net, kv) then 1 else 0)
  {
    var ws := EntryWrites(ph, net, kv, id);
    if |ws| >= 1 { CountOf([], ws[0], UserReverse); CountOf([], ws[0], ChannelReverse); CountOf([], ws[0], RoomID); }
    if |ws| == 2 { CountOf([ws[0]], ws[1], ChannelReverse); CountOf([ws[0]], ws[1], RoomID); }
    assert ws == [] || ws == [] + [ws[0]] || ws == [ws[0]] + [ws[1]];
  }

  /** Among the entries already visited there is one that asks for the key exactly when one before it does. */
  lemma {:induction false} VisitedClaims(ph: Phase, net: Net, kv: Store, ids: seq<string>, n: nat, k: Key)
    requires Increasing(ids) && n < |ids|
    ensures LastClaim(ph, net, kv, ids[..n], k).Some?
       <==> exists o :: o in ids && Below(o, ids[n]) && Claims(ph, net, kv, o, k)
  {
    hide Claims, Below;
    LastClaimIsGreatest(ph, net, kv, ids[..n], k);
    forall o | o in ids[..n] ensures o in ids && Below(o, ids[n]) {
    }
    if o :| o in ids && Below(o, ids[n]) && Claims(ph, net, kv, o, k) {
      var i :| 0 <= i < |ids| && ids[i] == o;
      BelowTotal(o, ids[n]);
      assert i < n && ids[..n][i] == o;
    }
  }

  /** What the n-th visit finds under its reverse key. */
  lemma VisitFinds(ph: Phase, net: Net, kv: Store, ids: seq<string>, n: nat, x: Store)
    requires (ph.Users? || ph.Channels?) && ids == Listed(kv, PhaseKind(ph)) && n < |ids|
    requires Reached(ph, net, kv, ids[..n], x)
    ensures Build(PhaseKind(ph), ids[n]) in kv && Build(PhaseKind(ph), ids[n]) in x
    ensures OwnKey(ph, x, ids[n]) == OwnKey(ph, kv, ids[n])
    ensures Val(x, OwnKey(ph, kv, ids[n])) != Some(ids[n]) <==> ids[n] in Rewritten(ph, net, kv)
    ensures ids[n] in Resolved(net, x) <==> ids[n] in Resolved(net, kv)
  {
    hide Claims, Below, LastClaim;
    var id := ids[n];
    assert id in ids;
    assert Val(x, Build(PhaseKind(ph), id)) == DoneVal(ph, net, kv, ids[..n], Build(PhaseKind(ph), id));
    assert Val(x, ChannelMapping(id)) == DoneVal(ph, net, kv, ids[..n], ChannelMapping(id));
    LastClaimOther(ph, net, kv, ids[..n], Build(PhaseKind(ph), id));
    LastClaimOther(ph, net, kv, ids[..n], ChannelMapping(id));
    assert x[Build(PhaseKind(ph), id)] == kv[Build(PhaseKind(ph), id)];
    var k := OwnKey(ph, kv, id);
    assert Val(x, k) == DoneVal(ph, net, kv, ids[..n], k);
    VisitedClaims(ph, net, kv, ids, n, k);
    LastClaimIsGreatest(ph, net, kv, ids[..n], k);
    assert id !in ids[..n] by {
      forall i | 0 <= i < n ensures ids[..n][i] != id { IncreasingDistinct(ids, i, n); }
    }
    var all := Ids(kv, PhaseKind(ph));
    assert forall o :: o in ids <==> o in all;
    assert Stale(ph, net, kv, all, id)
       <==> Val(kv, k) != Some(id) || exists o :: o in ids && Below(o, id) && Claims(ph, net, kv, o, k);
  }

  // ---------- a whole loop ----------

  lemma {:induction false} LoopCounts(ph: Phase, net: Net, kv: Store, ids: seq<string>, n: nat)
    requires (ph.Users? || ph.Channels?) && ids == Listed(kv, PhaseKind(ph)) && n <= |ids|
    ensures Reached(ph, net, kv, ids[..n], ApplyAll(kv, EntriesWrites(ph, net, kv, ids[..n])))
    ensures var ws := EntriesWrites(ph, net, kv, ids[..n]);
            && Count(ws, ReversePurpose(ph)) == |set id | id in ids[..n] && id in Rewritten(ph, net, kv)|
            && Count(ws, RoomID)
               == |set id | id in ids[..n] && ph.Channels? && id in Resolved(net, kv)|
    decreases n
  {
    hide EntriesWrites, EntryWrites, ApplyAll, Count, Rewritten, Resolved, Reached, Pending, DoneVal;
    if n == 0 {
      NothingCounted(ph, net, kv);
      NothingDone(ph, net, kv);
      assert ids[..0] == [];
    } else {
      var init, id := ids[..n - 1], ids[n - 1];
      LoopCounts(ph, net, kv, ids, n - 1);
      var ws := EntriesWrites(ph, net, kv, init);
      var x := ApplyAll(kv, ws);
      VisitFinds(ph, net, kv, ids, n - 1, x);
      OneMoreEntry(ph, net, kv, init, id);
      assert ids[..n] == init + [id];
      EntryCounts(ph, net, x, id);
      VisitReaches(ph, net, kv, ids, n - 1, x);
      OneMore(init, id, Rewritten(ph, net, kv), ids, n);
      OneMore(init, id, if ph.Channels? then Resolved(net, kv) else {}, ids, n);
      assert (set o | o in init && ph.Channels? && o in Resolved(net, kv))
          == (set o | o in init && o in (if ph.Channels? then Resolved(net, kv) else {}));
      assert (set o | o in ids[..n] && ph.Channels? && o in Resolved(net, kv))
          == (set o | o in ids[..n] && o in (if ph.Channels? then Resolved(net, kv) else {}));
    }
  }

  lemma NothingCounted(ph: Phase, net: Net, kv: Store)
    ensures EntriesWrites(ph, net, kv, []) == [] && ApplyAll(kv, []) == kv
    ensures forall purpose :: Count([], purpose) == 0
  {
  }

  lemma OneMoreEntry(ph: Phase, net: Net, kv: Store, init: seq<string>, id: string)
    ensures var a := EntriesWrites(ph, net, kv, init);
            var b := EntryWrites(ph, net, ApplyAll(kv, a), id);
            && EntriesWrites(ph, net, kv, init + [id]) == a + b
            && ApplyAll(kv, a + b) == ApplyAll(ApplyAll(kv, a), b)
            && forall purpose :: Count(a + b, purpose) == Count(a, purpose) + Count(b, purpose)
  {
    hide EntryWrites, ApplyAll, Count;
    var a := EntriesWrites(ph, net, kv, init);
    var x := ApplyAll(kv, a);
    var b := EntryWrites(ph, net, x, id);
    EntriesAppend(ph, net, kv, init, [id]);
    EntriesOne(ph, net, x, id);
    ApplyAppend(kv, a, b);
    forall purpose ensures Count(a + b, purpose) == Count(a, purpose) + Count(b, purpose) {
      CountAppend(a, b, purpose);
    }
  }

  lemma EntriesOne(ph: Phase, net: Net, kv: Store, id: string)
    ensures EntriesWrites(ph, net, kv, [id]) == EntryWrites(ph, net, kv, id)
  {
    hide EntryWrites;
    assert [id][1..] == [];
  }

  lemma VisitReaches(ph: Phase, net: Net, kv: Store, ids: seq<string>, n: nat, x: Store)
    requires (ph.Users? || ph.Channels?) && ids == Listed(kv, PhaseKind(ph)) && n < |ids|
    requires Reached(ph, net, kv, ids[..n], x)
    ensures Reached(ph, net, kv, ids[..n + 1], ApplyAll(x, EntryWrites(ph, net, x, ids[n])))
  {
    hide Reached, EntryWrites, ApplyAll;
    ListedIsPending(ph, kv);
    assert Pending(ph, kv, ids[..n], [ids[n]]) by {
      assert ids[n] in ids;
      forall i | 0 <= i < n ensures ids[..n][i] != ids[n] { IncreasingDistinct(ids, i, n); }
    }
    EntryReached(ph, net, kv, ids[..n], x, ids[n]);
    assert ids[..n + 1] == ids[..n] + [ids[n]];
  }

  lemma OneMore(init: seq<string>, id: string, good: set<string>, ids: seq<string>, n: nat)
    requires Increasing(ids) && 0 < n <= |ids| && init == ids[..n - 1] && id == ids[n - 1]
    ensures |set o | o in ids[..n] && o in good| == |set o | o in init && o in good| + if id in good then 1 else 0
  {
    assert ids[..n] == init + [id];
    forall i | 0 <= i < n - 1 ensures init[i] != id { IncreasingDistinct(ids, i, n - 1); }
    var before, after := set o | o in init && o in good, set o | o in ids[..n] && o in good;
    assert after == before + if id in good then {id} else {};
    assert id !in before;
  }

  /** A loop of version 1 counts the entries it records anew and, for channels, the aliases that resolve. */
  lemma PhaseCounts(ph: Phase, net: Net, kv: Store)
    requires ph.Users? || ph.Channels?
    ensures Count(PhaseWrites(ph, net, kv), ReversePurpose(ph)) == |Rewritten(ph, net, kv)|
    ensures Count(PhaseWrites(ph, net, kv), RoomID) == if ph.Channels? then |Resolved(net, kv)| else 0
    ensures ph.Users? ==> Count(PhaseWrites(ph, net, kv), ChannelReverse) == 0
    ensures ph.Channels? ==> Count(PhaseWrites(ph, net, kv), UserReverse) == 0
  {
    hide EntriesWrites, Count, PhaseWrites, Stale;
    var ids := Listed(kv, PhaseKind(ph));
    PhaseWritesAll(ph, net, kv);
    LoopCounts(ph, net, kv, ids, |ids|);
    assert ids[..|ids|] == ids;
    assert (set id | id in ids && id in Rewritten(ph, net, kv)) == Rewritten(ph, net, kv);
    assert (set id | id in ids && ph.Channels? && id in Resolved(net, kv))
        == if ph.Channels? then Resolved(net, kv) else {};
    PurposesOf(ph, net, kv, ids, if ph.Users? then ChannelReverse else UserReverse);
  }

  /** What each loop's writes are for. */
  predicate Serves(ph: Phase, purpose: Purpose) {
    match ph
    case Users => purpose.UserReverse?
    case Channels => purpose.ChannelReverse? || purpose.RoomID?
    case DMs => purpose.Forward? || purpose.DMReverse? || purpose.Cleanup?
    case MatrixDMs => purpose.DMReverse? || purpose.Cleanup?
  }

  lemma {:induction false} PurposesOf(ph: Phase, net: Net, kv: Store, ids: seq<string>, purpose: Purpose)
    requires !Serves(ph, purpose)
    ensures Count(EntriesWrites(ph, net, kv, ids), purpose) == 0
    decreases |ids|
  {
    hide Count, ApplyAll;
    if ids == [] {
      NoneOf([], purpose);
    } else {
      var w := EntryWrites(ph, net, kv, ids[0]);
      PurposesOf(ph, net, ApplyAll(kv, w), ids[1..], purpose);
      CountAppend(w, EntriesWrites(ph, net, ApplyAll(kv, w), ids[1..]), purpose);
      NoneOf(w, purpose);
    }
  }

  // ---------- the whole migration ----------

  lemma {:induction false} Version2Purposes(ph: Phase, net: Net, kv: Store, page: nat, purpose: Purpose)
    requires (ph.DMs? || ph.MatrixDMs?) && !Serves(ph, purpose)
    ensures Count(PagedWrites(ph, net, kv, page), purpose) == 0
    decreases Remaining(kv, PhaseKind(ph), page)
  {
    hide Count, EntriesWrites, ApplyAll, PagedWrites;
    var ids := Page(Listed(kv, PhaseKind(ph)), page, BATCH_SIZE);
    var w := EntriesWrites(ph, net, kv, ids);
    PurposesOf(ph, net, kv, ids, purpose);
    if |ids| == BATCH_SIZE {
      PageProgress(ph, net, kv, page);
      PagedUnfolds(ph, net, kv, page);
      Version2Purposes(ph, net, ApplyAll(kv, w), page + 1, purpose);
      CountAppend(w, PagedWrites(ph, net, ApplyAll(kv, w), page + 1), purpose);
    } else {
      PagedEnds(ph, net, kv, page);
    }
  }

  /** The users' loop leaves what the channels' loop counts. */
  lemma UsersKeepChannels(net: Net, kv: Store)
    ensures Rewritten(Channels, net, AfterPhase(Users, net, kv)) == Rewritten(Channels, net, kv)
    ensures Resolved(net, AfterPhase(Users, net, kv)) == Resolved(net, kv)
  {
    hide AfterPhase, PhaseWrites;
    var x := AfterPhase(Users, net, kv);
    forall k: Key | !k.MattermostUser? ensures Val(x, k) == Val(kv, k) {
      OnlyReverseKeysChange(Users, net, kv, k);
    }
    forall id
      ensures id in Ids(x, ChannelKind) <==> id in Ids(kv, ChannelKind)
      ensures id in Ids(kv, ChannelKind) ==> x[ChannelMapping(id)] == kv[ChannelMapping(id)]
    {
      assert Val(x, ChannelMapping(id)) == Val(kv, ChannelMapping(id));
      assert Build(ChannelKind, id) == ChannelMapping(id);
    }
    assert Ids(x, ChannelKind) == Ids(kv, ChannelKind);
    forall id | id in Ids(kv, ChannelKind)
      ensures Stale(Channels, net, x, Ids(x, ChannelKind), id) <==> Stale(Channels, net, kv, Ids(kv, ChannelKind), id)
    {
      var k := OwnKey(Channels, kv, id);
      assert OwnKey(Channels, x, id) == k && Val(x, k) == Val(kv, k);
      forall o | o in Ids(kv, ChannelKind)
        ensures Claims(Channels, net, x, o, k) <==> Claims(Channels, net, kv, o, k)
      {
        assert ChannelMapping(o) in kv && x[ChannelMapping(o)] == kv[ChannelMapping(o)];
      }
    }
  }

  lemma Version1CountersAre(net: Net, kv: Store)
    ensures Count(Version1Writes(net, kv), UserReverse)
         == if VersionOf(kv) < 1 then |Rewritten(Users, net, kv)| else 0
    ensures Count(Version1Writes(net, kv), ChannelReverse)
         == if VersionOf(kv) < 1 then |Rewritten(Channels, net, kv)| else 0
    ensures Count(Version1Writes(net, kv), RoomID) == if VersionOf(kv) < 1 then |Resolved(net, kv)| else 0
  {
    hide Count, PhaseWrites, AfterPhase, VersionOf, Rewritten, Resolved;
    if VersionOf(kv) < 1 {
      var x := AfterPhase(Users, net, kv);
      PhaseCounts(Users, net, kv);
      PhaseCounts(Channels, net, x);
      UsersKeepChannels(net, kv);
      forall purpose: Purpose {
        CountAppend(PhaseWrites(Users, net, kv), PhaseWrites(Channels, net, x), purpose);
      }
    } else {
      NoneOf([], UserReverse);
      NoneOf([], ChannelReverse);
      NoneOf([], RoomID);
    }
  }

  lemma PlanCounts1(net: Net, kv: Store, purpose: Purpose)
    requires VersionOf(kv) < CURRENT_VERSION && (purpose.UserReverse? || purpose.ChannelReverse? || purpose.RoomID?)
    ensures Count(Plan(net, kv), purpose) == Count(Version1Writes(net, kv), purpose)
  {
    hide VersionOf, Count, Version1Writes, AfterVersion1, AfterPhase, PagedWrites;
    var s := AfterVersion1(net, kv);
    var ws1, ws2 := Version1Writes(net, kv), Version2Writes(net, s);
    Version2Purposes(DMs, net, s, 0, purpose);
    Version2Purposes(MatrixDMs, net, AfterPhase(DMs, net, s), 0, purpose);
    CountAppend(PhaseWrites(DMs, net, s), PhaseWrites(MatrixDMs, net, AfterPhase(DMs, net, s)), purpose);
    CountOf(ws1 + ws2, VERSION_WRITE, purpose);
    CountAppend(ws1, ws2, purpose);
  }

  /**
    The result of a migration in which nothing fails.  Below version 1 the first two counters are the users and the
    channels recorded anew, the third the channels whose alias resolves; at version 1 all three are zero.  The last
    two are the channels and the rooms of legacy entries that get a mapping they did not have.
  */
  lemma CountersAreExact(net: Net, kv: Store)
    requires VersionOf(kv) < CURRENT_VERSION && LegacyDM("") !in AfterVersion1(net, kv)
    ensures var r, s := Counted(Plan(net, kv)), AfterVersion1(net, kv);
            && r.userMappingsCreated == (if VersionOf(kv) < 1 then |Rewritten(Users, net, kv)| else 0)
            && r.channelMappingsCreated == (if VersionOf(kv) < 1 then |Rewritten(Channels, net, kv)| else 0)
            && r.roomMappingsCreated == (if VersionOf(kv) < 1 then |Resolved(net, kv)| else 0)
            && r.dmMappingsCreated == |MappedChannels(s, AfterVersion2(net, s))|
            && r.reverseDMMappingsCreated == |MappedRooms(s, AfterVersion2(net, s))|
  {
    hide Count, Plan, VersionOf, Version1Writes, Rewritten, Resolved, MappedChannels, MappedRooms, AfterVersion1,
         AfterVersion2;
    DMCountersAreExact(net, kv);
    Version1CountersAre(net, kv);
    PlanCounts1(net, kv, UserReverse);
    PlanCounts1(net, kv, ChannelReverse);
    PlanCounts1(net, kv, RoomID);
  }

  /** Nobody else asks for the reverse key of a listed entry. */
  ghost predicate Unshared(ph: Phase, net: Net, kv: Store)
    requires ph.Users? || ph.Channels?
  {
    forall id, o ::
      (id in Ids(kv, PhaseKind(ph)) && o in Ids(kv, PhaseKind(ph)) && Claims(ph, net, kv, o, OwnKey(ph, kv, id)))
      ==> o == id
  }

  lemma CountedIsChanged(ph: Phase, net: Net, kv: Store, id: string)
    requires (ph.Users? || ph.Channels?) && Unshared(ph, net, kv) && Build(PhaseKind(ph), id) in kv
    ensures id in Rewritten(ph, net, kv)
       <==> Val(AfterPhase(ph, net, kv), OwnKey(ph, kv, id)) != Val(kv, OwnKey(ph, kv, id))
  {
    hide AfterPhase, PhaseWrites, Below;
    var k := OwnKey(ph, kv, id);
    assert id in Ids(kv, PhaseKind(ph));
    assert Claims(ph, net, kv, id, k);
    ReverseVal(ph, net, kv, k);
    BelowIrreflexive(id);
    assert id in Listed(kv, PhaseKind(ph));
    var v := Val(AfterPhase(ph, net, kv), k);
    assert v.Some? && v.value in Ids(kv, PhaseKind(ph)) && Claims(ph, net, kv, v.value, k);
  }

  /** Where no two entries ask for one key, the entries counted are those whose reverse key the loop changes. */
  lemma CountedAreChanged(ph: Phase, net: Net, kv: Store)
    requires (ph.Users? || ph.Channels?) && Unshared(ph, net, kv)
    ensures Rewritten(ph, net, kv)
         == set id | id in Ids(kv, PhaseKind(ph))
                     && Val(AfterPhase(ph, net, kv), OwnKey(ph, kv, id)) != Val(kv, OwnKey(ph, kv, id))
  {
    hide AfterPhase, PhaseWrites, Stale;
    forall id | id in Ids(kv, PhaseKind(ph))
      ensures id in Rewritten(ph, net, kv)
         <==> Val(AfterPhase(ph, net, kv), OwnKey(ph, kv, id)) != Val(kv, OwnKey(ph, kv, id))
    {
      CountedIsChanged(ph, net, kv, id);
    }
  }
}
