/** What a completed migration guarantees (server/migrations.go). */
module MigrationResults {
  import opened Prelude
  import opened Keys
  import opened Listing
  import opened MigrationSpec
  import opened MigrationEffects

  // ---------- version 1 repairs the reverse index ----------

  /** Value of `k` after a loop of version 1, by its greatest claimant. */
  lemma ReverseVal(ph: Phase, net: Net, kv: Store, k: Key)
    requires ph.Users? || ph.Channels?
    ensures var ids := Listed(kv, PhaseKind(ph));
            var v := Val(AfterPhase(ph, net, kv), k);
            if exists id :: id in ids && Claims(ph, net, kv, id, k)
            then v.Some? && v.value in ids && Claims(ph, net, kv, v.value, k)
                 && forall id :: id in ids && Claims(ph, net, kv, id, k) ==> id == v.value || Below(id, v.value)
            else v == Val(kv, k)
  {
    PhaseReached(ph, net, kv);
    assert Val(AfterPhase(ph, net, kv), k) == DoneVal(ph, net, kv, Listed(kv, PhaseKind(ph)), k);
    LastClaimIsGreatest(ph, net, kv, Listed(kv, PhaseKind(ph)), k);
  }

  lemma OnlyReverseKeysChange(ph: Phase, net: Net, kv: Store, k: Key)
    requires ph.Users? || ph.Channels?
    requires if ph.Users? then !k.MattermostUser? else !k.RoomMapping?
    ensures Val(AfterPhase(ph, net, kv), k) == Val(kv, k)
  {
    ReverseVal(ph, net, kv, k);
  }

  /**
    After the user loop each mapped Mattermost user names the last Matrix user mapped to it, and that one maps
    back.
  */
  lemma UserRepair(net: Net, kv: Store, id: string)
    requires MatrixUser(id) in kv
    ensures var kv' := AfterPhase(Users, net, kv);
            var reverse := Val(kv', MattermostUser(kv[MatrixUser(id)]));
            && reverse.Some?
            && Val(kv', MatrixUser(reverse.value)) == Val(kv, MatrixUser(id)) == Val(kv', MatrixUser(id))
            && (id == reverse.value || Below(id, reverse.value))
  {
    assert id in Listed(kv, MatrixUserKind) by { assert Build(MatrixUserKind, id) in kv; }
    var k := MattermostUser(kv[MatrixUser(id)]);
    assert Claims(Users, net, kv, id, k);
    ReverseVal(Users, net, kv, k);
    OnlyReverseKeysChange(Users, net, kv, MatrixUser(id));
    OnlyReverseKeysChange(Users, net, kv, MatrixUser(Val(AfterPhase(Users, net, kv), k).value));
  }

  /**
    After the channel loop every room key a channel's mapping names has the last channel naming it, up to alias
    resolution.
  */
  lemma ChannelRepair(net: Net, kv: Store, channel: string, r: string)
    requires ChannelMapping(channel) in kv && Names(net, kv[ChannelMapping(channel)], r)
    ensures var kv' := AfterPhase(Channels, net, kv);
            var reverse := Val(kv', RoomMapping(r));
            && reverse.Some?
            && ChannelMapping(reverse.value) in kv' && Names(net, kv'[ChannelMapping(reverse.value)], r)
            && Val(kv', ChannelMapping(channel)) == Val(kv, ChannelMapping(channel))
            && (channel == reverse.value || Below(channel, reverse.value))
  {
    assert channel in Listed(kv, ChannelKind) by { assert Build(ChannelKind, channel) in kv; }
    var k := RoomMapping(r);
    assert Claims(Channels, net, kv, channel, k);
    ReverseVal(Channels, net, kv, k);
    OnlyReverseKeysChange(Channels, net, kv, ChannelMapping(channel));
    OnlyReverseKeysChange(Channels, net, kv, ChannelMapping(Val(AfterPhase(Channels, net, kv), k).value));
  }

  /** Reverse keys nobody claims, and all keys of other kinds, keep their value. */
  lemma UnclaimedUnchanged(ph: Phase, net: Net, kv: Store, k: Key)
    requires ph.Users? || ph.Channels?
    requires forall id :: Build(PhaseKind(ph), id) in kv ==> !Claims(ph, net, kv, id, k)
    ensures Val(AfterPhase(ph, net, kv), k) == Val(kv, k)
  {
    ReverseVal(ph, net, kv, k);
  }

  /** A loop of version 1 reads only the keys it lists. */
  lemma {:induction false} ClaimsDependOnListed(ph: Phase, net: Net, a: Store, b: Store, ids: seq<string>, k: Key)
    requires forall id :: Val(a, Build(PhaseKind(ph), id)) == Val(b, Build(PhaseKind(ph), id))
    ensures LastClaim(ph, net, a, ids, k) == LastClaim(ph, net, b, ids, k)
  {
    if ids != [] {
      var last := ids[|ids| - 1];
      assert Val(a, Build(PhaseKind(ph), last)) == Val(b, Build(PhaseKind(ph), last));
      ClaimsDependOnListed(ph, net, a, b, ids[..|ids| - 1], k);
    }
  }

  /** If two stores agree except on claimed reverse keys, a version 1 loop leaves the same store. */
  lemma LoopForgets(ph: Phase, net: Net, a: Store, b: Store)
    requires ph.Users? || ph.Channels?
    requires forall id :: Val(a, Build(PhaseKind(ph), id)) == Val(b, Build(PhaseKind(ph), id))
    requires forall k :: Val(a, k) == Val(b, k) || LastClaim(ph, net, a, Listed(a, PhaseKind(ph)), k).Some?
    ensures AfterPhase(ph, net, a) == AfterPhase(ph, net, b)
  {
    var ids := Listed(a, PhaseKind(ph));
    assert Listed(b, PhaseKind(ph)) == ids by {
      forall id ensures Build(PhaseKind(ph), id) in a <==> Build(PhaseKind(ph), id) in b {
        assert Val(a, Build(PhaseKind(ph), id)) == Val(b, Build(PhaseKind(ph), id));
      }
      SameListing(a, b, PhaseKind(ph));
    }
    PhaseReached(ph, net, a);
    PhaseReached(ph, net, b);
    forall k ensures Val(AfterPhase(ph, net, a), k) == Val(AfterPhase(ph, net, b), k) {
      ClaimsDependOnListed(ph, net, a, b, ids, k);
      assert Val(AfterPhase(ph, net, a), k) == DoneVal(ph, net, a, ids, k);
      assert Val(AfterPhase(ph, net, b), k) == DoneVal(ph, net, b, ids, k);
    }
    SameVals(AfterPhase(ph, net, a), AfterPhase(ph, net, b));
  }

  /** Keys a loop of version 1 lists are left alone by both loops. */
  lemma ListedKept(ph: Phase, net: Net, kv: Store)
    requires ph.Users? || ph.Channels?
    ensures forall id :: Val(AfterPhase(ph, net, kv), MatrixUser(id)) == Val(kv, MatrixUser(id))
    ensures forall id :: Val(AfterPhase(ph, net, kv), ChannelMapping(id)) == Val(kv, ChannelMapping(id))
  {
    forall id ensures Val(AfterPhase(ph, net, kv), MatrixUser(id)) == Val(kv, MatrixUser(id)) {
      OnlyReverseKeysChange(ph, net, kv, MatrixUser(id));
    }
    forall id ensures Val(AfterPhase(ph, net, kv), ChannelMapping(id)) == Val(kv, ChannelMapping(id)) {
      OnlyReverseKeysChange(ph, net, kv, ChannelMapping(id));
    }
  }

  /** A second run of either loop changes nothing. */
  lemma LoopIdempotent(ph: Phase, net: Net, kv: Store)
    requires ph.Users? || ph.Channels?
    ensures AfterPhase(ph, net, AfterPhase(ph, net, kv)) == AfterPhase(ph, net, kv)
  {
    var kv' := AfterPhase(ph, net, kv);
    var ids := Listed(kv, PhaseKind(ph));
    ListedKept(ph, net, kv);
    forall k ensures Val(kv', k) == Val(kv, k) || LastClaim(ph, net, kv', Listed(kv', PhaseKind(ph)), k).Some? {
      PhaseReached(ph, net, kv);
      assert Val(kv', k) == DoneVal(ph, net, kv, ids, k);
      SameListingKept(ph, kv', kv);
      ClaimsDependOnListed(ph, net, kv', kv, ids, k);
    }
    LoopForgets(ph, net, kv', kv);
  }

  lemma SameListingKept(ph: Phase, a: Store, b: Store)
    requires forall id :: Val(a, Build(PhaseKind(ph), id)) == Val(b, Build(PhaseKind(ph), id))
    ensures Listed(a, PhaseKind(ph)) == Listed(b, PhaseKind(ph))
  {
    forall id ensures Build(PhaseKind(ph), id) in a <==> Build(PhaseKind(ph), id) in b {
      assert Val(a, Build(PhaseKind(ph), id)) == Val(b, Build(PhaseKind(ph), id));
    }
    SameListing(a, b, PhaseKind(ph));
  }

  // ---------- version 2 loses nothing ----------

  /** The store after both loops of version 2. */
  ghost function AfterVersion2(net: Net, kv: Store): Store {
    AfterPhase(MatrixDMs, net, AfterPhase(DMs, net, kv))
  }

  /** The value of every key after version 2. */
  ghost function MovedVal(net: Net, kv: Store, k: Key): Option<string> {
    match k
    case LegacyDM(_) => None
    case LegacyMatrixDM(_) => None
    case ChannelMapping(ch) => if Blank(Val(kv, k)) && LegacyDM(ch) in kv then Val(kv, LegacyDM(ch)) else Val(kv, k)
    case RoomMapping(r) =>
      if !Blank(Val(kv, k)) then Val(kv, k)
      else if FirstDM(net, kv, r).Some? then FirstDM(net, kv, r)
      else if LegacyMatrixDM(r) in kv then Val(kv, LegacyMatrixDM(r))
      else Val(kv, k)
    case _ => Val(kv, k)
  }

  /** The first listed legacy channel whose room is `r`. */
  ghost function FirstDM(net: Net, kv: Store, r: string): Option<string> {
    FirstClaim(DMs, net, kv, Listed(kv, DMKind), RoomMapping(r))
  }

  /** Both legacy listings fit one page. */
  ghost predicate SmallLegacy(kv: Store) {
    && |Listed(kv, DMKind)| <= BATCH_SIZE
    && |Listed(kv, MatrixDMKind)| <= BATCH_SIZE
    && LegacyDM("") !in kv
  }

  /** The value of every key after the first loop of version 2. */
  ghost function AfterDMsVal(net: Net, kv: Store, k: Key): Option<string> {
    match k
    case LegacyDM(_) => None
    case ChannelMapping(ch) => if Blank(Val(kv, k)) && LegacyDM(ch) in kv then Val(kv, LegacyDM(ch)) else Val(kv, k)
    case RoomMapping(r) => if Blank(Val(kv, k)) && FirstDM(net, kv, r).Some? then FirstDM(net, kv, r) else Val(kv, k)
    case _ => Val(kv, k)
  }

  lemma AfterDMs(net: Net, kv: Store, k: Key)
    requires Fits(DMs, kv)
    ensures Val(AfterPhase(DMs, net, kv), k) == AfterDMsVal(net, kv, k)
  {
    var done := Listed(kv, DMKind);
    assert Val(AfterPhase(DMs, net, kv), k) == DoneVal(DMs, net, kv, done, k) by { PhaseReached(DMs, net, kv); }
    NoDMClaim(net, kv, done, k);
    assert k.LegacyDM? ==> k == Build(DMKind, k.id);
    assert k.ChannelMapping? ==> LegacyDM(k.id) == Build(DMKind, k.id);
  }

  lemma {:induction false} NoDMClaim(net: Net, s: Store, ids: seq<string>, k: Key)
    ensures !k.RoomMapping? ==> FirstClaim(DMs, net, s, ids, k).None?
  {
    if ids != [] {
      NoDMClaim(net, s, ids[..|ids| - 1], k);
    }
  }

  /** The value of every key after the second loop. */
  function AfterMatrixDMsVal(kv: Store, k: Key): Option<string> {
    match k
    case LegacyMatrixDM(_) => None
    case RoomMapping(r) =>
      if Blank(Val(kv, k)) && LegacyMatrixDM(r) in kv then Val(kv, LegacyMatrixDM(r)) else Val(kv, k)
    case _ => Val(kv, k)
  }

  lemma AfterMatrixDMs(net: Net, kv: Store, k: Key)
    requires Fits(MatrixDMs, kv)
    ensures Val(AfterPhase(MatrixDMs, net, kv), k) == AfterMatrixDMsVal(kv, k)
  {
    var done := Listed(kv, MatrixDMKind);
    assert Val(AfterPhase(MatrixDMs, net, kv), k) == DoneVal(MatrixDMs, net, kv, done, k) by {
      PhaseReached(MatrixDMs, net, kv);
    }
    assert k.LegacyMatrixDM? ==> k == Build(MatrixDMKind, k.id);
    assert k.RoomMapping? ==> LegacyMatrixDM(k.id) == Build(MatrixDMKind, k.id);
  }

  lemma MatrixListingKept(net: Net, kv: Store)
    requires Fits(DMs, kv)
    ensures Listed(AfterPhase(DMs, net, kv), MatrixDMKind) == Listed(kv, MatrixDMKind)
  {
    var kv1 := AfterPhase(DMs, net, kv);
    forall id ensures Val(kv1, Build(MatrixDMKind, id)) == Val(kv, Build(MatrixDMKind, id)) {
      AfterDMs(net, kv, LegacyMatrixDM(id));
    }
    SameListingKept(MatrixDMs, kv1, kv);
  }

  lemma Version2Vals(net: Net, kv: Store, k: Key)
    requires SmallLegacy(kv)
    ensures Val(AfterVersion2(net, kv), k) == MovedVal(net, kv, k)
  {
    hide AfterPhase, FirstDM;
    var kv1 := AfterPhase(DMs, net, kv);
    MatrixListingKept(net, kv);
    AfterMatrixDMs(net, kv1, k);
    AfterDMs(net, kv, k);
    if k.RoomMapping? {
      AfterDMs(net, kv, LegacyMatrixDM(k.id));
      FirstDMNotBlank(net, kv, k.id);
    }
  }

  lemma FirstDMNotBlank(net: Net, kv: Store, r: string)
    requires LegacyDM("") !in kv
    ensures FirstDM(net, kv, r).Some? ==> !Blank(FirstDM(net, kv, r))
  {
    FirstClaimIn(DMs, net, kv, Listed(kv, DMKind), RoomMapping(r));
    assert LegacyDM("") == Build(DMKind, "");
  }

  /** DM migration loses nothing: legacy keys go, and every legacy channel and room has its unified mapping. */
  lemma VersionTwoLosesNothing(net: Net, kv: Store, ch: string, r: string)
    requires SmallLegacy(kv)
    ensures var kv' := AfterVersion2(net, kv);
            && LegacyDM(ch) !in kv' && LegacyMatrixDM(r) !in kv'
            && (LegacyDM(ch) in kv ==>
                  && Val(kv', ChannelMapping(ch))
                     == (if Val(kv, ChannelMapping(ch)) in {None, Some("")} then Val(kv, LegacyDM(ch))
                         else Val(kv, ChannelMapping(ch)))
                  && !Blank(Val(kv', RoomMapping(kv[LegacyDM(ch)]))))
            && (LegacyMatrixDM(r) in kv ==> RoomMapping(r) in kv')
            && (Val(kv, RoomMapping(r)) !in {None, Some("")} ==> Val(kv', RoomMapping(r)) == Val(kv, RoomMapping(r)))
  {
    Version2Vals(net, kv, LegacyDM(ch));
    Version2Vals(net, kv, LegacyMatrixDM(r));
    Version2Vals(net, kv, ChannelMapping(ch));
    Version2Vals(net, kv, RoomMapping(r));
    if LegacyDM(ch) in kv {
      Version2Vals(net, kv, RoomMapping(kv[LegacyDM(ch)]));
      DMRoomMapped(net, kv, ch);
    }
  }

  lemma DMRoomMapped(net: Net, kv: Store, ch: string)
    requires SmallLegacy(kv) && LegacyDM(ch) in kv
    ensures !Blank(MovedVal(net, kv, RoomMapping(kv[LegacyDM(ch)])))
    ensures !Blank(AfterDMsVal(net, kv, RoomMapping(kv[LegacyDM(ch)])))
  {
    var k := RoomMapping(kv[LegacyDM(ch)]);
    FirstClaimIsLeast(DMs, net, kv, Listed(kv, DMKind), k);
    FirstDMNotBlank(net, kv, k.id);
    assert Build(DMKind, ch) in kv;
    assert ch in Listed(kv, DMKind) && Claims(DMs, net, kv, ch, k);
  }

  // ---------- what paging leaves behind ----------

  lemma EntryRemoves(ph: Phase, net: Net, kv: Store, id: string)
    requires ph.DMs? || ph.MatrixDMs?
    ensures Ids(ApplyAll(kv, EntryWrites(ph, net, kv, id)), PhaseKind(ph)) == Ids(kv, PhaseKind(ph)) - {id}
  {
    var kv' := ApplyAll(kv, EntryWrites(ph, net, kv, id));
    if Build(PhaseKind(ph), id) in kv {
      if ph.DMs? { DMEntryVals(net, kv, id); } else { MatrixDMEntryVals(net, kv, id); }
      forall x ensures Build(PhaseKind(ph), x) in kv' <==> Build(PhaseKind(ph), x) in kv && x != id {
        assert Val(kv', Build(PhaseKind(ph), x)) == if x == id then None else Val(kv, Build(PhaseKind(ph), x));
      }
    }
  }

  lemma {:induction false} EntriesRemove(ph: Phase, net: Net, kv: Store, ids: seq<string>)
    requires ph.DMs? || ph.MatrixDMs?
    ensures Ids(ApplyAll(kv, EntriesWrites(ph, net, kv, ids)), PhaseKind(ph))
         == Ids(kv, PhaseKind(ph)) - set x | x in ids
    decreases |ids|
  {
    if ids != [] {
      var w := EntryWrites(ph, net, kv, ids[0]);
      EntryRemoves(ph, net, kv, ids[0]);
      EntriesRemove(ph, net, ApplyAll(kv, w), ids[1..]);
      ApplyAppend(kv, w, EntriesWrites(ph, net, ApplyAll(kv, w), ids[1..]));
    }
  }

  /** From the second page on, the first listed key is never reached. */
  lemma {:induction false} LaterPagesLeave(ph: Phase, net: Net, kv: Store, page: nat)
    requires (ph.DMs? || ph.MatrixDMs?) && page >= 1
    ensures Ids(kv, PhaseKind(ph)) != {} ==> Ids(ApplyAll(kv, PagedWrites(ph, net, kv, page)), PhaseKind(ph)) != {}
    decreases Remaining(kv, PhaseKind(ph), page)
  {
    if Ids(kv, PhaseKind(ph)) != {} {
      var all := Listed(kv, PhaseKind(ph));
      var ids := Page(all, page, BATCH_SIZE);
      var w := EntriesWrites(ph, net, kv, ids);
      var kv1 := ApplyAll(kv, w);
      assert Ids(kv1, PhaseKind(ph)) != {} by {
        PageSkipsFirst(all, page);
        EntriesRemove(ph, net, kv, ids);
        assert all[0] in all;
        assert all[0] in Ids(kv1, PhaseKind(ph));
      }
      if |ids| == BATCH_SIZE {
        PageProgress(ph, net, kv, page);
        LaterPagesLeave(ph, net, kv1, page + 1);
        assert PagedWrites(ph, net, kv, page) == w + PagedWrites(ph, net, kv1, page + 1) by {
          PagedUnfolds(ph, net, kv, page);
        }
        ApplyAppend(kv, w, PagedWrites(ph, net, kv1, page + 1));
      } else {
        PagedEnds(ph, net, kv, page);
      }
    }
  }

  // ---------- loops of any size ----------

  lemma PageIsPending(ph: Phase, kv: Store, page: nat)
    requires ph.DMs? ==> LegacyDM("") !in kv
    ensures Pending(ph, kv, [], Page(Listed(kv, PhaseKind(ph)), page, BATCH_SIZE))
  {
    var all := Listed(kv, PhaseKind(ph));
    var ids := Page(all, page, BATCH_SIZE);
    forall i, j | 0 <= i < j < |ids| ensures ids[i] != ids[j] {
      IncreasingDistinct(all, page * BATCH_SIZE + i, page * BATCH_SIZE + j);
    }
    assert ph.DMs? ==> Build(PhaseKind(ph), "") == LegacyDM("");
  }

  /** Keys visited later are others than those of the pages before. */
  lemma PendingTogether(ph: Phase, kv: Store, kv1: Store, ids: seq<string>, more: seq<string>)
    requires Pending(ph, kv, [], ids) && Pending(ph, kv1, [], more)
    requires Ids(kv1, PhaseKind(ph)) == Ids(kv, PhaseKind(ph)) - set x | x in ids
    ensures Pending(ph, kv, [], ids + more)
  {
    assert forall x :: x in more ==> x in Ids(kv1, PhaseKind(ph));
    forall i, j | 0 <= i < j < |ids + more| ensures (ids + more)[i] != (ids + more)[j] {
      if i < |ids| <= j {
        assert ids[i] in ids && more[j - |ids|] in more;
      }
    }
  }

  lemma {:induction false} PagedVisits(ph: Phase, net: Net, kv: Store, page: nat) returns (done: seq<string>)
    requires (ph.DMs? || ph.MatrixDMs?) && (ph.DMs? ==> LegacyDM("") !in kv)
    ensures PagedWrites(ph, net, kv, page) == EntriesWrites(ph, net, kv, done) && Pending(ph, kv, [], done)
    decreases Remaining(kv, PhaseKind(ph), page)
  {
    hide EntriesWrites, ApplyAll, PagedWrites, Pending, Page;
    var ids := Page(Listed(kv, PhaseKind(ph)), page, BATCH_SIZE);
    var w := EntriesWrites(ph, net, kv, ids);
    PageIsPending(ph, kv, page);
    if |ids| == BATCH_SIZE {
      var kv1 := ApplyAll(kv, w);
      PageProgress(ph, net, kv, page);
      EntriesRemove(ph, net, kv, ids);
      assert ph.DMs? ==> "" !in Ids(kv, DMKind) && "" !in Ids(kv1, DMKind);
      var more := PagedVisits(ph, net, kv1, page + 1);
      PagedUnfolds(ph, net, kv, page);
      EntriesAppend(ph, net, kv, ids, more);
      PendingTogether(ph, kv, kv1, ids, more);
      done := ids + more;
    } else {
      PagedEnds(ph, net, kv, page);
      done := ids;
    }
  }

  /**
    Whatever its size, a loop makes the writes of some keys it lists, each once, and the value of every key after it
    is given by these.  A legacy loop's are the keys it removes; all that are listed, when they fit a page, and in
    the loops of version 1 always.
  */
  lemma AnyPhaseReached(ph: Phase, net: Net, kv: Store) returns (done: seq<string>)
    requires ph.DMs? ==> LegacyDM("") !in kv
    ensures PhaseWrites(ph, net, kv) == EntriesWrites(ph, net, kv, done) && Pending(ph, kv, [], done)
    ensures Reached(ph, net, kv, done, AfterPhase(ph, net, kv))
    ensures ph.DMs? || ph.MatrixDMs? ==>
              forall id :: id in done <==> id in Ids(kv, PhaseKind(ph)) - Ids(AfterPhase(ph, net, kv), PhaseKind(ph))
    ensures Fits(ph, kv) ==> forall id :: id in done <==> id in Listed(kv, PhaseKind(ph))
  {
    hide EntriesWrites, ApplyAll, PagedWrites;
    if ph.Users? || ph.Channels? {
      done := Listed(kv, PhaseKind(ph));
      PhaseWritesAll(ph, net, kv);
      ListedIsPending(ph, kv);
    } else {
      done := PagedVisits(ph, net, kv, 0);
      EntriesRemove(ph, net, kv, done);
      if Fits(ph, kv) { LegacyClearedIff(ph, net, kv); }
    }
    NothingDone(ph, net, kv);
    EntriesReached(ph, net, kv, [], kv, done);
    assert [] + done == done;
  }

  lemma PageSkipsFirst(all: seq<string>, page: nat)
    requires Increasing(all) && all != [] && page >= 1
    ensures all[0] !in Page(all, page, BATCH_SIZE)
  {
    forall i | 0 <= i < |Page(all, page, BATCH_SIZE)| ensures Page(all, page, BATCH_SIZE)[i] != all[0] {
      IncreasingDistinct(all, 0, page * BATCH_SIZE + i);
    }
  }

  lemma FirstPageClears(ph: Phase, net: Net, kv: Store)
    requires (ph.DMs? || ph.MatrixDMs?) && |Listed(kv, PhaseKind(ph))| <= BATCH_SIZE
    ensures Ids(AfterPhase(ph, net, kv), PhaseKind(ph)) == {}
  {
    var all := Listed(kv, PhaseKind(ph));
    OnePageIsAll(ph, net, kv);
    EntriesRemove(ph, net, kv, all);
    assert forall x :: x in Ids(kv, PhaseKind(ph)) ==> x in all;
  }

  lemma FirstPageLeaves(ph: Phase, net: Net, kv: Store)
    requires (ph.DMs? || ph.MatrixDMs?) && |Listed(kv, PhaseKind(ph))| > BATCH_SIZE
    ensures Ids(AfterPhase(ph, net, kv), PhaseKind(ph)) != {}
  {
    var all := Listed(kv, PhaseKind(ph));
    var ids := Page(all, 0, BATCH_SIZE);
    assert ids == all[..BATCH_SIZE];
    var w := EntriesWrites(ph, net, kv, ids);
    var kv1 := ApplyAll(kv, w);
    FirstPageKeepsNext(ph, net, kv);
    LaterPagesLeave(ph, net, kv1, 1);
    assert PagedWrites(ph, net, kv, 0) == w + PagedWrites(ph, net, kv1, 1) by { PagedUnfolds(ph, net, kv, 0); }
    ApplyAppend(kv, w, PagedWrites(ph, net, kv1, 1));
  }

  lemma FirstPageKeepsNext(ph: Phase, net: Net, kv: Store)
    requires (ph.DMs? || ph.MatrixDMs?) && |Listed(kv, PhaseKind(ph))| > BATCH_SIZE
    ensures var all := Listed(kv, PhaseKind(ph));
            all[BATCH_SIZE] in Ids(ApplyAll(kv, EntriesWrites(ph, net, kv, all[..BATCH_SIZE])), PhaseKind(ph))
  {
    var all := Listed(kv, PhaseKind(ph));
    var ids := all[..BATCH_SIZE];
    EntriesRemove(ph, net, kv, ids);
    assert all[BATCH_SIZE] in all;
    forall i | 0 <= i < |ids| ensures ids[i] != all[BATCH_SIZE] { IncreasingDistinct(all, i, BATCH_SIZE); }
  }

  /**
    The loops of version 2 delete what they list while counting pages, so they clear a legacy prefix
    exactly when it holds at most one page of keys.
  */
  lemma LegacyClearedIff(ph: Phase, net: Net, kv: Store)
    requires ph.DMs? || ph.MatrixDMs?
    ensures (forall id :: Build(PhaseKind(ph), id) !in AfterPhase(ph, net, kv))
       <==> |Listed(kv, PhaseKind(ph))| <= 1000
  {
    var end := AfterPhase(ph, net, kv);
    assert (forall id :: Build(PhaseKind(ph), id) !in end) <==> Ids(end, PhaseKind(ph)) == {};
    if |Listed(kv, PhaseKind(ph))| <= BATCH_SIZE {
      FirstPageClears(ph, net, kv);
    } else {
      FirstPageLeaves(ph, net, kv);
    }
  }
}
