/**
  What the migration loops achieve: the value of every key after any number of entries, and from
  it the repair of the reverse index and the lossless move of the legacy DM mappings.
*/
module MigrationEffects {
  import opened Prelude
  import opened Keys
  import opened Listing
  import opened MigrationSpec

  /** The forward mapping value `room` names the room key `r`: it is `r`, or an alias resolving to `r`. */
  predicate Names(net: Net, room: string, r: string) {
    room == r || ("#" <= room && net(room) == Some(r))
  }

  /** Entry `id` of the loop's listing asks for reverse key `k`. */
  predicate Claims(ph: Phase, net: Net, s: Store, id: string, k: Key) {
    match ph
    case Users => k.MattermostUser? && Val(s, MatrixUser(id)) == Some(k.id)
    case Channels => k.RoomMapping? && ChannelMapping(id) in s && Names(net, s[ChannelMapping(id)], k.id)
    case DMs => k.RoomMapping? && Val(s, LegacyDM(id)) == Some(k.id)
    case MatrixDMs => k.RoomMapping? && k.id == id && LegacyMatrixDM(id) in s
  }

  function LastClaim(ph: Phase, net: Net, s: Store, ids: seq<string>, k: Key): Option<string> {
    if ids == [] then None
    else if Claims(ph, net, s, ids[|ids| - 1], k) then Some(ids[|ids| - 1])
    else LastClaim(ph, net, s, ids[..|ids| - 1], k)
  }

  function FirstClaim(ph: Phase, net: Net, s: Store, ids: seq<string>, k: Key): Option<string> {
    if ids == [] then None
    else
      var f := FirstClaim(ph, net, s, ids[..|ids| - 1], k);
      if f.Some? then f
      else if Claims(ph, net, s, ids[|ids| - 1], k) then Some(ids[|ids| - 1])
      else None
  }

  /** The value of `k` once the entries `done` of store `s` have been processed. */
  function DoneVal(ph: Phase, net: Net, s: Store, done: seq<string>, k: Key): Option<string> {
    match ph
    case Users => if LastClaim(ph, net, s, done, k).Some? then LastClaim(ph, net, s, done, k) else Val(s, k)
    case Channels => if LastClaim(ph, net, s, done, k).Some? then LastClaim(ph, net, s, done, k) else Val(s, k)
    case DMs =>
      if k.LegacyDM? && k.id in done then None
      else if k.ChannelMapping? && k.id in done && Blank(Val(s, k)) && LegacyDM(k.id) in s then Val(s, LegacyDM(k.id))
      else if Blank(Val(s, k)) && FirstClaim(ph, net, s, done, k).Some? then FirstClaim(ph, net, s, done, k)
      else Val(s, k)
    case MatrixDMs =>
      if k.LegacyMatrixDM? && k.id in done then None
      else if k.RoomMapping? && k.id in done && Blank(Val(s, k)) && LegacyMatrixDM(k.id) in s
        then Val(s, LegacyMatrixDM(k.id))
      else Val(s, k)
  }

  ghost predicate Reached(ph: Phase, net: Net, s: Store, done: seq<string>, kv: Store) {
    forall k :: Val(kv, k) == DoneVal(ph, net, s, done, k)
  }

  // ---------- claims ----------

  lemma LastClaimAppend(ph: Phase, net: Net, s: Store, ids: seq<string>, id: string, k: Key)
    ensures LastClaim(ph, net, s, ids + [id], k)
         == if Claims(ph, net, s, id, k) then Some(id) else LastClaim(ph, net, s, ids, k)
  {
    assert (ids + [id])[..|ids|] == ids;
  }

  lemma FirstClaimAppend(ph: Phase, net: Net, s: Store, ids: seq<string>, id: string, k: Key)
    ensures FirstClaim(ph, net, s, ids + [id], k)
         == if FirstClaim(ph, net, s, ids, k).Some? then FirstClaim(ph, net, s, ids, k)
            else if Claims(ph, net, s, id, k) then Some(id) else None
  {
    assert (ids + [id])[..|ids|] == ids;
  }

  /** In an increasing listing the last claimant is the greatest one. */
  lemma {:induction false} LastClaimIsGreatest(ph: Phase, net: Net, s: Store, ids: seq<string>, k: Key)
    requires Increasing(ids)
    ensures match LastClaim(ph, net, s, ids, k)
            case None => forall x :: x in ids ==> !Claims(ph, net, s, x, k)
            case Some(g) => g in ids && Claims(ph, net, s, g, k)
                            && forall x :: x in ids && Claims(ph, net, s, x, k) ==> x == g || Below(x, g)
  {
    hide Claims;
    if ids != [] {
      var init, last := ids[..|ids| - 1], ids[|ids| - 1];
      assert ids == init + [last];
      if Claims(ph, net, s, last, k) {
        forall x | x in ids && x != last ensures Below(x, last) {
          var i :| 0 <= i < |ids| && ids[i] == x;
        }
      } else {
        LastClaimIsGreatest(ph, net, s, init, k);
      }
    }
  }

  /** In an increasing listing the first claimant is the least one. */
  lemma {:induction false} FirstClaimIsLeast(ph: Phase, net: Net, s: Store, ids: seq<string>, k: Key)
    requires Increasing(ids)
    ensures match FirstClaim(ph, net, s, ids, k)
            case None => forall x :: x in ids ==> !Claims(ph, net, s, x, k)
            case Some(f) => f in ids && Claims(ph, net, s, f, k)
                            && forall x :: x in ids && Claims(ph, net, s, x, k) ==> x == f || Below(f, x)
  {
    hide Claims, Below;
    if ids != [] {
      var init, last := ids[..|ids| - 1], ids[|ids| - 1];
      assert ids == init + [last];
      FirstClaimIsLeast(ph, net, s, init, k);
      forall x | x in init ensures Below(x, last) {
        var i :| 0 <= i < |init| && init[i] == x;
        assert ids[i] == x;
      }
    }
  }

  // ---------- one entry ----------

  lemma Apply0(kv: Store)
    ensures ApplyAll(kv, []) == kv
  {
  }

  lemma Apply1(kv: Store, a: Write)
    ensures ApplyAll(kv, [a]) == Apply(kv, a)
  {
    Apply0(Apply(kv, a));
    assert [a][1..] == [];
  }

  lemma Apply2(kv: Store, a: Write, b: Write)
    ensures ApplyAll(kv, [a, b]) == Apply(Apply(kv, a), b)
  {
    Apply1(Apply(kv, a), b);
    assert [a, b][1..] == [b];
  }

  lemma Apply3(kv: Store, a: Write, b: Write, c: Write)
    ensures ApplyAll(kv, [a, b, c]) == Apply(Apply(Apply(kv, a), b), c)
  {
    Apply2(Apply(kv, a), b, c);
    assert [a, b, c][1..] == [b, c];
  }

  lemma UserEntry(net: Net, s: Store, done: seq<string>, kv: Store, id: string)
    requires Reached(Users, net, s, done, kv) && MatrixUser(id) in s
    ensures Reached(Users, net, s, done + [id], ApplyAll(kv, EntryWrites(Users, net, kv, id)))
  {
    var value := s[MatrixUser(id)];
    assert Val(kv, MatrixUser(id)) == DoneVal(Users, net, s, done, MatrixUser(id)) == Some(value) by {
      LastClaimOther(Users, net, s, done, MatrixUser(id));
    }
    var kv' := ApplyAll(kv, EntryWrites(Users, net, kv, id));
    UserEntryVals(net, kv, id);
    forall k ensures Val(kv', k) == DoneVal(Users, net, s, done + [id], k) {
      LastClaimAppend(Users, net, s, done, id, k);
    }
  }

  lemma UserEntryVals(net: Net, kv: Store, id: string)
    requires MatrixUser(id) in kv
    ensures forall k :: Val(ApplyAll(kv, EntryWrites(Users, net, kv, id)), k)
                     == if Claims(Users, net, kv, id, k) then Some(id) else Val(kv, k)
  {
    var a := Put(UserReverse, MattermostUser(kv[MatrixUser(id)]), id);
    Apply0(kv);
    Apply1(kv, a);
  }

  /** Only reverse keys are claimed. */
  lemma {:induction false} LastClaimOther(ph: Phase, net: Net, s: Store, ids: seq<string>, k: Key)
    requires !k.MattermostUser? && !k.RoomMapping?
    ensures LastClaim(ph, net, s, ids, k).None? && FirstClaim(ph, net, s, ids, k).None?
  {
    if ids != [] {
      LastClaimOther(ph, net, s, ids[..|ids| - 1], k);
    }
  }

  lemma ChannelEntry(net: Net, s: Store, done: seq<string>, kv: Store, id: string)
    requires Reached(Channels, net, s, done, kv) && ChannelMapping(id) in s
    ensures Reached(Channels, net, s, done + [id], ApplyAll(kv, EntryWrites(Channels, net, kv, id)))
  {
    var value := s[ChannelMapping(id)];
    assert Val(kv, ChannelMapping(id)) == DoneVal(Channels, net, s, done, ChannelMapping(id)) == Some(value) by {
      LastClaimOther(Channels, net, s, done, ChannelMapping(id));
    }
    var kv' := ApplyAll(kv, EntryWrites(Channels, net, kv, id));
    ChannelEntryVals(net, kv, id);
    forall k ensures Val(kv', k) == DoneVal(Channels, net, s, done + [id], k) {
      LastClaimAppend(Channels, net, s, done, id, k);
    }
  }

  lemma ChannelEntryVals(net: Net, kv: Store, id: string)
    requires ChannelMapping(id) in kv
    ensures forall k :: Val(ApplyAll(kv, EntryWrites(Channels, net, kv, id)), k)
                     == if Claims(Channels, net, kv, id, k) then Some(id) else Val(kv, k)
  {
    var value := kv[ChannelMapping(id)];
    var a := Put(ChannelReverse, RoomMapping(value), id);
    var alias := IsAlias(value) && net(value).Some?;
    var b := Put(RoomID, RoomMapping(if alias then net(value).value else value), id);
    Apply0(kv);
    Apply1(kv, a);
    Apply1(kv, b);
    Apply2(kv, a, b);
    assert EntryWrites(Channels, net, kv, id)
        == if Val(kv, RoomMapping(value)) == Some(id) then (if alias then [b] else [])
           else (if alias then [a, b] else [a]);
  }

  /** A DM entry writes its forward mapping unless there is one, its reverse mapping unless there is one, and goes. */
  lemma DMEntryVals(net: Net, kv: Store, id: string)
    requires LegacyDM(id) in kv
    ensures var room := kv[LegacyDM(id)];
            forall k :: Val(ApplyAll(kv, EntryWrites(DMs, net, kv, id)), k)
                     == if k == LegacyDM(id) then None
                        else if k == ChannelMapping(id) && Blank(Val(kv, k)) then Some(room)
                        else if k == RoomMapping(room) && Blank(Val(kv, k)) then Some(id)
                        else Val(kv, k)
  {
    var room := kv[LegacyDM(id)];
    var a := Put(Forward, ChannelMapping(id), room);
    var b := Put(DMReverse, RoomMapping(room), id);
    var c := Del(Cleanup, LegacyDM(id));
    Apply1(kv, c);
    Apply2(kv, a, c);
    Apply2(kv, b, c);
    Apply3(kv, a, b, c);
    var f, r := Blank(Val(kv, ChannelMapping(id))), Blank(Val(kv, RoomMapping(room)));
    assert EntryWrites(DMs, net, kv, id)
        == if f then (if r then [a, b, c] else [a, c]) else (if r then [b, c] else [c]);
  }

  lemma DMEntry(net: Net, s: Store, done: seq<string>, kv: Store, id: string)
    requires Reached(DMs, net, s, done, kv) && LegacyDM(id) in s && id !in done
    requires forall x :: x in done ==> x != ""
    ensures Reached(DMs, net, s, done + [id], ApplyAll(kv, EntryWrites(DMs, net, kv, id)))
  {
    LastClaimOther(DMs, net, s, done, LegacyDM(id));
    assert Val(kv, LegacyDM(id)) == Val(s, LegacyDM(id));
    DMEntryVals(net, kv, id);
    var kv' := ApplyAll(kv, EntryWrites(DMs, net, kv, id));
    forall k ensures Val(kv', k) == DoneVal(DMs, net, s, done + [id], k) {
      FirstClaimAppend(DMs, net, s, done, id, k);
      FirstClaimIn(DMs, net, s, done, k);
      if k.ChannelMapping? || k.LegacyDM? { LastClaimOther(DMs, net, s, done, k); }
      assert Val(kv, k) == DoneVal(DMs, net, s, done, k);
    }
  }

  lemma {:induction false} FirstClaimIn(ph: Phase, net: Net, s: Store, ids: seq<string>, k: Key)
    ensures FirstClaim(ph, net, s, ids, k).Some? ==>
              FirstClaim(ph, net, s, ids, k).value in ids && Claims(ph, net, s, FirstClaim(ph, net, s, ids, k).value, k)
  {
    if ids != [] {
      FirstClaimIn(ph, net, s, ids[..|ids| - 1], k);
    }
  }

  lemma MatrixDMEntryVals(net: Net, kv: Store, id: string)
    requires LegacyMatrixDM(id) in kv
    ensures forall k :: Val(ApplyAll(kv, EntryWrites(MatrixDMs, net, kv, id)), k)
                     == if k == LegacyMatrixDM(id) then None
                        else if k == RoomMapping(id) && Blank(Val(kv, k)) then Val(kv, LegacyMatrixDM(id))
                        else Val(kv, k)
  {
    var b := Put(DMReverse, RoomMapping(id), kv[LegacyMatrixDM(id)]);
    var c := Del(Cleanup, LegacyMatrixDM(id));
    Apply1(kv, c);
    Apply2(kv, b, c);
    assert EntryWrites(MatrixDMs, net, kv, id) == if Blank(Val(kv, RoomMapping(id))) then [b, c] else [c];
  }

  lemma MatrixDMEntry(net: Net, s: Store, done: seq<string>, kv: Store, id: string)
    requires Reached(MatrixDMs, net, s, done, kv) && LegacyMatrixDM(id) in s && id !in done
    ensures Reached(MatrixDMs, net, s, done + [id], ApplyAll(kv, EntryWrites(MatrixDMs, net, kv, id)))
  {
    assert Val(kv, LegacyMatrixDM(id)) == Val(s, LegacyMatrixDM(id));
    MatrixDMEntryVals(net, kv, id);
  }

  // ---------- a whole loop ----------

  /** The entries a loop can be asked to process, none of them done. */
  ghost predicate Pending(ph: Phase, s: Store, done: seq<string>, ids: seq<string>) {
    && (forall x :: x in ids ==> Build(PhaseKind(ph), x) in s && x !in done)
    && (forall i, j :: 0 <= i < j < |ids| ==> ids[i] != ids[j])
    && (ph.DMs? ==> forall x :: x in done || x in ids ==> x != "")
  }

  lemma EntryReached(ph: Phase, net: Net, s: Store, done: seq<string>, kv: Store, id: string)
    requires Reached(ph, net, s, done, kv) && Pending(ph, s, done, [id])
    ensures Reached(ph, net, s, done + [id], ApplyAll(kv, EntryWrites(ph, net, kv, id)))
  {
    assert id in [id];
    match ph
    case Users => UserEntry(net, s, done, kv, id);
    case Channels => ChannelEntry(net, s, done, kv, id);
    case DMs => DMEntry(net, s, done, kv, id);
    case MatrixDMs => MatrixDMEntry(net, s, done, kv, id);
  }

  lemma PendingSplits(ph: Phase, s: Store, done: seq<string>, ids: seq<string>)
    requires Pending(ph, s, done, ids) && ids != []
    ensures Pending(ph, s, done, [ids[0]]) && Pending(ph, s, done + [ids[0]], ids[1..])
  {
    assert forall x :: x in [ids[0]] ==> x in ids;
    assert forall x :: x in done + [ids[0]] ==> x in done || x in ids;
    forall x | x in ids[1..] ensures x in ids && x !in done + [ids[0]] {
      var i :| 0 <= i < |ids[1..]| && ids[1..][i] == x;
      assert ids[i + 1] == x && ids[0] != ids[i + 1];
    }
  }

  lemma {:induction false} EntriesReached(ph: Phase, net: Net, s: Store, done: seq<string>, kv: Store, ids: seq<string>)
    requires Reached(ph, net, s, done, kv) && Pending(ph, s, done, ids)
    ensures Reached(ph, net, s, done + ids, ApplyAll(kv, EntriesWrites(ph, net, kv, ids)))
    decreases |ids|
  {
    if ids == [] {
      assert done + ids == done;
    } else {
      var w, rest := EntryWrites(ph, net, kv, ids[0]), ids[1..];
      PendingSplits(ph, s, done, ids);
      EntryReached(ph, net, s, done, kv, ids[0]);
      EntriesReached(ph, net, s, done + [ids[0]], ApplyAll(kv, w), rest);
      ApplyAppend(kv, w, EntriesWrites(ph, net, ApplyAll(kv, w), rest));
      assert done + [ids[0]] + rest == done + ids;
    }
  }

  lemma NothingDone(ph: Phase, net: Net, s: Store)
    ensures Reached(ph, net, s, [], s)
  {
  }

  function From(ids: seq<string>, page: nat): seq<string> {
    if page * BATCH_SIZE <= |ids| then ids[page * BATCH_SIZE..] else []
  }

  lemma PageSplits(ids: seq<string>, page: nat)
    ensures var p := Page(ids, page, BATCH_SIZE);
            if |p| == BATCH_SIZE then From(ids, page) == p + From(ids, page + 1) else From(ids, page) == p
  {
  }

  /** The loops of version 1 write no key they list, so the pages together are the whole listing. */
  lemma {:induction false} PagedIsAll(ph: Phase, net: Net, kv: Store, page: nat)
    requires ph.Users? || ph.Channels?
    ensures PagedWrites(ph, net, kv, page) == EntriesWrites(ph, net, kv, From(Listed(kv, PhaseKind(ph)), page))
    decreases Remaining(kv, PhaseKind(ph), page)
  {
    var ids := Listed(kv, PhaseKind(ph));
    var p := Page(ids, page, BATCH_SIZE);
    if |p| == BATCH_SIZE {
      var w := EntriesWrites(ph, net, kv, p);
      var kv1 := ApplyAll(kv, w);
      PageProgress(ph, net, kv, page);
      PagedIsAll(ph, net, kv1, page + 1);
      calc {
        PagedWrites(ph, net, kv, page);
        { PagedUnfolds(ph, net, kv, page); }
        w + PagedWrites(ph, net, kv1, page + 1);
        w + EntriesWrites(ph, net, kv1, From(Listed(kv1, PhaseKind(ph)), page + 1));
        { EntriesKeepListing(ph, net, kv, p); }
        w + EntriesWrites(ph, net, kv1, From(ids, page + 1));
        { EntriesAppend(ph, net, kv, p, From(ids, page + 1)); }
        EntriesWrites(ph, net, kv, p + From(ids, page + 1));
        { PageSplits(ids, page); }
        EntriesWrites(ph, net, kv, From(ids, page));
      }
    } else {
      PagedEnds(ph, net, kv, page);
      PageSplits(ids, page);
    }
  }

  lemma EntriesKeepListing(ph: Phase, net: Net, kv: Store, ids: seq<string>)
    requires ph.Users? || ph.Channels?
    ensures Listed(ApplyAll(kv, EntriesWrites(ph, net, kv, ids)), PhaseKind(ph)) == Listed(kv, PhaseKind(ph))
  {
    var kv' := ApplyAll(kv, EntriesWrites(ph, net, kv, ids));
    EntriesAddNoIds(ph, net, kv, ids);
    forall id ensures Build(PhaseKind(ph), id) in kv' <==> Build(PhaseKind(ph), id) in kv {
      assert id in Ids(kv', PhaseKind(ph)) <==> id in Ids(kv, PhaseKind(ph));
    }
    SameListing(kv', kv, PhaseKind(ph));
  }

  lemma PagedEnds(ph: Phase, net: Net, kv: Store, page: nat)
    requires |Page(Listed(kv, PhaseKind(ph)), page, BATCH_SIZE)| < BATCH_SIZE
    ensures PagedWrites(ph, net, kv, page)
         == EntriesWrites(ph, net, kv, Page(Listed(kv, PhaseKind(ph)), page, BATCH_SIZE))
  {
  }

  lemma PagedUnfolds(ph: Phase, net: Net, kv: Store, page: nat)
    requires |Page(Listed(kv, PhaseKind(ph)), page, BATCH_SIZE)| == BATCH_SIZE
    ensures var w := EntriesWrites(ph, net, kv, Page(Listed(kv, PhaseKind(ph)), page, BATCH_SIZE));
            PagedWrites(ph, net, kv, page) == w + PagedWrites(ph, net, ApplyAll(kv, w), page + 1)
  {
    assert Page(Listed(kv, PhaseKind(ph)), page, BATCH_SIZE) != [];
  }

  /** The loops of version 2 see their whole listing on the first page when it has at most 1000 keys. */
  lemma OnePageIsAll(ph: Phase, net: Net, kv: Store)
    requires ph.DMs? || ph.MatrixDMs?
    requires |Listed(kv, PhaseKind(ph))| <= BATCH_SIZE
    ensures PhaseWrites(ph, net, kv) == EntriesWrites(ph, net, kv, Listed(kv, PhaseKind(ph)))
  {
    var ids := Listed(kv, PhaseKind(ph));
    assert Page(ids, 0, BATCH_SIZE) == ids;
    if |ids| == BATCH_SIZE {
      var w := EntriesWrites(ph, net, kv, ids);
      var kv1 := ApplyAll(kv, w);
      PagedUnfolds(ph, net, kv, 0);
      assert |Listed(kv1, PhaseKind(ph))| <= BATCH_SIZE by {
        EntriesAddNoIds(ph, net, kv, ids);
        SubsetSize(Ids(kv1, PhaseKind(ph)), Ids(kv, PhaseKind(ph)));
      }
      assert PagedWrites(ph, net, kv1, 1) == [];
    }
  }

  /** The loop's listing fits what one run of it processes. */
  ghost predicate Fits(ph: Phase, kv: Store) {
    && (ph.DMs? || ph.MatrixDMs? ==> |Listed(kv, PhaseKind(ph))| <= BATCH_SIZE)
    && (ph.DMs? ==> LegacyDM("") !in kv)
  }

  lemma PhaseWritesAll(ph: Phase, net: Net, kv: Store)
    requires Fits(ph, kv)
    ensures PhaseWrites(ph, net, kv) == EntriesWrites(ph, net, kv, Listed(kv, PhaseKind(ph)))
  {
    if ph.Users? || ph.Channels? {
      PagedIsAll(ph, net, kv, 0);
      assert Listed(kv, PhaseKind(ph))[0..] == Listed(kv, PhaseKind(ph));
    } else {
      OnePageIsAll(ph, net, kv);
    }
  }

  /** The value of every key after a whole loop. */
  lemma PhaseReached(ph: Phase, net: Net, kv: Store)
    requires Fits(ph, kv)
    ensures Reached(ph, net, kv, Listed(kv, PhaseKind(ph)), AfterPhase(ph, net, kv))
  {
    var ids := Listed(kv, PhaseKind(ph));
    PhaseWritesAll(ph, net, kv);
    NothingDone(ph, net, kv);
    ListedIsPending(ph, kv);
    EntriesReached(ph, net, kv, [], kv, ids);
    assert [] + ids == ids;
  }

  lemma ListedIsPending(ph: Phase, kv: Store)
    requires Fits(ph, kv)
    ensures Pending(ph, kv, [], Listed(kv, PhaseKind(ph)))
  {
    var ids := Listed(kv, PhaseKind(ph));
    forall i, j | 0 <= i < j < |ids| ensures ids[i] != ids[j] {
      IncreasingDistinct(ids, i, j);
    }
    assert ph.DMs? ==> Build(PhaseKind(ph), "") == LegacyDM("");
  }
}
