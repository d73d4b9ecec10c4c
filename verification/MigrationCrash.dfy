/**
  Crash and restart of the migration (server/migrations.go): the process stops after any number of
  its writes, and the next start runs the migration again on the store it finds.
*/
module MigrationCrash {
  import opened Prelude
  import opened Keys
  import opened Listing
  import opened MigrationSpec
  import opened MigrationEffects
  import opened MigrationResults

  /** The store a crash leaves after the first n writes. */
  ghost function Crashed(net: Net, s: Store, n: nat): Store
    requires n <= |Plan(net, s)|
  {
    ApplyAll(s, Plan(net, s)[..n])
  }

  /** Wherever it stops, running the migration again gives the store an uninterrupted run gives. */
  ghost predicate CrashSafe(net: Net, s: Store) {
    forall n :: 0 <= n <= |Plan(net, s)| ==> Migrated(net, Crashed(net, s, n)) == Migrated(net, s)
  }

  // ---------- the data the answer depends on ----------

  /** A legacy DM whose channel has no forward mapping yet. */
  predicate NewDM(s: Store, ch: string) {
    LegacyDM(ch) in s && ChannelMapping(ch) !in s
  }

  /** The reverse entry of room key `r` at the end of an uninterrupted migration from version 0. */
  ghost function FinalReverse(net: Net, s: Store, r: string): Option<string> {
    var last := LastClaim(Channels, net, s, Listed(s, ChannelKind), RoomMapping(r));
    var before := if last.Some? then last else Val(s, RoomMapping(r));
    if !Blank(before) then before
    else if FirstDM(net, s, r).Some? then FirstDM(net, s, r)
    else if LegacyMatrixDM(r) in s then Val(s, LegacyMatrixDM(r))
    else before
  }

  /** Some mapped channel listed after `ch` names `r`. */
  ghost predicate LaterClaim(net: Net, s: Store, ch: string, r: string) {
    exists g :: ChannelMapping(g) in s && Names(net, s[ChannelMapping(g)], r) && Below(ch, g)
  }

  /**
    Every room key a new DM names either ends up naming that DM's channel, or is named by a mapped
    channel listed later.
  */
  ghost predicate RestartSafe(net: Net, s: Store) {
    forall ch, r :: NewDM(s, ch) && Names(net, s[LegacyDM(ch)], r) ==>
      FinalReverse(net, s, r) == Some(ch) || LaterClaim(net, s, ch, r)
  }

  /**
    At most one page of legacy keys of each kind; no channel with an empty id, and no empty forward mapping that a
    legacy entry would fill.
  */
  ghost predicate Regular(s: Store) {
    && SmallLegacy(s)
    && forall ch :: ChannelMapping(ch) in s ==> ch != "" && ForwardStays(s, ch)
  }

  /** The channel's forward mapping is not empty, or nothing but the empty room would replace it. */
  predicate ForwardStays(s: Store, ch: string)
    requires ChannelMapping(ch) in s
  {
    s[ChannelMapping(ch)] != "" || LegacyDM(ch) !in s || s[LegacyDM(ch)] == ""
  }

  // ---------- prefixes of write sequences ----------

  lemma PrefixWithin(a: seq<Write>, b: seq<Write>, n: nat)
    requires n <= |a|
    ensures (a + b)[..n] == a[..n]
  {
  }

  lemma PrefixBeyond(kv: Store, a: seq<Write>, b: seq<Write>, n: nat)
    requires |a| <= n <= |a| + |b|
    ensures ApplyAll(kv, (a + b)[..n]) == ApplyAll(ApplyAll(kv, a), b[..n - |a|])
  {
    assert (a + b)[..n] == a + b[..n - |a|];
    ApplyAppend(kv, a, b[..n - |a|]);
  }

  // ---------- version 1 ----------

  lemma {:induction false} EntriesClaimed(ph: Phase, net: Net, s: Store, kv: Store, ids: seq<string>)
    requires ph.Users? || ph.Channels?
    requires forall id :: Val(kv, Build(PhaseKind(ph), id)) == Val(s, Build(PhaseKind(ph), id))
    ensures forall w :: w in EntriesWrites(ph, net, kv, ids) ==>
              WritesOf(ph, w) && exists id :: id in ids && Claims(ph, net, s, id, w.key)
    decreases |ids|
  {
    if ids != [] {
      var e := EntryWrites(ph, net, kv, ids[0]);
      var kv1 := ApplyAll(kv, e);
      EntryWritesOf(ph, net, kv, ids[0]);
      EntryClaimed(ph, net, s, kv, ids[0]);
      forall id ensures Val(kv1, Build(PhaseKind(ph), id)) == Val(s, Build(PhaseKind(ph), id)) {
        Untouched(kv, e, Build(PhaseKind(ph), id));
      }
      EntriesClaimed(ph, net, s, kv1, ids[1..]);
      forall w | w in EntriesWrites(ph, net, kv, ids)
        ensures WritesOf(ph, w) && exists id :: id in ids && Claims(ph, net, s, id, w.key)
      {
        if w in e { assert ids[0] in ids; }
      }
    }
  }

  lemma EntryClaimed(ph: Phase, net: Net, s: Store, kv: Store, id: string)
    requires ph.Users? || ph.Channels?
    requires Val(kv, Build(PhaseKind(ph), id)) == Val(s, Build(PhaseKind(ph), id))
    ensures forall w :: w in EntryWrites(ph, net, kv, id) ==> Claims(ph, net, s, id, w.key)
  {
  }

  /** A loop of version 1 that was cut short and runs again ends as if it had not been. */
  lemma LoopRestarts(ph: Phase, net: Net, kv: Store, n: nat)
    requires (ph.Users? || ph.Channels?) && n <= |PhaseWrites(ph, net, kv)|
    ensures var x := ApplyAll(kv, PhaseWrites(ph, net, kv)[..n]);
            && AfterPhase(ph, net, x) == AfterPhase(ph, net, kv)
            && forall k: Key :: (if ph.Users? then !k.MattermostUser? else !k.RoomMapping?) ==> Val(x, k) == Val(kv, k)
  {
    var ids := Listed(kv, PhaseKind(ph));
    var x := ApplyAll(kv, PhaseWrites(ph, net, kv)[..n]);
    forall k ensures Val(x, k) == Val(kv, k) || (LastClaim(ph, net, kv, ids, k).Some? && ReverseKey(ph, k)) {
      PrefixClaimed(ph, net, kv, n, k);
    }
    LoopForgets(ph, net, kv, x);
  }

  predicate ReverseKey(ph: Phase, k: Key) {
    if ph.Users? then k.MattermostUser? else k.RoomMapping?
  }

  /** A prefix of a version 1 loop changes claimed reverse keys only. */
  lemma PrefixClaimed(ph: Phase, net: Net, kv: Store, n: nat, k: Key)
    requires (ph.Users? || ph.Channels?) && n <= |PhaseWrites(ph, net, kv)|
    ensures Val(ApplyAll(kv, PhaseWrites(ph, net, kv)[..n]), k) == Val(kv, k)
         || (LastClaim(ph, net, kv, Listed(kv, PhaseKind(ph)), k).Some? && ReverseKey(ph, k))
  {
    var ws := PhaseWrites(ph, net, kv);
    var ids := Listed(kv, PhaseKind(ph));
    if w :| w in ws[..n] && w.key == k {
      assert w in ws;
      PhaseWritesAll(ph, net, kv);
      EntriesClaimed(ph, net, kv, kv, ids);
      LastClaimIsGreatest(ph, net, kv, ids, k);
    } else {
      Untouched(kv, ws[..n], k);
    }
  }

  /** The user loop has nothing left to do. */
  ghost predicate UsersSettled(net: Net, kv: Store) {
    AfterPhase(Users, net, kv) == kv
  }

  lemma SettledTransfers(net: Net, a: Store, b: Store)
    requires UsersSettled(net, a)
    requires forall id :: Val(a, MatrixUser(id)) == Val(b, MatrixUser(id))
    requires forall id :: Val(a, MattermostUser(id)) == Val(b, MattermostUser(id))
    ensures UsersSettled(net, b)
  {
    var ids := Listed(a, MatrixUserKind);
    SameListingKept(Users, a, b);
    PhaseReached(Users, net, a);
    PhaseReached(Users, net, b);
    forall k ensures Val(AfterPhase(Users, net, b), k) == Val(b, k) {
      assert Val(AfterPhase(Users, net, b), k) == DoneVal(Users, net, b, ids, k);
      assert Val(a, k) == DoneVal(Users, net, a, ids, k);
      ClaimsDependOnListed(Users, net, a, b, ids, k);
      LastClaimIsGreatest(Users, net, b, ids, k);
    }
    SameVals(AfterPhase(Users, net, b), b);
  }

  /** Version 1 as two loops, on a store whose marker is below 1. */
  ghost function Loops1(net: Net, s: Store): Store {
    AfterPhase(Channels, net, AfterPhase(Users, net, s))
  }

  lemma Loops1Keeps(net: Net, s: Store, k: Key)
    requires !k.MattermostUser? && !k.RoomMapping?
    ensures Val(Loops1(net, s), k) == Val(s, k)
  {
    OnlyReverseKeysChange(Users, net, s, k);
    OnlyReverseKeysChange(Channels, net, AfterPhase(Users, net, s), k);
  }

  lemma Loops1Settled(net: Net, s: Store)
    ensures UsersSettled(net, Loops1(net, s))
    ensures AfterPhase(Channels, net, Loops1(net, s)) == Loops1(net, s)
  {
    var u := AfterPhase(Users, net, s);
    LoopIdempotent(Users, net, s);
    LoopIdempotent(Channels, net, u);
    forall id ensures Val(u, MatrixUser(id)) == Val(Loops1(net, s), MatrixUser(id)) {
      OnlyReverseKeysChange(Channels, net, u, MatrixUser(id));
    }
    forall id ensures Val(u, MattermostUser(id)) == Val(Loops1(net, s), MattermostUser(id)) {
      OnlyReverseKeysChange(Channels, net, u, MattermostUser(id));
    }
    SettledTransfers(net, u, Loops1(net, s));
  }

  /** Cut anywhere in its two loops, version 1 restarts to the same store. */
  lemma Loops1Restart(net: Net, s: Store, n: nat)
    requires n <= |PhaseWrites(Users, net, s)| + |PhaseWrites(Channels, net, AfterPhase(Users, net, s))|
    ensures var ws := PhaseWrites(Users, net, s) + PhaseWrites(Channels, net, AfterPhase(Users, net, s));
            var x := ApplyAll(s, ws[..n]);
            Loops1(net, x) == Loops1(net, s) && Val(x, StoreVersion) == Val(s, StoreVersion)
  {
    hide PhaseWrites, ApplyAll, Loops1;
    var a, b := PhaseWrites(Users, net, s), PhaseWrites(Channels, net, AfterPhase(Users, net, s));
    if n <= |a| {
      PrefixWithin(a, b, n);
      UsersRestart(net, s, n);
    } else {
      PrefixBeyond(s, a, b, n);
      ChannelsRestart(net, s, n - |a|);
    }
  }

  lemma UsersRestart(net: Net, s: Store, n: nat)
    requires n <= |PhaseWrites(Users, net, s)|
    ensures var x := ApplyAll(s, PhaseWrites(Users, net, s)[..n]);
            Loops1(net, x) == Loops1(net, s) && Val(x, StoreVersion) == Val(s, StoreVersion)
  {
    hide PhaseWrites, ApplyAll, AfterPhase;
    LoopRestarts(Users, net, s, n);
  }

  lemma ChannelsRestart(net: Net, s: Store, n: nat)
    requires n <= |PhaseWrites(Channels, net, AfterPhase(Users, net, s))|
    ensures var u := AfterPhase(Users, net, s);
            var x := ApplyAll(u, PhaseWrites(Channels, net, u)[..n]);
            Loops1(net, x) == Loops1(net, s) && Val(x, StoreVersion) == Val(s, StoreVersion)
  {
    hide PhaseWrites, ApplyAll, AfterPhase, UsersSettled;
    var u := AfterPhase(Users, net, s);
    LoopRestarts(Channels, net, u, n);
    LoopIdempotent(Users, net, s);
    SettledTransfers(net, u, ApplyAll(u, PhaseWrites(Channels, net, u)[..n]));
    OnlyReverseKeysChange(Users, net, s, StoreVersion);
  }

  // ---------- version 2 ----------

  /** `x` is `s` with part of the legacy mappings moved. */
  ghost predicate Mid(net: Net, s: Store, x: Store) {
    && (forall k :: !MovedKind(k) ==> Val(x, k) == Val(s, k))
    && (forall k: Key :: k.LegacyDM? || k.LegacyMatrixDM? ==> Val(x, k) == Val(s, k) || Val(x, k).None?)
    && (forall k: Key :: k.ChannelMapping? || k.RoomMapping? ==>
        Val(x, k) == Val(s, k) || Val(x, k) == MovedVal(net, s, k))
    && (forall ch :: LegacyDM(ch) in s && LegacyDM(ch) !in x ==>
          && Val(x, ChannelMapping(ch)) == MovedVal(net, s, ChannelMapping(ch))
          && !Blank(Val(x, RoomMapping(s[LegacyDM(ch)]))))
    && (forall r :: LegacyMatrixDM(r) in s && LegacyMatrixDM(r) !in x ==>
          Val(x, RoomMapping(r)) == MovedVal(net, s, RoomMapping(r)))
  }

  predicate MovedKind(k: Key) {
    k.ChannelMapping? || k.RoomMapping? || k.LegacyDM? || k.LegacyMatrixDM?
  }

  /** The first legacy claimant is determined by who claims. */
  lemma SameFirstDM(net: Net, a: Store, b: Store, r: string)
    requires forall ch :: Val(a, LegacyDM(ch)) == Some(r) <==> Val(b, LegacyDM(ch)) == Some(r)
    ensures FirstDM(net, a, r) == FirstDM(net, b, r)
  {
    var la, lb := Listed(a, DMKind), Listed(b, DMKind);
    FirstClaimIsLeast(DMs, net, a, la, RoomMapping(r));
    FirstClaimIsLeast(DMs, net, b, lb, RoomMapping(r));
    forall ch ensures ch in la && Claims(DMs, net, a, ch, RoomMapping(r))
      <==> ch in lb && Claims(DMs, net, b, ch, RoomMapping(r)) {
      assert Build(DMKind, ch) == LegacyDM(ch);
    }
    var fa, fb := FirstDM(net, a, r), FirstDM(net, b, r);
    if fa.Some? && fb.Some? {
      BelowTotal(fa.value, fb.value);
    }
  }

  lemma MidRoomVal(net: Net, s: Store, x: Store, r: string)
    requires Mid(net, s, x) && LegacyDM("") !in s
    ensures MovedVal(net, x, RoomMapping(r)) == MovedVal(net, s, RoomMapping(r))
  {
    var k := RoomMapping(r);
    FirstDMNotBlank(net, s, r);
    if Blank(Val(x, k)) {
      assert Blank(Val(s, k));
      forall ch ensures Val(x, LegacyDM(ch)) == Some(r) <==> Val(s, LegacyDM(ch)) == Some(r) {
        assert Val(x, LegacyDM(ch)) == Val(s, LegacyDM(ch)) || Val(x, LegacyDM(ch)).None?;
      }
      SameFirstDM(net, x, s, r);
      assert Val(x, LegacyMatrixDM(r)) == Val(s, LegacyMatrixDM(r)) || Val(x, LegacyMatrixDM(r)).None?;
    }
  }

  /** Moving the rest of a partly moved store gives what moving the whole gives. */
  lemma MidMoves(net: Net, s: Store, x: Store, k: Key)
    requires Mid(net, s, x) && LegacyDM("") !in s
    ensures MovedVal(net, x, k) == MovedVal(net, s, k)
  {
    if k.RoomMapping? {
      MidRoomVal(net, s, x, k.id);
    } else if k.ChannelMapping? {
      assert Val(x, LegacyDM(k.id)) == Val(s, LegacyDM(k.id)) || Val(x, LegacyDM(k.id)).None?;
    }
  }

  lemma MidSmall(net: Net, s: Store, x: Store)
    requires Mid(net, s, x) && SmallLegacy(s)
    ensures SmallLegacy(x)
  {
    forall kind: Kind | kind.DMKind? || kind.MatrixDMKind? ensures |Listed(x, kind)| <= |Listed(s, kind)| {
      forall id | Build(kind, id) in x ensures Build(kind, id) in s {
        assert Val(x, Build(kind, id)) == Val(s, Build(kind, id)) || Val(x, Build(kind, id)).None?;
      }
      SubsetSize(Ids(x, kind), Ids(s, kind));
    }
    assert Val(x, LegacyDM("")) == Val(s, LegacyDM("")) || Val(x, LegacyDM("")).None?;
  }

  lemma MidFinishes(net: Net, s: Store, x: Store)
    requires Mid(net, s, x) && SmallLegacy(s)
    ensures AfterVersion2(net, x) == AfterVersion2(net, s)
  {
    MidSmall(net, s, x);
    forall k ensures Val(AfterVersion2(net, x), k) == Val(AfterVersion2(net, s), k) {
      Version2Vals(net, x, k);
      Version2Vals(net, s, k);
      MidMoves(net, s, x, k);
    }
    SameVals(AfterVersion2(net, x), AfterVersion2(net, s));
  }

  // ---------- every store a crash in version 2 can leave ----------

  /** Between two entries of the first loop. */
  lemma DMsMid(net: Net, s: Store, done: seq<string>, rest: seq<string>, kv: Store)
    requires Reached(DMs, net, s, done, kv) && Listed(s, DMKind) == done + rest && LegacyDM("") !in s
    ensures Mid(net, s, kv)
  {
    forall k: Key ensures k.RoomMapping? ==> Val(kv, k) == Val(s, k) || Val(kv, k) == MovedVal(net, s, k) {
      if k.RoomMapping? {
        assert Val(kv, k) == DoneVal(DMs, net, s, done, k);
        FirstClaimPrefix(net, s, done, rest, k);
      }
    }
    forall k: Key ensures !k.RoomMapping? ==> Val(kv, k) == DMsDoneVal(s, done, k) {
      assert Val(kv, k) == DoneVal(DMs, net, s, done, k);
      NoDMClaim(net, s, done, k);
    }
    forall ch | LegacyDM(ch) in s && LegacyDM(ch) !in kv
      ensures ch in done && !Blank(Val(kv, RoomMapping(s[LegacyDM(ch)])))
    {
      assert Val(kv, LegacyDM(ch)) == DMsDoneVal(s, done, LegacyDM(ch));
      ProcessedRoom(net, s, done, kv, ch);
    }
    forall r | LegacyMatrixDM(r) in s ensures LegacyMatrixDM(r) in kv {
      assert Val(kv, LegacyMatrixDM(r)) == DMsDoneVal(s, done, LegacyMatrixDM(r));
    }
  }

  function DMsDoneVal(s: Store, done: seq<string>, k: Key): Option<string> {
    if k.LegacyDM? && k.id in done then None
    else if k.ChannelMapping? && k.id in done && Blank(Val(s, k)) && LegacyDM(k.id) in s then Val(s, LegacyDM(k.id))
    else Val(s, k)
  }

  /** The room of a processed entry has its reverse mapping. */
  lemma ProcessedRoom(net: Net, s: Store, done: seq<string>, kv: Store, ch: string)
    requires Reached(DMs, net, s, done, kv) && ch in done && LegacyDM(ch) in s
    requires LegacyDM("") !in s
    ensures !Blank(Val(kv, RoomMapping(s[LegacyDM(ch)])))
  {
    var k := RoomMapping(s[LegacyDM(ch)]);
    assert Val(kv, k) == DoneVal(DMs, net, s, done, k);
    FirstClaimIn(DMs, net, s, done, k);
    SomeClaim(net, s, done, ch, k);
  }

  lemma {:induction false} SomeClaim(net: Net, s: Store, ids: seq<string>, ch: string, k: Key)
    requires ch in ids && Claims(DMs, net, s, ch, k)
    ensures FirstClaim(DMs, net, s, ids, k).Some?
  {
    if ch != ids[|ids| - 1] {
      SomeClaim(net, s, ids[..|ids| - 1], ch, k);
    }
  }

  lemma {:induction false} FirstClaimPrefix(net: Net, s: Store, a: seq<string>, b: seq<string>, k: Key)
    ensures FirstClaim(DMs, net, s, a, k).Some? ==> FirstClaim(DMs, net, s, a + b, k) == FirstClaim(DMs, net, s, a, k)
  {
    if b == [] {
      assert a + b == a;
    } else {
      FirstClaimPrefix(net, s, a, b[..|b| - 1], k);
      assert a + b == (a + b[..|b| - 1]) + [b[|b| - 1]];
      FirstClaimAppend(DMs, net, s, a + b[..|b| - 1], b[|b| - 1], k);
    }
  }

  /** Inside an entry of the first loop: its forward or reverse mapping is written, it is not yet deleted. */
  lemma DMEntryMid(net: Net, s: Store, done: seq<string>, id: string, rest: seq<string>, kv: Store, x: Store)
    requires Reached(DMs, net, s, done, kv) && Listed(s, DMKind) == done + ([id] + rest) && LegacyDM("") !in s
    requires forall k :: Val(x, k) == Val(kv, k) || DMEntryMay(s, id, kv, x, k)
    ensures Mid(net, s, x)
  {
    DMsMid(net, s, done, [id] + rest, kv);
    assert LegacyDM(id) in s by {
      ListedHead(s, DMKind, done, [id] + rest);
      assert ([id] + rest)[0] == id && Build(DMKind, id) == LegacyDM(id);
    }
    var k := RoomMapping(s[LegacyDM(id)]);
    if Val(x, k) != Val(kv, k) {
      NewReverseIsFinal(net, s, done, id, rest, kv);
    }
    MidSurvivesEntry(net, s, id, kv, x);
  }

  /** The entry that first fills a room's reverse mapping is the one the room ends with. */
  lemma NewReverseIsFinal(net: Net, s: Store, done: seq<string>, id: string, rest: seq<string>, kv: Store)
    requires Reached(DMs, net, s, done, kv) && Listed(s, DMKind) == done + ([id] + rest) && LegacyDM("") !in s
    requires LegacyDM(id) in s && Blank(Val(kv, RoomMapping(s[LegacyDM(id)])))
    ensures MovedVal(net, s, RoomMapping(s[LegacyDM(id)])) == Some(id)
  {
    var k := RoomMapping(s[LegacyDM(id)]);
    assert Val(kv, k) == DoneVal(DMs, net, s, done, k);
    if FirstClaim(DMs, net, s, done, k).Some? {
      FirstClaimIn(DMs, net, s, done, k);
      ProcessedRoom(net, s, done, kv, FirstClaim(DMs, net, s, done, k).value);
    }
    assert FirstClaim(DMs, net, s, done, k).None?;
    FirstClaimAppend(DMs, net, s, done, id, k);
    FirstClaimPrefix(net, s, done + [id], rest, k);
    assert done + [id] + rest == Listed(s, DMKind);
  }

  /** The two mappings an entry writes where there is none. */
  predicate DMEntryMay(s: Store, id: string, kv: Store, x: Store, k: Key) {
    LegacyDM(id) in s && Blank(Val(kv, k)) &&
    ((k == ChannelMapping(id) && Val(x, k) == Val(s, LegacyDM(id)))
     || (k == RoomMapping(s[LegacyDM(id)]) && Val(x, k) == Some(id)))
  }

  lemma MidSurvivesEntry(net: Net, s: Store, id: string, kv: Store, x: Store)
    requires Mid(net, s, kv) && LegacyDM(id) in s && id != ""
    requires forall k :: Val(x, k) == Val(kv, k) || DMEntryMay(s, id, kv, x, k)
    requires var k := RoomMapping(s[LegacyDM(id)]); Val(x, k) == Val(kv, k) || Val(x, k) == MovedVal(net, s, k)
    ensures Mid(net, s, x)
  {
    forall k: Key | k.ChannelMapping? || k.RoomMapping?
      ensures Val(x, k) == Val(s, k) || Val(x, k) == MovedVal(net, s, k)
    {
      assert Val(kv, k) == Val(s, k) || Val(kv, k) == MovedVal(net, s, k);
    }
    forall ch | LegacyDM(ch) in s && LegacyDM(ch) !in x
      ensures Val(x, ChannelMapping(ch)) == MovedVal(net, s, ChannelMapping(ch))
      ensures !Blank(Val(x, RoomMapping(s[LegacyDM(ch)])))
    {
      assert Val(x, LegacyDM(ch)) == Val(kv, LegacyDM(ch));
    }
    forall r | LegacyMatrixDM(r) in s && LegacyMatrixDM(r) !in x
      ensures Val(x, RoomMapping(r)) == MovedVal(net, s, RoomMapping(r))
    {
      assert Val(x, LegacyMatrixDM(r)) == Val(kv, LegacyMatrixDM(r));
    }
  }

  /** The store after the first i entries. */
  function After(ph: Phase, net: Net, kv: Store, ids: seq<string>, i: nat): Store
    requires i <= |ids|
  {
    ApplyAll(kv, EntriesWrites(ph, net, kv, ids[..i]))
  }

  lemma AfterNext(ph: Phase, net: Net, kv: Store, ids: seq<string>, i: nat)
    requires ids != [] && i < |ids|
    ensures After(ph, net, kv, ids, i + 1)
         == After(ph, net, ApplyAll(kv, EntryWrites(ph, net, kv, ids[0])), ids[1..], i)
  {
    var w := EntryWrites(ph, net, kv, ids[0]);
    assert ids[..i + 1][0] == ids[0] && ids[..i + 1][1..] == ids[1..][..i];
    ApplyAppend(kv, w, EntriesWrites(ph, net, ApplyAll(kv, w), ids[1..][..i]));
  }

  /** A prefix of a loop's writes ends m writes into entry i (or, with i == |ids|, at the end). */
  lemma {:induction false} PrefixPoint(ph: Phase, net: Net, kv: Store, ids: seq<string>, n: nat)
    returns (i: nat, m: nat)
    requires n <= |EntriesWrites(ph, net, kv, ids)|
    ensures i <= |ids|
    ensures i < |ids| ==>
              && m < |EntryWrites(ph, net, After(ph, net, kv, ids, i), ids[i])|
              && ApplyAll(kv, EntriesWrites(ph, net, kv, ids)[..n])
                 == ApplyAll(After(ph, net, kv, ids, i), EntryWrites(ph, net, After(ph, net, kv, ids, i), ids[i])[..m])
    ensures i == |ids| ==> ApplyAll(kv, EntriesWrites(ph, net, kv, ids)[..n]) == After(ph, net, kv, ids, i)
    decreases |ids|
  {
    hide EntryWrites;
    i, m := 0, 0;
    assert ids[..0] == [];
    if ids == [] {
      assert EntriesWrites(ph, net, kv, ids)[..n] == [];
    } else {
      var w := EntryWrites(ph, net, kv, ids[0]);
      var kv1 := ApplyAll(kv, w);
      var ws := EntriesWrites(ph, net, kv1, ids[1..]);
      if n < |w| {
        m := n;
        PrefixWithin(w, ws, n);
      } else {
        PrefixBeyond(kv, w, ws, n);
        i, m := PrefixPoint(ph, net, kv1, ids[1..], n - |w|);
        AfterNext(ph, net, kv, ids, i);
        i := i + 1;
      }
    }
  }

  lemma AfterReached(ph: Phase, net: Net, s: Store, i: nat)
    requires Fits(ph, s) && i <= |Listed(s, PhaseKind(ph))|
    ensures Reached(ph, net, s, Listed(s, PhaseKind(ph))[..i], After(ph, net, s, Listed(s, PhaseKind(ph)), i))
  {
    var ids := Listed(s, PhaseKind(ph));
    ListedIsPending(ph, s);
    NothingDone(ph, net, s);
    assert forall x :: x in ids[..i] ==> x in ids;
    EntriesReached(ph, net, s, [], s, ids[..i]);
    assert [] + ids[..i] == ids[..i];
  }

  lemma DMEntryCut(net: Net, s: Store, done: seq<string>, id: string, rest: seq<string>, kv: Store, n: nat)
    requires Reached(DMs, net, s, done, kv) && Listed(s, DMKind) == done + ([id] + rest) && LegacyDM("") !in s
    requires n < |EntryWrites(DMs, net, kv, id)|
    ensures Mid(net, s, ApplyAll(kv, EntryWrites(DMs, net, kv, id)[..n]))
  {
    assert Val(kv, LegacyDM(id)) == Val(s, LegacyDM(id)) by {
      ListedHead(s, DMKind, done, [id] + rest);
      NoDMClaim(net, s, done, LegacyDM(id));
      assert Val(kv, LegacyDM(id)) == DoneVal(DMs, net, s, done, LegacyDM(id));
    }
    DMEntryPrefix(net, s, kv, id, n);
    DMEntryMid(net, s, done, id, rest, kv, ApplyAll(kv, EntryWrites(DMs, net, kv, id)[..n]));
  }

  lemma ListedHead(s: Store, kind: Kind, done: seq<string>, todo: seq<string>)
    requires Listed(s, kind) == done + todo && todo != []
    ensures Build(kind, todo[0]) in s && todo[0] !in done
    ensures forall x :: x in done ==> Build(kind, x) in s
  {
    var all := Listed(s, kind);
    assert all[|done|] == todo[0] && all[|done|] in all;
    assert forall x :: x in done ==> x in all;
    forall i | 0 <= i < |done| ensures done[i] != todo[0] {
      IncreasingDistinct(all, i, |done|);
    }
  }

  lemma DMEntryPrefix(net: Net, s: Store, kv: Store, id: string, n: nat)
    requires n < |EntryWrites(DMs, net, kv, id)|
    requires Val(kv, LegacyDM(id)) == Val(s, LegacyDM(id))
    ensures var x := ApplyAll(kv, EntryWrites(DMs, net, kv, id)[..n]);
            forall k :: Val(x, k) == Val(kv, k) || DMEntryMay(s, id, kv, x, k)
  {
    var w := EntryWrites(DMs, net, kv, id);
    Apply0(kv);
    Apply1(kv, w[0]);
    if n == 0 {
      assert w[..n] == [];
    } else if n == 1 {
      assert w[..n] == [w[0]];
    } else {
      Apply2(kv, w[0], w[1]);
      assert w[..n] == [w[0], w[1]];
    }
  }

  // ---------- the second loop of version 2 ----------

  /** Between two entries of the second loop. */
  lemma MatrixDMsMid(net: Net, s: Store, done: seq<string>, kv: Store)
    requires SmallLegacy(s) && Reached(MatrixDMs, net, AfterPhase(DMs, net, s), done, kv)
    ensures Mid(net, s, kv)
  {
    forall k ensures Val(kv, k) == MatrixDoneVal(net, s, done, k) {
      MatrixReachedVal(net, s, done, kv, k);
    }
    forall k: Key | k.ChannelMapping? || k.RoomMapping?
      ensures Val(kv, k) == Val(s, k) || Val(kv, k) == MovedVal(net, s, k)
    {
      assert Val(kv, k) == MatrixDoneVal(net, s, done, k);
    }
    forall ch | LegacyDM(ch) in s
      ensures Val(kv, ChannelMapping(ch)) == MovedVal(net, s, ChannelMapping(ch))
      ensures !Blank(Val(kv, RoomMapping(s[LegacyDM(ch)])))
    {
      assert Val(kv, ChannelMapping(ch)) == MatrixDoneVal(net, s, done, ChannelMapping(ch));
      assert Val(kv, RoomMapping(s[LegacyDM(ch)])) == MatrixDoneVal(net, s, done, RoomMapping(s[LegacyDM(ch)]));
      DMRoomMapped(net, s, ch);
    }
    forall r | LegacyMatrixDM(r) in s && LegacyMatrixDM(r) !in kv
      ensures Val(kv, RoomMapping(r)) == MovedVal(net, s, RoomMapping(r))
    {
      assert Val(kv, LegacyMatrixDM(r)) == MatrixDoneVal(net, s, done, LegacyMatrixDM(r));
      assert Val(kv, RoomMapping(r)) == MatrixDoneVal(net, s, done, RoomMapping(r));
      FirstDMNotBlank(net, s, r);
    }
  }

  /** The value of `k` when the second loop has processed `done`, in terms of the store before version 2. */
  ghost function MatrixDoneVal(net: Net, s: Store, done: seq<string>, k: Key): Option<string> {
    if k.LegacyMatrixDM? && k.id in done then None
    else if k.RoomMapping? && k.id in done then MovedVal(net, s, k)
    else AfterDMsVal(net, s, k)
  }

  lemma MatrixReachedVal(net: Net, s: Store, done: seq<string>, kv: Store, k: Key)
    requires SmallLegacy(s) && Reached(MatrixDMs, net, AfterPhase(DMs, net, s), done, kv)
    ensures Val(kv, k) == MatrixDoneVal(net, s, done, k)
  {
    hide PhaseWrites, ApplyAll, AfterPhase, FirstDM;
    var s2 := AfterPhase(DMs, net, s);
    assert Val(kv, k) == DoneVal(MatrixDMs, net, s2, done, k);
    AfterDMs(net, s, k);
    if k.RoomMapping? {
      AfterDMs(net, s, LegacyMatrixDM(k.id));
      FirstDMNotBlank(net, s, k.id);
    }
  }

  /** Inside an entry of the second loop: its reverse mapping may be written, it is not yet deleted. */
  lemma MatrixDMEntryCut(net: Net, s: Store, done: seq<string>, id: string, kv: Store, n: nat)
    requires SmallLegacy(s) && Reached(MatrixDMs, net, AfterPhase(DMs, net, s), done, kv)
    requires n < |EntryWrites(MatrixDMs, net, kv, id)|
    ensures Mid(net, s, ApplyAll(kv, EntryWrites(MatrixDMs, net, kv, id)[..n]))
  {
    hide AfterPhase, Mid, FirstDM;
    var w := EntryWrites(MatrixDMs, net, kv, id);
    MatrixDMsMid(net, s, done, kv);
    var x := ApplyAll(kv, w[..n]);
    var k := RoomMapping(id);
    Apply0(kv);
    Apply1(kv, w[0]);
    if n == 0 {
      assert w[..n] == [];
    } else {
      assert w[..n] == [w[0]];
      MatrixReachedVal(net, s, done, kv, k);
      MatrixReachedVal(net, s, done, kv, LegacyMatrixDM(id));
      FirstDMNotBlank(net, s, id);
      MidSurvivesRoom(net, s, kv, x, id);
    }
  }

  lemma MidSurvivesRoom(net: Net, s: Store, kv: Store, x: Store, r: string)
    requires Mid(net, s, kv)
    requires forall k :: k != RoomMapping(r) ==> Val(x, k) == Val(kv, k)
    requires Blank(Val(kv, RoomMapping(r))) && Val(x, RoomMapping(r)) == MovedVal(net, s, RoomMapping(r))
    ensures Mid(net, s, x)
  {
    forall ch | LegacyDM(ch) in s && LegacyDM(ch) !in x
      ensures Val(x, ChannelMapping(ch)) == MovedVal(net, s, ChannelMapping(ch))
      ensures !Blank(Val(x, RoomMapping(s[LegacyDM(ch)])))
    {
      assert Val(x, LegacyDM(ch)) == Val(kv, LegacyDM(ch));
    }
    forall q | LegacyMatrixDM(q) in s && LegacyMatrixDM(q) !in x
      ensures Val(x, RoomMapping(q)) == MovedVal(net, s, RoomMapping(q))
    {
      assert Val(x, LegacyMatrixDM(q)) == Val(kv, LegacyMatrixDM(q));
    }
  }

  /** Every prefix of version 2's writes leaves a partly moved store. */
  lemma Version2PrefixMid(net: Net, s: Store, n: nat)
    requires SmallLegacy(s) && n <= |Version2Writes(net, s)|
    ensures Mid(net, s, ApplyAll(s, Version2Writes(net, s)[..n]))
  {
    hide PhaseWrites, Mid, SmallLegacy;
    var s2 := AfterPhase(DMs, net, s);
    var a, b := PhaseWrites(DMs, net, s), PhaseWrites(MatrixDMs, net, s2);
    if n <= |a| {
      PrefixWithin(a, b, n);
      FirstLoopPrefix(net, s, n);
    } else {
      PrefixBeyond(s, a, b, n);
      SecondLoopPrefix(net, s, n - |a|);
    }
  }

  lemma FirstLoopPrefix(net: Net, s: Store, n: nat)
    requires SmallLegacy(s) && n <= |PhaseWrites(DMs, net, s)|
    ensures Mid(net, s, ApplyAll(s, PhaseWrites(DMs, net, s)[..n]))
  {
    var ids := Listed(s, DMKind);
    PhaseWritesAll(DMs, net, s);
    var i, m := PrefixPoint(DMs, net, s, ids, n);
    AfterReached(DMs, net, s, i);
    FirstLoopPoint(net, s, i, m, After(DMs, net, s, ids, i));
  }

  lemma FirstLoopPoint(net: Net, s: Store, i: nat, m: nat, kv: Store)
    requires SmallLegacy(s) && i <= |Listed(s, DMKind)| && Reached(DMs, net, s, Listed(s, DMKind)[..i], kv)
    ensures i == |Listed(s, DMKind)| ==> Mid(net, s, kv)
    ensures i < |Listed(s, DMKind)| && m < |EntryWrites(DMs, net, kv, Listed(s, DMKind)[i])| ==>
              Mid(net, s, ApplyAll(kv, EntryWrites(DMs, net, kv, Listed(s, DMKind)[i])[..m]))
  {
    var ids := Listed(s, DMKind);
    if i == |ids| {
      assert ids == ids[..i] + [];
      DMsMid(net, s, ids[..i], [], kv);
    } else if m < |EntryWrites(DMs, net, kv, ids[i])| {
      assert ids == ids[..i] + ([ids[i]] + ids[i + 1..]);
      DMEntryCut(net, s, ids[..i], ids[i], ids[i + 1..], kv, m);
    }
  }

  lemma SecondLoopPrefix(net: Net, s: Store, n: nat)
    requires SmallLegacy(s) && n <= |PhaseWrites(MatrixDMs, net, AfterPhase(DMs, net, s))|
    ensures Mid(net, s, ApplyAll(AfterPhase(DMs, net, s), PhaseWrites(MatrixDMs, net, AfterPhase(DMs, net, s))[..n]))
  {
    var s2 := AfterPhase(DMs, net, s);
    assert Fits(MatrixDMs, s2) by { MatrixListingKept(net, s); }
    PhaseWritesAll(MatrixDMs, net, s2);
    var ids := Listed(s2, MatrixDMKind);
    var i, m := PrefixPoint(MatrixDMs, net, s2, ids, n);
    AfterReached(MatrixDMs, net, s2, i);
    if i == |ids| {
      MatrixDMsMid(net, s, ids[..i], After(MatrixDMs, net, s2, ids, i));
    } else {
      MatrixDMEntryCut(net, s, ids[..i], ids[i], After(MatrixDMs, net, s2, ids, i), m);
    }
  }

  // ---------- the whole migration ----------

  lemma VersionIsTwo(kv: Store)
    requires Val(kv, StoreVersion) == Some("2")
    ensures VersionOf(kv) == 2
  {
    assert "2"[..0] == "";
    assert Digits("2") == Digits("") * 10 + 2;
  }

  lemma MigratedIs(net: Net, s: Store)
    requires VersionOf(s) < 2
    ensures Migrated(net, s) == AfterVersion2(net, AfterVersion1(net, s))[StoreVersion := "2"]
    ensures VersionOf(s) < 1 ==> AfterVersion1(net, s) == Loops1(net, s)
    ensures ApplyAll(s, Version1Writes(net, s)) == AfterVersion1(net, s)
  {
    var s1 := AfterVersion1(net, s);
    Version1Is(net, s);
    ApplyAppend(s1, PhaseWrites(DMs, net, s1), PhaseWrites(MatrixDMs, net, AfterPhase(DMs, net, s1)));
    ApplyAppend(s, Version1Writes(net, s), Version2Writes(net, s1));
    ApplyAppend(s, Version1Writes(net, s) + Version2Writes(net, s1), [VERSION_WRITE]);
    Apply1(AfterVersion2(net, s1), VERSION_WRITE);
  }

  lemma Version1Is(net: Net, s: Store)
    ensures ApplyAll(s, Version1Writes(net, s)) == AfterVersion1(net, s)
  {
    if VersionOf(s) < 1 {
      ApplyAppend(s, PhaseWrites(Users, net, s), PhaseWrites(Channels, net, AfterPhase(Users, net, s)));
    }
  }

  lemma ThreeParts(kv: Store, a: seq<Write>, b: seq<Write>, w: Write, n: nat)
    requires n <= |a| + |b| + 1
    ensures n <= |a| ==> (a + b + [w])[..n] == a[..n]
    ensures |a| <= n <= |a| + |b| ==> ApplyAll(kv, (a + b + [w])[..n]) == ApplyAll(ApplyAll(kv, a), b[..n - |a|])
    ensures n == |a| + |b| + 1 ==> (a + b + [w])[..n] == a + b + [w]
  {
    if |a| <= n <= |a| + |b| {
      PrefixWithin(a + b, [w], n);
      PrefixBeyond(kv, a, b, n);
    }
  }

  /** A crash falls inside version 1, inside version 2, or after the version marker. */
  lemma CrashCases(net: Net, s: Store, n: nat)
    requires VersionOf(s) < 2 && n <= |Plan(net, s)|
    ensures var m := |Version1Writes(net, s)|;
            && (n <= m ==> Crashed(net, s, n) == ApplyAll(s, Version1Writes(net, s)[..n]))
            && (m < n < |Plan(net, s)| ==>
                  && n - m <= |Version2Writes(net, AfterVersion1(net, s))|
                  && Crashed(net, s, n) == ApplyAll(AfterVersion1(net, s),
                                                    Version2Writes(net, AfterVersion1(net, s))[..n - m]))
            && (n == |Plan(net, s)| ==> Crashed(net, s, n) == Migrated(net, s))
  {
    Version1Is(net, s);
    ThreeParts(s, Version1Writes(net, s), Version2Writes(net, AfterVersion1(net, s)), VERSION_WRITE, n);
  }

  /** After the marker is written, a restart does nothing. */
  lemma MigratedIsFinal(net: Net, s: Store)
    ensures VersionOf(Migrated(net, s)) >= 2
    ensures Migrated(net, Migrated(net, s)) == Migrated(net, s)
  {
    if VersionOf(s) < 2 {
      MigratedIs(net, s);
      VersionIsTwo(Migrated(net, s));
    }
  }

  // ---------- restarting from inside version 2 ----------

  /** A store version 1 has settled: every named room key holds its last claimant. */
  ghost predicate Settled(net: Net, s: Store) {
    UsersSettled(net, s) && AfterPhase(Channels, net, s) == s
  }

  lemma SettledClaim(net: Net, s: Store, r: string)
    requires Settled(net, s)
    ensures var last := LastClaim(Channels, net, s, Listed(s, ChannelKind), RoomMapping(r));
            last.Some? ==> Val(s, RoomMapping(r)) == last
  {
    PhaseReached(Channels, net, s);
    assert Val(s, RoomMapping(r)) == DoneVal(Channels, net, s, Listed(s, ChannelKind), RoomMapping(r));
  }

  /** What a restart's version 1 makes of a partly moved store. */
  lemma RestartVal(net: Net, s: Store, x: Store, k: Key)
    requires Settled(net, s) && Mid(net, s, x)
    ensures var last := LastClaim(Channels, net, x, Listed(x, ChannelKind), k);
            Val(Loops1(net, x), k) == if k.RoomMapping? && last.Some? then last else Val(x, k)
  {
    SettledTransfers(net, s, x);
    PhaseReached(Channels, net, x);
    assert Val(Loops1(net, x), k) == DoneVal(Channels, net, x, Listed(x, ChannelKind), k);
    LastClaimIsGreatest(Channels, net, x, Listed(x, ChannelKind), k);
  }

  /** The condition for a settled store: its own reverse values decide. */
  ghost predicate SettledSafe(net: Net, s: Store) {
    forall ch, r :: NewDM(s, ch) && Names(net, s[LegacyDM(ch)], r) ==>
      MovedVal(net, s, RoomMapping(r)) == Some(ch) || LaterClaim(net, s, ch, r)
  }

  /** Under the condition, the claimant a restart picks is the one the room ends with anyway. */
  lemma RestartClaim(net: Net, s: Store, x: Store, r: string, g: string)
    requires Regular(s) && Settled(net, s) && SettledSafe(net, s) && Mid(net, s, x)
    requires LastClaim(Channels, net, x, Listed(x, ChannelKind), RoomMapping(r)) == Some(g)
    ensures MovedVal(net, s, RoomMapping(r)) == Some(g) && g != ""
  {
    var k := RoomMapping(r);
    LastClaimIsGreatest(Channels, net, x, Listed(x, ChannelKind), k);
    ForwardOf(net, s, x, g);
    if ChannelMapping(g) in s {
      OldClaimantWins(net, s, x, r, g);
    } else if LaterClaim(net, s, g, r) {
      var later :| ChannelMapping(later) in s && Names(net, s[ChannelMapping(later)], r) && Below(g, later);
      ForwardOf(net, s, x, later);
      assert Build(ChannelKind, later) == ChannelMapping(later);
      assert later in Listed(x, ChannelKind) && Claims(Channels, net, x, later, k);
      BelowTotal(g, later);
    }
  }

  lemma ForwardOf(net: Net, s: Store, x: Store, ch: string)
    requires Regular(s) && Mid(net, s, x)
    ensures ChannelMapping(ch) in s ==> Val(x, ChannelMapping(ch)) == Val(s, ChannelMapping(ch))
    ensures ChannelMapping(ch) !in s && ChannelMapping(ch) in x ==>
              NewDM(s, ch) && ch != "" && Val(x, ChannelMapping(ch)) == Val(s, LegacyDM(ch))
  {
    assert Val(x, ChannelMapping(ch)) == Val(s, ChannelMapping(ch))
        || Val(x, ChannelMapping(ch)) == MovedVal(net, s, ChannelMapping(ch));
  }

  lemma OldClaimantWins(net: Net, s: Store, x: Store, r: string, g: string)
    requires Regular(s) && Settled(net, s) && Mid(net, s, x) && ChannelMapping(g) in s
    requires LastClaim(Channels, net, x, Listed(x, ChannelKind), RoomMapping(r)) == Some(g)
    ensures Val(s, RoomMapping(r)) == Some(g) && g != ""
  {
    var k := RoomMapping(r);
    LastClaimIsGreatest(Channels, net, x, Listed(x, ChannelKind), k);
    LastClaimIsGreatest(Channels, net, s, Listed(s, ChannelKind), k);
    SettledClaim(net, s, r);
    ForwardOf(net, s, x, g);
    assert Build(ChannelKind, g) == ChannelMapping(g);
    assert g in Listed(s, ChannelKind) && Claims(Channels, net, s, g, k);
    var last := LastClaim(Channels, net, s, Listed(s, ChannelKind), k).value;
    assert Build(ChannelKind, last) == ChannelMapping(last);
    ForwardOf(net, s, x, last);
    assert last in Listed(x, ChannelKind) && Claims(Channels, net, x, last, k);
    BelowTotal(g, last);
  }

  /** Under the condition, a restart's version 1 leaves a partly moved store partly moved. */
  lemma RestartStaysMid(net: Net, s: Store, x: Store)
    requires Regular(s) && Settled(net, s) && SettledSafe(net, s) && Mid(net, s, x)
    ensures Mid(net, s, Loops1(net, x))
  {
    var y := Loops1(net, x);
    forall k ensures Val(y, k) == Val(x, k)
      || (k.RoomMapping? && Val(y, k) == MovedVal(net, s, k) && !Blank(Val(y, k))) {
      RestartVal(net, s, x, k);
      if k.RoomMapping? {
        var last := LastClaim(Channels, net, x, Listed(x, ChannelKind), k);
        if last.Some? { RestartClaim(net, s, x, k.id, last.value); }
      }
    }
    MidSurvivesRooms(net, s, x, y);
  }

  lemma MidSurvivesRooms(net: Net, s: Store, x: Store, y: Store)
    requires Mid(net, s, x)
    requires forall k :: Val(y, k) == Val(x, k)
               || (k.RoomMapping? && Val(y, k) == MovedVal(net, s, k) && !Blank(Val(y, k)))
    ensures Mid(net, s, y)
  {
    forall ch | LegacyDM(ch) in s && LegacyDM(ch) !in y
      ensures Val(y, ChannelMapping(ch)) == MovedVal(net, s, ChannelMapping(ch))
      ensures !Blank(Val(y, RoomMapping(s[LegacyDM(ch)])))
    {
      assert Val(y, LegacyDM(ch)) == Val(x, LegacyDM(ch));
    }
    forall q | LegacyMatrixDM(q) in s && LegacyMatrixDM(q) !in y
      ensures Val(y, RoomMapping(q)) == MovedVal(net, s, RoomMapping(q))
    {
      assert Val(y, LegacyMatrixDM(q)) == Val(x, LegacyMatrixDM(q));
    }
  }
}
