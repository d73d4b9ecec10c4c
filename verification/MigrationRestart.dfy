/** Exactly when a crashed migration can be restarted (server/migrations.go). */
module MigrationRestart {
  import opened Prelude
  import opened Keys
  import opened Listing
  import opened MigrationSpec
  import opened MigrationEffects
  import opened MigrationResults
  import opened MigrationCrash

  // ---------- the condition before and after version 1 ----------

  lemma Loops1KeepsListing(net: Net, s: Store, kind: Kind)
    requires !kind.MattermostUserKind? && !kind.RoomKind?
    ensures Listed(Loops1(net, s), kind) == Listed(s, kind)
  {
    forall id ensures Build(kind, id) in Loops1(net, s) <==> Build(kind, id) in s {
      Loops1Keeps(net, s, Build(kind, id));
    }
    SameListing(Loops1(net, s), s, kind);
  }

  lemma RegularKept(net: Net, s: Store)
    ensures SmallLegacy(s) ==> SmallLegacy(Loops1(net, s))
    ensures Regular(s) ==> Regular(Loops1(net, s))
  {
    Loops1KeepsListing(net, s, DMKind);
    Loops1KeepsListing(net, s, MatrixDMKind);
    Loops1Keeps(net, s, LegacyDM(""));
    forall ch
      ensures Val(Loops1(net, s), ChannelMapping(ch)) == Val(s, ChannelMapping(ch))
      ensures Val(Loops1(net, s), LegacyDM(ch)) == Val(s, LegacyDM(ch))
    {
      Loops1Keeps(net, s, ChannelMapping(ch));
      Loops1Keeps(net, s, LegacyDM(ch));
    }
    hide Loops1;
    SameRegular(s, Loops1(net, s));
  }

  lemma SameRegular(s: Store, x: Store)
    requires forall ch :: Val(x, ChannelMapping(ch)) == Val(s, ChannelMapping(ch))
               && Val(x, LegacyDM(ch)) == Val(s, LegacyDM(ch))
    requires |Listed(x, DMKind)| == |Listed(s, DMKind)| && |Listed(x, MatrixDMKind)| == |Listed(s, MatrixDMKind)|
    ensures SmallLegacy(s) ==> SmallLegacy(x)
    ensures Regular(s) ==> Regular(x)
  {
    assert Val(x, LegacyDM("")) == Val(s, LegacyDM(""));
    forall ch | Regular(s) && ChannelMapping(ch) in x ensures ch != "" && ForwardStays(x, ch) {
      assert Val(x, ChannelMapping(ch)) == Val(s, ChannelMapping(ch));
      assert ForwardStays(s, ch);
      assert Val(x, LegacyDM(ch)) == Val(s, LegacyDM(ch));
    }
  }

  /** The final reverse entries, computed from the store before version 1. */
  lemma FinalReverseIs(net: Net, s: Store, r: string)
    ensures MovedVal(net, Loops1(net, s), RoomMapping(r)) == FinalReverse(net, s, r)
  {
    hide Loops1, FirstDM, LastClaim;
    var s1 := Loops1(net, s);
    forall ch ensures Val(s1, LegacyDM(ch)) == Val(s, LegacyDM(ch)) { Loops1Keeps(net, s, LegacyDM(ch)); }
    Loops1Keeps(net, s, LegacyMatrixDM(r));
    SameFirstDM(net, s1, s, r);
    Loops1Room(net, s, r);
  }

  lemma Loops1Room(net: Net, s: Store, r: string)
    ensures var last := LastClaim(Channels, net, s, Listed(s, ChannelKind), RoomMapping(r));
            Val(Loops1(net, s), RoomMapping(r)) == if last.Some? then last else Val(s, RoomMapping(r))
  {
    var u := AfterPhase(Users, net, s);
    var k := RoomMapping(r);
    PhaseReached(Channels, net, u);
    assert Val(Loops1(net, s), k) == DoneVal(Channels, net, u, Listed(u, ChannelKind), k);
    forall id ensures Val(u, Build(ChannelKind, id)) == Val(s, Build(ChannelKind, id)) {
      OnlyReverseKeysChange(Users, net, s, Build(ChannelKind, id));
    }
    SameListingKept(Channels, u, s);
    ClaimsDependOnListed(Channels, net, u, s, Listed(s, ChannelKind), k);
    OnlyReverseKeysChange(Users, net, s, k);
  }

  lemma SafeIffSettledSafe(net: Net, s: Store)
    ensures RestartSafe(net, s) <==> SettledSafe(net, Loops1(net, s))
  {
    var s1 := Loops1(net, s);
    forall ch
      ensures Val(s1, LegacyDM(ch)) == Val(s, LegacyDM(ch)) && Val(s1, ChannelMapping(ch)) == Val(s, ChannelMapping(ch))
      ensures NewDM(s1, ch) <==> NewDM(s, ch)
      ensures NewDM(s, ch) ==> s1[LegacyDM(ch)] == s[LegacyDM(ch)]
    {
      Loops1Keeps(net, s, LegacyDM(ch));
      Loops1Keeps(net, s, ChannelMapping(ch));
    }
    forall ch, r ensures LaterClaim(net, s1, ch, r) <==> LaterClaim(net, s, ch, r) {
      SameLaterClaim(net, s, s1, ch, r);
      SameLaterClaim(net, s1, s, ch, r);
    }
    forall r ensures MovedVal(net, s1, RoomMapping(r)) == FinalReverse(net, s, r) {
      FinalReverseIs(net, s, r);
    }
  }

  lemma SameLaterClaim(net: Net, a: Store, b: Store, ch: string, r: string)
    requires forall g :: Val(a, ChannelMapping(g)) == Val(b, ChannelMapping(g))
    ensures LaterClaim(net, a, ch, r) ==> LaterClaim(net, b, ch, r)
  {
    if LaterClaim(net, a, ch, r) {
      var g :| ChannelMapping(g) in a && Names(net, a[ChannelMapping(g)], r) && Below(ch, g);
      assert Val(a, ChannelMapping(g)) == Val(b, ChannelMapping(g));
    }
  }

  // ---------- the condition suffices ----------

  lemma CrashInVersion1(net: Net, s: Store, n: nat)
    requires VersionOf(s) < 1 && n <= |Version1Writes(net, s)|
    ensures Migrated(net, ApplyAll(s, Version1Writes(net, s)[..n])) == Migrated(net, s)
  {
    Loops1Restart(net, s, n);
    MigratedIs(net, s);
    MigratedIs(net, ApplyAll(s, Version1Writes(net, s)[..n]));
  }

  lemma MidKeepsVersion(net: Net, s: Store, x: Store)
    requires Mid(net, s, x)
    ensures VersionOf(x) == VersionOf(s)
  {
    assert Val(x, StoreVersion) == Val(s, StoreVersion);
  }

  lemma Loops1KeepsVersion(net: Net, s: Store)
    ensures VersionOf(Loops1(net, s)) == VersionOf(s)
  {
    Loops1Keeps(net, s, StoreVersion);
  }

  lemma CrashInVersion2(net: Net, s: Store, x: Store)
    requires VersionOf(s) < 1 && Regular(s) && RestartSafe(net, s) && Mid(net, Loops1(net, s), x)
    ensures Migrated(net, x) == Migrated(net, s)
  {
    var s1 := Loops1(net, s);
    Loops1Settled(net, s);
    RegularKept(net, s);
    SafeIffSettledSafe(net, s);
    RestartStaysMid(net, s1, x);
    MidFinishes(net, s1, Loops1(net, x));
    MidKeepsVersion(net, s1, x);
    Loops1KeepsVersion(net, s);
    MigratedIs(net, s);
    MigratedIs(net, x);
  }

  lemma SafeSuffices(net: Net, s: Store, n: nat)
    requires VersionOf(s) < 1 && Regular(s) && RestartSafe(net, s) && n <= |Plan(net, s)|
    ensures Migrated(net, Crashed(net, s, n)) == Migrated(net, s)
  {
    hide Migrated, Crashed, Plan, Version1Writes, Version2Writes, AfterVersion1, RestartSafe, Regular, VersionOf,
         ApplyAll;
    CrashCases(net, s, n);
    if n <= |Version1Writes(net, s)| {
      CrashInVersion1(net, s, n);
    } else if n < |Plan(net, s)| {
      SafeInVersion2(net, s, n - |Version1Writes(net, s)|);
    } else {
      MigratedIsFinal(net, s);
    }
  }

  lemma SafeInVersion2(net: Net, s: Store, n: nat)
    requires VersionOf(s) < 1 && Regular(s) && RestartSafe(net, s)
    requires n <= |Version2Writes(net, AfterVersion1(net, s))|
    ensures Migrated(net, ApplyAll(AfterVersion1(net, s), Version2Writes(net, AfterVersion1(net, s))[..n]))
         == Migrated(net, s)
  {
    assert AfterVersion1(net, s) == Loops1(net, s) by { MigratedIs(net, s); }
    assert SmallLegacy(Loops1(net, s)) by { RegularKept(net, s); }
    Version2PrefixMid(net, Loops1(net, s), n);
    CrashInVersion2(net, s, ApplyAll(Loops1(net, s), Version2Writes(net, Loops1(net, s))[..n]));
  }

  // ---------- the condition is necessary ----------

  /** The store just after the forward mapping of a new DM is written. */
  lemma ForwardWritten(net: Net, s: Store, ch: string) returns (n: nat, i: nat, kv: Store)
    requires SmallLegacy(s) && NewDM(s, ch)
    ensures n <= |Version2Writes(net, s)| && i < |Listed(s, DMKind)| && Listed(s, DMKind)[i] == ch
    ensures Reached(DMs, net, s, Listed(s, DMKind)[..i], kv)
    ensures ApplyAll(s, Version2Writes(net, s)[..n]) == kv[ChannelMapping(ch) := s[LegacyDM(ch)]]
  {
    hide EntriesWrites, EntryWrites, ApplyAll, After, PhaseWrites, AfterPhase, Reached;
    var ids := Listed(s, DMKind);
    assert ch in ids by { assert Build(DMKind, ch) == LegacyDM(ch); }
    i :| 0 <= i < |ids| && ids[i] == ch;
    kv := After(DMs, net, s, ids, i);
    AfterReached(DMs, net, s, i);
    ForwardFirst(net, s, ids[..i], kv, ch, i);
    EntryStarts(net, s, ids, i);
    n := |EntriesWrites(DMs, net, s, ids[..i])| + 1;
    PhaseWritesAll(DMs, net, s);
    PrefixWithin(PhaseWrites(DMs, net, s), PhaseWrites(MatrixDMs, net, AfterPhase(DMs, net, s)), n);
  }

  /** The first write of entry i comes right after the writes of the entries before it. */
  lemma EntryStarts(net: Net, s: Store, ids: seq<string>, i: nat)
    requires i < |ids| && EntryWrites(DMs, net, After(DMs, net, s, ids, i), ids[i]) != []
    ensures var kv, n := After(DMs, net, s, ids, i), |EntriesWrites(DMs, net, s, ids[..i])| + 1;
            n <= |EntriesWrites(DMs, net, s, ids)|
            && ApplyAll(s, EntriesWrites(DMs, net, s, ids)[..n]) == Apply(kv, EntryWrites(DMs, net, kv, ids[i])[0])
  {
    hide EntryWrites;
    var kv := After(DMs, net, s, ids, i);
    var head := EntriesWrites(DMs, net, s, ids[..i]);
    var w := EntryWrites(DMs, net, kv, ids[i]);
    var tail := EntriesWrites(DMs, net, ApplyAll(kv, w), ids[i..][1..]);
    assert ids == ids[..i] + ids[i..] && ids[i..][0] == ids[i];
    EntriesAppend(DMs, net, s, ids[..i], ids[i..]);
    assert EntriesWrites(DMs, net, s, ids) == head + (w + tail);
    PrefixBeyond(s, head, w + tail, |head| + 1);
    assert (w + tail)[..1] == [w[0]];
    Apply1(kv, w[0]);
  }

  lemma ForwardFirst(net: Net, s: Store, done: seq<string>, kv: Store, ch: string, i: nat)
    requires SmallLegacy(s) && NewDM(s, ch) && Reached(DMs, net, s, done, kv)
    requires i < |Listed(s, DMKind)| && Listed(s, DMKind)[i] == ch && done == Listed(s, DMKind)[..i]
    ensures EntryWrites(DMs, net, kv, ch) != []
    ensures EntryWrites(DMs, net, kv, ch)[0] == Put(Forward, ChannelMapping(ch), s[LegacyDM(ch)])
  {
    forall j | 0 <= j < i ensures done[j] != ch { IncreasingDistinct(Listed(s, DMKind), j, i); }
    NoDMClaim(net, s, done, LegacyDM(ch));
    NoDMClaim(net, s, done, ChannelMapping(ch));
    assert Val(kv, LegacyDM(ch)) == DoneVal(DMs, net, s, done, LegacyDM(ch)) == Val(s, LegacyDM(ch));
    assert Val(kv, ChannelMapping(ch)) == DoneVal(DMs, net, s, done, ChannelMapping(ch)) == None;
  }

  /** There the new DM is the last claimant of its rooms, unless a mapped channel is listed later. */
  lemma NewDMClaimsLast(net: Net, s: Store, ch: string, r: string, i: nat, kv: Store)
    requires Regular(s) && NewDM(s, ch) && Names(net, s[LegacyDM(ch)], r) && !LaterClaim(net, s, ch, r)
    requires i < |Listed(s, DMKind)| && Listed(s, DMKind)[i] == ch && Reached(DMs, net, s, Listed(s, DMKind)[..i], kv)
    ensures var x := kv[ChannelMapping(ch) := s[LegacyDM(ch)]];
            LastClaim(Channels, net, x, Listed(x, ChannelKind), RoomMapping(r)) == Some(ch)
  {
    var x := kv[ChannelMapping(ch) := s[LegacyDM(ch)]];
    var k := RoomMapping(r);
    LastClaimIsGreatest(Channels, net, x, Listed(x, ChannelKind), k);
    assert Build(ChannelKind, ch) == ChannelMapping(ch) && Claims(Channels, net, x, ch, k);
    var last := LastClaim(Channels, net, x, Listed(x, ChannelKind), k).value;
    assert Build(ChannelKind, last) == ChannelMapping(last);
    if last != ch {
      ForwardSoFar(net, s, i, kv, last);
      BelowTotal(ch, last);
    }
  }

  lemma ForwardSoFar(net: Net, s: Store, i: nat, kv: Store, g: string)
    requires i < |Listed(s, DMKind)| && Reached(DMs, net, s, Listed(s, DMKind)[..i], kv)
    requires ChannelMapping(g) in s ==> ForwardStays(s, g)
    requires ChannelMapping(g) in kv
    ensures ChannelMapping(g) in s ==> kv[ChannelMapping(g)] == s[ChannelMapping(g)]
    ensures ChannelMapping(g) !in s ==> Below(g, Listed(s, DMKind)[i])
  {
    var done := Listed(s, DMKind)[..i];
    NoDMClaim(net, s, done, ChannelMapping(g));
    assert Val(kv, ChannelMapping(g)) == DoneVal(DMs, net, s, done, ChannelMapping(g));
  }

  /** A crash at that point shows whether the room's entry survives a restart. */
  lemma SafeIsNecessary(net: Net, s: Store, ch: string, r: string)
    requires VersionOf(s) < 1 && Regular(s) && CrashSafe(net, s)
    requires NewDM(Loops1(net, s), ch) && Names(net, Loops1(net, s)[LegacyDM(ch)], r)
    requires !LaterClaim(net, Loops1(net, s), ch, r)
    ensures MovedVal(net, Loops1(net, s), RoomMapping(r)) == Some(ch)
  {
    var s1 := Loops1(net, s);
    RegularKept(net, s);
    var n, i, kv := ForwardWritten(net, s1, ch);
    var x := ApplyAll(s1, Version2Writes(net, s1)[..n]);
    NewDMClaimsLast(net, s1, ch, r, i, kv);
    Version2PrefixMid(net, s1, n);
    RestartEndsWith(net, s, x, ch, r);
    CrashPoint(net, s, n);
    MigratedIs(net, s);
    Version2Vals(net, s1, RoomMapping(r));
    assert Val(Migrated(net, s), RoomMapping(r)) == MovedVal(net, s1, RoomMapping(r));
  }

  lemma RestartEndsWith(net: Net, s: Store, x: Store, ch: string, r: string)
    requires VersionOf(s) < 1 && Regular(s) && Mid(net, Loops1(net, s), x) && ch != ""
    requires LastClaim(Channels, net, x, Listed(x, ChannelKind), RoomMapping(r)) == Some(ch)
    ensures Val(Migrated(net, x), RoomMapping(r)) == Some(ch)
  {
    var s1 := Loops1(net, s);
    hide PhaseWrites, AfterPhase;
    assert VersionOf(x) < 1 by { MidKeepsVersion(net, s1, x); Loops1KeepsVersion(net, s); }
    assert Val(Loops1(net, x), RoomMapping(r)) == Some(ch) by {
      Loops1Settled(net, s);
      RestartVal(net, s1, x, RoomMapping(r));
    }
    assert SmallLegacy(Loops1(net, x)) by { RegularKept(net, s); MidSmall(net, s1, x); RegularKept(net, x); }
    Version2Vals(net, Loops1(net, x), RoomMapping(r));
    MigratedIs(net, x);
  }

  lemma CrashPoint(net: Net, s: Store, n: nat)
    requires VersionOf(s) < 1 && CrashSafe(net, s) && n <= |Version2Writes(net, Loops1(net, s))|
    ensures Migrated(net, ApplyAll(Loops1(net, s), Version2Writes(net, Loops1(net, s))[..n])) == Migrated(net, s)
  {
    hide Version1Writes, Version2Writes, AfterVersion1, Loops1, Migrated, VersionOf, ApplyAll, PhaseWrites;
    MigratedIs(net, s);
    PlanIs(net, s);
    var v1, v2 := Version1Writes(net, s), Version2Writes(net, Loops1(net, s));
    var at := |v1| + n;
    ThreeParts(s, v1, v2, VERSION_WRITE, at);
    assert Crashed(net, s, at) == ApplyAll(Loops1(net, s), v2[..n]);
    assert Migrated(net, Crashed(net, s, at)) == Migrated(net, s);
  }

  lemma PlanIs(net: Net, s: Store)
    requires VersionOf(s) < 1
    ensures Plan(net, s) == Version1Writes(net, s) + Version2Writes(net, AfterVersion1(net, s)) + [VERSION_WRITE]
  {
    hide Version1Writes, Version2Writes, AfterVersion1, VersionOf;
  }

  /**
    Crash-restart equivalence.  From version 0, an interrupted migration can be restarted from
    wherever it stopped, with the result of an uninterrupted run, exactly when every room key named
    by a not yet forwarded legacy DM either ends with that DM's channel or is named by a mapped
    channel listed later.
  */
  lemma CrashSafeIff(net: Net, s: Store)
    requires VersionOf(s) < 1 && Regular(s)
    ensures CrashSafe(net, s) <==> RestartSafe(net, s)
  {
    if RestartSafe(net, s) {
      forall n | 0 <= n <= |Plan(net, s)| ensures Migrated(net, Crashed(net, s, n)) == Migrated(net, s) {
        SafeSuffices(net, s, n);
      }
    }
    if CrashSafe(net, s) {
      var s1 := Loops1(net, s);
      SafeIffSettledSafe(net, s);
      forall ch, r | NewDM(s1, ch) && Names(net, s1[LegacyDM(ch)], r) && !LaterClaim(net, s1, ch, r)
        ensures MovedVal(net, s1, RoomMapping(r)) == Some(ch)
      {
        SafeIsNecessary(net, s, ch, r);
      }
    }
  }

  /** From version 1 on there is no condition: version 2 alone can always be restarted. */
  lemma CrashSafeFromVersion1(net: Net, s: Store)
    requires VersionOf(s) >= 1 && SmallLegacy(s)
    ensures CrashSafe(net, s)
  {
    forall n | 0 <= n <= |Plan(net, s)| ensures Migrated(net, Crashed(net, s, n)) == Migrated(net, s) {
      if VersionOf(s) >= 2 {
        assert Plan(net, s)[..n] == [];
      } else {
        RestartVersion2(net, s, n);
      }
    }
  }

  lemma RestartVersion2(net: Net, s: Store, n: nat)
    requires VersionOf(s) == 1 && SmallLegacy(s) && n <= |Plan(net, s)|
    ensures Migrated(net, Crashed(net, s, n)) == Migrated(net, s)
  {
    hide Crashed, Plan, Version1Writes, Version2Writes, AfterVersion1, Migrated, SmallLegacy, VersionOf;
    CrashCases(net, s, n);
    if n == |Plan(net, s)| {
      MigratedIsFinal(net, s);
    } else {
      CutPoint(net, s, n);
      CutInVersion2(net, s, n);
    }
  }

  lemma CutPoint(net: Net, s: Store, n: nat)
    requires VersionOf(s) == 1 && n < |Plan(net, s)|
    ensures n <= |Version2Writes(net, s)| && Crashed(net, s, n) == ApplyAll(s, Version2Writes(net, s)[..n])
  {
    hide Crashed, Plan, Version1Writes, Version2Writes, AfterVersion1, VersionOf, ApplyAll;
    CrashCases(net, s, n);
    OnlyVersion2(net, s);
  }

  lemma OnlyVersion2(net: Net, s: Store)
    requires VersionOf(s) == 1
    ensures Version1Writes(net, s) == [] && AfterVersion1(net, s) == s
    ensures Version2Writes(net, s)[..0] == [] && Crashed(net, s, 0) == s && ApplyAll(s, []) == s
  {
    hide PhaseWrites;
  }

  lemma CutInVersion2(net: Net, s: Store, n: nat)
    requires VersionOf(s) == 1 && SmallLegacy(s) && n <= |Version2Writes(net, s)|
    ensures Migrated(net, ApplyAll(s, Version2Writes(net, s)[..n])) == Migrated(net, s)
  {
    var x := ApplyAll(s, Version2Writes(net, s)[..n]);
    Version2PrefixMid(net, s, n);
    MidFinishes(net, s, x);
    MidKeepsVersion(net, s, x);
    hide Migrated, Version2Writes, SmallLegacy, Mid, VersionOf, AfterVersion2;
    MigratedIs(net, s);
    MigratedIs(net, x);
  }

  // ---------- instances ----------

  /** The plain case: no room of a new DM is shared, aliased or already taken by another channel. */
  ghost predicate UnsharedRooms(net: Net, s: Store) {
    forall ch :: NewDM(s, ch) ==>
      var room := s[LegacyDM(ch)];
      && !IsAlias(room)
      && (Blank(Val(s, RoomMapping(room))) || Val(s, RoomMapping(room)) == Some(ch))
      && (forall g :: ChannelMapping(g) in s ==> !Names(net, s[ChannelMapping(g)], room))
      && (forall c :: Val(s, LegacyDM(c)) == Some(room) ==> c == ch)
  }

  lemma UnsharedIsSafe(net: Net, s: Store)
    requires Regular(s) && UnsharedRooms(net, s)
    ensures RestartSafe(net, s)
  {
    forall ch, r | NewDM(s, ch) && Names(net, s[LegacyDM(ch)], r) ensures FinalReverse(net, s, r) == Some(ch) {
      var k := RoomMapping(r);
      LastClaimIsGreatest(Channels, net, s, Listed(s, ChannelKind), k);
      assert forall g :: ChannelMapping(g) == Build(ChannelKind, g);
      assert LastClaim(Channels, net, s, Listed(s, ChannelKind), k).None?;
      FirstClaimIsLeast(DMs, net, s, Listed(s, DMKind), k);
      assert Build(DMKind, ch) == LegacyDM(ch) && Claims(DMs, net, s, ch, k);
      assert forall c :: Claims(DMs, net, s, c, k) ==> Val(s, LegacyDM(c)) == Some(r);
    }
  }

  /** A channel and a not yet forwarded DM share a room: the channel's entry is lost on restart. */
  lemma SharedRoomIsUnsafe(net: Net)
    ensures var s: Store := map[ChannelMapping("a") := "!r", LegacyDM("b") := "!r"];
            Regular(s) && !CrashSafe(net, s) && FinalReverse(net, s, "!r") == Some("a")
  {
    var s: Store := map[ChannelMapping("a") := "!r", LegacyDM("b") := "!r"];
    SharedIds(s);
    SharedEndsWithChannel(net, s);
    assert NewDM(s, "b") && Names(net, s[LegacyDM("b")], "!r");
    assert !RestartSafe(net, s) by {
      hide FinalReverse;
      assert !Below("b", "a");
      assert !LaterClaim(net, s, "b", "!r");
    }
    assert VersionOf(s) == 0;
    hide RestartSafe, CrashSafe, Regular, FinalReverse, VersionOf;
    CrashSafeIff(net, s);
  }

  lemma SharedIds(s: Store)
    requires s == map[ChannelMapping("a") := "!r", LegacyDM("b") := "!r"]
    ensures Ids(s, DMKind) == {"b"} && Ids(s, MatrixDMKind) == {} && Ids(s, ChannelKind) == {"a"}
    ensures Regular(s)
  {
    assert forall id, kind :: Build(kind, id) in s <==> (kind.ChannelKind? && id == "a") || (kind.DMKind? && id == "b");
    assert Ids(s, DMKind) == {"b"} && Ids(s, MatrixDMKind) == {} && Ids(s, ChannelKind) == {"a"};
  }

  lemma SharedEndsWithChannel(net: Net, s: Store)
    requires s == map[ChannelMapping("a") := "!r", LegacyDM("b") := "!r"]
    ensures FinalReverse(net, s, "!r") == Some("a")
  {
    var k := RoomMapping("!r");
    LastClaimIsGreatest(Channels, net, s, Listed(s, ChannelKind), k);
    assert Build(ChannelKind, "a") == ChannelMapping("a");
    assert "a" in Listed(s, ChannelKind) && Claims(Channels, net, s, "a", k);
    forall g | g in Listed(s, ChannelKind) ensures g == "a" {
      assert Build(ChannelKind, g) in s;
    }
  }
}
