/**
  Why one page matters (server/migrations.go): the legacy loops delete while they page by number, so with more than
  one page of keys a restart goes on where an uninterrupted run stops.
*/
module MigrationPages {
  import opened Keys
  import opened Listing
  import opened MigrationSpec
  import opened MigrationEffects
  import opened MigrationResults
  import opened MigrationCrash
  import opened MigrationRestart
  import opened MigrationChains

  ghost predicate OnePage(s: Store) {
    |Listed(s, DMKind)| <= BATCH_SIZE && |Listed(s, MatrixDMKind)| <= BATCH_SIZE
  }

  // ---------- keys a loop does not touch ----------

  predicate Foreign(ph: Phase, k: Key) {
    match ph
    case Users => !k.MattermostUser?
    case Channels => !k.RoomMapping?
    case DMs => !k.ChannelMapping? && !k.RoomMapping? && !k.LegacyDM?
    case MatrixDMs => !k.RoomMapping? && !k.LegacyMatrixDM?
  }

  lemma EntryUntouched(ph: Phase, net: Net, kv: Store, id: string, k: Key)
    requires Foreign(ph, k)
    ensures Val(ApplyAll(kv, EntryWrites(ph, net, kv, id)), k) == Val(kv, k)
  {
    hide EntryWrites;
    EntryWritesOf(ph, net, kv, id);
    Untouched(kv, EntryWrites(ph, net, kv, id), k);
  }

  lemma {:induction false} EntriesUntouched(ph: Phase, net: Net, kv: Store, ids: seq<string>, k: Key)
    requires Foreign(ph, k)
    ensures Val(ApplyAll(kv, EntriesWrites(ph, net, kv, ids)), k) == Val(kv, k)
    decreases |ids|
  {
    hide EntryWrites, Foreign;
    if ids == [] {
      Apply0(kv);
    } else {
      var w := EntryWrites(ph, net, kv, ids[0]);
      EntryUntouched(ph, net, kv, ids[0], k);
      EntriesUntouched(ph, net, ApplyAll(kv, w), ids[1..], k);
      ApplyAppend(kv, w, EntriesWrites(ph, net, ApplyAll(kv, w), ids[1..]));
    }
  }

  lemma {:induction false} PagedUntouched(ph: Phase, net: Net, kv: Store, page: nat, k: Key)
    requires Foreign(ph, k)
    ensures Val(ApplyAll(kv, PagedWrites(ph, net, kv, page)), k) == Val(kv, k)
    decreases Remaining(kv, PhaseKind(ph), page)
  {
    hide EntriesWrites, ApplyAll, Foreign, PagedWrites;
    var ids := Page(Listed(kv, PhaseKind(ph)), page, BATCH_SIZE);
    var w := EntriesWrites(ph, net, kv, ids);
    EntriesUntouched(ph, net, kv, ids, k);
    if |ids| == BATCH_SIZE {
      PageProgress(ph, net, kv, page);
      PagedUntouched(ph, net, ApplyAll(kv, w), page + 1, k);
      PagedUnfolds(ph, net, kv, page);
      ApplyAppend(kv, w, PagedWrites(ph, net, ApplyAll(kv, w), page + 1));
    } else {
      PagedEnds(ph, net, kv, page);
    }
  }

  lemma PhaseUntouched(ph: Phase, net: Net, kv: Store, k: Key)
    requires Foreign(ph, k)
    ensures Val(AfterPhase(ph, net, kv), k) == Val(kv, k)
  {
    hide PagedWrites, ApplyAll;
    PagedUntouched(ph, net, kv, 0, k);
  }

  lemma SameVersion(net: Net, s: Store)
    ensures VersionOf(AfterVersion1(net, s)) == VersionOf(s)
    ensures VersionOf(AfterVersion2(net, s)) == VersionOf(s)
  {
    hide AfterPhase;
    var s1 := AfterPhase(Users, net, s);
    PhaseUntouched(Users, net, s, StoreVersion);
    PhaseUntouched(Channels, net, s1, StoreVersion);
    PhaseUntouched(DMs, net, s, StoreVersion);
    PhaseUntouched(MatrixDMs, net, AfterPhase(DMs, net, s), StoreVersion);
  }

  // ---------- one legacy prefix ----------

  /** The store that the loop over a legacy prefix starts from. */
  ghost function Before(ph: Phase, net: Net, s: Store): Store
    requires ph.DMs? || ph.MatrixDMs?
  {
    var s1 := AfterVersion1(net, s);
    if ph.DMs? then s1 else AfterPhase(DMs, net, s1)
  }

  lemma LegacyUntilThen(ph: Phase, net: Net, s: Store, id: string)
    requires ph.DMs? || ph.MatrixDMs?
    ensures Val(Before(ph, net, s), Build(PhaseKind(ph), id)) == Val(s, Build(PhaseKind(ph), id))
  {
    hide AfterPhase;
    var k := Build(PhaseKind(ph), id);
    PhaseUntouched(Users, net, s, k);
    PhaseUntouched(Channels, net, AfterPhase(Users, net, s), k);
    if ph.MatrixDMs? { PhaseUntouched(DMs, net, AfterVersion1(net, s), k); }
  }

  lemma ListingUntilThen(ph: Phase, net: Net, s: Store)
    requires ph.DMs? || ph.MatrixDMs?
    ensures Listed(Before(ph, net, s), PhaseKind(ph)) == Listed(s, PhaseKind(ph))
  {
    hide Before;
    forall id ensures Val(Before(ph, net, s), Build(PhaseKind(ph), id)) == Val(s, Build(PhaseKind(ph), id)) {
      LegacyUntilThen(ph, net, s, id);
    }
    SameListingKept(ph, Before(ph, net, s), s);
  }

  /** Nothing touches the prefix after its loop. */
  lemma LegacyAtEnd(ph: Phase, net: Net, s: Store, id: string)
    requires (ph.DMs? || ph.MatrixDMs?) && VersionOf(s) < 2
    ensures var k := Build(PhaseKind(ph), id);
            Val(Migrated(net, s), k) == Val(AfterPhase(ph, net, Before(ph, net, s)), k)
  {
    hide AfterPhase, Migrated, AfterVersion1, VersionOf, AfterVersion2, ApplyAll, Before;
    var s1, k := AfterVersion1(net, s), Build(PhaseKind(ph), id);
    MigratedIs(net, s);
    MarkerElsewhere(AfterVersion2(net, s1), k);
    LegacyAfterLoop(ph, net, s, id);
  }

  lemma MarkerElsewhere(x: Store, k: Key)
    requires !k.StoreVersion?
    ensures Val(x[StoreVersion := "2"], k) == Val(x, k)
  {
  }

  lemma LegacyAfterLoop(ph: Phase, net: Net, s: Store, id: string)
    requires ph.DMs? || ph.MatrixDMs?
    ensures var k := Build(PhaseKind(ph), id);
            Val(AfterVersion2(net, AfterVersion1(net, s)), k) == Val(AfterPhase(ph, net, Before(ph, net, s)), k)
  {
    hide AfterPhase, AfterVersion1;
    if ph.DMs? { PhaseUntouched(MatrixDMs, net, AfterPhase(DMs, net, AfterVersion1(net, s)), LegacyDM(id)); }
  }

  lemma PagesAddNoIds(ph: Phase, net: Net, kv: Store, page: nat)
    requires ph.DMs? || ph.MatrixDMs?
    ensures Ids(ApplyAll(kv, PagedWrites(ph, net, kv, page)), PhaseKind(ph)) <= Ids(kv, PhaseKind(ph))
    decreases Remaining(kv, PhaseKind(ph), page)
  {
    hide EntriesWrites, ApplyAll, PagedWrites;
    var ids := Page(Listed(kv, PhaseKind(ph)), page, BATCH_SIZE);
    var w := EntriesWrites(ph, net, kv, ids);
    EntriesAddNoIds(ph, net, kv, ids);
    if |ids| == BATCH_SIZE {
      PageProgress(ph, net, kv, page);
      PagesAddNoIds(ph, net, ApplyAll(kv, w), page + 1);
      PagedUnfolds(ph, net, kv, page);
      ApplyAppend(kv, w, PagedWrites(ph, net, ApplyAll(kv, w), page + 1));
    } else {
      PagedEnds(ph, net, kv, page);
    }
  }

  /** The first key listed under a legacy prefix always goes. */
  lemma FirstGoes(ph: Phase, net: Net, kv: Store)
    requires (ph.DMs? || ph.MatrixDMs?) && Listed(kv, PhaseKind(ph)) != []
    ensures Build(PhaseKind(ph), Listed(kv, PhaseKind(ph))[0]) !in AfterPhase(ph, net, kv)
  {
    hide EntriesWrites, ApplyAll, PagedWrites;
    var ids := Page(Listed(kv, PhaseKind(ph)), 0, BATCH_SIZE);
    assert ids[0] == Listed(kv, PhaseKind(ph))[0];
    var kv1 := ApplyAll(kv, EntriesWrites(ph, net, kv, ids));
    EntriesRemove(ph, net, kv, ids);
    assert ids[0] !in Ids(kv1, PhaseKind(ph));
    if |ids| == BATCH_SIZE {
      PagedUnfolds(ph, net, kv, 0);
      ApplyAppend(kv, EntriesWrites(ph, net, kv, ids), PagedWrites(ph, net, kv1, 1));
      PagesAddNoIds(ph, net, kv1, 1);
    } else {
      PagedEnds(ph, net, kv, 0);
    }
  }

  // ---------- a crash just before the marker ----------

  lemma LastCut(net: Net, s: Store)
    requires VersionOf(s) < 2
    ensures var n := |Plan(net, s)| - 1;
            && n >= 0 && Crashed(net, s, n) == AfterVersion2(net, AfterVersion1(net, s))
            && Migrated(net, s) == Crashed(net, s, n)[StoreVersion := "2"]
  {
    hide PhaseWrites, AfterPhase, VersionOf;
    var s1 := AfterVersion1(net, s);
    var v1, v2 := Version1Writes(net, s), Version2Writes(net, s1);
    MigratedIs(net, s);
    assert Plan(net, s) == v1 + v2 + [VERSION_WRITE];
    var n := |v1| + |v2|;
    assert Plan(net, s)[..n] == v1 + v2;
    ApplyAppend(s, v1, v2);
    Version2Is(net, s1);
  }

  lemma Version2Is(net: Net, s: Store)
    ensures ApplyAll(s, Version2Writes(net, s)) == AfterVersion2(net, s)
  {
    hide PhaseWrites;
    ApplyAppend(s, PhaseWrites(DMs, net, s), PhaseWrites(MatrixDMs, net, AfterPhase(DMs, net, s)));
  }

  /** With more than one page under a legacy prefix, a crash just before the marker and a restart move more keys. */
  lemma MorePagesUnsafe(ph: Phase, net: Net, s: Store)
    requires (ph.DMs? || ph.MatrixDMs?) && VersionOf(s) < 2 && |Listed(s, PhaseKind(ph))| > BATCH_SIZE
    ensures !CrashSafe(net, s)
  {
    hide Plan, Crashed, Migrated, AfterVersion1, AfterVersion2, Before, AfterPhase, VersionOf;
    var n := |Plan(net, s)| - 1;
    LastCut(net, s);
    var x := Crashed(net, s, n);
    SameVersion(net, s);
    SameVersion(net, AfterVersion1(net, s));
    var k := LeftOver(ph, net, s, x);
    LegacyAtEnd(ph, net, x, k);
    ListingUntilThen(ph, net, x);
    FirstGoes(ph, net, Before(ph, net, x));
    assert Val(Migrated(net, x), Build(PhaseKind(ph), k)).None?;
    assert Val(Migrated(net, s), Build(PhaseKind(ph), k)).Some?;
    assert Migrated(net, Crashed(net, s, n)) != Migrated(net, s);
  }

  /** The first key left under the prefix. */
  lemma LeftOver(ph: Phase, net: Net, s: Store, x: Store) returns (k: string)
    requires (ph.DMs? || ph.MatrixDMs?) && VersionOf(s) < 2 && |Listed(s, PhaseKind(ph))| > BATCH_SIZE
    requires Migrated(net, s) == x[StoreVersion := "2"]
    ensures Listed(x, PhaseKind(ph)) != [] && k == Listed(x, PhaseKind(ph))[0]
    ensures Build(PhaseKind(ph), k) in Migrated(net, s)
  {
    hide Migrated, Before, AfterPhase, VersionOf;
    ListingUntilThen(ph, net, s);
    LegacyClearedIff(ph, net, Before(ph, net, s));
    var id :| Build(PhaseKind(ph), id) in AfterPhase(ph, net, Before(ph, net, s));
    LegacyAtEnd(ph, net, s, id);
    assert Build(PhaseKind(ph), id) in x;
    assert id in Listed(x, PhaseKind(ph));
    k := Listed(x, PhaseKind(ph))[0];
    assert Build(PhaseKind(ph), k) in x;
  }

  // ---------- the conditions at any size ----------

  /** No legacy or mapped channel with an empty ID, and no empty forward mapping that a legacy entry would fill. */
  ghost predicate Named(s: Store) {
    LegacyDM("") !in s && forall ch :: ChannelMapping(ch) in s ==> ch != "" && ForwardStays(s, ch)
  }

  /**
    Whatever the number of legacy keys: an interrupted migration from version 0 can be restarted anywhere with the
    same result if and only if each legacy prefix holds at most one page and every new DM's rooms are safe.
  */
  lemma CrashSafeIffAnySize(net: Net, s: Store)
    requires VersionOf(s) < 1 && Named(s)
    ensures CrashSafe(net, s) <==> OnePage(s) && RestartSafe(net, s)
  {
    hide CrashSafe, RestartSafe, VersionOf;
    if OnePage(s) {
      assert Regular(s);
      CrashSafeIff(net, s);
    } else if |Listed(s, DMKind)| > BATCH_SIZE {
      MorePagesUnsafe(DMs, net, s);
    } else {
      MorePagesUnsafe(MatrixDMs, net, s);
    }
  }

  /** From version 1 the number of legacy keys alone decides. */
  lemma CrashSafeFromVersion1Iff(net: Net, s: Store)
    requires VersionOf(s) == 1 && LegacyDM("") !in s
    ensures CrashSafe(net, s) <==> OnePage(s)
  {
    hide CrashSafe, VersionOf;
    if OnePage(s) {
      CrashSafeFromVersion1(net, s);
    } else if |Listed(s, DMKind)| > BATCH_SIZE {
      MorePagesUnsafe(DMs, net, s);
    } else {
      MorePagesUnsafe(MatrixDMs, net, s);
    }
  }

  /** One interruption decides: a store from which every one can be survived survives any number of them. */
  lemma AnyCrashesIff(net: Net, s: Store)
    requires VersionOf(s) < 2 && if VersionOf(s) < 1 then Named(s) else LegacyDM("") !in s
    ensures (forall stores :: stores != [] && stores[0] == s && Crashes(net, stores) ==>
               Migrated(net, stores[|stores| - 1]) == Migrated(net, s))
            <==> CrashSafe(net, s)
  {
    hide VersionOf, Migrated, Plan, Crashed, Crashes;
    if CrashSafe(net, s) {
      assert Restartable(net, s) by { CrashSafeIsRestartable(net, s); }
      hide Restartable;
      forall stores | stores != [] && stores[0] == s && Crashes(net, stores)
        ensures Migrated(net, stores[|stores| - 1]) == Migrated(net, s)
      {
        AnyCrashesThenComplete(net, stores);
      }
    } else {
      var n :| 0 <= n <= |Plan(net, s)| && Migrated(net, Crashed(net, s, n)) != Migrated(net, s);
      OneCrashIsCrashes(net, s, n);
    }
  }

  lemma CrashSafeIsRestartable(net: Net, s: Store)
    requires CrashSafe(net, s)
    requires VersionOf(s) < 2 && if VersionOf(s) < 1 then Named(s) else LegacyDM("") !in s
    ensures Restartable(net, s)
  {
    hide CrashSafe, RestartSafe;
    if VersionOf(s) < 1 {
      CrashSafeIffAnySize(net, s);
    } else {
      CrashSafeFromVersion1Iff(net, s);
    }
    hide VersionOf;
  }

  lemma OneCrashIsCrashes(net: Net, s: Store, n: nat)
    requires n <= |Plan(net, s)|
    ensures Crashes(net, [s, Crashed(net, s, n)])
  {
    hide Plan, Crashed;
    assert CrashOf(net, s, Crashed(net, s, n));
  }
}
