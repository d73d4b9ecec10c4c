/** Migrations interrupted any number of times (server/migrations.go). */
module MigrationChains {
  import opened Prelude
  import opened Keys
  import opened Listing
  import opened MigrationSpec
  import opened MigrationEffects
  import opened MigrationResults
  import opened MigrationCrash
  import opened MigrationRestart

  /**
    A store from which every interrupted run can be repeated: finished, at version 1, or from version 0 under the
    condition.
  */
  ghost predicate Restartable(net: Net, s: Store) {
    || VersionOf(s) >= 2
    || (VersionOf(s) == 1 && SmallLegacy(s))
    || (VersionOf(s) < 1 && Regular(s) && RestartSafe(net, s))
  }

  /** What a crash may have done to the keys that the condition is about. */
  ghost predicate PartlyMoved(s: Store, x: Store) {
    && (forall ch :: Val(x, LegacyDM(ch)) == Val(s, LegacyDM(ch)) || Val(x, LegacyDM(ch)).None?)
    && (forall r :: Val(x, LegacyMatrixDM(r)) == Val(s, LegacyMatrixDM(r)) || Val(x, LegacyMatrixDM(r)).None?)
    && (forall ch :: Val(x, ChannelMapping(ch)) == Val(s, ChannelMapping(ch))
                     || (Val(x, ChannelMapping(ch)) == Val(s, LegacyDM(ch)) && Blank(Val(s, ChannelMapping(ch)))
                         && LegacyDM(ch) in s))
  }

  lemma MidIsPartlyMoved(net: Net, s: Store, x: Store)
    requires Mid(net, Loops1(net, s), x)
    ensures PartlyMoved(s, x)
  {
    var s1 := Loops1(net, s);
    hide Loops1;
    forall ch
      ensures Val(s1, LegacyDM(ch)) == Val(s, LegacyDM(ch)) && Val(s1, ChannelMapping(ch)) == Val(s, ChannelMapping(ch))
      ensures Val(s1, LegacyMatrixDM(ch)) == Val(s, LegacyMatrixDM(ch))
    {
      Loops1Keeps(net, s, LegacyDM(ch));
      Loops1Keeps(net, s, ChannelMapping(ch));
      Loops1Keeps(net, s, LegacyMatrixDM(ch));
    }
    forall ch
      ensures Val(x, ChannelMapping(ch)) == Val(s, ChannelMapping(ch))
              || (Val(x, ChannelMapping(ch)) == Val(s, LegacyDM(ch)) && Blank(Val(s, ChannelMapping(ch)))
                  && LegacyDM(ch) in s)
    {
      var k := ChannelMapping(ch);
      assert k.ChannelMapping?;
      assert Val(x, k) == Val(s1, k) || Val(x, k) == MovedVal(net, s1, k);
    }
  }

  lemma Version1IsPartlyMoved(net: Net, s: Store, x: Store)
    requires Loops1(net, x) == Loops1(net, s)
    ensures PartlyMoved(s, x)
  {
    hide Loops1;
    forall k: Key | !k.MattermostUser? && !k.RoomMapping? ensures Val(x, k) == Val(s, k) {
      Loops1Keeps(net, x, k);
      Loops1Keeps(net, s, k);
    }
    forall ch ensures Val(x, LegacyDM(ch)) == Val(s, LegacyDM(ch))
      && Val(x, ChannelMapping(ch)) == Val(s, ChannelMapping(ch)) {
      assert !LegacyDM(ch).RoomMapping? && !ChannelMapping(ch).RoomMapping?;
    }
    forall r ensures Val(x, LegacyMatrixDM(r)) == Val(s, LegacyMatrixDM(r)) {
      assert !LegacyMatrixDM(r).RoomMapping?;
    }
  }

  lemma StillRegular(s: Store, x: Store)
    requires Regular(s) && PartlyMoved(s, x)
    ensures Regular(x)
  {
    assert SmallLegacy(x) by {
      assert Val(x, LegacyDM("")) == Val(s, LegacyDM("")) || Val(x, LegacyDM("")).None?;
      FewerListed(s, x, DMKind);
      FewerListed(s, x, MatrixDMKind);
    }
    hide SmallLegacy;
    forall ch | ChannelMapping(ch) in x ensures ch != "" && ForwardStays(x, ch) {
      assert SmallLegacy(s);
      StillForward(s, x, ch);
    }
  }

  lemma FewerListed(s: Store, x: Store, kind: Kind)
    requires PartlyMoved(s, x) && (kind.DMKind? || kind.MatrixDMKind?)
    ensures |Listed(x, kind)| <= |Listed(s, kind)|
  {
    forall id | id in Ids(x, kind) ensures id in Ids(s, kind) {
      assert Build(kind, id) in x;
      assert Val(x, Build(kind, id)) == Val(s, Build(kind, id));
    }
    SubsetSize(Ids(x, kind), Ids(s, kind));
  }

  lemma StillForward(s: Store, x: Store, ch: string)
    requires Regular(s) && PartlyMoved(s, x) && ChannelMapping(ch) in x
    ensures ch != "" && ForwardStays(x, ch)
  {
    assert Val(x, ChannelMapping(ch)) == Some(x[ChannelMapping(ch)]);
    assert Val(x, LegacyDM(ch)) == Val(s, LegacyDM(ch)) || Val(x, LegacyDM(ch)).None?;
    if ChannelMapping(ch) in s {
      assert ForwardStays(s, ch);
    }
  }

  /** The final reverse entry is what the finished migration holds. */
  lemma FinalIsMigrated(net: Net, s: Store, r: string)
    requires VersionOf(s) < 1 && SmallLegacy(s)
    ensures Val(Migrated(net, s), RoomMapping(r)) == FinalReverse(net, s, r)
  {
    assert SmallLegacy(Loops1(net, s)) by { RegularKept(net, s); }
    hide Loops1, Migrated, FinalReverse, VersionOf, AfterVersion2, SmallLegacy;
    MigratedIs(net, s);
    Version2Vals(net, Loops1(net, s), RoomMapping(r));
    FinalReverseIs(net, s, r);
  }

  lemma StillSafe(net: Net, s: Store, x: Store)
    requires VersionOf(s) < 1 && Regular(s) && RestartSafe(net, s)
    requires VersionOf(x) < 1 && PartlyMoved(s, x) && Migrated(net, x) == Migrated(net, s)
    ensures Regular(x) && RestartSafe(net, x)
  {
    StillRegular(s, x);
    forall r ensures FinalReverse(net, x, r) == FinalReverse(net, s, r) {
      FinalIsMigrated(net, s, r);
      FinalIsMigrated(net, x, r);
    }
    hide FinalReverse, Migrated, Regular, VersionOf;
    forall ch, r | NewDM(x, ch) && Names(net, x[LegacyDM(ch)], r)
      ensures FinalReverse(net, x, r) == Some(ch) || LaterClaim(net, x, ch, r)
    {
      NewBefore(s, x, ch);
      if LaterClaim(net, s, ch, r) { StillLater(net, s, x, ch, r); }
    }
  }

  lemma NewBefore(s: Store, x: Store, ch: string)
    requires PartlyMoved(s, x) && NewDM(x, ch)
    ensures NewDM(s, ch) && s[LegacyDM(ch)] == x[LegacyDM(ch)]
  {
    assert Val(x, LegacyDM(ch)) == Val(s, LegacyDM(ch));
    assert Val(x, ChannelMapping(ch)).None?;
  }

  /** A blank mapping names no room but the empty one, and is replaced by nothing else. */
  lemma StillLater(net: Net, s: Store, x: Store, ch: string, r: string)
    requires PartlyMoved(s, x) && LaterClaim(net, s, ch, r) && Regular(s)
    ensures LaterClaim(net, x, ch, r)
  {
    var g :| ChannelMapping(g) in s && Names(net, s[ChannelMapping(g)], r) && Below(ch, g);
    assert ForwardStays(s, g);
    assert Val(s, ChannelMapping(g)) == Some(s[ChannelMapping(g)]);
    assert ChannelMapping(g) in x && x[ChannelMapping(g)] == s[ChannelMapping(g)];
  }

  /** Interrupting a run anywhere leaves a store that is restartable again, and with the same result. */
  lemma CrashStaysRestartable(net: Net, s: Store, n: nat)
    requires Restartable(net, s) && n <= |Plan(net, s)|
    ensures Restartable(net, Crashed(net, s, n)) && Migrated(net, Crashed(net, s, n)) == Migrated(net, s)
  {
    if VersionOf(s) >= 2 {
      NothingPlanned(net, s, n);
    } else if VersionOf(s) == 1 {
      RestartVersion2(net, s, n);
      CrashAtVersion1(net, s, n);
    } else {
      SafeSuffices(net, s, n);
      CrashAtVersion0(net, s, n);
    }
  }

  lemma NothingPlanned(net: Net, s: Store, n: nat)
    requires VersionOf(s) >= 2 && n <= |Plan(net, s)|
    ensures Crashed(net, s, n) == s
  {
    assert Plan(net, s)[..n] == [];
  }

  lemma CrashAtVersion1(net: Net, s: Store, n: nat)
    requires VersionOf(s) == 1 && SmallLegacy(s) && n <= |Plan(net, s)|
    ensures Restartable(net, Crashed(net, s, n))
  {
    var x := Crashed(net, s, n);
    if n == |Plan(net, s)| {
      CrashCases(net, s, n);
      MigratedIsFinal(net, s);
    } else {
      hide Crashed, Plan, VersionOf;
      CutPoint(net, s, n);
      Version2PrefixMid(net, s, n);
      MidSmall(net, s, x);
      MidKeepsVersion(net, s, x);
    }
  }

  lemma CrashAtVersion0(net: Net, s: Store, n: nat)
    requires VersionOf(s) < 1 && Regular(s) && RestartSafe(net, s) && n <= |Plan(net, s)|
    requires Migrated(net, Crashed(net, s, n)) == Migrated(net, s)
    ensures Restartable(net, Crashed(net, s, n))
  {
    hide Crashed, Plan, Migrated, VersionOf, Regular, RestartSafe, Version1Writes, Version2Writes, AfterVersion1,
         Loops1, ApplyAll, PhaseWrites;
    var x := Crashed(net, s, n);
    CrashCases(net, s, n);
    if n == |Plan(net, s)| {
      MigratedIsFinal(net, s);
    } else {
      CutAtVersion0(net, s, n);
      StillSafe(net, s, x);
    }
  }

  lemma CutAtVersion0(net: Net, s: Store, n: nat)
    requires VersionOf(s) < 1 && Regular(s) && n < |Plan(net, s)|
    ensures VersionOf(Crashed(net, s, n)) < 1 && PartlyMoved(s, Crashed(net, s, n))
  {
    hide Crashed, Plan, Migrated, VersionOf, Version2Writes, AfterVersion1, Loops1, ApplyAll, PhaseWrites, SmallLegacy;
    var x := Crashed(net, s, n);
    CrashCases(net, s, n);
    MigratedIs(net, s);
    Loops1KeepsVersion(net, s);
    if n <= |Version1Writes(net, s)| {
      Loops1Cut(net, s, n);
      Loops1KeepsVersion(net, x);
      Version1IsPartlyMoved(net, s, x);
    } else {
      RegularKept(net, s);
      Version2PrefixMid(net, Loops1(net, s), n - |Version1Writes(net, s)|);
      MidKeepsVersion(net, Loops1(net, s), x);
      MidIsPartlyMoved(net, s, x);
    }
  }

  lemma Loops1Cut(net: Net, s: Store, n: nat)
    requires VersionOf(s) < 1 && n <= |Version1Writes(net, s)|
    ensures Loops1(net, ApplyAll(s, Version1Writes(net, s)[..n])) == Loops1(net, s)
  {
    hide PhaseWrites, ApplyAll, Loops1, AfterPhase, VersionOf;
    Loops1Restart(net, s, n);
  }

  /** `x` is what some interrupted run leaves of `s`. */
  ghost predicate CrashOf(net: Net, s: Store, x: Store) {
    exists n: nat :: n <= |Plan(net, s)| && x == Crashed(net, s, n)
  }

  /** Each store is what an interrupted run leaves of the one before. */
  ghost predicate Crashes(net: Net, stores: seq<Store>) {
    forall i :: 0 <= i < |stores| - 1 ==> CrashOf(net, stores[i], stores[i + 1])
  }

  lemma OneCrash(net: Net, s: Store, x: Store)
    requires Restartable(net, s) && CrashOf(net, s, x)
    ensures Restartable(net, x) && Migrated(net, x) == Migrated(net, s)
  {
    hide Restartable, Plan, Crashed, Migrated;
    var n: nat :| n <= |Plan(net, s)| && x == Crashed(net, s, n);
    CrashStaysRestartable(net, s, n);
  }

  /** Any number of interrupted runs, ended by a complete one, give what one uninterrupted run gives. */
  lemma {:induction false} AnyCrashesThenComplete(net: Net, stores: seq<Store>)
    requires stores != [] && Restartable(net, stores[0]) && Crashes(net, stores)
    ensures Restartable(net, stores[|stores| - 1])
    ensures Migrated(net, stores[|stores| - 1]) == Migrated(net, stores[0])
    decreases |stores|
  {
    hide Restartable, Migrated, CrashOf;
    if |stores| > 1 {
      var n := |stores| - 2;
      assert Crashes(net, stores[..n + 1]);
      AnyCrashesThenComplete(net, stores[..n + 1]);
      OneCrash(net, stores[n], stores[n + 1]);
    }
  }
}
