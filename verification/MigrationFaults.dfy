/**
  Migrations during which operations of the store fail (server/migrations.go).  A failed read or write of an entry
  is passed over; a failed listing, or a failed write of the version marker, ends the run.
*/
module MigrationFaults {
  import opened Prelude
  import opened Keys
  import opened Listing
  import opened MigrationSpec
  import opened MigrationEffects
  import opened MigrationCrash

  /** What fails for one entry: reading it, reading or writing its first or its second mapping, removing it. */
  datatype Faults = Faults(entry: bool, read1: bool, write1: bool, read2: bool, write2: bool, removal: bool)

  const NO_FAULTS := Faults(false, false, false, false, false, false)

  /** One turn of a loop's body. */
  datatype Visit = Visit(phase: Phase, id: string, faults: Faults)

  /** A write that is made only when `needed`. */
  function When(needed: bool, w: Write): seq<Write> {
    if needed then [w] else []
  }

  /** The writes that succeed.  What cannot be read counts as missing; without its forward mapping an entry stays. */
  function VisitWrites(net: Net, kv: Store, v: Visit): seq<Write> {
    if v.faults.entry || Build(PhaseKind(v.phase), v.id) !in kv then []
    else
      var value, f := kv[Build(PhaseKind(v.phase), v.id)], v.faults;
      match v.phase
      case Users =>
        When((f.read1 || Val(kv, MattermostUser(value)) != Some(v.id)) && !f.write1,
             Put(UserReverse, MattermostUser(value), v.id))
      case Channels =>
        When((f.read1 || Val(kv, RoomMapping(value)) != Some(v.id)) && !f.write1,
             Put(ChannelReverse, RoomMapping(value), v.id))
        + RoomIDWrites(net, value, v.id, f)
      case DMs =>
        var needed := f.read1 || Blank(Val(kv, ChannelMapping(v.id)));
        if needed && f.write1 then []
        else
          When(needed, Put(Forward, ChannelMapping(v.id), value))
          + When((f.read2 || Blank(Val(kv, RoomMapping(value)))) && !f.write2, Put(DMReverse, RoomMapping(value), v.id))
          + When(!f.removal, Del(Cleanup, LegacyDM(v.id)))
      case MatrixDMs =>
        var needed := f.read1 || Blank(Val(kv, RoomMapping(v.id)));
        if needed && f.write1 then []
        else
          When(needed, Put(DMReverse, RoomMapping(v.id), value)) + When(!f.removal, Del(Cleanup, LegacyMatrixDM(v.id)))
  }

  function RoomIDWrites(net: Net, room: string, id: string, f: Faults): seq<Write> {
    if IsAlias(room) && net(room).Some? && !f.write2 then [Put(RoomID, RoomMapping(net(room).value), id)] else []
  }

  function VisitsWrites(net: Net, kv: Store, vs: seq<Visit>): seq<Write>
    decreases |vs|
  {
    if vs == [] then []
    else
      var w := VisitWrites(net, kv, vs[0]);
      w + VisitsWrites(net, ApplyAll(kv, w), vs[1..])
  }

  function AfterVisits(net: Net, kv: Store, vs: seq<Visit>): Store {
    ApplyAll(kv, VisitsWrites(net, kv, vs))
  }

  lemma {:induction false} VisitsAppend(net: Net, kv: Store, a: seq<Visit>, b: seq<Visit>)
    ensures VisitsWrites(net, kv, a + b) == VisitsWrites(net, kv, a) + VisitsWrites(net, AfterVisits(net, kv, a), b)
    ensures AfterVisits(net, kv, a + b) == AfterVisits(net, AfterVisits(net, kv, a), b)
    decreases |a|
  {
    hide VisitWrites, ApplyAll;
    if a == [] {
      assert a + b == b;
      Apply0(kv);
    } else {
      var w := VisitWrites(net, kv, a[0]);
      var kv1 := ApplyAll(kv, w);
      assert (a + b)[1..] == a[1..] + b;
      VisitsAppend(net, kv1, a[1..], b);
      ApplyAppend(kv, w, VisitsWrites(net, kv1, a[1..]));
      ApplyAppend(kv, w, VisitsWrites(net, kv1, a[1..] + b));
    }
  }

  lemma VisitsOne(net: Net, kv: Store, v: Visit)
    ensures VisitsWrites(net, kv, [v]) == VisitWrites(net, kv, v) && VisitsWrites(net, kv, []) == []
    ensures AfterVisits(net, kv, [v]) == ApplyAll(kv, VisitWrites(net, kv, v)) && AfterVisits(net, kv, []) == kv
  {
    hide VisitWrites;
    assert [v][1..] == [];
  }

  // ---------- runs ----------

  /** The keys of a page, each visited in turn. */
  predicate VisitsOf(ph: Phase, ids: seq<string>, vs: seq<Visit>) {
    |vs| == |ids| && forall i :: 0 <= i < |ids| ==> vs[i].phase == ph && vs[i].id == ids[i]
  }

  /** A loop from some page on, to its end or (not `done`) to a listing that fails. */
  ghost predicate LoopVisits(ph: Phase, net: Net, kv: Store, page: nat, vs: seq<Visit>, done: bool)
    decreases |vs|
  {
    var ids := Page(Listed(kv, PhaseKind(ph)), page, BATCH_SIZE);
    if vs == [] then !done || ids == []
    else
      && 0 < |ids| <= |vs| && VisitsOf(ph, ids, vs[..|ids|])
      && (if |ids| < BATCH_SIZE then done && |vs| == |ids|
          else LoopVisits(ph, net, AfterVisits(net, kv, vs[..|ids|]), page + 1, vs[|ids|..], done))
  }

  /** Loops one after the other, up to one that fails. */
  ghost predicate LoopsVisit(phs: seq<Phase>, net: Net, kv: Store, vs: seq<Visit>, done: bool)
    decreases |phs|, 1
  {
    if phs == [] then done && vs == []
    else
      || (!done && LoopVisits(phs[0], net, kv, 0, vs, false))
      || exists k :: 0 <= k <= |vs| && LoopsFrom(phs, net, kv, vs, done, k)
  }

  /** The first loop makes the first k visits. */
  ghost predicate LoopsFrom(phs: seq<Phase>, net: Net, kv: Store, vs: seq<Visit>, done: bool, k: int)
    requires phs != [] && 0 <= k <= |vs|
    decreases |phs|, 0
  {
    && LoopVisits(phs[0], net, kv, 0, vs[..k], true)
    && LoopsVisit(phs[1..], net, AfterVisits(net, kv, vs[..k]), vs[k..], done)
  }

  /** The loops that a version calls for. */
  function PhasesFor(version: int): seq<Phase> {
    if version < 1 then [Users, Channels, DMs, MatrixDMs] else if version < 2 then [DMs, MatrixDMs] else []
  }

  /** Nothing was passed over. */
  predicate Faultless(vs: seq<Visit>) {
    forall i :: 0 <= i < |vs| ==> vs[i].faults == NO_FAULTS
  }

  lemma FirstLoop(phs: seq<Phase>, net: Net, kv: Store, us: seq<Visit>, vs: seq<Visit>, done: bool)
    requires phs != [] && LoopVisits(phs[0], net, kv, 0, us, true)
    requires LoopsVisit(phs[1..], net, AfterVisits(net, kv, us), vs, done)
    ensures LoopsVisit(phs, net, kv, us + vs, done)
  {
    hide AfterVisits, LoopVisits;
    assert (us + vs)[..|us|] == us && (us + vs)[|us|..] == vs;
    assert LoopsFrom(phs, net, kv, us + vs, done, |us|);
  }

  lemma {:induction false} LoopsJoin(a: seq<Phase>, b: seq<Phase>, net: Net, kv: Store, us: seq<Visit>, vs: seq<Visit>,
                                     done: bool)
    requires LoopsVisit(a, net, kv, us, true) && LoopsVisit(b, net, AfterVisits(net, kv, us), vs, done)
    ensures LoopsVisit(a + b, net, kv, us + vs, done)
    decreases |a|
  {
    hide AfterVisits, LoopVisits;
    if a == [] {
      assert a + b == b && us + vs == vs;
      VisitsOne(net, kv, Visit(Users, "", NO_FAULTS));
    } else {
      var k :| 0 <= k <= |us| && LoopsFrom(a, net, kv, us, true, k);
      assert us == us[..k] + us[k..];
      VisitsAppend(net, kv, us[..k], us[k..]);
      LoopsJoin(a[1..], b, net, AfterVisits(net, kv, us[..k]), us[k..], vs, done);
      assert (a + b)[1..] == a[1..] + b;
      assert (us + vs)[..k] == us[..k] && (us + vs)[k..] == us[k..] + vs;
      assert LoopsFrom(a + b, net, kv, us + vs, done, k);
    }
  }

  lemma FailedLoop(phs: seq<Phase>, net: Net, kv: Store, vs: seq<Visit>)
    requires phs != [] && LoopVisits(phs[0], net, kv, 0, vs, false)
    ensures LoopsVisit(phs, net, kv, vs, false)
  {
    hide LoopVisits;
  }

  lemma NoLoops(net: Net, kv: Store)
    ensures LoopsVisit([], net, kv, [], true)
  {
  }

  lemma TwoLoops(first: Phase, second: Phase, net: Net, kv: Store, us: seq<Visit>, vs: seq<Visit>, done: bool)
    requires LoopVisits(first, net, kv, 0, us, true) && LoopVisits(second, net, AfterVisits(net, kv, us), 0, vs, done)
    ensures LoopsVisit([first, second], net, kv, us + vs, done)
  {
    hide AfterVisits, LoopVisits, LoopsVisit;
    var kv1 := AfterVisits(net, kv, us);
    assert [second][1..] == [] && [first, second][1..] == [second];
    if done {
      NoLoops(net, AfterVisits(net, kv1, vs));
      FirstLoop([second], net, kv1, vs, [], true);
      assert vs + [] == vs;
    } else {
      FailedLoop([second], net, kv1, vs);
    }
    FirstLoop([first, second], net, kv, us, vs, done);
  }

  /** Version 1, when it is called for, and then version 2. */
  lemma BothVersions(version: int, net: Net, kv: Store, us: seq<Visit>, vs: seq<Visit>, done: bool)
    requires version < CURRENT_VERSION
    requires if version < 1 then LoopsVisit([Users, Channels], net, kv, us, true) else us == []
    requires LoopsVisit([DMs, MatrixDMs], net, AfterVisits(net, kv, us), vs, done)
    ensures LoopsVisit(PhasesFor(version), net, kv, us + vs, done)
  {
    hide LoopsVisit;
    VisitsOne(net, kv, Visit(Users, "", NO_FAULTS));
    if version < 1 {
      LoopsJoin([Users, Channels], [DMs, MatrixDMs], net, kv, us, vs, done);
      assert [Users, Channels] + [DMs, MatrixDMs] == PhasesFor(version);
    } else {
      assert us + vs == vs;
    }
  }

  /** A first loop that fails ends them all. */
  lemma LoopsFail(a: seq<Phase>, b: seq<Phase>, net: Net, kv: Store, vs: seq<Visit>)
    requires LoopsVisit(a, net, kv, vs, false)
    ensures LoopsVisit(a + b, net, kv, vs, false)
    decreases |a|
  {
    hide AfterVisits, LoopVisits;
    if a != [] {
      assert (a + b)[0] == a[0] && (a + b)[1..] == a[1..] + b;
      if k :| 0 <= k <= |vs| && LoopsFrom(a, net, kv, vs, false, k) {
        LoopsFail(a[1..], b, net, AfterVisits(net, kv, vs[..k]), vs[k..]);
        assert LoopsFrom(a + b, net, kv, vs, false, k);
      }
    }
  }

  lemma VisitWriteOf(net: Net, kv: Store, v: Visit)
    ensures forall w :: w in VisitWrites(net, kv, v) ==> WritesOf(v.phase, w)
  {
  }

  lemma {:induction false} VisitsWriteOf(ph: Phase, net: Net, kv: Store, vs: seq<Visit>)
    requires forall i :: 0 <= i < |vs| ==> vs[i].phase == ph
    ensures forall w :: w in VisitsWrites(net, kv, vs) ==> WritesOf(ph, w)
    decreases |vs|
  {
    if vs != [] {
      hide VisitWrites, WritesOf;
      var ws := VisitWrites(net, kv, vs[0]);
      VisitWriteOf(net, kv, vs[0]);
      VisitsWriteOf(ph, net, ApplyAll(kv, ws), vs[1..]);
    }
  }

  /** A page visited is a page less, whatever failed. */
  lemma VisitsProgress(ph: Phase, net: Net, kv: Store, page: nat, vs: seq<Visit>)
    requires Page(Listed(kv, PhaseKind(ph)), page, BATCH_SIZE) != []
    requires VisitsOf(ph, Page(Listed(kv, PhaseKind(ph)), page, BATCH_SIZE), vs)
    ensures Remaining(AfterVisits(net, kv, vs), PhaseKind(ph), page + 1) < Remaining(kv, PhaseKind(ph), page)
  {
    hide VisitsWrites, VisitWrites, ApplyAll, WritesOf;
    VisitsWriteOf(ph, net, kv, vs);
    WritesAddNoIds(ph, kv, VisitsWrites(net, kv, vs));
    SubsetSize(Ids(AfterVisits(net, kv, vs), PhaseKind(ph)), Ids(kv, PhaseKind(ph)));
  }

  /** `vs` are the visits of the first pages, all full: whatever the rest of the loop does goes on from there. */
  ghost predicate PagesBefore(ph: Phase, net: Net, kv: Store, vs: seq<Visit>, page: nat) {
    forall us, done :: LoopVisits(ph, net, AfterVisits(net, kv, vs), page, us, done) ==>
      LoopVisits(ph, net, kv, 0, vs + us, done)
  }

  lemma FirstPage(ph: Phase, net: Net, kv: Store)
    ensures PagesBefore(ph, net, kv, [], 0)
  {
    hide LoopVisits, VisitWrites;
    VisitsOne(net, kv, Visit(ph, "", NO_FAULTS));
    forall us: seq<Visit> ensures [] + us == us {
    }
  }

  /** A page that is full, the last one, or one that cannot be listed. */
  lemma NextPage(ph: Phase, net: Net, kv: Store, vs: seq<Visit>, page: nat, us: seq<Visit>, ok: bool)
    requires PagesBefore(ph, net, kv, vs, page)
    requires if ok then VisitsOf(ph, Page(Listed(AfterVisits(net, kv, vs), PhaseKind(ph)), page, BATCH_SIZE), us)
               else us == []
    ensures !ok || |us| < BATCH_SIZE ==> LoopVisits(ph, net, kv, 0, vs + us, ok)
    ensures ok && |us| >= BATCH_SIZE ==> PagesBefore(ph, net, kv, vs + us, page + 1)
  {
    hide VisitsWrites, VisitWrites, ApplyAll, Page, VisitsOf, LoopVisits;
    var kv1 := AfterVisits(net, kv, vs);
    if !ok || |us| < BATCH_SIZE {
      LastPage(ph, net, kv1, page, us, ok);
    } else {
      VisitsAppend(net, kv, vs, us);
      forall more, done | LoopVisits(ph, net, AfterVisits(net, kv, vs + us), page + 1, more, done)
        ensures LoopVisits(ph, net, kv, 0, vs + us + more, done)
      {
        FullPage(ph, net, kv1, page, us, more, done);
        Regroup(vs, us, more);
      }
    }
  }

  lemma LastPage(ph: Phase, net: Net, kv: Store, page: nat, us: seq<Visit>, ok: bool)
    requires if ok then VisitsOf(ph, Page(Listed(kv, PhaseKind(ph)), page, BATCH_SIZE), us) && |us| < BATCH_SIZE
               else us == []
    ensures LoopVisits(ph, net, kv, page, us, ok)
  {
    hide AfterVisits, Page;
    assert us[..|us|] == us;
  }

  lemma FullPage(ph: Phase, net: Net, kv: Store, page: nat, us: seq<Visit>, more: seq<Visit>, done: bool)
    requires VisitsOf(ph, Page(Listed(kv, PhaseKind(ph)), page, BATCH_SIZE), us) && |us| >= BATCH_SIZE
    requires LoopVisits(ph, net, AfterVisits(net, kv, us), page + 1, more, done)
    ensures LoopVisits(ph, net, kv, page, us + more, done)
  {
    hide AfterVisits, Page;
    assert (us + more)[..|us|] == us && (us + more)[|us|..] == more;
  }

  // ---------- without faults ----------

  lemma FaultlessVisit(net: Net, kv: Store, v: Visit)
    requires v.faults == NO_FAULTS
    ensures VisitWrites(net, kv, v) == EntryWrites(v.phase, net, kv, v.id)
  {
  }

  lemma {:induction false} FaultlessVisits(ph: Phase, net: Net, kv: Store, ids: seq<string>, vs: seq<Visit>)
    requires VisitsOf(ph, ids, vs) && Faultless(vs)
    ensures VisitsWrites(net, kv, vs) == EntriesWrites(ph, net, kv, ids)
    decreases |vs|
  {
    if vs != [] {
      hide VisitWrites, EntryWrites, ApplyAll;
      FaultlessVisit(net, kv, vs[0]);
      FaultlessVisits(ph, net, ApplyAll(kv, VisitWrites(net, kv, vs[0])), ids[1..], vs[1..]);
    }
  }

  lemma LoopUnfolds(ph: Phase, net: Net, kv: Store, page: nat, vs: seq<Visit>, done: bool)
    requires LoopVisits(ph, net, kv, page, vs, done) && vs != []
    ensures var ids := Page(Listed(kv, PhaseKind(ph)), page, BATCH_SIZE);
            && 0 < |ids| <= |vs| && |ids| <= BATCH_SIZE && VisitsOf(ph, ids, vs[..|ids|])
            && (if |ids| < BATCH_SIZE then done && vs[..|ids|] == vs
                else LoopVisits(ph, net, AfterVisits(net, kv, vs[..|ids|]), page + 1, vs[|ids|..], done))
  {
    hide AfterVisits, Page, VisitsOf;
  }

  lemma NoPage(ph: Phase, net: Net, kv: Store, page: nat, done: bool)
    requires LoopVisits(ph, net, kv, page, [], done)
    ensures VisitsWrites(net, kv, []) == [] && (done ==> PagedWrites(ph, net, kv, page) == [])
  {
    hide EntriesWrites, VisitWrites;
  }

  /** A loop without faults makes the specified writes, or the first of them when a listing fails. */
  lemma {:induction false} FaultlessLoop(ph: Phase, net: Net, kv: Store, page: nat, vs: seq<Visit>, done: bool)
    requires LoopVisits(ph, net, kv, page, vs, done) && Faultless(vs)
    ensures VisitsWrites(net, kv, vs) <= PagedWrites(ph, net, kv, page)
    ensures done ==> VisitsWrites(net, kv, vs) == PagedWrites(ph, net, kv, page)
    decreases |vs|
  {
    hide LoopVisits, EntriesWrites, ApplyAll, VisitsWrites, PagedWrites, Page, VisitsOf;
    if vs == [] {
      NoPage(ph, net, kv, page, done);
    } else {
      LoopUnfolds(ph, net, kv, page, vs, done);
      var ids := Page(Listed(kv, PhaseKind(ph)), page, BATCH_SIZE);
      var now, later := vs[..|ids|], vs[|ids|..];
      FaultlessVisits(ph, net, kv, ids, now);
      if |ids| < BATCH_SIZE {
        PagedEnds(ph, net, kv, page);
      } else {
        assert vs == now + later;
        VisitsAppend(net, kv, now, later);
        PagedUnfolds(ph, net, kv, page);
        FaultlessLoop(ph, net, AfterVisits(net, kv, now), page + 1, later, done);
      }
    }
  }

  ghost function PhasesWrites(phs: seq<Phase>, net: Net, kv: Store): seq<Write>
    decreases |phs|
  {
    if phs == [] then [] else PhaseWrites(phs[0], net, kv) + PhasesWrites(phs[1..], net, AfterPhase(phs[0], net, kv))
  }

  lemma {:induction false} FaultlessLoops(phs: seq<Phase>, net: Net, kv: Store, vs: seq<Visit>, done: bool)
    requires LoopsVisit(phs, net, kv, vs, done) && Faultless(vs)
    ensures VisitsWrites(net, kv, vs) <= PhasesWrites(phs, net, kv)
    ensures done ==> VisitsWrites(net, kv, vs) == PhasesWrites(phs, net, kv)
    decreases |phs|
  {
    hide VisitWrites, ApplyAll, VisitsWrites, PagedWrites, LoopVisits;
    if phs == [] {
      VisitsOne(net, kv, Visit(Users, "", NO_FAULTS));
    } else if k :| 0 <= k <= |vs| && LoopsFrom(phs, net, kv, vs, done, k) {
      FaultlessLoop(phs[0], net, kv, 0, vs[..k], true);
      assert vs == vs[..k] + vs[k..];
      VisitsAppend(net, kv, vs[..k], vs[k..]);
      FaultlessLoops(phs[1..], net, AfterVisits(net, kv, vs[..k]), vs[k..], done);
    } else {
      FaultlessLoop(phs[0], net, kv, 0, vs, false);
    }
  }

  lemma PlanIsPhases(net: Net, kv: Store)
    requires VersionOf(kv) < 2
    ensures Plan(net, kv) == PhasesWrites(PhasesFor(VersionOf(kv)), net, kv) + [VERSION_WRITE]
  {
    hide VersionOf, PhaseWrites, AfterPhase, PhasesWrites;
    var kv1 := AfterVersion1(net, kv);
    PhasesTwo(net, kv1, DMs, MatrixDMs);
    if VersionOf(kv) < 1 {
      PhasesTwo(net, kv, Users, Channels);
      PhasesSplit(net, kv);
    }
  }

  lemma PhasesTwo(net: Net, kv: Store, a: Phase, b: Phase)
    ensures PhasesWrites([a, b], net, kv) == PhaseWrites(a, net, kv) + PhaseWrites(b, net, AfterPhase(a, net, kv))
  {
    hide PhaseWrites, AfterPhase;
    assert [a, b][1..] == [b] && [b][1..] == [];
    var kv1 := AfterPhase(a, net, kv);
    assert PhasesWrites([b], net, kv1) == PhaseWrites(b, net, kv1) + [];
  }

  lemma PhasesSplit(net: Net, kv: Store)
    ensures var kv1 := AfterPhase(Channels, net, AfterPhase(Users, net, kv));
            (PhasesWrites([Users, Channels, DMs, MatrixDMs], net, kv)
             == PhasesWrites([Users, Channels], net, kv) + PhasesWrites([DMs, MatrixDMs], net, kv1))
  {
    hide PhaseWrites, AfterPhase;
    var a, b := PhaseWrites(Users, net, kv), PhaseWrites(Channels, net, AfterPhase(Users, net, kv));
    var kv1 := AfterPhase(Channels, net, AfterPhase(Users, net, kv));
    assert [Users, Channels, DMs, MatrixDMs][1..] == [Channels, DMs, MatrixDMs];
    assert [Channels, DMs, MatrixDMs][1..] == [DMs, MatrixDMs];
    PhasesTwo(net, kv, Users, Channels);
    Regroup(a, b, PhasesWrites([DMs, MatrixDMs], net, kv1));
  }

  /**
    A run that passes nothing over either makes all the writes of the plan, or stops as a crash would: an error
    return leaves the store that a crash at that point leaves.
  */
  lemma ErrorsAreCrashes(net: Net, kv: Store, vs: seq<Visit>, done: bool)
    requires VersionOf(kv) < 2 && LoopsVisit(PhasesFor(VersionOf(kv)), net, kv, vs, done) && Faultless(vs)
    ensures var n := |VisitsWrites(net, kv, vs)|;
            && n < |Plan(net, kv)| && VisitsWrites(net, kv, vs) == Plan(net, kv)[..n]
            && AfterVisits(net, kv, vs) == Crashed(net, kv, n)
    ensures done ==> Plan(net, kv) == VisitsWrites(net, kv, vs) + [VERSION_WRITE]
                     && Migrated(net, kv) == Apply(AfterVisits(net, kv, vs), VERSION_WRITE)
  {
    hide Plan, PhasesWrites, VisitsWrites, ApplyAll, LoopsVisit, VersionOf, PhasesFor;
    var ws := VisitsWrites(net, kv, vs);
    FaultlessLoops(PhasesFor(VersionOf(kv)), net, kv, vs, done);
    PlanIsPhases(net, kv);
    assert Plan(net, kv)[..|ws|] == ws;
    ApplyAppend(kv, ws, [VERSION_WRITE]);
    Apply1(AfterVisits(net, kv, vs), VERSION_WRITE);
  }

  // ---------- with faults ----------

  /** A legacy channel entry stays as it was until its forward mapping is there; a forward mapping is never lost. */
  predicate ForwardSafe(s: Store, x: Store, ch: string) {
    && (LegacyDM(ch) in x ==> Val(x, LegacyDM(ch)) == Val(s, LegacyDM(ch)))
    && (Val(x, ChannelMapping(ch)) == Val(s, ChannelMapping(ch))
        || (LegacyDM(ch) in s && Val(x, ChannelMapping(ch)) == Val(s, LegacyDM(ch))))
    && (LegacyDM(ch) in s && LegacyDM(ch) !in x ==>
          Val(x, ChannelMapping(ch)) == Val(s, LegacyDM(ch)) || !Blank(Val(x, ChannelMapping(ch))))
  }

  /** A legacy room entry stays as it was until a reverse mapping is there; none is ever removed. */
  predicate ReverseSafe(s: Store, x: Store, r: string) {
    && (LegacyMatrixDM(r) in x ==> Val(x, LegacyMatrixDM(r)) == Val(s, LegacyMatrixDM(r)))
    && (LegacyMatrixDM(r) in s && LegacyMatrixDM(r) !in x ==> RoomMapping(r) in x)
    && (RoomMapping(r) in s ==> RoomMapping(r) in x)
  }

  ghost predicate EntriesSafe(s: Store, x: Store) {
    forall id :: ForwardSafe(s, x, id) && ReverseSafe(s, x, id)
  }

  lemma WriteSafe(s: Store, kv: Store, w: Write)
    requires EntriesSafe(s, kv)
    requires w.key.LegacyDM? ==> w.Del?
    requires w.key.LegacyMatrixDM? ==> w.Del?
    requires w.key.RoomMapping? ==> w.Put?
    requires w.key.ChannelMapping? ==> w.Put? && LegacyDM(w.key.id) in s && Some(w.value) == Val(s, LegacyDM(w.key.id))
    requires w.key.LegacyDM? ==>
               Val(kv, ChannelMapping(w.key.id)) == Val(s, LegacyDM(w.key.id))
                   || !Blank(Val(kv, ChannelMapping(w.key.id)))
    requires w.key.LegacyMatrixDM? ==> RoomMapping(w.key.id) in kv
    ensures EntriesSafe(s, Apply(kv, w))
  {
    var x := Apply(kv, w);
    forall k ensures Val(x, k) == if k == w.key then (if w.Put? then Some(w.value) else None) else Val(kv, k) {
    }
    forall id ensures ForwardSafe(s, x, id) && ReverseSafe(s, x, id) {
      assert ForwardSafe(s, kv, id) && ReverseSafe(s, kv, id);
    }
  }

  lemma WhenApply(kv: Store, needed: bool, w: Write)
    ensures ApplyAll(kv, When(needed, w)) == if needed then Apply(kv, w) else kv
  {
    Apply0(kv);
    Apply1(kv, w);
    hide ApplyAll;
  }

  lemma DMVisitSafe(net: Net, s: Store, kv: Store, v: Visit)
    requires EntriesSafe(s, kv) && v.phase.DMs?
    ensures EntriesSafe(s, ApplyAll(kv, VisitWrites(net, kv, v)))
  {
    hide ApplyAll, EntriesSafe, ForwardSafe;
    var ws := VisitWrites(net, kv, v);
    if ws == [] {
      Apply0(kv);
    } else {
      var value, f := kv[LegacyDM(v.id)], v.faults;
      var needed := f.read1 || Blank(Val(kv, ChannelMapping(v.id)));
      var again := (f.read2 || Blank(Val(kv, RoomMapping(value)))) && !f.write2;
      var forward, reverse := Put(Forward, ChannelMapping(v.id), value), Put(DMReverse, RoomMapping(value), v.id);
      var a, b, c := When(needed, forward), When(again, reverse), When(!f.removal, Del(Cleanup, LegacyDM(v.id)));
      assert ws == a + b + c;
      hide VisitWrites, When;
      assert Val(kv, LegacyDM(v.id)) == Val(s, LegacyDM(v.id)) == Some(value) by { SafeEntry(s, kv, v.id); }
      var x1 := if needed then Apply(kv, forward) else kv;
      var x2 := if again then Apply(x1, reverse) else x1;
      ApplyAppend(kv, a + b, c);
      ApplyAppend(kv, a, b);
      WhenApply(kv, needed, forward);
      WhenApply(x1, again, reverse);
      WhenApply(x2, !f.removal, Del(Cleanup, LegacyDM(v.id)));
      if needed { WriteSafe(s, kv, forward); }
      if again { WriteSafe(s, x1, reverse); }
      assert Val(x2, ChannelMapping(v.id)) == Some(value) || !Blank(Val(x2, ChannelMapping(v.id)));
      if !f.removal { WriteSafe(s, x2, Del(Cleanup, LegacyDM(v.id))); }
    }
  }

  lemma SafeEntry(s: Store, kv: Store, id: string)
    requires EntriesSafe(s, kv)
    ensures LegacyDM(id) in kv ==> Val(kv, LegacyDM(id)) == Val(s, LegacyDM(id))
  {
    assert ForwardSafe(s, kv, id);
  }

  lemma MatrixDMVisitSafe(net: Net, s: Store, kv: Store, v: Visit)
    requires EntriesSafe(s, kv) && v.phase.MatrixDMs?
    ensures EntriesSafe(s, ApplyAll(kv, VisitWrites(net, kv, v)))
  {
    hide ApplyAll, EntriesSafe;
    var ws := VisitWrites(net, kv, v);
    if ws == [] {
      Apply0(kv);
    } else {
      var f := v.faults;
      var needed := f.read1 || Blank(Val(kv, RoomMapping(v.id)));
      var reverse := Put(DMReverse, RoomMapping(v.id), kv[LegacyMatrixDM(v.id)]);
      var a, c := When(needed, reverse), When(!f.removal, Del(Cleanup, LegacyMatrixDM(v.id)));
      assert ws == a + c;
      hide VisitWrites, When;
      var x1 := if needed then Apply(kv, reverse) else kv;
      ApplyAppend(kv, a, c);
      WhenApply(kv, needed, reverse);
      WhenApply(x1, !f.removal, Del(Cleanup, LegacyMatrixDM(v.id)));
      if needed { WriteSafe(s, kv, reverse); }
      if !f.removal { WriteSafe(s, x1, Del(Cleanup, LegacyMatrixDM(v.id))); }
    }
  }

  lemma {:induction false} ReversePutsSafe(s: Store, kv: Store, ws: seq<Write>)
    requires EntriesSafe(s, kv) && forall i :: 0 <= i < |ws| ==>
               ws[i].Put? && (ws[i].key.RoomMapping? || ws[i].key.MattermostUser?)
    ensures EntriesSafe(s, ApplyAll(kv, ws))
    decreases |ws|
  {
    hide EntriesSafe;
    if ws == [] {
      Apply0(kv);
    } else {
      WriteSafe(s, kv, ws[0]);
      ReversePutsSafe(s, Apply(kv, ws[0]), ws[1..]);
    }
  }

  lemma VisitSafe(net: Net, s: Store, kv: Store, v: Visit)
    requires EntriesSafe(s, kv)
    ensures EntriesSafe(s, ApplyAll(kv, VisitWrites(net, kv, v)))
  {
    hide EntriesSafe, ApplyAll;
    match v.phase
    case DMs => DMVisitSafe(net, s, kv, v);
    case MatrixDMs => MatrixDMVisitSafe(net, s, kv, v);
    case _ => ReversePutsSafe(s, kv, VisitWrites(net, kv, v));
  }

  /**
    Whatever fails, in any order of visits and however many runs they belong to: a legacy entry stays as it was until
    its mapping is there, a forward mapping changes at most to its legacy entry's room, no reverse mapping is removed.
  */
  lemma {:induction false} FaultsKeepEntries(net: Net, s: Store, vs: seq<Visit>)
    ensures EntriesSafe(s, AfterVisits(net, s, vs))
    decreases |vs|
  {
    hide EntriesSafe, VisitWrites, VisitsWrites, ApplyAll;
    if vs == [] {
      VisitsOne(net, s, Visit(Users, "", NO_FAULTS));
      assert EntriesSafe(s, s) by { SafeAtFirst(s); }
    } else {
      var init, last := vs[..|vs| - 1], vs[|vs| - 1];
      assert vs == init + [last];
      FaultsKeepEntries(net, s, init);
      VisitsAppend(net, s, init, [last]);
      VisitsOne(net, AfterVisits(net, s, init), last);
      VisitSafe(net, s, AfterVisits(net, s, init), last);
    }
  }

  lemma SafeAtFirst(s: Store)
    ensures EntriesSafe(s, s)
  {
  }

  /**
    A visited legacy channel entry is removed and its room left without reverse mapping exactly when there was none
    and of the entry's writes the reverse mapping's alone fails: that failure, unlike the forward mapping's, does not
    keep the entry.  The reverse mapping to a channel with an empty ID counts as none, so for that channel it is
    success that leaves none.
  */
  lemma HalfMovedIff(net: Net, kv: Store, v: Visit)
    requires v.phase.DMs? && LegacyDM(v.id) in kv
    ensures var x := ApplyAll(kv, VisitWrites(net, kv, v));
            var f, before := v.faults, Val(kv, RoomMapping(kv[LegacyDM(v.id)]));
            (LegacyDM(v.id) !in x && Blank(Val(x, RoomMapping(kv[LegacyDM(v.id)]))))
            <==> && !f.entry && !f.removal
                 && (f.write1 ==> !f.read1 && !Blank(Val(kv, ChannelMapping(v.id))))
                 && (Blank(before) || (v.id == "" && f.read2 && !f.write2)) && (v.id != "" ==> f.write2)
  {
    hide ApplyAll;
    var ws := VisitWrites(net, kv, v);
    if ws == [] {
      Apply0(kv);
    } else {
      var value, f := kv[LegacyDM(v.id)], v.faults;
      var needed := f.read1 || Blank(Val(kv, ChannelMapping(v.id)));
      var again := (f.read2 || Blank(Val(kv, RoomMapping(value)))) && !f.write2;
      var forward, reverse := Put(Forward, ChannelMapping(v.id), value), Put(DMReverse, RoomMapping(value), v.id);
      var a, b, c := When(needed, forward), When(again, reverse), When(!f.removal, Del(Cleanup, LegacyDM(v.id)));
      assert ws == a + b + c;
      hide VisitWrites, When;
      var x1 := if needed then Apply(kv, forward) else kv;
      var x2 := if again then Apply(x1, reverse) else x1;
      ApplyAppend(kv, a + b, c);
      ApplyAppend(kv, a, b);
      WhenApply(kv, needed, forward);
      WhenApply(x1, again, reverse);
      WhenApply(x2, !f.removal, Del(Cleanup, LegacyDM(v.id)));
      assert Val(x2, RoomMapping(value)) == if again then Some(v.id) else Val(kv, RoomMapping(value));
    }
  }

  // ---------- what no run repairs ----------

  function Rank(ph: Phase): nat {
    match ph
    case Users => 0
    case Channels => 1
    case DMs => 2
    case MatrixDMs => 3
  }

  lemma {:induction false} LoopVisitsOne(ph: Phase, net: Net, kv: Store, page: nat, vs: seq<Visit>, done: bool)
    requires LoopVisits(ph, net, kv, page, vs, done)
    ensures forall i :: 0 <= i < |vs| ==> vs[i].phase == ph
    decreases |vs|
  {
    hide LoopVisits, AfterVisits, Page;
    if vs != [] {
      LoopUnfolds(ph, net, kv, page, vs, done);
      var n := |Page(Listed(kv, PhaseKind(ph)), page, BATCH_SIZE)|;
      assert forall i :: 0 <= i < n ==> vs[i] == vs[..n][i];
      if n >= BATCH_SIZE {
        LoopVisitsOne(ph, net, AfterVisits(net, kv, vs[..n]), page + 1, vs[n..], done);
        assert forall i :: n <= i < |vs| ==> vs[i] == vs[n..][i - n];
      }
    }
  }

  predicate Ordered(vs: seq<Visit>) {
    forall i, j :: 0 <= i < j < |vs| ==> Rank(vs[i].phase) <= Rank(vs[j].phase)
  }

  predicate AtLeast(vs: seq<Visit>, rank: int) {
    forall i :: 0 <= i < |vs| ==> rank <= Rank(vs[i].phase)
  }

  lemma OrderedJoin(us: seq<Visit>, vs: seq<Visit>, ph: Phase)
    requires (forall i :: 0 <= i < |us| ==> us[i].phase == ph) && Ordered(vs) && AtLeast(vs, Rank(ph))
    ensures Ordered(us + vs) && AtLeast(us + vs, Rank(ph))
  {
    hide Rank;
  }

  lemma NoOrder(phs: seq<Phase>)
    ensures Ordered([]) && (phs != [] ==> AtLeast([], Rank(phs[0])))
  {
  }

  /** The loops' visits come in the order of the loops. */
  lemma {:induction false} VisitsInOrder(phs: seq<Phase>, net: Net, kv: Store, vs: seq<Visit>, done: bool)
    requires LoopsVisit(phs, net, kv, vs, done)
    requires forall i, j :: 0 <= i < j < |phs| ==> Rank(phs[i]) <= Rank(phs[j])
    ensures Ordered(vs) && (phs != [] ==> AtLeast(vs, Rank(phs[0])))
    decreases |phs|
  {
    hide LoopVisits, AfterVisits, Rank, Ordered, AtLeast;
    NoOrder(phs);
    if phs == [] {
    } else if k :| 0 <= k <= |vs| && LoopsFrom(phs, net, kv, vs, done, k) {
      LoopVisitsOne(phs[0], net, kv, 0, vs[..k], true);
      VisitsInOrder(phs[1..], net, AfterVisits(net, kv, vs[..k]), vs[k..], done);
      assert vs == vs[..k] + vs[k..];
      LaterRank(phs, net, AfterVisits(net, kv, vs[..k]), vs[k..], done);
      OrderedJoin(vs[..k], vs[k..], phs[0]);
    } else {
      LoopVisitsOne(phs[0], net, kv, 0, vs, false);
      OrderedJoin(vs, [], phs[0]);
      assert vs + [] == vs;
    }
  }

  lemma LaterRank(phs: seq<Phase>, net: Net, kv: Store, vs: seq<Visit>, done: bool)
    requires phs != [] && LoopsVisit(phs[1..], net, kv, vs, done)
    requires forall i, j :: 0 <= i < j < |phs| ==> Rank(phs[i]) <= Rank(phs[j])
    requires phs[1..] != [] ==> AtLeast(vs, Rank(phs[1]))
    ensures AtLeast(vs, Rank(phs[0]))
  {
    hide LoopVisits, AfterVisits, Rank;
  }

  /** No legacy entry but the channel's own names the room. */
  ghost predicate OnlyClaimant(s: Store, ch: string, room: string) {
    LegacyMatrixDM(room) !in s && forall id :: id != ch && LegacyDM(id) in s ==> s[LegacyDM(id)] != room
  }

  /** A legacy loop's visit of anything else leaves the room's reverse mapping alone. */
  lemma RoomLeftAlone(net: Net, s: Store, kv: Store, v: Visit, ch: string, room: string)
    requires EntriesSafe(s, kv) && OnlyClaimant(s, ch, room) && LegacyDM(ch) !in kv && Rank(v.phase) >= 2
    ensures Val(ApplyAll(kv, VisitWrites(net, kv, v)), RoomMapping(room)) == Val(kv, RoomMapping(room))
    ensures LegacyDM(ch) !in ApplyAll(kv, VisitWrites(net, kv, v))
  {
    hide ApplyAll;
    assert ForwardSafe(s, kv, v.id) && ReverseSafe(s, kv, v.id);
    var ws := VisitWrites(net, kv, v);
    forall w | w in ws ensures w.key != RoomMapping(room) && w.key != LegacyDM(ch) {
    }
    Untouched(kv, ws, RoomMapping(room));
    Untouched(kv, ws, LegacyDM(ch));
  }

  lemma {:induction false} RoomStaysBlank(net: Net, s: Store, kv: Store, vs: seq<Visit>, ch: string, room: string)
    requires EntriesSafe(s, kv) && OnlyClaimant(s, ch, room) && LegacyDM(ch) !in kv
    requires forall i :: 0 <= i < |vs| ==> Rank(vs[i].phase) >= 2
    ensures Val(AfterVisits(net, kv, vs), RoomMapping(room)) == Val(kv, RoomMapping(room))
    ensures LegacyDM(ch) !in AfterVisits(net, kv, vs)
    decreases |vs|
  {
    hide EntriesSafe, VisitWrites, ApplyAll, OnlyClaimant, Rank;
    if vs == [] {
      VisitsOne(net, kv, Visit(Users, "", NO_FAULTS));
    } else {
      var kv1 := ApplyAll(kv, VisitWrites(net, kv, vs[0]));
      assert vs == [vs[0]] + vs[1..];
      VisitsOne(net, kv, vs[0]);
      VisitsAppend(net, kv, [vs[0]], vs[1..]);
      VisitSafe(net, s, kv, vs[0]);
      RoomLeftAlone(net, s, kv, vs[0], ch, room);
      RoomStaysBlank(net, s, kv1, vs[1..], ch, room);
    }
  }

  /**
    Of any run over any store: a legacy channel entry that a visit removes without leaving a reverse mapping, as
    HalfMovedIff tells, and whose room no other legacy entry names, is without one after the marker, and no further
    run changes anything.
  */
  lemma HalfMovedIsFinal(version: int, net: Net, s: Store, vs: seq<Visit>, k: int)
    requires LoopsVisit(PhasesFor(version), net, s, vs, true) && 0 <= k < |vs| && vs[k].phase.DMs?
    requires LegacyDM(vs[k].id) in AfterVisits(net, s, vs[..k])
    requires var kv := AfterVisits(net, s, vs[..k]);
             var x := ApplyAll(kv, VisitWrites(net, kv, vs[k]));
             && LegacyDM(vs[k].id) !in x && Blank(Val(x, RoomMapping(kv[LegacyDM(vs[k].id)])))
             && OnlyClaimant(s, vs[k].id, kv[LegacyDM(vs[k].id)])
    ensures var room := AfterVisits(net, s, vs[..k])[LegacyDM(vs[k].id)];
            var end := Apply(AfterVisits(net, s, vs), VERSION_WRITE);
            && LegacyDM(vs[k].id) !in end && Blank(Val(end, RoomMapping(room)))
            && Migrated(net, end) == end
  {
    hide EntriesSafe, VisitWrites, VisitsWrites, ApplyAll, OnlyClaimant, LoopsVisit, Migrated, VersionOf;
    var kv, later := AfterVisits(net, s, vs[..k]), vs[k + 1..];
    var x := ApplyAll(kv, VisitWrites(net, kv, vs[k]));
    VisitsInOrder(PhasesFor(version), net, s, vs, true);
    assert vs == vs[..k] + ([vs[k]] + later);
    VisitsAppend(net, s, vs[..k], [vs[k]] + later);
    VisitsAppend(net, kv, [vs[k]], later);
    VisitsOne(net, kv, vs[k]);
    FaultsKeepEntries(net, s, vs[..k]);
    VisitSafe(net, s, kv, vs[k]);
    RoomStaysBlank(net, s, x, later, vs[k].id, kv[LegacyDM(vs[k].id)]);
    VersionIsTwo(Apply(AfterVisits(net, s, vs), VERSION_WRITE));
    NoPlan(net, Apply(AfterVisits(net, s, vs), VERSION_WRITE));
  }

  /** The listing of a store with one entry. */
  lemma OneListed(kv: Store, ch: string, room: string, kind: Kind)
    requires kv == map[LegacyDM(ch) := room]
    ensures Listed(kv, kind) == if kind.DMKind? then [ch] else []
  {
    if kind.DMKind? {
      IncreasingUnique(Listed(kv, kind), [ch]);
    } else {
      forall id ensures id !in Listed(kv, kind) { assert Build(kind, id) !in kv; }
    }
  }

  /**
    A whole run over one legacy entry whose reverse mapping cannot be written: the entry is gone, the mapping is not
    there, and no further run makes it.
  */
  lemma FailedReverseIsFinal(net: Net, ch: string, room: string) returns (vs: seq<Visit>)
    requires ch != ""
    ensures var s: Store := map[LegacyDM(ch) := room];
            var x := Apply(AfterVisits(net, s, vs), VERSION_WRITE);
            && LoopsVisit(PhasesFor(VersionOf(s)), net, s, vs, true)
            && x == map[ChannelMapping(ch) := room, StoreVersion := "2"]
            && Migrated(net, x) == x
  {
    var s: Store := map[LegacyDM(ch) := room];
    var x1: Store := map[ChannelMapping(ch) := room];
    var v := Visit(DMs, ch, NO_FAULTS.(write2 := true));
    vs := [v];
    OnlyForwardMoves(net, ch, room, v);
    forall kind ensures Listed(s, kind) == if kind.DMKind? then [ch] else [] { OneListed(s, ch, room, kind); }
    assert Listed(x1, MatrixDMKind) == [] by {
      forall id ensures id !in Listed(x1, MatrixDMKind) { assert Build(MatrixDMKind, id) !in x1; }
    }
    hide VisitsWrites, VisitWrites, AfterVisits, LoopVisits, LoopsVisit, Migrated, ApplyAll;
    LoopsOver(net, s, x1, v);
    VersionIsTwo(Apply(x1, VERSION_WRITE));
    NoPlan(net, Apply(x1, VERSION_WRITE));
  }

  lemma NoPlan(net: Net, x: Store)
    requires VersionOf(x) >= 2
    ensures Migrated(net, x) == x
  {
    Apply0(x);
  }

  lemma OnlyForwardMoves(net: Net, ch: string, room: string, v: Visit)
    requires v == Visit(DMs, ch, NO_FAULTS.(write2 := true))
    ensures AfterVisits(net, map[LegacyDM(ch) := room], [v]) == map[ChannelMapping(ch) := room]
  {
    var s: Store := map[LegacyDM(ch) := room];
    assert VisitWrites(net, s, v) == [Put(Forward, ChannelMapping(ch), room), Del(Cleanup, LegacyDM(ch))];
    Apply2(s, Put(Forward, ChannelMapping(ch), room), Del(Cleanup, LegacyDM(ch)));
    VisitsOne(net, s, v);
    hide VisitWrites, VisitsWrites, ApplyAll;
  }

  lemma EmptyLoop(ph: Phase, net: Net, s: Store)
    requires Listed(s, PhaseKind(ph)) == []
    ensures LoopVisits(ph, net, s, 0, [], true)
  {
  }

  lemma OneKeyLoop(net: Net, s: Store, v: Visit)
    requires v.phase.DMs? && Listed(s, DMKind) == [v.id]
    ensures LoopVisits(DMs, net, s, 0, [v], true)
  {
    hide AfterVisits;
    assert [v][..1] == [v];
  }

  /** A run of all four loops in which only the third one finds anything, one key. */
  lemma LoopsOver(net: Net, s: Store, x: Store, v: Visit)
    requires Listed(s, MatrixUserKind) == [] == Listed(s, ChannelKind) && Listed(s, DMKind) == [v.id] && v.phase.DMs?
    requires AfterVisits(net, s, [v]) == x && Listed(x, MatrixDMKind) == [] && VersionOf(s) == 0
    ensures LoopsVisit(PhasesFor(VersionOf(s)), net, s, [v], true)
  {
    hide LoopVisits, LoopsVisit, AfterVisits, VersionOf;
    VisitsOne(net, s, v);
    VisitsOne(net, x, v);
    EmptyLoop(Users, net, s);
    EmptyLoop(Channels, net, s);
    EmptyLoop(MatrixDMs, net, x);
    OneKeyLoop(net, s, v);
    assert [v] + [] == [v] && [] + [v] == [v];
    TwoLoops(DMs, MatrixDMs, net, s, [v], [], true);
    assert [Channels, DMs, MatrixDMs][1..] == [DMs, MatrixDMs];
    FirstLoop([Channels, DMs, MatrixDMs], net, s, [], [v], true);
    assert [Users, Channels, DMs, MatrixDMs][1..] == [Channels, DMs, MatrixDMs];
    FirstLoop([Users, Channels, DMs, MatrixDMs], net, s, [], [v], true);
  }
}
