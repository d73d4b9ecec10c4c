/** What the migration's loops achieve while reads and writes of single entries fail (server/migrations.go). */
module MigrationRepair {
  import opened Prelude
  import opened Keys
  import opened MigrationSpec
  import opened MigrationEffects
  import opened MigrationFaults

  /**
    A visit of version 1 puts its entry under the reverse key k: the entry could be read and asks for k, and the write
    that names k, the identifier's or the resolved room's, succeeds.  A failed look at what is there does not matter.
  */
  predicate Lands(net: Net, s: Store, v: Visit, k: Key) {
    !v.faults.entry
    && match v.phase
       case Users => k.MattermostUser? && Val(s, MatrixUser(v.id)) == Some(k.id) && !v.faults.write1
       case Channels =>
         k.RoomMapping? && ChannelMapping(v.id) in s
         && var room := s[ChannelMapping(v.id)];
            (room == k.id && !v.faults.write1) || ("#" <= room && net(room) == Some(k.id) && !v.faults.write2)
       case DMs => false
       case MatrixDMs => false
  }

  function LastLanding(net: Net, s: Store, vs: seq<Visit>, k: Key): Option<string> {
    if vs == [] then None
    else if Lands(net, s, vs[|vs| - 1], k) then Some(vs[|vs| - 1].id)
    else LastLanding(net, s, vs[..|vs| - 1], k)
  }

  /** The visited entries are those of `s`, which loops of version 1 leave alone. */
  ghost predicate SameEntries(s: Store, kv: Store) {
    forall id :: Val(kv, MatrixUser(id)) == Val(s, MatrixUser(id))
              && Val(kv, ChannelMapping(id)) == Val(s, ChannelMapping(id))
  }

  predicate Version1(v: Visit) {
    v.phase.Users? || v.phase.Channels?
  }

  lemma WritesTwo(kv: Store, a: bool, w: Write, b: bool, x: Write)
    ensures ApplyAll(kv, When(a, w) + When(b, x))
         == (var kv1 := if a then Apply(kv, w) else kv; if b then Apply(kv1, x) else kv1)
  {
    Apply0(kv);
    Apply1(kv, w);
    Apply1(kv, x);
    Apply2(kv, w, x);
    assert [w] + [x] == [w, x] && [] + [x] == [x];
  }

  lemma VisitLands(net: Net, s: Store, kv: Store, v: Visit, k: Key)
    requires Version1(v) && SameEntries(s, kv)
    ensures Val(ApplyAll(kv, VisitWrites(net, kv, v)), k) == if Lands(net, s, v, k) then Some(v.id) else Val(kv, k)
  {
    hide ApplyAll;
    Apply0(kv);
    assert Val(kv, MatrixUser(v.id)) == Val(s, MatrixUser(v.id));
    assert Val(kv, ChannelMapping(v.id)) == Val(s, ChannelMapping(v.id));
    if !v.faults.entry && Build(PhaseKind(v.phase), v.id) in kv {
      var value, f := kv[Build(PhaseKind(v.phase), v.id)], v.faults;
      if v.phase.Users? {
        var w := Put(UserReverse, MattermostUser(value), v.id);
        Apply1(kv, w);
      } else {
        var needed := (f.read1 || Val(kv, RoomMapping(value)) != Some(v.id)) && !f.write1;
        var alias := IsAlias(value) && net(value).Some? && !f.write2;
        var x := Put(RoomID, RoomMapping(if net(value).Some? then net(value).value else value), v.id);
        WritesTwo(kv, needed, Put(ChannelReverse, RoomMapping(value), v.id), alias, x);
        assert RoomIDWrites(net, value, v.id, f) == When(alias, x);
      }
    }
  }

  /**
    Loops of version 1 under any faults: afterwards each reverse key names the last visited entry that asks for it and
    whose write got through, and keeps its value where there is none.
  */
  lemma {:induction false} FaultyLoopVal(net: Net, s: Store, vs: seq<Visit>, k: Key)
    requires forall i :: 0 <= i < |vs| ==> Version1(vs[i])
    ensures SameEntries(s, AfterVisits(net, s, vs))
    ensures Val(AfterVisits(net, s, vs), k)
         == if LastLanding(net, s, vs, k).Some? then LastLanding(net, s, vs, k) else Val(s, k)
  {
    hide VisitWrites, ApplyAll, Lands;
    VisitsOne(net, s, Visit(Users, "", NO_FAULTS));
    if vs != [] {
      var init, last := vs[..|vs| - 1], vs[|vs| - 1];
      var kv := AfterVisits(net, s, init);
      assert vs == init + [last];
      FaultyLoopVal(net, s, init, k);
      VisitsAppend(net, s, init, [last]);
      VisitsOne(net, kv, last);
      hide AfterVisits;
      VisitLands(net, s, kv, last, k);
      forall id
        ensures Val(ApplyAll(kv, VisitWrites(net, kv, last)), MatrixUser(id)) == Val(kv, MatrixUser(id))
        ensures Val(ApplyAll(kv, VisitWrites(net, kv, last)), ChannelMapping(id)) == Val(kv, ChannelMapping(id))
      {
        VisitLands(net, s, kv, last, MatrixUser(id));
        VisitLands(net, s, kv, last, ChannelMapping(id));
        EntriesNotLanded(net, s, last, id);
      }
    }
  }

  lemma EntriesNotLanded(net: Net, s: Store, v: Visit, id: string)
    ensures !Lands(net, s, v, MatrixUser(id)) && !Lands(net, s, v, ChannelMapping(id))
  {
  }

  /** Failed reads of reverse mappings cost nothing: the same store as without them. */
  lemma FailedLooksAreHarmless(net: Net, s: Store, vs: seq<Visit>)
    requires forall i :: 0 <= i < |vs| ==> Version1(vs[i])
    ensures AfterVisits(net, s, vs) == AfterVisits(net, s, Looked(vs))
  {
    hide AfterVisits;
    LookedPhases(vs);
    forall k ensures Val(AfterVisits(net, s, vs), k) == Val(AfterVisits(net, s, Looked(vs)), k) {
      FaultyLoopVal(net, s, vs, k);
      FaultyLoopVal(net, s, Looked(vs), k);
      SameLandings(net, s, vs, k);
    }
    SameVals(AfterVisits(net, s, vs), AfterVisits(net, s, Looked(vs)));
  }

  /** The same visits with every reverse mapping readable. */
  function Looked(vs: seq<Visit>): seq<Visit> {
    seq(|vs|, i requires 0 <= i < |vs| => vs[i].(faults := vs[i].faults.(read1 := false)))
  }

  lemma LookedPhases(vs: seq<Visit>)
    requires forall i :: 0 <= i < |vs| ==> Version1(vs[i])
    ensures forall i :: 0 <= i < |Looked(vs)| ==> Version1(Looked(vs)[i])
  {
  }

  lemma {:induction false} SameLandings(net: Net, s: Store, vs: seq<Visit>, k: Key)
    ensures LastLanding(net, s, Looked(vs), k) == LastLanding(net, s, vs, k)
  {
    if vs != [] {
      var n := |vs| - 1;
      assert Looked(vs)[..n] == Looked(vs[..n]);
      SameLandings(net, s, vs[..n], k);
    }
  }

  // ---------- one legacy entry ----------

  lemma WritesThree(kv: Store, a: bool, w: Write, b: bool, x: Write, c: bool, y: Write)
    ensures ApplyAll(kv, When(a, w) + When(b, x) + When(c, y))
         == (var kv1 := if a then Apply(kv, w) else kv;
             var kv2 := if b then Apply(kv1, x) else kv1;
             if c then Apply(kv2, y) else kv2)
  {
    hide Apply;
    var kv2 := ApplyAll(kv, When(a, w) + When(b, x));
    WritesTwo(kv, a, w, b, x);
    ApplyAppend(kv, When(a, w) + When(b, x), When(c, y));
    Apply0(kv2);
    Apply1(kv2, y);
  }

  lemma LegacyWrites(net: Net, kv: Store, id: string, f: Faults, room: string)
    requires !f.entry && Val(kv, LegacyDM(id)) == Some(room)
    ensures var maps := f.read1 || Blank(Val(kv, ChannelMapping(id)));
            VisitWrites(net, kv, Visit(DMs, id, f))
            == if maps && f.write1 then []
               else When(maps, Put(Forward, ChannelMapping(id), room))
                    + When((f.read2 || Blank(Val(kv, RoomMapping(room)))) && !f.write2,
                           Put(DMReverse, RoomMapping(room), id))
                    + When(!f.removal, Del(Cleanup, LegacyDM(id)))
  {
  }

  /**
    One turn over a legacy channel, whatever fails.  A forward mapping that is missing, empty or unreadable is written;
    if that fails nothing happens.  Otherwise the reverse mapping is filled in the same way, or stays if that fails,
    and the legacy key goes unless its removal fails.
  */
  lemma LegacyVisit(net: Net, kv: Store, id: string, f: Faults, k: Key)
    requires !f.entry && LegacyDM(id) in kv
    ensures var room, x := kv[LegacyDM(id)], ApplyAll(kv, VisitWrites(net, kv, Visit(DMs, id, f)));
            var maps := f.read1 || Val(kv, ChannelMapping(id)) in {None, Some("")};
            Val(x, k)
            == if maps && f.write1 then Val(kv, k)
               else if k == ChannelMapping(id) && maps then Some(room)
               else if k == RoomMapping(room) && (f.read2 || Val(kv, k) in {None, Some("")}) && !f.write2 then Some(id)
               else if k == LegacyDM(id) && !f.removal then None
               else Val(kv, k)
  {
    hide ApplyAll, VisitWrites, When;
    var room := kv[LegacyDM(id)];
    var maps := f.read1 || Blank(Val(kv, ChannelMapping(id)));
    var reverse := (f.read2 || Blank(Val(kv, RoomMapping(room)))) && !f.write2;
    LegacyWrites(net, kv, id, f, room);
    Apply0(kv);
    WritesThree(kv, maps, Put(Forward, ChannelMapping(id), room), reverse, Put(DMReverse, RoomMapping(room), id),
                !f.removal, Del(Cleanup, LegacyDM(id)));
  }

  /** One turn over a legacy room: its mapping is filled in, or nothing happens, and then the legacy key goes. */
  lemma LegacyRoomVisit(net: Net, kv: Store, id: string, f: Faults, k: Key)
    requires !f.entry && LegacyMatrixDM(id) in kv
    ensures var channel, x := kv[LegacyMatrixDM(id)], ApplyAll(kv, VisitWrites(net, kv, Visit(MatrixDMs, id, f)));
            var maps := f.read1 || Val(kv, RoomMapping(id)) in {None, Some("")};
            Val(x, k)
            == if maps && f.write1 then Val(kv, k)
               else if k == RoomMapping(id) && maps then Some(channel)
               else if k == LegacyMatrixDM(id) && !f.removal then None
               else Val(kv, k)
  {
    hide ApplyAll;
    var channel := kv[LegacyMatrixDM(id)];
    Apply0(kv);
    WritesTwo(kv, f.read1 || Blank(Val(kv, RoomMapping(id))), Put(DMReverse, RoomMapping(id), channel),
              !f.removal, Del(Cleanup, LegacyMatrixDM(id)));
  }
}
