/** What the DM migration's two counters count (server/migrations.go). */
module MigrationCounts {
  import opened Prelude
  import opened Keys
  import opened MigrationSpec
  import opened MigrationEffects
  import opened MigrationResults

  /** Legacy channels moved away between s and x that had no nonempty forward mapping. */
  function MappedChannels(s: Store, x: Store): set<string> {
    set k | k in s && k !in x && k.LegacyDM? && Blank(Val(s, ChannelMapping(k.id))) :: k.id
  }

  /** The room that a legacy entry is about. */
  function LegacyRoom(ph: Phase, kv: Store, id: string): string
    requires ph.DMs? || ph.MatrixDMs?
    requires Build(PhaseKind(ph), id) in kv
  {
    if ph.DMs? then kv[LegacyDM(id)] else id
  }

  /** Rooms of legacy entries moved away, under either prefix, that had no nonempty reverse mapping. */
  function MappedRooms(s: Store, x: Store): set<string> {
    (set k | k in s && k !in x && k.LegacyDM? && Blank(Val(s, RoomMapping(s[k]))) :: s[k])
    + (set k | k in s && k !in x && k.LegacyMatrixDM? && Blank(Val(s, RoomMapping(k.id))) :: k.id)
  }

  function UnmappedAmong(kv: Store, ids: seq<string>): set<string> {
    set id | id in ids && Blank(Val(kv, ChannelMapping(id)))
  }

  function RoomsAmong(ph: Phase, kv: Store, ids: seq<string>): set<string>
    requires ph.DMs? || ph.MatrixDMs?
  {
    set id | id in ids && Build(PhaseKind(ph), id) in kv && Blank(Val(kv, RoomMapping(LegacyRoom(ph, kv, id)))) ::
      LegacyRoom(ph, kv, id)
  }

  lemma CountOf(ws: seq<Write>, w: Write, purpose: Purpose)
    ensures Count(ws + [w], purpose) == Count(ws, purpose) + if w.purpose == purpose then 1 else 0
    ensures Count([], purpose) == 0 && [] + [w] == [w]
  {
    CountAppend(ws, [w], purpose);
    assert [w][1..] == [];
  }

  lemma DMEntryCounts(net: Net, kv: Store, id: string)
    requires LegacyDM(id) in kv
    ensures var ws := EntryWrites(DMs, net, kv, id);
            && Count(ws, Forward) == (if Blank(Val(kv, ChannelMapping(id))) then 1 else 0)
            && Count(ws, DMReverse) == (if Blank(Val(kv, RoomMapping(kv[LegacyDM(id)]))) then 1 else 0)
  {
    var a := Put(Forward, ChannelMapping(id), kv[LegacyDM(id)]);
    var b := Put(DMReverse, RoomMapping(kv[LegacyDM(id)]), id);
    var c := Del(Cleanup, LegacyDM(id));
    var first := if Blank(Val(kv, ChannelMapping(id))) then [a] else [];
    var second := if Blank(Val(kv, RoomMapping(kv[LegacyDM(id)]))) then first + [b] else first;
    assert EntryWrites(DMs, net, kv, id) == second + [c];
    hide EntryWrites, Count;
    forall purpose: Purpose
      ensures Count(second + [c], purpose)
           == Count(second, purpose) + if c.purpose == purpose then 1 else 0
      ensures Count(first + [b], purpose) == Count(first, purpose) + if b.purpose == purpose then 1 else 0
      ensures Count([a], purpose) == if a.purpose == purpose then 1 else 0
      ensures Count([], purpose) == 0
    {
      CountOf(second, c, purpose);
      CountOf(first, b, purpose);
      CountOf([], a, purpose);
    }
  }

  lemma MatrixDMEntryCounts(net: Net, kv: Store, id: string)
    requires LegacyMatrixDM(id) in kv
    ensures var ws := EntryWrites(MatrixDMs, net, kv, id);
            && Count(ws, Forward) == 0
            && Count(ws, DMReverse) == (if Blank(Val(kv, RoomMapping(id))) then 1 else 0)
  {
    var b := Put(DMReverse, RoomMapping(id), kv[LegacyMatrixDM(id)]);
    var c := Del(Cleanup, LegacyMatrixDM(id));
    var first := if Blank(Val(kv, RoomMapping(id))) then [b] else [];
    assert EntryWrites(MatrixDMs, net, kv, id) == first + [c];
    hide EntryWrites, Count;
    forall purpose: Purpose
      ensures Count(first + [c], purpose) == Count(first, purpose) + if c.purpose == purpose then 1 else 0
      ensures Count([b], purpose) == if b.purpose == purpose then 1 else 0
      ensures Count([], purpose) == 0
    {
      CountOf(first, c, purpose);
      CountOf([], b, purpose);
    }
  }

  /** An entry of the first loop maps its own channel and its room, and no other. */
  lemma DMEntryMaps(net: Net, kv: Store, ids: seq<string>)
    requires Pending(DMs, kv, [], ids) && ids != []
    ensures var kv1 := ApplyAll(kv, EntryWrites(DMs, net, kv, ids[0]));
            && Pending(DMs, kv1, [], ids[1..])
            && UnmappedAmong(kv1, ids[1..]) == UnmappedAmong(kv, ids) - {ids[0]}
            && RoomsAmong(DMs, kv1, ids[1..]) == RoomsAmong(DMs, kv, ids) - {kv[LegacyDM(ids[0])]}
  {
    var id := ids[0];
    assert id in ids;
    assert Build(DMKind, id) in kv;
    var room := kv[LegacyDM(id)];
    var kv1 := ApplyAll(kv, EntryWrites(DMs, net, kv, id));
    DMEntryVals(net, kv, id);
    hide EntryWrites, ApplyAll;
    forall x | x in ids[1..] ensures x in ids && x != id && Val(kv1, LegacyDM(x)) == Val(kv, LegacyDM(x)) && x != "" {
    }
    forall x | x in ids ensures x == id || x in ids[1..] {
    }
    assert Pending(DMs, kv1, [], ids[1..]);
    forall r ensures r in RoomsAmong(DMs, kv1, ids[1..]) <==> r in RoomsAmong(DMs, kv, ids) && r != room {
      DMRoomsStep(kv, kv1, ids, r);
    }
  }

  lemma DMRoomsStep(kv: Store, kv1: Store, ids: seq<string>, r: string)
    requires Pending(DMs, kv, [], ids) && ids != [] && Build(DMKind, ids[0]) in kv
    requires Pending(DMs, kv1, [], ids[1..])
    requires forall x :: x in ids[1..] ==> Val(kv1, LegacyDM(x)) == Val(kv, LegacyDM(x))
    requires var room := kv[LegacyDM(ids[0])];
             Val(kv1, RoomMapping(r))
             == if r == room && Blank(Val(kv, RoomMapping(r))) then Some(ids[0]) else Val(kv, RoomMapping(r))
    ensures r in RoomsAmong(DMs, kv1, ids[1..]) <==> r in RoomsAmong(DMs, kv, ids) && r != kv[LegacyDM(ids[0])]
  {
    var rest := ids[1..];
    if r in RoomsAmong(DMs, kv1, rest) {
      var x :| x in rest && Build(DMKind, x) in kv1 && LegacyRoom(DMs, kv1, x) == r;
      assert Val(kv1, LegacyDM(x)) == Val(kv, LegacyDM(x));
      assert x in ids && Build(DMKind, x) in kv && LegacyRoom(DMs, kv, x) == r;
      assert ids[0] in ids;
    }
    if r in RoomsAmong(DMs, kv, ids) && r != kv[LegacyDM(ids[0])] {
      var x :| x in ids && Build(DMKind, x) in kv && LegacyRoom(DMs, kv, x) == r;
      assert x in rest;
      assert Build(DMKind, x) in kv1 && LegacyRoom(DMs, kv1, x) == r;
    }
  }

  lemma {:induction false} DMsCount(net: Net, kv: Store, ids: seq<string>)
    requires Pending(DMs, kv, [], ids)
    ensures Count(EntriesWrites(DMs, net, kv, ids), Forward) == |UnmappedAmong(kv, ids)|
    ensures Count(EntriesWrites(DMs, net, kv, ids), DMReverse) == |RoomsAmong(DMs, kv, ids)|
    decreases |ids|
  {
    hide EntriesWrites, EntryWrites, ApplyAll, Count, RoomsAmong, UnmappedAmong;
    if ids == [] {
      NothingAmong(DMs, net, kv);
    } else {
      var w := EntryWrites(DMs, net, kv, ids[0]);
      var kv1 := ApplyAll(kv, w);
      var more := EntriesWrites(DMs, net, kv1, ids[1..]);
      EntriesStep(DMs, net, kv, ids);
      assert ids[0] in ids && Build(DMKind, ids[0]) in kv;
      hide Pending;
      DMEntryMaps(net, kv, ids);
      DMsCount(net, kv1, ids[1..]);
      DMEntryCounts(net, kv, ids[0]);
      CountAppend(w, more, Forward);
      CountAppend(w, more, DMReverse);
      FirstAmong(DMs, kv, ids);
      RemoveOne(UnmappedAmong(kv, ids), ids[0]);
      RemoveOne(RoomsAmong(DMs, kv, ids), kv[LegacyDM(ids[0])]);
    }
  }

  lemma NothingAmong(ph: Phase, net: Net, kv: Store)
    requires ph.DMs? || ph.MatrixDMs?
    ensures UnmappedAmong(kv, []) == {} && RoomsAmong(ph, kv, []) == {}
    ensures forall purpose :: Count(EntriesWrites(ph, net, kv, []), purpose) == 0
  {
  }

  lemma EntriesStep(ph: Phase, net: Net, kv: Store, ids: seq<string>)
    requires ids != []
    ensures var w := EntryWrites(ph, net, kv, ids[0]);
            EntriesWrites(ph, net, kv, ids) == w + EntriesWrites(ph, net, ApplyAll(kv, w), ids[1..])
  {
  }

  lemma FirstAmong(ph: Phase, kv: Store, ids: seq<string>)
    requires ph.DMs? || ph.MatrixDMs?
    requires ids != [] && Build(PhaseKind(ph), ids[0]) in kv
    ensures ids[0] in UnmappedAmong(kv, ids) <==> Blank(Val(kv, ChannelMapping(ids[0])))
    ensures LegacyRoom(ph, kv, ids[0]) in RoomsAmong(ph, kv, ids)
       <==> Blank(Val(kv, RoomMapping(LegacyRoom(ph, kv, ids[0]))))
  {
    assert ids[0] in ids;
  }

  lemma RemoveOne<T>(s: set<T>, x: T)
    ensures |s| == |s - {x}| + if x in s then 1 else 0
  {
    assert s == (s - {x}) + if x in s then {x} else {};
  }

  lemma MatrixDMEntryMaps(net: Net, kv: Store, ids: seq<string>)
    requires Pending(MatrixDMs, kv, [], ids) && ids != []
    ensures var kv1 := ApplyAll(kv, EntryWrites(MatrixDMs, net, kv, ids[0]));
            && Pending(MatrixDMs, kv1, [], ids[1..])
            && RoomsAmong(MatrixDMs, kv1, ids[1..]) == RoomsAmong(MatrixDMs, kv, ids) - {ids[0]}
  {
    var id := ids[0];
    assert id in ids;
    assert Build(MatrixDMKind, id) in kv;
    var kv1 := ApplyAll(kv, EntryWrites(MatrixDMs, net, kv, id));
    MatrixDMEntryVals(net, kv, id);
    hide EntryWrites, ApplyAll;
    forall x | x in ids[1..]
      ensures x in ids && x != id && Val(kv1, LegacyMatrixDM(x)) == Val(kv, LegacyMatrixDM(x))
      ensures Val(kv1, RoomMapping(x)) == Val(kv, RoomMapping(x))
    {
    }
    forall x | x in ids ensures x == id || x in ids[1..] {
    }
    assert forall x :: x in ids ==> Build(MatrixDMKind, x) in kv && LegacyRoom(MatrixDMs, kv, x) == x;
    assert forall x :: x in ids[1..] ==> Build(MatrixDMKind, x) in kv1 && LegacyRoom(MatrixDMs, kv1, x) == x;
  }

  lemma {:induction false} MatrixDMsCount(net: Net, kv: Store, ids: seq<string>)
    requires Pending(MatrixDMs, kv, [], ids)
    ensures Count(EntriesWrites(MatrixDMs, net, kv, ids), Forward) == 0
    ensures Count(EntriesWrites(MatrixDMs, net, kv, ids), DMReverse) == |RoomsAmong(MatrixDMs, kv, ids)|
    decreases |ids|
  {
    hide EntriesWrites, EntryWrites, ApplyAll, Count, RoomsAmong, UnmappedAmong;
    if ids == [] {
      NothingAmong(MatrixDMs, net, kv);
    } else {
      var w := EntryWrites(MatrixDMs, net, kv, ids[0]);
      var kv1 := ApplyAll(kv, w);
      var more := EntriesWrites(MatrixDMs, net, kv1, ids[1..]);
      EntriesStep(MatrixDMs, net, kv, ids);
      assert ids[0] in ids && Build(MatrixDMKind, ids[0]) in kv;
      hide Pending;
      MatrixDMEntryMaps(net, kv, ids);
      MatrixDMsCount(net, kv1, ids[1..]);
      MatrixDMEntryCounts(net, kv, ids[0]);
      CountAppend(w, more, Forward);
      CountAppend(w, more, DMReverse);
      FirstAmong(MatrixDMs, kv, ids);
      RemoveOne(RoomsAmong(MatrixDMs, kv, ids), ids[0]);
    }
  }

  // ---------- both loops ----------

  lemma {:induction false} FirstClaimFinds(ph: Phase, net: Net, s: Store, ids: seq<string>, id: string, k: Key)
    requires id in ids && Claims(ph, net, s, id, k)
    ensures FirstClaim(ph, net, s, ids, k).Some?
  {
    hide Claims;
    var init, last := ids[..|ids| - 1], ids[|ids| - 1];
    assert ids == init + [last];
    if id in init { FirstClaimFinds(ph, net, s, init, id, k); }
  }

  /** The entries removed by the first loop and by the second, and the stores after them. */
  ghost predicate TwoLoops(net: Net, s: Store, done1: seq<string>, kv1: Store, done2: seq<string>, x: Store) {
    && Pending(DMs, s, [], done1) && Reached(DMs, net, s, done1, kv1)
    && Pending(MatrixDMs, kv1, [], done2) && Reached(MatrixDMs, net, kv1, done2, x)
  }

  lemma LegacyKeys(net: Net, s: Store, done1: seq<string>, kv1: Store, done2: seq<string>, x: Store, id: string)
    requires TwoLoops(net, s, done1, kv1, done2, x)
    ensures LegacyDM(id) in s && LegacyDM(id) !in x <==> id in done1
    ensures LegacyMatrixDM(id) in s && LegacyMatrixDM(id) !in x <==> id in done2
    ensures LegacyMatrixDM(id) in s <==> LegacyMatrixDM(id) in kv1
  {
    var a, b := LegacyDM(id), LegacyMatrixDM(id);
    assert Val(kv1, a) == DoneVal(DMs, net, s, done1, a) && Val(x, a) == DoneVal(MatrixDMs, net, kv1, done2, a);
    assert Val(kv1, b) == DoneVal(DMs, net, s, done1, b) && Val(x, b) == DoneVal(MatrixDMs, net, kv1, done2, b);
    FirstClaimIn(DMs, net, s, done1, a);
    FirstClaimIn(DMs, net, s, done1, b);
    assert id in done1 ==> Build(DMKind, id) in s;
    assert id in done2 ==> Build(MatrixDMKind, id) in kv1;
  }

  lemma ChannelsAmong(net: Net, s: Store, done1: seq<string>, kv1: Store, done2: seq<string>, x: Store)
    requires TwoLoops(net, s, done1, kv1, done2, x)
    ensures UnmappedAmong(s, done1) == MappedChannels(s, x)
  {
    forall id ensures LegacyDM(id) in s && LegacyDM(id) !in x <==> id in done1 {
      LegacyKeys(net, s, done1, kv1, done2, x, id);
    }
    hide TwoLoops;
    forall id | id in UnmappedAmong(s, done1) ensures id in MappedChannels(s, x) {
      var k := LegacyDM(id);
      assert k in s && k !in x && k.LegacyDM? && k.id == id;
    }
    forall id | id in MappedChannels(s, x) ensures id in UnmappedAmong(s, done1) {
      var k :| k in s && k !in x && k.LegacyDM? && Blank(Val(s, ChannelMapping(k.id))) && k.id == id;
      assert k == LegacyDM(id);
    }
  }

  /** A room counted by the first loop. */
  lemma FirstRooms(s: Store, done1: seq<string>, r: string)
    requires Pending(DMs, s, [], done1)
    ensures r in RoomsAmong(DMs, s, done1)
       <==> Blank(Val(s, RoomMapping(r))) && exists ch :: ch in done1 && Val(s, LegacyDM(ch)) == Some(r)
  {
    if ch :| ch in done1 && Val(s, LegacyDM(ch)) == Some(r) {
      assert Build(DMKind, ch) in s && LegacyRoom(DMs, s, ch) == r;
    }
    if r in RoomsAmong(DMs, s, done1) {
      var ch :| ch in done1 && Build(DMKind, ch) in s && LegacyRoom(DMs, s, ch) == r
                && Blank(Val(s, RoomMapping(LegacyRoom(DMs, s, ch))));
      assert Val(s, LegacyDM(ch)) == Some(r);
    }
  }

  /** The second loop counts a room of its own that the first has not counted. */
  lemma SecondRooms(net: Net, s: Store, done1: seq<string>, kv1: Store, done2: seq<string>, x: Store, r: string)
    requires TwoLoops(net, s, done1, kv1, done2, x)
    ensures r in RoomsAmong(MatrixDMs, kv1, done2)
       <==> r in done2 && Blank(Val(s, RoomMapping(r))) && r !in RoomsAmong(DMs, s, done1)
  {
    var k := RoomMapping(r);
    assert Val(kv1, k) == DoneVal(DMs, net, s, done1, k);
    FirstClaimIn(DMs, net, s, done1, k);
    FirstRooms(s, done1, r);
    assert r in done2 ==> Build(MatrixDMKind, r) in kv1 && LegacyRoom(MatrixDMs, kv1, r) == r;
    if ch :| ch in done1 && Val(s, LegacyDM(ch)) == Some(r) {
      FirstClaimFinds(DMs, net, s, done1, ch, k);
    }
  }

  lemma RoomsTogether(net: Net, s: Store, done1: seq<string>, kv1: Store, done2: seq<string>, x: Store)
    requires TwoLoops(net, s, done1, kv1, done2, x)
    ensures var first, second := RoomsAmong(DMs, s, done1), RoomsAmong(MatrixDMs, kv1, done2);
            first !! second && first + second == MappedRooms(s, x)
  {
    var first, second := RoomsAmong(DMs, s, done1), RoomsAmong(MatrixDMs, kv1, done2);
    hide RoomsAmong;
    forall r
      ensures r in first <==>
                Blank(Val(s, RoomMapping(r))) && exists ch :: ch in done1 && Val(s, LegacyDM(ch)) == Some(r)
      ensures r in second <==> r in done2 && Blank(Val(s, RoomMapping(r))) && r !in first
      ensures LegacyDM(r) in s && LegacyDM(r) !in x <==> r in done1
      ensures LegacyMatrixDM(r) in s && LegacyMatrixDM(r) !in x <==> r in done2
    {
      FirstRooms(s, done1, r);
      SecondRooms(net, s, done1, kv1, done2, x, r);
      LegacyKeys(net, s, done1, kv1, done2, x, r);
    }
    hide TwoLoops, MappedRooms;
    forall r ensures r in first + second <==> r in MappedRooms(s, x) {
      AllRooms(s, x, done1, done2, r);
    }
  }

  lemma AllRooms(s: Store, x: Store, done1: seq<string>, done2: seq<string>, r: string)
    requires forall id :: LegacyDM(id) in s && LegacyDM(id) !in x <==> id in done1
    requires forall id :: LegacyMatrixDM(id) in s && LegacyMatrixDM(id) !in x <==> id in done2
    ensures r in MappedRooms(s, x)
       <==> Blank(Val(s, RoomMapping(r)))
            && (r in done2 || exists ch :: ch in done1 && Val(s, LegacyDM(ch)) == Some(r))
  {
    if r in MappedRooms(s, x) && r !in done2 {
      if k :| k in s && k !in x && k.LegacyDM? && Blank(Val(s, RoomMapping(s[k]))) && s[k] == r {
        assert k == LegacyDM(k.id) && k.id in done1;
      }
    }
    if ch :| Blank(Val(s, RoomMapping(r))) && ch in done1 && Val(s, LegacyDM(ch)) == Some(r) {
      var k := LegacyDM(ch);
      assert k in s && k !in x && k.LegacyDM? && s[k] == r;
    }
    if Blank(Val(s, RoomMapping(r))) && r in done2 {
      var k := LegacyMatrixDM(r);
      assert k in s && k !in x && k.LegacyMatrixDM? && k.id == r;
    }
  }

  /**
    Version 2's counters, for any number of keys: the channels and the rooms of the entries moved that get a mapping
    they did not have, each once.
  */
  lemma Version2Counts(net: Net, s: Store)
    requires LegacyDM("") !in s
    ensures Count(Version2Writes(net, s), Forward) == |MappedChannels(s, AfterVersion2(net, s))|
    ensures Count(Version2Writes(net, s), DMReverse) == |MappedRooms(s, AfterVersion2(net, s))|
  {
    hide AfterPhase, PhaseWrites, Count, RoomsAmong, UnmappedAmong, MappedRooms, MappedChannels, Reached, Pending,
         EntriesWrites;
    var kv1, x := AfterPhase(DMs, net, s), AfterVersion2(net, s);
    var done1 := AnyPhaseReached(DMs, net, s);
    var done2 := AnyPhaseReached(MatrixDMs, net, kv1);
    DMsCount(net, s, done1);
    MatrixDMsCount(net, kv1, done2);
    CountAppend(PhaseWrites(DMs, net, s), PhaseWrites(MatrixDMs, net, kv1), Forward);
    CountAppend(PhaseWrites(DMs, net, s), PhaseWrites(MatrixDMs, net, kv1), DMReverse);
    ChannelsAmong(net, s, done1, kv1, done2, x);
    RoomsTogether(net, s, done1, kv1, done2, x);
  }

  lemma {:induction false} Version1Purposes(ph: Phase, net: Net, kv: Store, ids: seq<string>, purpose: Purpose)
    requires ph.Users? || ph.Channels?
    requires purpose.Forward? || purpose.DMReverse?
    ensures Count(EntriesWrites(ph, net, kv, ids), purpose) == 0
    decreases |ids|
  {
    if ids != [] {
      var w := EntryWrites(ph, net, kv, ids[0]);
      Version1Purposes(ph, net, ApplyAll(kv, w), ids[1..], purpose);
      CountAppend(w, EntriesWrites(ph, net, ApplyAll(kv, w), ids[1..]), purpose);
      NoneOf(w, purpose);
    }
  }

  lemma {:induction false} NoneOf(ws: seq<Write>, purpose: Purpose)
    requires forall w :: w in ws ==> w.purpose != purpose
    ensures Count(ws, purpose) == 0
  {
    if ws != [] {
      NoneOf(ws[1..], purpose);
    }
  }

  lemma Version1Counts(net: Net, kv: Store, purpose: Purpose)
    requires purpose.Forward? || purpose.DMReverse?
    ensures Count(Version1Writes(net, kv), purpose) == 0
  {
    hide Count, PhaseWrites, AfterPhase, EntriesWrites;
    if VersionOf(kv) < 1 {
      var kvU := AfterPhase(Users, net, kv);
      CountAppend(PhaseWrites(Users, net, kv), PhaseWrites(Channels, net, kvU), purpose);
      PhaseWritesAll(Users, net, kv);
      PhaseWritesAll(Channels, net, kvU);
      Version1Purposes(Users, net, kv, Listed(kv, MatrixUserKind), purpose);
      Version1Purposes(Channels, net, kvU, Listed(kvU, ChannelKind), purpose);
    } else {
      NoneOf([], purpose);
    }
  }

  lemma PlanCounts(net: Net, kv: Store, purpose: Purpose)
    requires VersionOf(kv) < CURRENT_VERSION && (purpose.Forward? || purpose.DMReverse?)
    ensures Count(Plan(net, kv), purpose) == Count(Version2Writes(net, AfterVersion1(net, kv)), purpose)
  {
    hide VersionOf, Count, Version1Writes, Version2Writes, AfterVersion1;
    var ws1, ws2 := Version1Writes(net, kv), Version2Writes(net, AfterVersion1(net, kv));
    Version1Counts(net, kv, purpose);
    CountOf(ws1 + ws2, VERSION_WRITE, purpose);
    CountAppend(ws1, ws2, purpose);
  }

  /** The DM counters of a whole migration; the version 1 loops add nothing to them. */
  lemma DMCountersAreExact(net: Net, kv: Store)
    requires VersionOf(kv) < CURRENT_VERSION && LegacyDM("") !in AfterVersion1(net, kv)
    ensures var s := AfterVersion1(net, kv);
            && Count(Plan(net, kv), Forward) == |MappedChannels(s, AfterVersion2(net, s))|
            && Count(Plan(net, kv), DMReverse) == |MappedRooms(s, AfterVersion2(net, s))|
  {
    hide VersionOf, Count, Plan, Version2Writes, AfterVersion1, AfterVersion2, MappedChannels, MappedRooms;
    Version2Counts(net, AfterVersion1(net, kv));
    PlanCounts(net, kv, Forward);
    PlanCounts(net, kv, DMReverse);
  }
}
