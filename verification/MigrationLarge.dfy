/** What version 2 does to legacy prefixes of any size (server/migrations.go). */
module MigrationLarge {
  import opened Prelude
  import opened Keys
  import opened Listing
  import opened MigrationSpec
  import opened MigrationEffects
  import opened MigrationResults

  /** Of a legacy channel entry: it is as it was, with its forward mapping, or it is gone and its mappings are there. */
  predicate ChannelMovedOrKept(s: Store, x: Store, ch: string) {
    if LegacyDM(ch) !in s then
      LegacyDM(ch) !in x && Val(x, ChannelMapping(ch)) == Val(s, ChannelMapping(ch))
    else if LegacyDM(ch) in x then
      x[LegacyDM(ch)] == s[LegacyDM(ch)] && Val(x, ChannelMapping(ch)) == Val(s, ChannelMapping(ch))
    else
      && (Val(x, ChannelMapping(ch))
          == if Blank(Val(s, ChannelMapping(ch))) then Val(s, LegacyDM(ch)) else Val(s, ChannelMapping(ch)))
      && RoomMapping(s[LegacyDM(ch)]) in x
      && (ch != "" ==> !Blank(Val(x, RoomMapping(s[LegacyDM(ch)]))))
  }

  /** The same of a legacy room entry. */
  predicate RoomMovedOrKept(s: Store, x: Store, r: string) {
    if LegacyMatrixDM(r) !in s then LegacyMatrixDM(r) !in x
    else if LegacyMatrixDM(r) in x then x[LegacyMatrixDM(r)] == s[LegacyMatrixDM(r)]
    else RoomMapping(r) in x
  }

  /** Reverse mappings are not lost, and nonempty ones not changed. */
  predicate ReverseKept(s: Store, x: Store, r: string) {
    && (RoomMapping(r) in s ==> RoomMapping(r) in x)
    && (!Blank(Val(s, RoomMapping(r))) ==> Val(x, RoomMapping(r)) == Val(s, RoomMapping(r)))
  }

  ghost predicate NothingLost(s: Store, x: Store) {
    forall id :: ChannelMovedOrKept(s, x, id) && RoomMovedOrKept(s, x, id) && ReverseKept(s, x, id)
  }

  lemma DMEntryLosesNothing(net: Net, s: Store, kv: Store, id: string)
    requires NothingLost(s, kv)
    ensures NothingLost(s, ApplyAll(kv, EntryWrites(DMs, net, kv, id)))
  {
    var x := ApplyAll(kv, EntryWrites(DMs, net, kv, id));
    if LegacyDM(id) in kv {
      DMEntryVals(net, kv, id);
      hide ApplyAll, EntryWrites;
      forall ch ensures ChannelMovedOrKept(s, x, ch) && RoomMovedOrKept(s, x, ch) && ReverseKept(s, x, ch) {
        DMEntryAt(s, kv, x, id, ch);
      }
    } else {
      Apply0(kv);
    }
  }

  lemma DMEntryAt(s: Store, kv: Store, x: Store, id: string, ch: string)
    requires NothingLost(s, kv) && LegacyDM(id) in kv
    requires forall k :: Val(x, k)
                      == if k == LegacyDM(id) then None
                         else if k == ChannelMapping(id) && Blank(Val(kv, k)) then Some(kv[LegacyDM(id)])
                         else if k == RoomMapping(kv[LegacyDM(id)]) && Blank(Val(kv, k)) then Some(id)
                         else Val(kv, k)
    ensures ChannelMovedOrKept(s, x, ch) && RoomMovedOrKept(s, x, ch) && ReverseKept(s, x, ch)
  {
    assert ChannelMovedOrKept(s, kv, id) && ChannelMovedOrKept(s, kv, ch) && RoomMovedOrKept(s, kv, ch)
             && ReverseKept(s, kv, ch);
    assert Val(x, LegacyDM(ch)) == if ch == id then None else Val(kv, LegacyDM(ch));
    assert (Val(x, ChannelMapping(ch))
            == if ch == id && Blank(Val(kv, ChannelMapping(id))) then Some(kv[LegacyDM(id)])
               else Val(kv, ChannelMapping(ch)));
    assert Val(x, LegacyMatrixDM(ch)) == Val(kv, LegacyMatrixDM(ch));
    forall r ensures Val(x, RoomMapping(r))
                  == if r == kv[LegacyDM(id)] && Blank(Val(kv, RoomMapping(r))) then Some(id)
                     else Val(kv, RoomMapping(r)) {
    }
  }

  lemma MatrixDMEntryLosesNothing(net: Net, s: Store, kv: Store, id: string)
    requires NothingLost(s, kv)
    ensures NothingLost(s, ApplyAll(kv, EntryWrites(MatrixDMs, net, kv, id)))
  {
    var x := ApplyAll(kv, EntryWrites(MatrixDMs, net, kv, id));
    if LegacyMatrixDM(id) in kv {
      MatrixDMEntryVals(net, kv, id);
      hide ApplyAll, EntryWrites;
      forall ch ensures ChannelMovedOrKept(s, x, ch) && RoomMovedOrKept(s, x, ch) && ReverseKept(s, x, ch) {
        MatrixDMEntryAt(s, kv, x, id, ch);
      }
    } else {
      Apply0(kv);
    }
  }

  lemma MatrixDMEntryAt(s: Store, kv: Store, x: Store, id: string, ch: string)
    requires NothingLost(s, kv) && LegacyMatrixDM(id) in kv
    requires forall k :: Val(x, k)
                      == if k == LegacyMatrixDM(id) then None
                         else if k == RoomMapping(id) && Blank(Val(kv, k)) then Val(kv, LegacyMatrixDM(id))
                         else Val(kv, k)
    ensures ChannelMovedOrKept(s, x, ch) && RoomMovedOrKept(s, x, ch) && ReverseKept(s, x, ch)
  {
    assert ChannelMovedOrKept(s, kv, ch) && RoomMovedOrKept(s, kv, ch) && ReverseKept(s, kv, ch)
             && RoomMovedOrKept(s, kv, id);
    assert Val(x, LegacyDM(ch)) == Val(kv, LegacyDM(ch));
    assert Val(x, ChannelMapping(ch)) == Val(kv, ChannelMapping(ch));
    assert Val(x, LegacyMatrixDM(ch)) == if ch == id then None else Val(kv, LegacyMatrixDM(ch));
    forall r ensures Val(x, RoomMapping(r))
                  == if r == id && Blank(Val(kv, RoomMapping(r))) then Val(kv, LegacyMatrixDM(id))
                     else Val(kv, RoomMapping(r)) {
    }
  }

  lemma {:induction false} EntriesLoseNothing(ph: Phase, net: Net, s: Store, kv: Store, ids: seq<string>)
    requires (ph.DMs? || ph.MatrixDMs?) && NothingLost(s, kv)
    ensures NothingLost(s, ApplyAll(kv, EntriesWrites(ph, net, kv, ids)))
    decreases |ids|
  {
    hide NothingLost, EntryWrites;
    if ids == [] {
      Apply0(kv);
    } else {
      var w := EntryWrites(ph, net, kv, ids[0]);
      if ph.DMs? { DMEntryLosesNothing(net, s, kv, ids[0]); } else { MatrixDMEntryLosesNothing(net, s, kv, ids[0]); }
      EntriesLoseNothing(ph, net, s, ApplyAll(kv, w), ids[1..]);
      ApplyAppend(kv, w, EntriesWrites(ph, net, ApplyAll(kv, w), ids[1..]));
    }
  }

  lemma {:induction false} PagesLoseNothing(ph: Phase, net: Net, s: Store, kv: Store, page: nat)
    requires (ph.DMs? || ph.MatrixDMs?) && NothingLost(s, kv)
    ensures NothingLost(s, ApplyAll(kv, PagedWrites(ph, net, kv, page)))
    decreases Remaining(kv, PhaseKind(ph), page)
  {
    hide NothingLost, EntriesWrites, ApplyAll;
    var ids := Page(Listed(kv, PhaseKind(ph)), page, BATCH_SIZE);
    EntriesLoseNothing(ph, net, s, kv, ids);
    if |ids| == BATCH_SIZE {
      var w := EntriesWrites(ph, net, kv, ids);
      PageProgress(ph, net, kv, page);
      PagesLoseNothing(ph, net, s, ApplyAll(kv, w), page + 1);
      PagedUnfolds(ph, net, kv, page);
      ApplyAppend(kv, w, PagedWrites(ph, net, ApplyAll(kv, w), page + 1));
    } else {
      PagedEnds(ph, net, kv, page);
    }
  }

  /**
    Whatever the size of the legacy prefixes, after version 2 each legacy entry is untouched or fully moved, and no
    mapping that was there is lost.
  */
  lemma AnySizeLosesNothing(net: Net, s: Store)
    ensures NothingLost(s, AfterVersion2(net, s))
  {
    hide PagedWrites, ApplyAll;
    assert NothingLost(s, s);
    hide NothingLost;
    PagesLoseNothing(DMs, net, s, s, 0);
    PagesLoseNothing(MatrixDMs, net, s, AfterPhase(DMs, net, s), 0);
  }
}
