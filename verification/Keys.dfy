/**
  The KV-store keys (server/store/kvstore/constants.go).  The rest of the model works on `Key`
  values; this module proves that their renderings as strings never collide and that listing a
  string prefix selects exactly one constructor.
*/
module Keys {

  datatype Key =
    | MatrixUser(id: string)
    | MattermostUser(id: string)
    | ChannelMapping(id: string)
    | RoomMapping(id: string)
    | LegacyDM(id: string)
    | LegacyMatrixDM(id: string)
    | StoreVersion
    | Other(name: string)

  datatype Kind = MatrixUserKind | MattermostUserKind | ChannelKind | RoomKind | DMKind | MatrixDMKind

  function Prefix(kind: Kind): string {
    match kind
    case MatrixUserKind => "matrix_user_"
    case MattermostUserKind => "mattermost_user_"
    case ChannelKind => "channel_mapping_"
    case RoomKind => "room_mapping_"
    case DMKind => "dm_mapping_"
    case MatrixDMKind => "matrix_dm_mapping_"
  }

  function Build(kind: Kind, id: string): Key {
    match kind
    case MatrixUserKind => MatrixUser(id)
    case MattermostUserKind => MattermostUser(id)
    case ChannelKind => ChannelMapping(id)
    case RoomKind => RoomMapping(id)
    case DMKind => LegacyDM(id)
    case MatrixDMKind => LegacyMatrixDM(id)
  }

  function Render(k: Key): string {
    match k
    case MatrixUser(id) => Prefix(MatrixUserKind) + id
    case MattermostUser(id) => Prefix(MattermostUserKind) + id
    case ChannelMapping(id) => Prefix(ChannelKind) + id
    case RoomMapping(id) => Prefix(RoomKind) + id
    case LegacyDM(id) => Prefix(DMKind) + id
    case LegacyMatrixDM(id) => Prefix(MatrixDMKind) + id
    case StoreVersion => "kv_store_version"
    case Other(name) => name
  }

  /** `Other` stands for the keys that none of the modelled constructors renders. */
  ghost predicate Proper(k: Key) {
    k.Other? ==> k.name != Render(StoreVersion) && forall kind :: !(Prefix(kind) <= k.name)
  }

  predicate IsKind(k: Key, kind: Kind) {
    match k
    case MatrixUser(_) => kind.MatrixUserKind?
    case MattermostUser(_) => kind.MattermostUserKind?
    case ChannelMapping(_) => kind.ChannelKind?
    case RoomMapping(_) => kind.RoomKind?
    case LegacyDM(_) => kind.DMKind?
    case LegacyMatrixDM(_) => kind.MatrixDMKind?
    case StoreVersion => false
    case Other(_) => false
  }

  /** Where two prefixes first disagree. */
  function Disagreement(a: Kind, b: Kind): (i: nat)
    requires a != b
    ensures i < |Prefix(a)| && i < |Prefix(b)| && Prefix(a)[i] != Prefix(b)[i]
  {
    if Prefix(a)[0] != Prefix(b)[0] then 0
    else if a.MattermostUserKind? || b.MattermostUserKind? then 3
    else 7
  }

  lemma NotBothPrefixes(a: Kind, b: Kind, s: string)
    requires a != b
    ensures !(Prefix(a) <= s && Prefix(b) <= s)
  {
    var i := Disagreement(a, b);
    assert Prefix(a) <= s ==> s[i] == Prefix(a)[i];
    assert Prefix(b) <= s ==> s[i] == Prefix(b)[i];
  }

  /** Listing a prefix selects exactly the keys of one constructor, and trimming it gives their id. */
  lemma PrefixSelects(k: Key, kind: Kind)
    requires Proper(k)
    ensures Prefix(kind) <= Render(k) <==> IsKind(k, kind)
    ensures IsKind(k, kind) ==> k == Build(kind, Render(k)[|Prefix(kind)|..])
  {
    var r := Render(k);
    forall other | other != kind ensures !(Prefix(kind) <= r && Prefix(other) <= r) {
      NotBothPrefixes(kind, other, r);
    }
    assert Prefix(kind)[0] != 'k';
    assert Prefix(kind) <= r ==> r[0] == Prefix(kind)[0];
    assert IsKind(k, kind) ==> r == Prefix(kind) + r[|Prefix(kind)|..];
  }

  /** The six prefixes, as strings: each lists the keys of its own kind, and they are its ids after the prefix. */
  lemma PrefixesList(k: Key)
    requires Proper(k)
    ensures "matrix_user_" <= Render(k) <==> k.MatrixUser?
    ensures "mattermost_user_" <= Render(k) <==> k.MattermostUser?
    ensures "channel_mapping_" <= Render(k) <==> k.ChannelMapping?
    ensures "room_mapping_" <= Render(k) <==> k.RoomMapping?
    ensures "dm_mapping_" <= Render(k) <==> k.LegacyDM?
    ensures "matrix_dm_mapping_" <= Render(k) <==> k.LegacyMatrixDM?
    ensures Render(k) == "kv_store_version" <==> k.StoreVersion?
  {
    forall kind ensures Prefix(kind) <= Render(k) <==> IsKind(k, kind) {
      PrefixSelects(k, kind);
    }
    hide Render, Proper;
    assert Prefix(MatrixUserKind) == "matrix_user_" && Prefix(MattermostUserKind) == "mattermost_user_";
    assert Prefix(ChannelKind) == "channel_mapping_" && Prefix(RoomKind) == "room_mapping_";
    assert Prefix(DMKind) == "dm_mapping_" && Prefix(MatrixDMKind) == "matrix_dm_mapping_";
    VersionKey(k);
  }

  lemma VersionKey(k: Key)
    requires Proper(k)
    ensures Render(k) == "kv_store_version" <==> k.StoreVersion?
  {
    assert "kv_store_version"[0] == 'k' && forall kind :: Prefix(kind)[0] != 'k';
    if !k.StoreVersion? && !k.Other? { assert Render(k)[0] == Prefix(KindOf(k))[0]; }
  }

  lemma SameKind(a: Key, b: Key, kind: Kind)
    requires Proper(a) && Proper(b) && Render(a) == Render(b)
    ensures IsKind(a, kind) <==> IsKind(b, kind)
  {
    PrefixSelects(a, kind);
    PrefixSelects(b, kind);
  }

  /** Different keys render differently. */
  lemma RenderInjective(a: Key, b: Key)
    requires Proper(a) && Proper(b) && Render(a) == Render(b)
    ensures a == b
  {
    SameKind(a, b, MatrixUserKind);
    SameKind(a, b, MattermostUserKind);
    SameKind(a, b, ChannelKind);
    SameKind(a, b, RoomKind);
    SameKind(a, b, DMKind);
    SameKind(a, b, MatrixDMKind);
    if !a.StoreVersion? && !a.Other? {
      PrefixSelects(a, KindOf(a));
      PrefixSelects(b, KindOf(a));
    }
  }

  function KindOf(k: Key): (kind: Kind)
    requires !k.StoreVersion? && !k.Other?
    ensures IsKind(k, kind)
  {
    match k
    case MatrixUser(_) => MatrixUserKind
    case MattermostUser(_) => MattermostUserKind
    case ChannelMapping(_) => ChannelKind
    case RoomMapping(_) => RoomKind
    case LegacyDM(_) => DMKind
    case LegacyMatrixDM(_) => MatrixDMKind
  }

  // ---------- room memberships of ghosts ----------

  const GHOST_ROOM_PREFIX: string := "ghost_room_"

  /** The one key built from two parts. */
  function GhostRoom(mattermostUserID: string, roomID: string): Key {
    Other(GHOST_ROOM_PREFIX + (mattermostUserID + "_" + roomID))
  }

  lemma GhostRoomIsProper(u: string, r: string)
    ensures Proper(GhostRoom(u, r)) && Render(GhostRoom(u, r)) == "ghost_room_" + u + "_" + r
  {
    var name := GhostRoom(u, r).name;
    assert name[0] == 'g';
    assert Render(StoreVersion)[0] == 'k';
    forall kind ensures !(Prefix(kind) <= name) {
      assert Prefix(kind)[0] != 'g';
    }
  }

  /** No membership's key is any other of the plugin's modelled keys. */
  lemma GhostRoomsElsewhere(u: string, r: string, k: Key)
    requires !k.Other?
    ensures Render(GhostRoom(u, r)) != Render(k)
  {
    GhostRoomIsProper(u, r);
    if Render(GhostRoom(u, r)) == Render(k) {
      RenderInjective(GhostRoom(u, r), k);
    }
  }

  /** The second user's ID goes on where the first one's ends, and takes a piece of the first room's. */
  ghost predicate Extends(u: string, r: string, v: string, q: string) {
    exists t :: v == u + "_" + t && r == t + "_" + q
  }

  lemma LongerExtends(u: string, r: string, v: string, q: string)
    requires u + "_" + r == v + "_" + q && |u| < |v|
    ensures Extends(u, r, v, q)
  {
    var s := u + "_" + r;
    var t := v[|u| + 1..];
    assert v == s[..|v|] && s[|u|] == '_' && s[..|u|] == u;
    assert v[..|u|] == u && v[|u|] == '_';
    assert v == u + "_" + t;
    assert s == u + "_" + (t + "_" + q);
    assert r == s[|u| + 1..] && t + "_" + q == s[|u| + 1..];
  }

  /**
    Two memberships share a key exactly when they are the same, or one user's ID extends the other's past an
    underscore.
  */
  lemma GhostRoomsCollideIff(u: string, r: string, v: string, q: string)
    ensures Render(GhostRoom(u, r)) == Render(GhostRoom(v, q))
       <==> (u == v && r == q) || Extends(u, r, v, q) || Extends(v, q, u, r)
  {
    var a, b := u + "_" + r, v + "_" + q;
    assert (GHOST_ROOM_PREFIX + a)[|GHOST_ROOM_PREFIX|..] == a && (GHOST_ROOM_PREFIX + b)[|GHOST_ROOM_PREFIX|..] == b;
    if a == b {
      if |u| < |v| {
        LongerExtends(u, r, v, q);
      } else if |v| < |u| {
        LongerExtends(v, q, u, r);
      } else {
        assert u == a[..|u|] && v == b[..|u|];
        assert r == a[|u| + 1..] && q == b[|u| + 1..];
      }
    }
    if t :| v == u + "_" + t && r == t + "_" + q {
      assert a == u + "_" + t + "_" + q == b;
    }
    if t :| u == v + "_" + t && q == t + "_" + r {
      assert b == v + "_" + t + "_" + r == a;
    }
  }

  /** User IDs without underscore, as Mattermost makes them, keep the keys apart. */
  lemma GhostRoomsApart(u: string, r: string, v: string, q: string)
    requires '_' !in u && '_' !in v && Render(GhostRoom(u, r)) == Render(GhostRoom(v, q))
    ensures u == v && r == q
  {
    GhostRoomsCollideIff(u, r, v, q);
    forall t ensures v != u + "_" + t && u != v + "_" + t {
      assert (u + "_" + t)[|u|] == '_' && (v + "_" + t)[|v|] == '_';
    }
  }
}
