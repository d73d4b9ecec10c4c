/**
  What the KV-store migrations write (server/migrations.go), as explicit sequences of writes.

  A store is a map from keys to values.  `Net` is the homeserver's alias resolution; it is None
  everywhere when there is no Matrix client.
*/
module MigrationSpec {
  import opened Prelude
  import opened Keys
  import opened Listing

  const BATCH_SIZE: nat := 1000

  type Store = map<Key, string>
  type Net = string -> Option<string>

  function Val(kv: Store, k: Key): Option<string> {
    if k in kv then Some(kv[k]) else None
  }

  /** Absent or empty, which the DM migration treats alike. */
  predicate Blank(o: Option<string>) {
    o.None? || o.value == ""
  }

  lemma SameVals(a: Store, b: Store)
    requires forall k :: Val(a, k) == Val(b, k)
    ensures a == b
  {
    assert forall k :: k in a <==> Val(a, k).Some?;
    assert forall k :: k in b <==> Val(b, k).Some?;
    assert forall k :: k in a ==> Val(a, k) == Some(a[k]) && Val(b, k) == Some(b[k]);
  }

  // ---------- writes ----------

  /** What a write is for; the migration's counters count writes by purpose. */
  datatype Purpose = UserReverse | ChannelReverse | RoomID | Forward | DMReverse | Cleanup | VersionMark

  datatype Write = Put(purpose: Purpose, key: Key, value: string) | Del(purpose: Purpose, key: Key)

  function Apply(kv: Store, w: Write): Store {
    match w
    case Put(_, key, value) => kv[key := value]
    case Del(_, key) => kv - {key}
  }

  function ApplyAll(kv: Store, ws: seq<Write>): Store
    decreases |ws|
  {
    if ws == [] then kv else ApplyAll(Apply(kv, ws[0]), ws[1..])
  }

  lemma {:induction false} ApplyAppend(kv: Store, a: seq<Write>, b: seq<Write>)
    ensures ApplyAll(kv, a + b) == ApplyAll(ApplyAll(kv, a), b)
    decreases |a|
  {
    if a == [] {
      assert a + b == b;
    } else {
      assert (a + b)[1..] == a[1..] + b;
      ApplyAppend(Apply(kv, a[0]), a[1..], b);
    }
  }

  /** Keys that no write touches keep their value. */
  lemma {:induction false} Untouched(kv: Store, ws: seq<Write>, k: Key)
    requires forall w :: w in ws ==> w.key != k
    ensures Val(ApplyAll(kv, ws), k) == Val(kv, k)
    decreases |ws|
  {
    if ws != [] {
      assert Val(Apply(kv, ws[0]), k) == Val(kv, k);
      Untouched(Apply(kv, ws[0]), ws[1..], k);
    }
  }

  function Count(ws: seq<Write>, purpose: Purpose): nat {
    if ws == [] then 0 else (if ws[0].purpose == purpose then 1 else 0) + Count(ws[1..], purpose)
  }

  lemma {:induction false} CountAppend(a: seq<Write>, b: seq<Write>, purpose: Purpose)
    ensures Count(a + b, purpose) == Count(a, purpose) + Count(b, purpose)
  {
    if a == [] {
      assert a + b == b;
    } else {
      assert (a + b)[1..] == a[1..] + b;
      CountAppend(a[1..], b, purpose);
    }
  }

  // ---------- one entry ----------

  /** The four loops: two of version 1, two of version 2. */
  datatype Phase = Users | Channels | DMs | MatrixDMs

  function PhaseKind(ph: Phase): Kind {
    match ph
    case Users => MatrixUserKind
    case Channels => ChannelKind
    case DMs => DMKind
    case MatrixDMs => MatrixDMKind
  }

  predicate IsAlias(room: string) {
    "#" <= room
  }

  /** The writes the loop body makes for the entry `id` in store `kv`. */
  function EntryWrites(ph: Phase, net: Net, kv: Store, id: string): seq<Write> {
    if Build(PhaseKind(ph), id) !in kv then []
    else
      var value := kv[Build(PhaseKind(ph), id)];
      match ph
      case Users =>
        if Val(kv, MattermostUser(value)) == Some(id) then [] else [Put(UserReverse, MattermostUser(value), id)]
      case Channels =>
        (if Val(kv, RoomMapping(value)) == Some(id) then [] else [Put(ChannelReverse, RoomMapping(value), id)])
        + (if IsAlias(value) && net(value).Some? then [Put(RoomID, RoomMapping(net(value).value), id)] else [])
      case DMs =>
        (if Blank(Val(kv, ChannelMapping(id))) then [Put(Forward, ChannelMapping(id), value)] else [])
        + (if Blank(Val(kv, RoomMapping(value))) then [Put(DMReverse, RoomMapping(value), id)] else [])
        + [Del(Cleanup, LegacyDM(id))]
      case MatrixDMs =>
        (if Blank(Val(kv, RoomMapping(id))) then [Put(DMReverse, RoomMapping(id), value)] else [])
        + [Del(Cleanup, LegacyMatrixDM(id))]
  }

  function EntriesWrites(ph: Phase, net: Net, kv: Store, ids: seq<string>): seq<Write>
    decreases |ids|
  {
    if ids == [] then []
    else
      var w := EntryWrites(ph, net, kv, ids[0]);
      w + EntriesWrites(ph, net, ApplyAll(kv, w), ids[1..])
  }

  lemma {:induction false} EntriesAppend(ph: Phase, net: Net, kv: Store, a: seq<string>, b: seq<string>)
    ensures EntriesWrites(ph, net, kv, a + b)
         == EntriesWrites(ph, net, kv, a) + EntriesWrites(ph, net, ApplyAll(kv, EntriesWrites(ph, net, kv, a)), b)
    decreases |a|
  {
    if a == [] {
      assert a + b == b;
    } else {
      var w := EntryWrites(ph, net, kv, a[0]);
      var kv1 := ApplyAll(kv, w);
      assert (a + b)[1..] == a[1..] + b;
      EntriesAppend(ph, net, kv1, a[1..], b);
      ApplyAppend(kv, w, EntriesWrites(ph, net, kv1, a[1..]));
    }
  }

  // ---------- pages ----------

  function Ids(kv: Store, kind: Kind): (ids: set<string>)
    ensures forall id :: id in ids <==> Build(kind, id) in kv
  {
    var ids := set k | k in kv && IsKind(k, kind) :: IdOf(k);
    assert forall id :: IsKind(Build(kind, id), kind) && IdOf(Build(kind, id)) == id;
    assert forall k :: IsKind(k, kind) ==> k == Build(kind, IdOf(k));
    ids
  }

  function IdOf(k: Key): string {
    match k
    case MatrixUser(id) => id
    case MattermostUser(id) => id
    case ChannelMapping(id) => id
    case RoomMapping(id) => id
    case LegacyDM(id) => id
    case LegacyMatrixDM(id) => id
    case StoreVersion => ""
    case Other(name) => name
  }

  /** The ids of one kind in listing order. */
  ghost function Listed(kv: Store, kind: Kind): (ids: seq<string>)
    ensures Increasing(ids)
    ensures forall id :: id in ids <==> Build(kind, id) in kv
    ensures |ids| == |Ids(kv, kind)|
  {
    ListingExists(kv, kind);
    var ids: seq<string> :| Increasing(ids) && (forall id :: id in ids <==> Build(kind, id) in kv)
                            && |ids| == |Ids(kv, kind)|;
    ids
  }

  lemma ListingExists(kv: Store, kind: Kind)
    ensures exists ids: seq<string> :: Increasing(ids) && (forall id :: id in ids <==> Build(kind, id) in kv)
                            && |ids| == |Ids(kv, kind)|
  {
    var ids := Sorted(Ids(kv, kind));
  }

  lemma ListedIsSorted(kv: Store, kind: Kind)
    ensures Listed(kv, kind) == Sorted(Ids(kv, kind))
  {
    IncreasingUnique(Listed(kv, kind), Sorted(Ids(kv, kind)));
  }

  lemma SameListing(a: Store, b: Store, kind: Kind)
    requires forall id :: Build(kind, id) in a <==> Build(kind, id) in b
    ensures Listed(a, kind) == Listed(b, kind)
  {
    IncreasingUnique(Listed(a, kind), Listed(b, kind));
  }

  /** The keys a loop body may write. */
  predicate WritesOf(ph: Phase, w: Write) {
    match ph
    case Users => w.Put? && w.key.MattermostUser?
    case Channels => w.Put? && w.key.RoomMapping?
    case DMs => (w.Put? && (w.key.ChannelMapping? || w.key.RoomMapping?)) || (w.Del? && w.key.LegacyDM?)
    case MatrixDMs => (w.Put? && w.key.RoomMapping?) || (w.Del? && w.key.LegacyMatrixDM?)
  }

  lemma EntryWritesOf(ph: Phase, net: Net, kv: Store, id: string)
    ensures forall w :: w in EntryWrites(ph, net, kv, id) ==> WritesOf(ph, w)
  {
  }

  lemma {:induction false} WritesAddNoIds(ph: Phase, kv: Store, ws: seq<Write>)
    requires forall w :: w in ws ==> WritesOf(ph, w)
    ensures Ids(ApplyAll(kv, ws), PhaseKind(ph)) <= Ids(kv, PhaseKind(ph))
    ensures ph.Users? || ph.Channels? ==> Ids(ApplyAll(kv, ws), PhaseKind(ph)) == Ids(kv, PhaseKind(ph))
    decreases |ws|
  {
    if ws != [] {
      var kv1 := Apply(kv, ws[0]);
      assert WritesOf(ph, ws[0]);
      forall id
        ensures Build(PhaseKind(ph), id) in kv1 ==> Build(PhaseKind(ph), id) in kv
        ensures ws[0].Put? && Build(PhaseKind(ph), id) in kv ==> Build(PhaseKind(ph), id) in kv1
      {
      }
      WritesAddNoIds(ph, kv1, ws[1..]);
    }
  }

  /** No loop adds keys of the kind it lists. */
  lemma EntryAddsNoIds(ph: Phase, net: Net, kv: Store, id: string)
    ensures Ids(ApplyAll(kv, EntryWrites(ph, net, kv, id)), PhaseKind(ph)) <= Ids(kv, PhaseKind(ph))
    ensures ph.Users? || ph.Channels? ==>
              Ids(ApplyAll(kv, EntryWrites(ph, net, kv, id)), PhaseKind(ph)) == Ids(kv, PhaseKind(ph))
  {
    EntryWritesOf(ph, net, kv, id);
    WritesAddNoIds(ph, kv, EntryWrites(ph, net, kv, id));
  }

  lemma {:induction false} EntriesAddNoIds(ph: Phase, net: Net, kv: Store, ids: seq<string>)
    ensures Ids(ApplyAll(kv, EntriesWrites(ph, net, kv, ids)), PhaseKind(ph)) <= Ids(kv, PhaseKind(ph))
    ensures ph.Users? || ph.Channels? ==>
              Ids(ApplyAll(kv, EntriesWrites(ph, net, kv, ids)), PhaseKind(ph)) == Ids(kv, PhaseKind(ph))
    decreases |ids|
  {
    if ids != [] {
      var w := EntryWrites(ph, net, kv, ids[0]);
      EntryAddsNoIds(ph, net, kv, ids[0]);
      EntriesAddNoIds(ph, net, ApplyAll(kv, w), ids[1..]);
      ApplyAppend(kv, w, EntriesWrites(ph, net, ApplyAll(kv, w), ids[1..]));
    }
  }

  function Remaining(kv: Store, kind: Kind, page: nat): nat {
    if |Ids(kv, kind)| <= page * BATCH_SIZE then 0 else |Ids(kv, kind)| - page * BATCH_SIZE
  }

  lemma PageProgress(ph: Phase, net: Net, kv: Store, page: nat)
    requires Page(Listed(kv, PhaseKind(ph)), page, BATCH_SIZE) != []
    ensures var ids := Page(Listed(kv, PhaseKind(ph)), page, BATCH_SIZE);
            var kv' := ApplyAll(kv, EntriesWrites(ph, net, kv, ids));
            Remaining(kv', PhaseKind(ph), page + 1) < Remaining(kv, PhaseKind(ph), page)
  {
    var ids := Page(Listed(kv, PhaseKind(ph)), page, BATCH_SIZE);
    EntriesAddNoIds(ph, net, kv, ids);
    SubsetSize(Ids(ApplyAll(kv, EntriesWrites(ph, net, kv, ids)), PhaseKind(ph)), Ids(kv, PhaseKind(ph)));
  }

  /** The writes of a loop from the given page on; each page lists the store as it then is. */
  ghost function PagedWrites(ph: Phase, net: Net, kv: Store, page: nat): seq<Write>
    decreases Remaining(kv, PhaseKind(ph), page)
  {
    var ids := Page(Listed(kv, PhaseKind(ph)), page, BATCH_SIZE);
    if ids == [] then []
    else
      var w := EntriesWrites(ph, net, kv, ids);
      if |ids| < BATCH_SIZE then w
      else
        PageProgress(ph, net, kv, page);
        w + PagedWrites(ph, net, ApplyAll(kv, w), page + 1)
  }

  ghost function PhaseWrites(ph: Phase, net: Net, kv: Store): seq<Write> {
    PagedWrites(ph, net, kv, 0)
  }

  ghost function AfterPhase(ph: Phase, net: Net, kv: Store): Store {
    ApplyAll(kv, PhaseWrites(ph, net, kv))
  }

  // ---------- the whole migration ----------

  const CURRENT_VERSION: int := 2

  predicate AllDigits(s: string) {
    forall i :: 0 <= i < |s| ==> '0' <= s[i] <= '9'
  }

  function Digits(s: string): nat
    requires AllDigits(s)
  {
    if s == "" then 0 else Digits(s[..|s| - 1]) * 10 + (s[|s| - 1] as int - '0' as int)
  }

  /** strconv.Atoi, with None for its errors. */
  function Atoi(s: string): Option<int> {
    var negative := "-" <= s;
    var body := if "-" <= s || "+" <= s then s[1..] else s;
    if body == "" || !AllDigits(body) then None
    else
      var n: int := if negative then -(Digits(body) as int) else Digits(body);
      if -0x8000_0000_0000_0000 <= n < 0x8000_0000_0000_0000 then Some(n) else None
  }

  /** A missing, empty or unreadable version marker is version 0. */
  function VersionOf(kv: Store): int {
    match Val(kv, StoreVersion)
    case None => 0
    case Some(v) => match Atoi(v) case None => 0 case Some(n) => n
  }

  const VERSION_WRITE: Write := Put(VersionMark, StoreVersion, "2")

  ghost function AfterVersion1(net: Net, kv: Store): Store {
    if VersionOf(kv) < 1 then AfterPhase(Channels, net, AfterPhase(Users, net, kv)) else kv
  }

  ghost function Version1Writes(net: Net, kv: Store): seq<Write> {
    if VersionOf(kv) >= 1 then []
    else PhaseWrites(Users, net, kv) + PhaseWrites(Channels, net, AfterPhase(Users, net, kv))
  }

  ghost function Version2Writes(net: Net, kv: Store): seq<Write> {
    PhaseWrites(DMs, net, kv) + PhaseWrites(MatrixDMs, net, AfterPhase(DMs, net, kv))
  }

  /** Every write of runKVStoreMigrations, in order; the version marker comes last. */
  ghost function Plan(net: Net, kv: Store): seq<Write> {
    if VersionOf(kv) >= CURRENT_VERSION then []
    else Version1Writes(net, kv) + Version2Writes(net, AfterVersion1(net, kv)) + [VERSION_WRITE]
  }

  ghost function Migrated(net: Net, kv: Store): Store {
    ApplyAll(kv, Plan(net, kv))
  }
}
