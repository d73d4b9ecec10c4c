/**
  The two sides of the bridge as one protocol, every write with its source and its content (server/hooks.go,
  server/plugin.go, server/sync_to_matrix.go, server/matrix_webhook.go, server/sync_to_mattermost.go).

  Ghost mode, a nonempty remote ID and no user overrides are assumed.  Hooks and webhook deliveries may come
  in any order, late, or more than once; any write may fail to happen.
*/
module NoEcho {
  import opened Prelude
  import opened GhostIDs
  import opened MatrixContent
  import Tracker = PostTracker

  /**
    `toMatrix` and `toMattermost` convert messages, the latter what `extract` finds in an event; `latest`: asked for an
    event, the homeserver shows it as last edited, and otherwise as it was sent.
  */
  datatype Config = Config(
    domain: string,
    maxTracked: int,
    toMatrix: string -> Text,
    extract: Text -> string,
    toMattermost: string -> string,
    latest: bool)

  /** A post as a hook carries it; `eventID` is the property that records its event. */
  datatype Version = Version(message: string, files: seq<File>, eventID: Option<int>)

  /** `ours`: the post carries the bridge's remote ID. */
  datatype Post = Post(author: string, ours: bool, version: Version)

  /** Who made a Mattermost write: a user, the bridge for a Matrix event, or the bridge recording an event ID. */
  datatype Source = ByUser | ByBridge(event: int) | Bookkeeping

  datatype Action =
    | Created(post: int, version: Version, updateAt: int, source: Source)
    | Updated(post: int, version: Version, updateAt: int, source: Source)
    | Reacted(post: int, user: string, ours: bool, source: Source)

  datatype Kind = Message | Edit(target: int) | Reaction(target: int)

  /**
    `postID` and `ownRemote` are the Mattermost metadata in the content, `group` the first event of the same post.
    `source` is the Mattermost action the bridge mirrored, None for an event made by a user.
  */
  datatype Event = Event(
    sender: string,
    kind: Kind,
    text: Text,
    file: Option<File>,
    postID: Option<int>,
    ownRemote: bool,
    group: Option<int>,
    source: Option<int>)

  datatype Hook = MessageHasBeenPosted | MessageHasBeenUpdated | OnSharedChannelsSyncMsg | ReactionHasBeenAdded

  /** A write on its way to Matrix; `remembered` is what the tracker held of its post when it was asked. */
  datatype Delivery = Delivery(action: int, hook: Hook, remembered: Option<int>, open: bool)

  /** `untracked` holds the bookkeeping updates whose timestamp the bridge has still to store. */
  datatype State = State(
    now: int,
    users: set<string>,
    remoteUsers: set<string>,
    bridgeUsers: set<string>,
    mapped: map<string, string>,
    posts: seq<Post>,
    actions: seq<Action>,
    events: seq<Event>,
    eventPost: map<int, int>,
    deliveries: seq<Delivery>,
    tracker: Tracker.State<int>,
    untracked: set<int>)

  /**
    What an edit finds before it is sent: files waiting for the post, attachments that cannot be read, whether the
    event can be fetched, and the events that the relations lookup names, None if it fails.
  */
  datatype Look = Look(pending: seq<File>, unreadable: set<int>, fetched: bool, related: Option<seq<int>>)

  /**
    A delivery writes nothing to Matrix, or it writes: an edit after `look`, or a new post's text and those `files`
    whose sends succeed, as replies in a thread or not, and its event ID is then recorded or not.
  */
  datatype Outcome = Nothing | Sent(look: Look, files: seq<File>, threaded: bool, recorded: bool)

  datatype Step =
    | Tick(to: int)
    | AddUser(user: string, remote: bool)
    | UserPosts(user: string, message: string, files: seq<File>)
    | UserEdits(post: int, message: string, files: seq<File>)
    | UserReacts(user: string, post: int)
    | UserSends(sent: Event)
    | FromMatrix(received: int, newUser: string)
    | Deliver(action: int, hook: Hook)        // up to postTracker.Get
    | ToMatrix(delivery: int, outcome: Outcome)
    | Track(action: int, later: int)          // postTracker.Put, after the bookkeeping update

  const EMPTY: State := State(0, {}, {}, {}, map[], [], [], [], map[], [], Tracker.Empty(), {})

  // ---------- Mattermost to Matrix ----------

  predicate ValidAction(s: State, a: Action) {
    0 <= a.post < |s.posts|
  }

  function Author(s: State, a: Action): string
    requires ValidAction(s, a)
  {
    if a.Reacted? then a.user else s.posts[a.post].author
  }

  /** The post or reaction carries the bridge's remote ID. */
  predicate Ours(s: State, a: Action)
    requires ValidAction(s, a)
  {
    if a.Reacted? then a.ours else s.posts[a.post].ours
  }

  /** The hooks a write sets off, and what they let through. */
  predicate HookPasses(s: State, a: Action, hook: Hook)
    requires ValidAction(s, a)
  {
    match hook
    case MessageHasBeenPosted => a.Created? && Author(s, a) != ""
    case MessageHasBeenUpdated => a.Updated? && !Ours(s, a)
    case OnSharedChannelsSyncMsg => !Ours(s, a)
    case ReactionHasBeenAdded => a.Reacted?
  }

  /** A version of a post that is already on Matrix, and so counts as an edit. */
  predicate OnMatrix(a: Action) {
    !a.Reacted? && a.version.eventID.Some?
  }

  /** What the redundant-edit guard is told of the post of an edit. */
  function Asked(s: State, a: Action): Option<int> {
    if OnMatrix(a) then Tracker.Known(s.tracker.entries, a.post) else None
  }

  predicate ValidDelivery(s: State, d: Delivery) {
    0 <= d.action < |s.actions| && ValidAction(s, s.actions[d.action])
  }

  /** The redundant-edit guard: the version delivered is the one the tracker remembered. */
  predicate Redundant(a: Action, d: Delivery) {
    OnMatrix(a) && d.remembered == Some(a.updateAt)
  }

  /** An edit uses up what the tracker remembers of the post, if it remembered anything. */
  function UsedUp(s: State, c: Config, d: Delivery): Tracker.State<int>
    requires ValidDelivery(s, d)
  {
    var a := s.actions[d.action];
    if OnMatrix(a) && d.remembered.Some? then Tracker.Do(s.tracker, c.maxTracked, Tracker.Delete(a.post)) else s.tracker
  }

  // ---------- what Matrix shows ----------

  /** The last edit of event `e` by its own sender. */
  function LastEdit(events: seq<Event>, e: int, sender: string): Option<Text> {
    if events == [] then None
    else
      var last := events[|events| - 1];
      if last.kind == Edit(e) && last.sender == sender then Some(last.text)
      else LastEdit(events[..|events| - 1], e, sender)
  }

  function CurrentText(s: State, c: Config, e: int): Text
    requires 0 <= e < |s.events|
  {
    var edited := LastEdit(s.events, e, s.events[e].sender);
    if c.latest && edited.Some? then edited.value else s.events[e].text
  }

  function AsRelated(e: Event): Related {
    Related(if e.kind.Message? then e.file else None, e.group)
  }

  /** The events in the order of the answer, whatever it leaves out. */
  function RelatedEvents(s: State, ids: seq<int>): seq<Related>
    requires forall i :: 0 <= i < |ids| ==> 0 <= ids[i] < |s.events|
  {
    seq(|ids|, i requires 0 <= i < |ids| => AsRelated(s.events[ids[i]]))
  }

  /** The answers are about events there are. */
  predicate Possible(s: State, v: Version, look: Look) {
    && (look.fetched ==> v.eventID.Some? && 0 <= v.eventID.value < |s.events|)
    && (look.related.Some? ==> forall i :: 0 <= i < |look.related.value| ==> 0 <= look.related.value[i] < |s.events|)
  }

  function ShownFiles(s: State, v: Version, look: Look): Option<seq<File>>
    requires v.eventID.Some? && Possible(s, v, look)
  {
    if look.related.Some? then Some(FilesOf(RelatedEvents(s, look.related.value), v.eventID.value)) else None
  }

  /** The edit is skipped: the event could be fetched, and neither text nor files differ. */
  predicate Unchanged(s: State, c: Config, v: Version, look: Look)
    requires v.eventID.Some? && Possible(s, v, look)
  {
    && look.fetched
    && Identical(CurrentText(s, c, v.eventID.value), ShownFiles(s, v, look), c.toMatrix(v.message),
                 CurrentFiles(look.pending, v.files, look.unreadable))
  }

  /** A delivery may write to Matrix. */
  predicate MayWrite(s: State, c: Config, d: Delivery, out: Outcome)
    requires ValidDelivery(s, d) && out.Sent?
  {
    var a := s.actions[d.action];
    && c.domain != ""
    && Author(s, a) !in s.remoteUsers
    && if a.Reacted? then s.posts[a.post].version.eventID.Some?
       else if a.version.eventID.Some? then
         !Redundant(a, d) && Possible(s, a.version, out.look) && !Unchanged(s, c, a.version, out.look)
       else HasText(c.toMatrix(a.version.message)) || out.files != []
  }

  // ---------- what is written ----------

  datatype Part = Part(text: Text, file: Option<File>)

  /** A new post's text, if it has any, and then its files. */
  function Parts(c: Config, message: string, files: seq<File>): (parts: seq<Part>)
    ensures HasText(c.toMatrix(message)) || files != [] ==> parts != []
  {
    (if HasText(c.toMatrix(message)) then [Part(c.toMatrix(message), None)] else [])
    + seq(|files|, i requires 0 <= i < |files| => Part(Text(files[i].name, ""), Some(files[i])))
  }

  function Mirrored(s: State, c: Config, action: int, kind: Kind, part: Part, group: Option<int>): Event
    requires 0 <= action < |s.actions| && ValidAction(s, s.actions[action])
  {
    var a := s.actions[action];
    Event(GhostUserID(Author(s, a), c.domain), kind, part.text, part.file,
          if kind.Message? then Some(a.post) else None, kind.Message?, group, Some(action))
  }

  /** What a delivery appends to the room. */
  function Written(s: State, c: Config, d: Delivery, out: Outcome): seq<Event>
    requires ValidDelivery(s, d) && out.Sent? && MayWrite(s, c, d, out)
  {
    var a := s.actions[d.action];
    if a.Reacted? then
      [Mirrored(s, c, d.action, Reaction(s.posts[a.post].version.eventID.value), Part(Text("", ""), None), None)]
    else if a.version.eventID.Some? then
      [Mirrored(s, c, d.action, Edit(a.version.eventID.value), Part(c.toMatrix(a.version.message), None), None)]
    else
      var parts := Parts(c, a.version.message, out.files);
      seq(|parts|, i requires 0 <= i < |parts| =>
        Mirrored(s, c, d.action, Message, parts[i], if i == 0 || out.threaded then None else Some(|s.events|)))
  }

  /**
    A new post gets its first event's ID, by an update that writes the version delivered; its timestamp is still to
    be tracked.
  */
  function Recorded(s: State, post: int, version: Version): State
    requires 0 <= post < |s.posts|
  {
    s.(posts := s.posts[post := s.posts[post].(version := version)],
       actions := s.actions + [Updated(post, version, s.now, Bookkeeping)],
       untracked := s.untracked + {|s.actions|})
  }

  predicate Records(s: State, d: Delivery, out: Outcome)
    requires ValidDelivery(s, d)
  {
    out.Sent? && out.recorded && !s.actions[d.action].Reacted? && s.actions[d.action].version.eventID.None?
  }

  function Delivered(s: State, c: Config, i: int, out: Outcome): State
    requires 0 <= i < |s.deliveries| && ValidDelivery(s, s.deliveries[i])
    requires out.Sent? ==> MayWrite(s, c, s.deliveries[i], out)
  {
    var d := s.deliveries[i];
    var a := s.actions[d.action];
    var s1 := s.(tracker := UsedUp(s, c, d), deliveries := s.deliveries[i := d.(open := false)]);
    var s2 := s1.(events := s.events + if out.Sent? then Written(s, c, d, out) else []);
    if Records(s, d, out) then Recorded(s2, a.post, a.version.(eventID := Some(|s.events|))) else s2
  }

  // ---------- Matrix to Mattermost ----------

  /** The post of an event: from the mapping kept for Matrix events, else from the event's own metadata. */
  function PostOf(s: State, event: int): Option<int> {
    if event in s.eventPost then Some(s.eventPost[event])
    else if 0 <= event < |s.events| then s.events[event].postID
    else None
  }

  /** As above, or the post of the first event of the group. */
  function PostOrGroupOf(s: State, event: int): Option<int> {
    if PostOf(s, event).Some? then PostOf(s, event)
    else if 0 <= event < |s.events| && s.events[event].group.Some? then PostOf(s, s.events[event].group.value)
    else None
  }

  predicate Exists(s: State, post: Option<int>) {
    post.Some? && 0 <= post.value < |s.posts|
  }

  /** The message of a post for what an event says. */
  function Converted(c: Config, t: Text): string {
    c.toMattermost(c.extract(t))
  }

  /** The webhook lets an event through: no ghost's, no message with the bridge's own metadata, no empty new one. */
  predicate Accepts(s: State, c: Config, e: Event) {
    && !IsGhostUser(e.sender, c.domain)
    && (e.kind.Reaction? || (!Exists(s, e.postID) && !e.ownRemote))
    && (e.kind.Message? && e.file.None? ==> c.extract(e.text) != "")
    && (e.kind.Edit? ==> Exists(s, PostOf(s, e.kind.target)))
    && (e.kind.Reaction? ==> Exists(s, PostOrGroupOf(s, e.kind.target)))
  }

  /** The Mattermost user for a Matrix sender, created as a remote user if there is none yet. */
  function UserFor(s: State, sender: string, newUser: string): string {
    if sender in s.mapped && s.mapped[sender] in s.users then s.mapped[sender] else newUser
  }

  /** Creating a user gives it an ID of its own. */
  predicate NewIfUsed(s: State, sender: string, newUser: string) {
    UserFor(s, sender, newUser) == newUser ==> newUser !in s.users
  }

  function WithUser(s: State, sender: string, newUser: string): State {
    var u := UserFor(s, sender, newUser);
    if u in s.users then s
    else
      s.(users := s.users + {u}, remoteUsers := s.remoteUsers + {u}, bridgeUsers := s.bridgeUsers + {u},
         mapped := s.mapped[sender := u])
  }

  /** The post made for a message: its converted text, or its file. */
  function Received(c: Config, e: Event, event: int): Version {
    if e.file.Some? then Version("", [e.file.value], Some(event)) else Version(Converted(c, e.text), [], Some(event))
  }

  /** An edit changes the post's message alone, whoever made it. */
  function Accepted(s: State, c: Config, event: int, newUser: string): State
    requires 0 <= event < |s.events|
               && (s.events[event].kind.Edit? ==> Exists(s, PostOf(s, s.events[event].kind.target)))
    requires s.events[event].kind.Reaction? ==> PostOrGroupOf(s, s.events[event].kind.target).Some?
  {
    var e := s.events[event];
    match e.kind
    case Message =>
      var s1 := WithUser(s, e.sender, newUser);
      s1.(posts := s1.posts + [Post(UserFor(s, e.sender, newUser), true, Received(c, e, event))],
          actions := s1.actions + [Created(|s1.posts|, Received(c, e, event), s1.now, ByBridge(event))],
          eventPost := s1.eventPost[event := |s1.posts|])
    case Edit(target) =>
      var p := PostOf(s, target).value;
      WithVersion(s, p, s.posts[p].version.(message := Converted(c, e.text)), ByBridge(event))
    case Reaction(target) =>
      var s1 := WithUser(s, e.sender, newUser);
      var reacted := Reacted(PostOrGroupOf(s, target).value, UserFor(s, e.sender, newUser), true, ByBridge(event));
      s1.(actions := s1.actions + [reacted])
  }

  function WithVersion(s: State, post: int, version: Version, source: Source): State
    requires 0 <= post < |s.posts|
  {
    s.(posts := s.posts[post := s.posts[post].(version := version)],
       actions := s.actions + [Updated(post, version, s.now, source)])
  }

  // ---------- steps ----------

  predicate Enabled(c: Config, s: State, step: Step) {
    match step
    case Tick(to) => s.now <= to
    case AddUser(u, _) => u !in s.users
    case UserPosts(u, _, _) => u in s.users && u !in s.bridgeUsers
    case UserEdits(p, _, _) => 0 <= p < |s.posts|
    case UserReacts(u, p) => u in s.users && u !in s.bridgeUsers && 0 <= p < |s.posts|
    case UserSends(e) => !IsGhostUser(e.sender, c.domain) && e.source.None?
    case FromMatrix(e, newUser) =>
      0 <= e < |s.events| && Accepts(s, c, s.events[e])
      && (s.events[e].kind.Edit? || NewIfUsed(s, s.events[e].sender, newUser))
    case Deliver(a, hook) =>
      0 <= a < |s.actions| && ValidAction(s, s.actions[a]) && HookPasses(s, s.actions[a], hook)
    case ToMatrix(i, outcome) =>
      0 <= i < |s.deliveries| && s.deliveries[i].open && ValidDelivery(s, s.deliveries[i])
      && (outcome.Sent? ==> MayWrite(s, c, s.deliveries[i], outcome))
    case Track(a, later) => a in s.untracked && 0 <= a < |s.actions| && s.actions[a].Updated? && s.now <= later
  }

  function Do(c: Config, s: State, step: Step): State
    requires Enabled(c, s, step)
  {
    match step
    case Tick(to) => s.(now := to)
    case AddUser(u, remote) => s.(users := s.users + {u}, remoteUsers := s.remoteUsers + if remote then {u} else {})
    case UserPosts(u, message, files) =>
      var v := Version(message, files, None);
      s.(posts := s.posts + [Post(u, false, v)], actions := s.actions + [Created(|s.posts|, v, s.now, ByUser)])
    case UserEdits(p, message, files) => WithVersion(s, p, Version(message, files, s.posts[p].version.eventID), ByUser)
    case UserReacts(u, p) => s.(actions := s.actions + [Reacted(p, u, false, ByUser)])
    case UserSends(e) => s.(events := s.events + [e])
    case FromMatrix(e, newUser) => Accepted(s, c, e, newUser)
    case Deliver(a, hook) => s.(deliveries := s.deliveries + [Delivery(a, hook, Asked(s, s.actions[a]), true)])
    case ToMatrix(i, outcome) => Delivered(s, c, i, outcome)
    case Track(a, later) =>
      s.(tracker := Tracker.Do(s.tracker, c.maxTracked,
                               Tracker.Put(s.actions[a].post, s.actions[a].updateAt, s.now, later)),
         untracked := s.untracked - {a}, now := later)
  }

  /** A step that is not enabled does nothing. */
  function Next(c: Config, s: State, step: Step): State {
    if Enabled(c, s, step) then Do(c, s, step) else s
  }

  /** The state after any sequence of steps. */
  function Run(c: Config, steps: seq<Step>): State {
    if steps == [] then EMPTY else Next(c, Run(c, steps[..|steps| - 1]), steps[|steps| - 1])
  }

  lemma RunNext(c: Config, steps: seq<Step>, step: Step)
    ensures Run(c, steps + [step]) == Next(c, Run(c, steps), step)
  {
    assert (steps + [step])[..|steps|] == steps;
  }

  // ---------- the invariant ----------

  /** An event says what a write said: a reaction, the edited text, or a new post's text or one file. */
  predicate Says(c: Config, e: Event, a: Action) {
    match e.kind
    case Reaction(_) => a.Reacted? && e.text == Text("", "") && e.file.None? && e.postID.None?
    case Edit(target) =>
      && !a.Reacted? && a.version.eventID == Some(target)
      && e.text == c.toMatrix(a.version.message) && e.file.None? && e.postID.None?
    case Message =>
      && !a.Reacted? && a.version.eventID.None? && e.postID == Some(a.post) && e.ownRemote
      && match e.file
         case None => HasText(e.text) && e.text == c.toMatrix(a.version.message)
         case Some(f) => e.text == Text(f.name, "")
  }

  /** An event by a user has no ghost sender; one by the bridge has that of the local user whose write it mirrors. */
  predicate Traced(s: State, c: Config, e: Event) {
    match e.source
    case None => !IsGhostUser(e.sender, c.domain)
    case Some(a) =>
      && IsGhostUser(e.sender, c.domain)
      && 0 <= a < |s.actions| && ValidAction(s, s.actions[a])
      && Author(s, s.actions[a]) !in s.remoteUsers
      && e.sender == GhostUserID(Author(s, s.actions[a]), c.domain)
      && Says(c, e, s.actions[a])
  }

  /** A write says what event i said: a new post its text or its file, and that it is that event's; an edit its text. */
  predicate Conveys(c: Config, e: Event, i: int, a: Action) {
    match a
    case Created(_, v, _, _) =>
      && e.kind.Message? && v.eventID == Some(i)
      && (match e.file
          case None => v.message == Converted(c, e.text) && v.files == []
          case Some(f) => v.message == "" && v.files == [f])
    case Updated(_, v, _, _) => e.kind.Edit? && v.message == Converted(c, e.text)
    case Reacted(_, _, _, _) => e.kind.Reaction?
  }

  /** The bridge's own update names the first event of the version it carries. */
  predicate NamesFirst(s: State, c: Config, v: Version) {
    && v.eventID.Some? && 0 <= v.eventID.value < |s.events|
    && var e := s.events[v.eventID.value];
       && e.kind.Message? && e.source.Some?
       && (HasText(c.toMatrix(v.message)) ==> e.text == c.toMatrix(v.message) && e.file.None?)
  }

  /**
    A write by the bridge stems from a user's event, says what that said, and, unless it updates a post, is in a bridge
    user's name.
  */
  predicate Attributed(s: State, c: Config, a: Action) {
    && ValidAction(s, a)
    && Author(s, a) in s.users
    && (a.source.ByBridge? ==> 0 <= a.source.event < |s.events| && s.events[a.source.event].source.None?
                               && Conveys(c, s.events[a.source.event], a.source.event, a))
    && (a.source.Bookkeeping? ==> a.Updated? && NamesFirst(s, c, a.version))
    && (!a.source.ByUser? && !a.Updated? ==> Author(s, a) in s.bridgeUsers)
  }

  predicate PostSound(s: State, p: Post) {
    p.author in s.users && (p.ours ==> p.author in s.bridgeUsers)
  }

  ghost predicate Sound(s: State, c: Config) {
    && s.bridgeUsers <= s.remoteUsers <= s.users
    && (forall sender :: sender in s.mapped ==> s.mapped[sender] in s.bridgeUsers)
    && (forall p :: 0 <= p < |s.posts| ==> PostSound(s, s.posts[p]))
    && (forall a :: 0 <= a < |s.actions| ==> Attributed(s, c, s.actions[a]))
    && (forall e :: 0 <= e < |s.events| ==> Traced(s, c, s.events[e]))
    && (forall d :: 0 <= d < |s.deliveries| ==> ValidDelivery(s, s.deliveries[d]))
  }

  /** What a step may do to what is already there. */
  ghost predicate Grows(s: State, s': State) {
    && s.users <= s'.users && s.bridgeUsers <= s'.bridgeUsers
    && s.remoteUsers <= s'.remoteUsers && (forall u :: u in s.users && u in s'.remoteUsers ==> u in s.remoteUsers)
    && |s.posts| <= |s'.posts|
    && (forall p :: 0 <= p < |s.posts| ==>
        s'.posts[p].author == s.posts[p].author && s'.posts[p].ours == s.posts[p].ours)
    && s.actions <= s'.actions && s.events <= s'.events
    && |s.deliveries| <= |s'.deliveries|
    && (forall d :: 0 <= d < |s.deliveries| ==> SameDelivery(s.deliveries[d], s'.deliveries[d]))
  }

  predicate SameDelivery(d: Delivery, d': Delivery) {
    d'.action == d.action && d'.hook == d.hook && d'.remembered == d.remembered
  }

  lemma GrowsKeeps(s: State, s': State, c: Config)
    requires Sound(s, c) && Grows(s, s')
    ensures forall p :: 0 <= p < |s.posts| ==> PostSound(s', s'.posts[p])
    ensures forall a :: 0 <= a < |s.actions| ==> s'.actions[a] == s.actions[a] && Attributed(s', c, s.actions[a])
    ensures forall e :: 0 <= e < |s.events| ==> s'.events[e] == s.events[e] && Traced(s', c, s.events[e])
    ensures forall d :: 0 <= d < |s.deliveries| ==> ValidDelivery(s', s'.deliveries[d])
  {
    forall p | 0 <= p < |s.posts| ensures PostSound(s', s'.posts[p]) {
      assert PostSound(s, s.posts[p]);
    }
    forall a | 0 <= a < |s.actions| ensures s'.actions[a] == s.actions[a] && Attributed(s', c, s.actions[a]) {
      assert Attributed(s, c, s.actions[a]);
      assert PostSound(s, s.posts[s.actions[a].post]);
    }
    forall e | 0 <= e < |s.events| ensures s'.events[e] == s.events[e] && Traced(s', c, s.events[e]) {
      assert Traced(s, c, s.events[e]);
      if s.events[e].source.Some? {
        assert Attributed(s, c, s.actions[s.events[e].source.value]);
      }
    }
    forall d | 0 <= d < |s.deliveries| ensures ValidDelivery(s', s'.deliveries[d]) {
      assert ValidDelivery(s, s.deliveries[d]) && SameDelivery(s.deliveries[d], s'.deliveries[d]);
    }
  }

  /** What is new must be sound; what was there stays so. */
  lemma GrownSound(s: State, s': State, c: Config)
    requires Sound(s, c) && Grows(s, s') && s'.bridgeUsers <= s'.remoteUsers <= s'.users
    requires forall sender :: sender in s'.mapped ==> s'.mapped[sender] in s'.bridgeUsers
    requires forall p :: |s.posts| <= p < |s'.posts| ==> PostSound(s', s'.posts[p])
    requires forall a :: |s.actions| <= a < |s'.actions| ==> Attributed(s', c, s'.actions[a])
    requires forall e :: |s.events| <= e < |s'.events| ==> Traced(s', c, s'.events[e])
    requires forall d :: |s.deliveries| <= d < |s'.deliveries| ==> ValidDelivery(s', s'.deliveries[d])
    ensures Sound(s', c)
  {
    GrowsKeeps(s, s', c);
    hide Grows, PostSound, Attributed, Traced, ValidDelivery;
  }

  /** The steps that touch neither posts nor room. */
  lemma QuietStepSound(s: State, c: Config, step: Step)
    requires Enabled(c, s, step) && Sound(s, c) && (step.Tick? || step.AddUser? || step.Track? || step.Deliver?)
    ensures Sound(Do(c, s, step), c) && Grows(s, Do(c, s, step))
  {
    hide NamesFirst, Conveys, Says, Tracker.Do, Tracker.Known, IsGhostUser, HookPasses, GhostUserID;
    var s' := Do(c, s, step);
    assert Grows(s, s');
    hide Grows;
    GrownSound(s, s', c);
  }

  lemma UserStepSound(s: State, c: Config, step: Step)
    requires Enabled(c, s, step) && Sound(s, c)
    requires step.UserPosts? || step.UserEdits? || step.UserReacts? || step.UserSends?
    ensures Sound(Do(c, s, step), c) && Grows(s, Do(c, s, step))
  {
    hide NamesFirst, IsGhostUser, Conveys, Says, GhostUserID;
    if step.UserEdits? {
      assert PostSound(s, s.posts[step.post]);
    }
    var s' := Do(c, s, step);
    assert Grows(s, s');
    hide Grows;
    GrownSound(s, s', c);
  }

  lemma WithUserGrows(s: State, c: Config, sender: string, newUser: string)
    requires Sound(s, c) && NewIfUsed(s, sender, newUser)
    ensures var s1 := WithUser(s, sender, newUser);
            && Grows(s, s1) && s1.posts == s.posts && s1.actions == s.actions && s1.events == s.events
            && s1.deliveries == s.deliveries
            && UserFor(s, sender, newUser) in s1.bridgeUsers
            && s1.bridgeUsers <= s1.remoteUsers <= s1.users
            && (forall x :: x in s1.mapped ==> s1.mapped[x] in s1.bridgeUsers)
  {
  }

  /** An accepted event makes or changes one post, or makes a reaction, and notes the write that this is. */
  lemma AcceptedShape(s: State, c: Config, event: int, newUser: string)
    requires Enabled(c, s, FromMatrix(event, newUser))
    ensures var s' := Do(c, s, FromMatrix(event, newUser));
            var e := s.events[event];
            var s1 := if e.kind.Edit? then s else WithUser(s, e.sender, newUser);
            && s'.users == s1.users && s'.remoteUsers == s1.remoteUsers && s'.bridgeUsers == s1.bridgeUsers
            && s'.mapped == s1.mapped && s'.events == s1.events && s'.deliveries == s1.deliveries
            && |s'.actions| == |s1.actions| + 1 && s1.actions <= s'.actions
            && var a := s'.actions[|s1.actions|];
               && a.source == ByBridge(event) && ValidAction(s', a) && Conveys(c, e, event, a)
               && match e.kind
                  case Message => && a.Created? && |s'.posts| == |s1.posts| + 1 && s1.posts <= s'.posts
                                  && a.post == |s1.posts| && s'.posts[a.post].author == UserFor(s, e.sender, newUser)
                  case Edit(_) => && a.Updated? && |s'.posts| == |s.posts|
                                  && s'.posts == s.posts[a.post := s.posts[a.post].(version := a.version)]
                  case Reaction(_) => && s'.posts == s1.posts && a.Reacted? && a.user == UserFor(s, e.sender, newUser)
  {
    hide IsGhostUser, UserFor, NewIfUsed, Converted;
  }

  lemma FromMatrixSound(s: State, c: Config, event: int, newUser: string)
    requires Enabled(c, s, FromMatrix(event, newUser)) && Sound(s, c)
    ensures Sound(Do(c, s, FromMatrix(event, newUser)), c) && Grows(s, Do(c, s, FromMatrix(event, newUser)))
  {
    hide Do, Accepts, WithUser, UserFor, NewIfUsed, NamesFirst, PostOf, PostOrGroupOf, Conveys, Says, IsGhostUser,
         GhostUserID;
    var s' := Do(c, s, FromMatrix(event, newUser));
    var e := s.events[event];
    assert Traced(s, c, e) && e.source.None? by { MatrixUsersEvent(s, c, e); }
    if !e.kind.Edit? { WithUserGrows(s, c, e.sender, newUser); }
    AcceptedShape(s, c, event, newUser);
    if e.kind.Edit? {
      assert PostSound(s, s.posts[s'.actions[|s.actions|].post]);
    }
    assert Grows(s, s');
    hide Grows, Traced;
    GrownSound(s, s', c);
  }

  /** What the webhook lets through was sent by a user of Matrix. */
  lemma MatrixUsersEvent(s: State, c: Config, e: Event)
    requires Traced(s, c, e) && Accepts(s, c, e)
    ensures e.source.None?
  {
  }

  /** A delivery is closed, only appends events, and at most records an event ID. */
  lemma DeliveredShape(s: State, c: Config, i: int, out: Outcome)
    requires Enabled(c, s, ToMatrix(i, out))
    ensures var s' := Do(c, s, ToMatrix(i, out));
            var a := s.actions[s.deliveries[i].action];
            && s'.users == s.users && s'.remoteUsers == s.remoteUsers && s'.bridgeUsers == s.bridgeUsers
               && s'.mapped == s.mapped
            && s'.deliveries == s.deliveries[i := s.deliveries[i].(open := false)]
            && s'.events == s.events + (if out.Sent? then Written(s, c, s.deliveries[i], out) else [])
            && if Records(s, s.deliveries[i], out)
               then var v := a.version.(eventID := Some(|s.events|));
                    && s'.posts == s.posts[a.post := s.posts[a.post].(version := v)]
                    && s'.actions == s.actions + [Updated(a.post, v, s.now, Bookkeeping)]
               else s'.posts == s.posts && s'.actions == s.actions
  {
    hide IsGhostUser, Written, HookPasses, Author, MayWrite, UsedUp;
  }

  lemma ToMatrixGrows(s: State, c: Config, i: int, out: Outcome)
    requires Enabled(c, s, ToMatrix(i, out))
    ensures Grows(s, Do(c, s, ToMatrix(i, out)))
  {
    DeliveredShape(s, c, i, out);
    hide Do, Written, HookPasses, MayWrite, Records;
  }

  lemma ToMatrixSound(s: State, c: Config, i: int, out: Outcome)
    requires Enabled(c, s, ToMatrix(i, out)) && Sound(s, c)
    ensures Sound(Do(c, s, ToMatrix(i, out)), c) && Grows(s, Do(c, s, ToMatrix(i, out)))
  {
    hide IsGhostUser, Do, Written, HookPasses, Unchanged, Possible, Grows;
    var s' := Do(c, s, ToMatrix(i, out));
    var d := s.deliveries[i];
    var a := s.actions[d.action];
    DeliveredShape(s, c, i, out);
    ToMatrixGrows(s, c, i, out);
    assert Attributed(s, c, a);
    assert PostSound(s, s.posts[a.post]);
    if out.Sent? { WrittenByGhost(s, c, d, out); }
    if Records(s, d, out) { FirstWritten(s, c, d, out); }
    GrownSound(s, s', c);
  }

  lemma WrittenByGhost(s: State, c: Config, d: Delivery, out: Outcome)
    requires ValidDelivery(s, d) && out.Sent? && MayWrite(s, c, d, out)
    ensures forall e :: e in Written(s, c, d, out) ==>
              && e.source == Some(d.action) && IsGhostUser(e.sender, c.domain)
              && e.sender == GhostUserID(Author(s, s.actions[d.action]), c.domain)
              && Says(c, e, s.actions[d.action])
  {
    GhostIsRecognised(Author(s, s.actions[d.action]), c.domain);
    if !s.actions[d.action].Reacted? { PartsSay(c, s.actions[d.action], out.files); }
    hide IsGhostUser, GhostUserID, MayWrite, Parts, HasText;
  }

  /** A part is the text, when there is any, or one file under its name. */
  lemma PartsSay(c: Config, a: Action, files: seq<File>)
    requires !a.Reacted?
    ensures forall part :: part in Parts(c, a.version.message, files) ==>
              if part.file.None? then HasText(part.text) && part.text == c.toMatrix(a.version.message)
              else part.text == Text(part.file.value.name, "") && part.file.value in files
  {
  }

  lemma FirstWritten(s: State, c: Config, d: Delivery, out: Outcome)
    requires ValidDelivery(s, d) && out.Sent? && MayWrite(s, c, d, out) && Records(s, d, out)
    ensures var w := Written(s, c, d, out);
            var t := c.toMatrix(s.actions[d.action].version.message);
            && w != [] && w[0].kind.Message? && w[0].source.Some?
            && (HasText(t) ==> w[0].text == t && w[0].file.None?)
  {
    hide GhostUserID, Unchanged, Possible;
  }

  lemma StepSound(c: Config, s: State, step: Step)
    requires Sound(s, c)
    ensures Sound(Next(c, s, step), c) && Grows(s, Next(c, s, step))
  {
    hide Sound, Do, Enabled;
    if Enabled(c, s, step) {
      match step
      case FromMatrix(e, newUser) => FromMatrixSound(s, c, e, newUser);
      case ToMatrix(i, outcome) => ToMatrixSound(s, c, i, outcome);
      case Tick(_) => QuietStepSound(s, c, step);
      case AddUser(_, _) => QuietStepSound(s, c, step);
      case Deliver(_, _) => QuietStepSound(s, c, step);
      case Track(_, _) => QuietStepSound(s, c, step);
      case _ => UserStepSound(s, c, step);
    }
  }

  lemma {:induction false} RunSound(c: Config, steps: seq<Step>)
    ensures Sound(Run(c, steps), c)
  {
    if steps != [] {
      hide Sound, Next;
      RunSound(c, steps[..|steps| - 1]);
      StepSound(c, Run(c, steps[..|steps| - 1]), steps[|steps| - 1]);
    }
  }

  // ---------- no echo to Mattermost ----------

  /**
    Nothing the bridge wrote on Matrix comes back: every bridge write on Mattermost stems from an event a user
    made.
  */
  lemma NoEchoToMattermost(c: Config, steps: seq<Step>, a: int)
    requires var s := Run(c, steps); 0 <= a < |s.actions| && s.actions[a].source.ByBridge?
    ensures var s := Run(c, steps);
            && 0 <= s.actions[a].source.event < |s.events|
            && s.events[s.actions[a].source.event].source.None?
            && !IsGhostUser(s.events[s.actions[a].source.event].sender, c.domain)
  {
    RunSound(c, steps);
    var s := Run(c, steps);
    hide Run, NamesFirst;
    assert Attributed(s, c, s.actions[a]);
    assert Traced(s, c, s.events[s.actions[a].source.event]);
  }
}
