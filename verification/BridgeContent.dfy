/**
  What crosses the bridge, in every run of the protocol of NoEcho: whose words each write carries, and that writes of
  users do cross (server/hooks.go, server/sync_to_matrix.go, server/matrix_webhook.go, server/sync_to_mattermost.go,
  server/bridge_utils.go).
*/
module BridgeContent {
  import opened Prelude
  import opened GhostIDs
  import opened MatrixContent
  import opened NoEcho
  import EchoGuard
  import Tracker = PostTracker

  // ---------- whose post an event is about ----------

  predicate MadeFor(a: Action, p: int, t: int) {
    a.Created? && a.post == p && a.source == ByBridge(t)
  }

  /** Post p was made for event t, or t carries p's ID. */
  ghost predicate PostFor(s: State, p: int, t: int) {
    || (0 <= t < |s.events| && s.events[t].postID == Some(p))
    || exists k :: 0 <= k < |s.actions| && MadeFor(s.actions[k], p, t)
  }

  /** As above, or post p belongs to the first event of the group that t names. */
  ghost predicate PostOrGroupFor(s: State, p: int, t: int) {
    || PostFor(s, p, t)
    || (0 <= t < |s.events| && s.events[t].group.Some? && PostFor(s, p, s.events[t].group.value))
  }

  /** The write is in the name of its sender's user, carries the bridge's remote ID, and is about the event's post. */
  ghost predicate Placed(s: State, a: Action, e: Event) {
    match a
    case Created(p, _, _, _) =>
      0 <= p < |s.posts| && s.posts[p].ours && e.sender in s.mapped && s.posts[p].author == s.mapped[e.sender]
    case Updated(p, _, _, _) => e.kind.Edit? && PostFor(s, p, e.kind.target)
    case Reacted(p, u, ours, _) =>
      && e.kind.Reaction? && PostOrGroupFor(s, p, e.kind.target)
      && ours && e.sender in s.mapped && u == s.mapped[e.sender]
  }

  ghost predicate RightlyPlaced(s: State, a: Action) {
    a.source.ByBridge? ==> 0 <= a.source.event < |s.events| && Placed(s, a, s.events[a.source.event])
  }

  /** No two senders share a user; the mapping of events to posts knows the last post made for each. */
  ghost predicate Placing(s: State) {
    && (forall x, y :: x in s.mapped && y in s.mapped && s.mapped[x] == s.mapped[y] ==> x == y)
    && (forall t :: t in s.eventPost ==> exists k :: 0 <= k < |s.actions| && MadeFor(s.actions[k], s.eventPost[t], t))
    && (forall a :: 0 <= a < |s.actions| ==> RightlyPlaced(s, s.actions[a]))
    && (forall a :: 0 <= a < |s.actions| && s.actions[a].Created? && s.actions[a].source.ByBridge? ==>
          Noted(s, s.actions[a]))
  }

  /** The mapping knows this post, or one made for the same event since. */
  predicate Noted(s: State, a: Action)
    requires a.Created? && a.source.ByBridge?
  {
    a.source.event in s.eventPost && a.post <= s.eventPost[a.source.event]
  }

  predicate SameAuthor(p: Post, p': Post) {
    p'.author == p.author && p'.ours == p.ours
  }

  /** What a step leaves of users, posts, writes and events. */
  ghost predicate Extends(s: State, s': State) {
    && (forall x :: x in s.mapped ==> x in s'.mapped && s'.mapped[x] == s.mapped[x])
    && (forall t :: t in s.eventPost ==> t in s'.eventPost && s.eventPost[t] <= s'.eventPost[t])
    && |s.posts| <= |s'.posts| && (forall p :: 0 <= p < |s.posts| ==> SameAuthor(s.posts[p], s'.posts[p]))
    && s.actions <= s'.actions && s.events <= s'.events
  }

  lemma PostForStays(s: State, s': State, p: int, t: int)
    requires s.actions <= s'.actions && s.events <= s'.events && PostFor(s, p, t)
    ensures PostFor(s', p, t)
  {
    if k :| 0 <= k < |s.actions| && MadeFor(s.actions[k], p, t) {
      assert MadeFor(s'.actions[k], p, t);
    }
  }

  lemma PlacedStays(s: State, s': State, a: Action)
    requires Extends(s, s') && RightlyPlaced(s, a)
    ensures RightlyPlaced(s', a)
  {
    hide PostFor;
    if a.source.ByBridge? {
      var e := s.events[a.source.event];
      forall p, t | PostFor(s, p, t) ensures PostFor(s', p, t) { PostForStays(s, s', p, t); }
    }
  }

  /** What is new must be in its place; what was there stays so. */
  lemma ExtendedPlacing(s: State, s': State)
    requires Placing(s) && Extends(s, s')
    requires forall x, y :: x in s'.mapped && y in s'.mapped && s'.mapped[x] == s'.mapped[y] ==> x == y
    requires forall t :: t in s'.eventPost ==>
               || (t in s.eventPost && s'.eventPost[t] == s.eventPost[t])
               || exists k :: 0 <= k < |s'.actions| && MadeFor(s'.actions[k], s'.eventPost[t], t)
    requires forall a :: |s.actions| <= a < |s'.actions| ==> RightlyPlaced(s', s'.actions[a])
    requires forall a :: |s.actions| <= a < |s'.actions| && s'.actions[a].Created? && s'.actions[a].source.ByBridge? ==>
               Noted(s', s'.actions[a])
    ensures Placing(s')
  {
    hide RightlyPlaced, MadeFor;
    forall t | t in s'.eventPost
      ensures exists k :: 0 <= k < |s'.actions| && MadeFor(s'.actions[k], s'.eventPost[t], t)
    {
      if t in s.eventPost && s'.eventPost[t] == s.eventPost[t] {
        var k :| 0 <= k < |s.actions| && MadeFor(s.actions[k], s.eventPost[t], t);
        assert s'.actions[k] == s.actions[k];
      }
    }
    forall a | 0 <= a < |s.actions| ensures RightlyPlaced(s', s'.actions[a]) {
      assert RightlyPlaced(s, s.actions[a]) && s'.actions[a] == s.actions[a];
      PlacedStays(s, s', s.actions[a]);
    }
  }

  /** Only the webhook makes writes for events of Matrix users. */
  lemma OthersPlaceNothing(c: Config, s: State, step: Step)
    requires Enabled(c, s, step) && !step.FromMatrix? && Sound(s, c)
    ensures var s' := Do(c, s, step);
            && s'.mapped == s.mapped && s'.eventPost == s.eventPost
            && forall a :: |s.actions| <= a < |s'.actions| ==> !s'.actions[a].source.ByBridge?
  {
    hide Sound, Written, HookPasses, MayWrite, Accepts, Tracker.Do, IsGhostUser, Asked, UsedUp;
  }

  lemma GrowsExtends(s: State, s': State)
    requires Grows(s, s') && s'.mapped == s.mapped && s'.eventPost == s.eventPost
    ensures Extends(s, s')
  {
  }

  /** The user that an event is written for, and what is noted of it. */
  lemma AcceptedPlace(c: Config, s: State, event: int, newUser: string)
    requires Enabled(c, s, FromMatrix(event, newUser))
    ensures var s' := Do(c, s, FromMatrix(event, newUser));
            var e, u := s.events[event], UserFor(s, s.events[event].sender, newUser);
            && s'.mapped == (if e.kind.Edit? || u in s.users then s.mapped else s.mapped[e.sender := u])
            && s'.eventPost == (if e.kind.Message? then s.eventPost[event := |s.posts|] else s.eventPost)
            && |s'.actions| == |s.actions| + 1
            && var a := s'.actions[|s.actions|];
               && a.source == ByBridge(event)
               && match e.kind
                  case Message => MadeFor(a, |s.posts|, event) && |s'.posts| == |s.posts| + 1
                                  && s'.posts[|s.posts|].author == u && s'.posts[|s.posts|].ours
                  case Edit(target) => a.Updated? && Some(a.post) == PostOf(s, target)
                  case Reaction(target) =>
                    a.Reacted? && Some(a.post) == PostOrGroupOf(s, target) && a.user == u && a.ours
  {
    hide IsGhostUser, Received, PostOf, PostOrGroupOf, Accepts;
    AcceptsNames(s, c, s.events[event]);
  }

  lemma AcceptsNames(s: State, c: Config, e: Event)
    requires Accepts(s, c, e)
    ensures e.kind.Edit? ==> Exists(s, PostOf(s, e.kind.target))
    ensures e.kind.Reaction? ==> Exists(s, PostOrGroupOf(s, e.kind.target))
  {
  }

  lemma PostOfIsFor(s: State, t: int)
    requires Placing(s)
    ensures PostOf(s, t).Some? ==> PostFor(s, PostOf(s, t).value, t)
    ensures PostOrGroupOf(s, t).Some? ==> PostOrGroupFor(s, PostOrGroupOf(s, t).value, t)
  {
    hide RightlyPlaced, MadeFor;
    if 0 <= t < |s.events| && s.events[t].group.Some? {
      var g := s.events[t].group.value;
      assert PostOf(s, g).Some? ==> PostFor(s, PostOf(s, g).value, g);
    }
  }

  /** A sender's user is the one mapped to it, now or by this step. */
  lemma UserIsMapped(s: State, c: Config, sender: string, newUser: string)
    requires Sound(s, c) && NewIfUsed(s, sender, newUser)
    ensures var u := UserFor(s, sender, newUser);
            && (u in s.users ==> sender in s.mapped && s.mapped[sender] == u)
            && (u !in s.users ==> sender !in s.mapped && forall x :: x in s.mapped ==> s.mapped[x] != u)
  {
    hide PostSound, Attributed, Traced, ValidDelivery;
  }

  lemma FromMatrixPlacing(c: Config, s: State, event: int, newUser: string)
    requires Enabled(c, s, FromMatrix(event, newUser)) && Sound(s, c) && Placing(s)
    ensures Placing(Do(c, s, FromMatrix(event, newUser)))
  {
    hide Sound, Do, Accepts, UserFor, NewIfUsed, PostOf, PostOrGroupOf, PostFor, Grows, Placing;
    var s' := Do(c, s, FromMatrix(event, newUser));
    var e := s.events[event];
    AcceptedPlace(c, s, event, newUser);
    FromMatrixSound(s, c, event, newUser);
    GrowsParts(s, s');
    if !e.kind.Edit? { UserIsMapped(s, c, e.sender, newUser); }
    MappedPostsExist(s, c);
    match e.kind {
      case Edit(t) => PostOfIsFor(s, t); FirstPlaced(s, s', c, event);
      case Reaction(t) => PostOfIsFor(s, t); FirstPlaced(s, s', c, event);
      case Message => FirstPlaced(s, s', c, event);
    }
  }

  lemma MappedPostsExist(s: State, c: Config)
    requires Sound(s, c) && Placing(s)
    ensures forall t :: t in s.eventPost ==> s.eventPost[t] < |s.posts|
  {
    hide PostSound, Traced, RightlyPlaced, NamesFirst, Conveys;
    forall t | t in s.eventPost ensures s.eventPost[t] < |s.posts| {
      var k :| 0 <= k < |s.actions| && MadeFor(s.actions[k], s.eventPost[t], t);
      assert Attributed(s, c, s.actions[k]);
    }
  }

  lemma GrowsParts(s: State, s': State)
    requires Grows(s, s')
    ensures |s.posts| <= |s'.posts| && forall p :: 0 <= p < |s.posts| ==> SameAuthor(s.posts[p], s'.posts[p])
    ensures s.actions <= s'.actions && s.events <= s'.events
  {
  }

  /** The write of an accepted event is in its place. */
  lemma FirstPlaced(s: State, s': State, c: Config, event: int)
    requires Placing(s) && 0 <= event < |s.events|
    requires |s.posts| <= |s'.posts| && forall p :: 0 <= p < |s.posts| ==> SameAuthor(s.posts[p], s'.posts[p])
    requires forall t :: t in s.eventPost ==> s.eventPost[t] < |s.posts|
    requires s.actions <= s'.actions && s.events <= s'.events && |s'.actions| == |s.actions| + 1
    requires var e, a := s.events[event], s'.actions[|s.actions|];
             && a.source == ByBridge(event)
             && s'.eventPost == (if e.kind.Message? then s.eventPost[event := |s.posts|] else s.eventPost)
             && (e.kind.Edit? ==> s'.mapped == s.mapped && a.Updated? && PostFor(s, a.post, e.kind.target))
             && (!e.kind.Edit? ==>
                   && (s'.mapped == s.mapped
                       || (e.sender !in s.mapped && e.sender in s'.mapped
                           && s'.mapped == s.mapped[e.sender := s'.mapped[e.sender]]
                           && forall x :: x in s.mapped ==> s.mapped[x] != s'.mapped[e.sender]))
                   && e.sender in s'.mapped)
             && (e.kind.Reaction? ==>
                   a.Reacted? && a.ours && a.user == s'.mapped[e.sender] && PostOrGroupFor(s, a.post, e.kind.target))
             && (e.kind.Message? ==>
                   && MadeFor(a, |s.posts|, event) && |s'.posts| == |s.posts| + 1
                   && s'.posts[|s.posts|].author == s'.mapped[e.sender] && s'.posts[|s.posts|].ours)
    ensures Placing(s')
  {
    var e, a := s.events[event], s'.actions[|s.actions|];
    forall p, t | PostFor(s, p, t) ensures PostFor(s', p, t) { PostForStays(s, s', p, t); }
    assert s'.events[event] == e;
    hide PostFor;
    assert RightlyPlaced(s', a);
    hide RightlyPlaced, MadeFor;
    ExtendedPlacing(s, s');
  }

  lemma StepPlacing(c: Config, s: State, step: Step)
    requires Sound(s, c) && Placing(s)
    ensures Placing(Next(c, s, step))
  {
    hide Sound, Do, Enabled, Placing, Grows;
    if Enabled(c, s, step) {
      if step.FromMatrix? {
        FromMatrixPlacing(c, s, step.received, step.newUser);
      } else {
        OthersPlaceNothing(c, s, step);
        StepSound(c, s, step);
        GrowsExtends(s, Next(c, s, step));
        NothingPlaced(s, Next(c, s, step));
      }
    }
  }

  lemma NothingPlaced(s: State, s': State)
    requires Placing(s) && Extends(s, s') && s'.mapped == s.mapped && s'.eventPost == s.eventPost
    requires forall a :: |s.actions| <= a < |s'.actions| ==> !s'.actions[a].source.ByBridge?
    ensures Placing(s')
  {
    hide Placed, MadeFor;
    ExtendedPlacing(s, s');
  }

  lemma {:induction false} RunPlacing(c: Config, steps: seq<Step>)
    ensures Placing(Run(c, steps))
  {
    if steps != [] {
      hide Sound, Placing, Next;
      RunSound(c, steps[..|steps| - 1]);
      RunPlacing(c, steps[..|steps| - 1]);
      StepPlacing(c, Run(c, steps[..|steps| - 1]), steps[|steps| - 1]);
    }
  }

  // ---------- what is delivered ----------

  ghost predicate HooksRight(s: State) {
    forall d :: 0 <= d < |s.deliveries| ==>
      ValidDelivery(s, s.deliveries[d]) && HookPasses(s, s.actions[s.deliveries[d].action], s.deliveries[d].hook)
  }

  lemma HookStays(s: State, s': State, a: Action, hook: Hook)
    requires Grows(s, s') && ValidAction(s, a) && HookPasses(s, a, hook)
    ensures ValidAction(s', a) && HookPasses(s', a, hook)
  {
  }

  lemma StepHooksRight(c: Config, s: State, step: Step)
    requires Sound(s, c) && HooksRight(s)
    ensures HooksRight(Next(c, s, step))
  {
    hide Sound, Next, HookPasses;
    var s' := Next(c, s, step);
    StepSound(c, s, step);
    SoundDeliveries(s', c);
    forall d | 0 <= d < |s'.deliveries|
      ensures HookPasses(s', s'.actions[s'.deliveries[d].action], s'.deliveries[d].hook)
    {
      if d < |s.deliveries| {
        assert SameDelivery(s.deliveries[d], s'.deliveries[d]);
        HookStays(s, s', s.actions[s.deliveries[d].action], s.deliveries[d].hook);
      } else {
        EchoGuard.LastAsked(c, s, step, d);
        AskedByHook(c, s, step);
        HookStays(s, s', s.actions[step.action], step.hook);
      }
    }
  }

  lemma SoundDeliveries(s: State, c: Config)
    requires Sound(s, c)
    ensures forall d :: 0 <= d < |s.deliveries| ==> ValidDelivery(s, s.deliveries[d])
  {
  }

  lemma AskedByHook(c: Config, s: State, step: Step)
    requires step.Deliver? && Enabled(c, s, step)
    ensures 0 <= step.action < |s.actions| && ValidAction(s, s.actions[step.action])
    ensures HookPasses(s, s.actions[step.action], step.hook)
  {
  }

  lemma {:induction false} RunHooksRight(c: Config, steps: seq<Step>)
    ensures HooksRight(Run(c, steps))
  {
    if steps != [] {
      hide Sound, HooksRight, Next;
      RunSound(c, steps[..|steps| - 1]);
      RunHooksRight(c, steps[..|steps| - 1]);
      StepHooksRight(c, Run(c, steps[..|steps| - 1]), steps[|steps| - 1]);
    }
  }

  /**
    In every run a hook delivers only writes of its own kind, and posts or reactions that carry the bridge's remote ID
    reach neither the update hook nor the one of shared channels.
  */
  lemma DeliveriesAre(c: Config, steps: seq<Step>, d: int)
    requires 0 <= d < |Run(c, steps).deliveries|
    ensures var s := Run(c, steps);
            && 0 <= s.deliveries[d].action < |s.actions| && ValidAction(s, s.actions[s.deliveries[d].action])
            && var a := s.actions[s.deliveries[d].action];
               match s.deliveries[d].hook
               case MessageHasBeenPosted => a.Created? && s.posts[a.post].author != ""
               case MessageHasBeenUpdated => a.Updated? && !s.posts[a.post].ours
               case OnSharedChannelsSyncMsg => if a.Reacted? then !a.ours else !s.posts[a.post].ours
               case ReactionHasBeenAdded => a.Reacted?
  {
    RunHooksRight(c, steps);
    hide Run;
  }

  // ---------- from Matrix to Mattermost ----------

  /** An edit from Matrix gives its post the new text: its files and its event stay, and so does every other post. */
  lemma EditKeepsRest(c: Config, s: State, event: int, newUser: string)
    requires Enabled(c, s, FromMatrix(event, newUser)) && s.events[event].kind.Edit?
    ensures var s' := Do(c, s, FromMatrix(event, newUser));
            && |s'.actions| == |s.actions| + 1 && |s'.posts| == |s.posts|
            && var p := s'.actions[|s.actions|].post;
               && 0 <= p < |s.posts|
               && s'.posts[p].version.files == s.posts[p].version.files
               && s'.posts[p].version.eventID == s.posts[p].version.eventID
               && s'.posts[p].version == s'.actions[|s.actions|].version
               && s'.posts[p].author == s.posts[p].author
               && forall q :: 0 <= q < |s.posts| && q != p ==> s'.posts[q] == s.posts[q]
  {
    hide IsGhostUser, PostOf, Converted, NewIfUsed;
  }

  /**
    In every run a write of the bridge on Mattermost for event i says what that event said.  A post made for it holds
    the converted text alone, or the one file and no text, names the event, and is by the sender's own user; an edit
    gives the event's text to a post of the event it edits; a reaction is by the sender's user, on a post of its event.
    New posts and reactions carry the bridge's remote ID.
  */
  lemma MatrixWritesAre(c: Config, steps: seq<Step>, a: int)
    requires var s := Run(c, steps); 0 <= a < |s.actions| && s.actions[a].source.ByBridge?
    ensures var s := Run(c, steps);
            var x, i := s.actions[a], s.actions[a].source.event;
            && 0 <= i < |s.events|
            && var e := s.events[i];
               match x
               case Created(p, v, _, _) =>
                 && e.kind.Message? && v.eventID == Some(i)
                 && (e.file.None? ==> v.message == c.toMattermost(c.extract(e.text)) && v.files == [])
                 && (e.file.Some? ==> v.message == "" && v.files == [e.file.value])
                 && 0 <= p < |s.posts| && s.posts[p].ours
                 && e.sender in s.mapped && s.posts[p].author == s.mapped[e.sender]
               case Updated(p, v, _, _) =>
                 && e.kind.Edit? && v.message == c.toMattermost(c.extract(e.text)) && PostFor(s, p, e.kind.target)
               case Reacted(p, u, ours, _) =>
                 && e.kind.Reaction? && PostOrGroupFor(s, p, e.kind.target) && ours
                 && e.sender in s.mapped && u == s.mapped[e.sender]
  {
    RunSound(c, steps);
    RunPlacing(c, steps);
    var s := Run(c, steps);
    hide Run, PostFor, PostOrGroupFor, NamesFirst;
    assert Attributed(s, c, s.actions[a]) && RightlyPlaced(s, s.actions[a]);
  }

  /** In every run an edit goes to the last post made for the event it edits, else to the post whose ID that carries. */
  lemma EditsLatest(c: Config, steps: seq<Step>, i: int, newUser: string)
    requires var s := Run(c, steps); Enabled(c, s, FromMatrix(i, newUser)) && s.events[i].kind.Edit?
    ensures var s := Run(c, steps);
            var t, s' := s.events[i].kind.target, Do(c, s, FromMatrix(i, newUser));
            && |s'.actions| == |s.actions| + 1
            && var p := s'.actions[|s.actions|].post;
               if exists k, q :: 0 <= k < |s.actions| && MadeFor(s.actions[k], q, t)
               then (exists k :: 0 <= k < |s.actions| && MadeFor(s.actions[k], p, t))
                    && forall k, q :: 0 <= k < |s.actions| && MadeFor(s.actions[k], q, t) ==> q <= p
               else 0 <= t < |s.events| && s.events[t].postID == Some(p)
  {
    var s := Run(c, steps);
    RunPlacing(c, steps);
    hide Run, IsGhostUser, RightlyPlaced, Accepts, NewIfUsed, Converted;
    AcceptedPlace(c, s, i, newUser);
    AcceptsNames(s, c, s.events[i]);
    hide Do;
    var t := s.events[i].kind.target;
    forall k, q | 0 <= k < |s.actions| && MadeFor(s.actions[k], q, t) ensures t in s.eventPost && q <= s.eventPost[t] {
      assert Noted(s, s.actions[k]);
    }
  }

  /** In every run different senders have different users on Mattermost, all of them made by the bridge. */
  lemma SendersApart(c: Config, steps: seq<Step>, x: string, y: string)
    requires var s := Run(c, steps); x in s.mapped && y in s.mapped
    ensures var s := Run(c, steps);
            && (s.mapped[x] == s.mapped[y] <==> x == y)
            && s.mapped[x] in s.bridgeUsers
  {
    RunSound(c, steps);
    RunPlacing(c, steps);
    hide Run;
  }

  /**
    In every run the webhook may act on a Matrix user's event exactly when it is not one of the bridge's own messages,
    come back, nor an empty new message, and what it edits or reacts to has a post.
  */
  lemma AcceptedIff(c: Config, steps: seq<Step>, i: int, newUser: string)
    requires var s := Run(c, steps);
             0 <= i < |s.events| && s.events[i].source.None? && newUser !in s.users
    ensures var s := Run(c, steps);
            var e := s.events[i];
            var own := (e.postID.Some? && 0 <= e.postID.value < |s.posts|) || e.ownRemote;
            Enabled(c, s, FromMatrix(i, newUser))
            <==> match e.kind
                 case Message => !own && (e.file.Some? || c.extract(e.text) != "")
                 case Edit(t) => !own && HasPost(s, t)
                 case Reaction(t) =>
                   || HasPost(s, t)
                   || (0 <= t < |s.events| && s.events[t].group.Some? && HasPost(s, s.events[t].group.value)
                       && !exists p :: PostFor(s, p, t))
  {
    RunSound(c, steps);
    RunPlacing(c, steps);
    var s := Run(c, steps);
    var e := s.events[i];
    hide Run, PostFor, Placing, NamesFirst, HasPost;
    assert Traced(s, c, e);
    if !e.kind.Message? {
      var t := e.kind.target;
      HasPostIff(s, c, t);
      if 0 <= t < |s.events| && s.events[t].group.Some? { HasPostIff(s, c, s.events[t].group.value); }
    }
    hide IsGhostUser, PostOf;
  }

  ghost predicate HasPost(s: State, t: int) {
    exists p :: 0 <= p < |s.posts| && PostFor(s, p, t)
  }

  lemma HasPostIff(s: State, c: Config, t: int)
    requires Sound(s, c) && Placing(s)
    ensures Exists(s, PostOf(s, t)) <==> HasPost(s, t)
    ensures PostOf(s, t).Some? <==> exists p :: PostFor(s, p, t)
  {
    forall p | PostFor(s, p, t) ensures PostOf(s, t).Some? {
      if k :| 0 <= k < |s.actions| && MadeFor(s.actions[k], p, t) {
        assert t in s.eventPost;
      }
    }
    hide RightlyPlaced, PostSound, Traced, ValidDelivery, NamesFirst;
    PostOfIsFor(s, t);
    if p :| 0 <= p < |s.posts| && PostFor(s, p, t) {
      if k :| 0 <= k < |s.actions| && MadeFor(s.actions[k], p, t) {
        assert t in s.eventPost;
      }
      if t in s.eventPost {
        var k :| 0 <= k < |s.actions| && MadeFor(s.actions[k], s.eventPost[t], t);
        assert Attributed(s, c, s.actions[k]);
      }
    }
  }

  // ---------- from Mattermost to Matrix ----------

  /**
    In every run an event of the bridge is sent by the ghost of the local author of one write and says what that write
    said: a reaction, an edit's new text to the event the post is known by, or a new post's text or one of its files.
  */
  lemma BridgeEventsAre(c: Config, steps: seq<Step>, e: int)
    requires var s := Run(c, steps); 0 <= e < |s.events| && s.events[e].source.Some?
    ensures var s := Run(c, steps);
            var x, i := s.events[e], s.events[e].source.value;
            && 0 <= i < |s.actions| && ValidAction(s, s.actions[i])
            && var a := s.actions[i];
               && x.sender == GhostUserID(Author(s, a), c.domain) && Author(s, a) in s.users - s.remoteUsers
               && match x.kind
                  case Reaction(_) => a.Reacted? && x.text == Text("", "") && x.file.None?
                  case Edit(t) =>
                    && !a.Reacted? && a.version.eventID == Some(t)
                    && x.text == c.toMatrix(a.version.message) && x.file.None?
                  case Message =>
                    && !a.Reacted? && a.version.eventID.None? && x.postID == Some(a.post) && x.ownRemote
                    && (x.file.None? ==> x.text == c.toMatrix(a.version.message) && HasText(x.text))
                    && (x.file.Some? ==> x.text == Text(x.file.value.name, ""))
  {
    RunSound(c, steps);
    var s := Run(c, steps);
    hide Run, NamesFirst, IsGhostUser, GhostUserID, HasText, Conveys;
    assert Traced(s, c, s.events[e]);
    assert Attributed(s, c, s.actions[s.events[e].source.value]);
  }

  /**
    A new post as it is sent: its text, if it has any, and then every file, in order and under its name, all by the
    author's ghost and marked as the bridge's; each but the first names the first, unless they are replies in a
    thread.  The event ID recorded is the first one's.
  */
  lemma PostIsMirrored(c: Config, s: State, i: int, out: Outcome)
    requires Enabled(c, s, ToMatrix(i, out)) && out.Sent?
    requires var a := s.actions[s.deliveries[i].action]; !a.Reacted? && a.version.eventID.None?
    ensures var s', d, n := Do(c, s, ToMatrix(i, out)), s.deliveries[i], |s.events|;
            var a := s.actions[d.action];
            var text := c.toMatrix(a.version.message);
            var texts := if text.body != "" || text.html != "" then 1 else 0;
            && |s'.events| == n + texts + |out.files| && s.events <= s'.events
            && (forall k :: n <= k < |s'.events| ==>
                  var file := if k < n + texts then None else Some(out.files[k - n - texts]);
                  s'.events[k]
                  == Event(GhostUserID(Author(s, a), c.domain), Message,
                           if file.None? then text else Text(file.value.name, ""), file,
                           Some(a.post), true, if k == n || out.threaded then None else Some(n), Some(d.action)))
            && (out.recorded ==> s'.posts[a.post].version == a.version.(eventID := Some(n)))
            && (!out.recorded ==> s'.posts == s.posts)
  {
    hide GhostUserID, Unchanged, Possible, MayWrite, HookPasses, Written, Parts, HasText;
    var d := s.deliveries[i];
    var a := s.actions[d.action];
    TextIs(c.toMatrix(a.version.message));
    DeliveredShape(s, c, i, out);
    assert MayWrite(s, c, d, out);
    PartsAre(c, a.version.message, out.files);
    var w := Written(s, c, d, out);
    WrittenLength(c, s, d, out);
    forall k | 0 <= k < |w|
      ensures var part := Parts(c, a.version.message, out.files)[k];
              w[k] == Event(GhostUserID(Author(s, a), c.domain), Message, part.text, part.file, Some(a.post),
                            true, if k == 0 || out.threaded then None else Some(|s.events|), Some(d.action))
    {
      EchoGuard.PartWritten(c, s, d, out, k);
    }
    hide Do, Author;
  }

  lemma TextIs(t: Text)
    ensures HasText(t) <==> t.body != "" || t.html != ""
  {
  }

  lemma PartsAre(c: Config, message: string, files: seq<File>)
    ensures var parts := Parts(c, message, files);
            var texts := if HasText(c.toMatrix(message)) then 1 else 0;
            && |parts| == texts + |files|
            && forall k :: 0 <= k < |parts| ==>
                 parts[k] == if k < texts then Part(c.toMatrix(message), None)
                             else Part(Text(files[k - texts].name, ""), Some(files[k - texts]))
  {
    hide HasText;
  }

  lemma WrittenLength(c: Config, s: State, d: Delivery, out: Outcome)
    requires ValidDelivery(s, d) && out.Sent? && MayWrite(s, c, d, out)
    requires !s.actions[d.action].Reacted? && s.actions[d.action].version.eventID.None?
    ensures |Written(s, c, d, out)| == |Parts(c, s.actions[d.action].version.message, out.files)|
  {
    hide GhostUserID, MayWrite, Parts, Author;
  }

  /** The hook that is there for a write. */
  function HookOf(a: Action): Hook {
    match a
    case Created(_, _, _, _) => MessageHasBeenPosted
    case Updated(_, _, _, _) => MessageHasBeenUpdated
    case Reacted(_, _, _, _) => ReactionHasBeenAdded
  }

  /**
    What a write needs to be sent: something to say, or for a reaction an event to refer to; for an edit, that the
    tracker does not remember it and the event cannot be fetched to compare.
  */
  predicate Sendable(s: State, c: Config, a: Action, out: Outcome)
    requires ValidAction(s, a) && out.Sent?
  {
    if a.Reacted? then s.posts[a.post].version.eventID.Some?
    else if a.version.eventID.Some? then
      !out.look.fetched && out.look.related.None? && Tracker.Known(s.tracker.entries, a.post) != Some(a.updateAt)
    else HasText(c.toMatrix(a.version.message)) || out.files != []
  }

  /**
    In every run a local user's write can cross at once: its hook is delivered and the room gets it, a reaction to the
    event the post is known by, an edit of that event, or the post's first event.
  */
  lemma LocalWritesCross(c: Config, steps: seq<Step>, i: int, out: Outcome)
    requires var s := Run(c, steps);
             && 0 <= i < |s.actions| && ValidAction(s, s.actions[i]) && c.domain != "" && out.Sent?
             && Author(s, s.actions[i]) !in s.remoteUsers && Author(s, s.actions[i]) != ""
             && Sendable(s, c, s.actions[i], out)
    ensures var s := Run(c, steps);
            var a, d := s.actions[i], |s.deliveries|;
            && Enabled(c, s, Deliver(i, HookOf(a)))
            && var s1 := Do(c, s, Deliver(i, HookOf(a)));
               && Enabled(c, s1, ToMatrix(d, out))
               && var s2 := Do(c, s1, ToMatrix(d, out));
                  && |s2.events| > |s.events| && s.events <= s2.events
                  && var e := s2.events[|s.events|];
                     && e.sender == GhostUserID(Author(s, a), c.domain) && e.source == Some(i)
                     && e.kind == (if a.Reacted? then Reaction(s.posts[a.post].version.eventID.value)
                                   else if a.version.eventID.Some? then Edit(a.version.eventID.value) else Message)
                     && (!a.Reacted? && HasText(c.toMatrix(a.version.message)) ==>
                           e.text == c.toMatrix(a.version.message) && e.file.None?)
  {
    var s := Run(c, steps);
    var a := s.actions[i];
    RunSound(c, steps);
    hide Run, NamesFirst, IsGhostUser, GhostUserID, HasText, Conveys, Says, Sendable, Tracker.Known;
    assert Attributed(s, c, a) && PostSound(s, s.posts[a.post]);
    hide Sound, Attributed, PostSound;
    HookDelivers(c, s, i);
    var s1 := Do(c, s, Deliver(i, HookOf(a)));
    SendsNow(c, s, s1, i, out);
    DeliveredShape(s1, c, |s.deliveries|, out);
    FirstIs(c, s1, s1.deliveries[|s.deliveries|], out);
    hide Do, Enabled, Written;
  }

  lemma HookDelivers(c: Config, s: State, i: int)
    requires 0 <= i < |s.actions| && ValidAction(s, s.actions[i]) && Author(s, s.actions[i]) != ""
    requires s.actions[i].Updated? ==> !s.posts[s.actions[i].post].ours
    ensures var a := s.actions[i];
            && Enabled(c, s, Deliver(i, HookOf(a)))
            && Do(c, s, Deliver(i, HookOf(a)))
               == s.(deliveries := s.deliveries + [Delivery(i, HookOf(a), Asked(s, a), true)])
  {
  }

  lemma SendsNow(c: Config, s: State, s1: State, i: int, out: Outcome)
    requires 0 <= i < |s.actions| && ValidAction(s, s.actions[i]) && c.domain != "" && out.Sent?
    requires Author(s, s.actions[i]) !in s.remoteUsers && Sendable(s, c, s.actions[i], out)
    requires s1 == s.(deliveries := s.deliveries + [Delivery(i, HookOf(s.actions[i]), Asked(s, s.actions[i]), true)])
    ensures Enabled(c, s1, ToMatrix(|s.deliveries|, out))
  {
    hide HasText, Tracker.Known;
  }

  lemma FirstIs(c: Config, s: State, d: Delivery, out: Outcome)
    requires ValidDelivery(s, d) && out.Sent? && MayWrite(s, c, d, out)
    ensures var w, a := Written(s, c, d, out), s.actions[d.action];
            && w != [] && w[0].sender == GhostUserID(Author(s, a), c.domain) && w[0].source == Some(d.action)
            && w[0].kind == (if a.Reacted? then Reaction(s.posts[a.post].version.eventID.value)
                             else if a.version.eventID.Some? then Edit(a.version.eventID.value) else Message)
            && (!a.Reacted? && HasText(c.toMatrix(a.version.message)) ==>
                  w[0].text == c.toMatrix(a.version.message) && w[0].file.None?)
  {
    hide GhostUserID, Unchanged, Possible, HasText;
  }
}
