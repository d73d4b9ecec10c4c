/**
  When a write of the bridge on Mattermost comes back to Matrix: what the redundant-edit guard remembers of a
  run, and what gets past it (server/sync_to_matrix.go, server/post_tracker.go).
*/
module EchoGuard {
  import opened Prelude
  import opened GhostIDs
  import opened MatrixContent
  import opened NoEcho
  import Tracker = PostTracker

  /** The state before step i. */
  function At(c: Config, steps: seq<Step>, i: int): State
    requires 0 <= i <= |steps|
  {
    Run(c, steps[..i])
  }

  lemma AtLast(c: Config, steps: seq<Step>)
    requires steps != []
    ensures At(c, steps, |steps|) == Run(c, steps)
    ensures At(c, steps, |steps| - 1) == Run(c, steps[..|steps| - 1])
    ensures Run(c, steps) == Next(c, At(c, steps, |steps| - 1), steps[|steps| - 1])
    ensures forall i :: 0 <= i < |steps| ==> At(c, steps, i) == At(c, steps[..|steps| - 1], i)
  {
    assert steps[..|steps|] == steps;
    forall i | 0 <= i < |steps| ensures At(c, steps, i) == At(c, steps[..|steps| - 1], i) {
      assert steps[..|steps| - 1][..i] == steps[..i];
    }
  }

  // ---------- what the guard remembers ----------

  /** The step stores, or tries to store, the timestamp of a bookkeeping update. */
  predicate Tracks(c: Config, s: State, step: Step) {
    step.Track? && Enabled(c, s, step)
  }

  /** A full tracker first drops what is more than an hour old, and `updateAt` is. */
  predicate MakesRoom(c: Config, s: State, step: Step, updateAt: int) {
    Tracks(c, s, step) && |s.tracker.entries| >= c.maxTracked && updateAt < s.now - Tracker.MAX_AGE
  }

  /** Every hundredth timestamp stored makes the tracker drop what is then more than an hour old, and `updateAt` is. */
  predicate CleansUp(c: Config, s: State, step: Step, updateAt: int) {
    && Tracks(c, s, step)
    && Tracker.Admits(s.tracker, c.maxTracked, s.now)
    && (Tracker.MadeRoom(s.tracker, c.maxTracked, s.now).putCounter + 1) % Tracker.CLEANUP_FREQ == 0
    && updateAt < step.later - Tracker.MAX_AGE
  }

  /** The step stores this timestamp for the post: the tracker has room, and it is not dropped at once. */
  predicate Stores(c: Config, s: State, step: Step, post: int, updateAt: int) {
    Tracks(c, s, step)
    && s.actions[step.action].post == post && s.actions[step.action].updateAt == updateAt
    && Tracker.Admits(s.tracker, c.maxTracked, s.now)
    && !CleansUp(c, s, step, updateAt)
  }

  /** An edit of the post, for which the tracker remembered something when asked, is gone through with or dropped. */
  predicate Delivers(c: Config, s: State, step: Step, post: int) {
    && step.ToMatrix? && Enabled(c, s, step)
    && var d := s.deliveries[step.delivery];
       OnMatrix(s.actions[d.action]) && s.actions[d.action].post == post && d.remembered.Some?
  }

  /** Another timestamp is stored for the post. */
  predicate Replaces(c: Config, s: State, step: Step, post: int, updateAt: int) {
    Tracks(c, s, step)
    && s.actions[step.action].post == post && s.actions[step.action].updateAt != updateAt
    && Tracker.Admits(s.tracker, c.maxTracked, s.now)
  }

  predicate Forgets(c: Config, s: State, step: Step, post: int, updateAt: int) {
    || Delivers(c, s, step, post)
    || MakesRoom(c, s, step, updateAt) || CleansUp(c, s, step, updateAt)
    || Replaces(c, s, step, post, updateAt)
  }

  /** At some step of the run the timestamp was stored, and nothing has made the tracker forget it since. */
  ghost predicate Remembered(c: Config, steps: seq<Step>, post: int, updateAt: int) {
    exists i :: 0 <= i < |steps| && RememberedFrom(c, steps, i, post, updateAt)
  }

  ghost predicate RememberedFrom(c: Config, steps: seq<Step>, i: int, post: int, updateAt: int)
    requires 0 <= i < |steps|
  {
    StoresAt(c, steps, i, post, updateAt) && forall j :: i < j < |steps| ==> !ForgetsAt(c, steps, j, post, updateAt)
  }

  predicate StoresAt(c: Config, steps: seq<Step>, i: int, post: int, updateAt: int)
    requires 0 <= i < |steps|
  {
    Stores(c, At(c, steps, i), steps[i], post, updateAt)
  }

  predicate ForgetsAt(c: Config, steps: seq<Step>, i: int, post: int, updateAt: int)
    requires 0 <= i < |steps|
  {
    Forgets(c, At(c, steps, i), steps[i], post, updateAt)
  }

  lemma StepRemembers(c: Config, s: State, step: Step, post: int, updateAt: int)
    ensures Tracker.Known(Next(c, s, step).tracker.entries, post) == Some(updateAt)
       <==> Stores(c, s, step, post, updateAt)
            || (Tracker.Known(s.tracker.entries, post) == Some(updateAt) && !Forgets(c, s, step, post, updateAt))
  {
    if step.Track? {
      if Enabled(c, s, step) { TrackRemembers(c, s, step, post, updateAt); }
    } else if step.ToMatrix? {
      DeliveryForgets(c, s, step, post);
      hide Enabled, Next;
    } else {
      OthersKeepTracker(c, s, step);
      hide Enabled, Next;
    }
  }

  lemma DeliveryForgets(c: Config, s: State, step: Step, post: int)
    requires step.ToMatrix?
    ensures Tracker.Known(Next(c, s, step).tracker.entries, post)
         == if Delivers(c, s, step, post) then None else Tracker.Known(s.tracker.entries, post)
  {
    hide Written, MayWrite, HookPasses, Records, Asked;
  }

  lemma OthersKeepTracker(c: Config, s: State, step: Step)
    requires !step.Track? && !step.ToMatrix?
    ensures Next(c, s, step).tracker == s.tracker
  {
    hide Accepts, NewIfUsed, UserFor, PostOf, PostOrGroupOf;
  }

  lemma TrackRemembers(c: Config, s: State, step: Step, post: int, updateAt: int)
    requires Tracks(c, s, step)
    ensures Tracker.Known(Do(c, s, step).tracker.entries, post) == Some(updateAt)
       <==> Stores(c, s, step, post, updateAt)
            || (Tracker.Known(s.tracker.entries, post) == Some(updateAt) && !Forgets(c, s, step, post, updateAt))
  {
  }

  /** What the tracker holds, by the history of the run. */
  lemma {:induction false} GuardIff(c: Config, steps: seq<Step>, post: int, updateAt: int)
    ensures Tracker.Known(Run(c, steps).tracker.entries, post) == Some(updateAt)
       <==> Remembered(c, steps, post, updateAt)
  {
    if steps != [] {
      var init, last := steps[..|steps| - 1], steps[|steps| - 1];
      hide Next, Stores, Forgets, Run, Remembered;
      AtLast(c, steps);
      GuardIff(c, init, post, updateAt);
      StepRemembers(c, At(c, steps, |init|), last, post, updateAt);
      RememberedStep(c, steps, post, updateAt);
    }
  }

  lemma RememberedStep(c: Config, steps: seq<Step>, post: int, updateAt: int)
    requires steps != []
    ensures var n := |steps| - 1;
            Remembered(c, steps, post, updateAt)
            <==> StoresAt(c, steps, n, post, updateAt)
                 || (Remembered(c, steps[..n], post, updateAt) && !ForgetsAt(c, steps, n, post, updateAt))
  {
    hide StoresAt, ForgetsAt, RememberedFrom;
    var n := |steps| - 1;
    if i :| 0 <= i < |steps| && RememberedFrom(c, steps, i, post, updateAt) {
      FromStep(c, steps, i, post, updateAt);
      assert i < n ==> RememberedFrom(c, steps[..n], i, post, updateAt);
    }
    if StoresAt(c, steps, n, post, updateAt) {
      FromStep(c, steps, n, post, updateAt);
    } else if i :| 0 <= i < n && RememberedFrom(c, steps[..n], i, post, updateAt) {
      FromStep(c, steps, i, post, updateAt);
    }
  }

  lemma FromStep(c: Config, steps: seq<Step>, i: int, post: int, updateAt: int)
    requires 0 <= i < |steps|
    ensures var n := |steps| - 1;
            RememberedFrom(c, steps, i, post, updateAt)
            <==> if i == n then StoresAt(c, steps, n, post, updateAt)
                 else RememberedFrom(c, steps[..n], i, post, updateAt) && !ForgetsAt(c, steps, n, post, updateAt)
  {
    hide StoresAt, ForgetsAt, At, Run;
    SameBefore(c, steps, post, updateAt);
    var n := |steps| - 1;
    var init := steps[..n];
    if i < n {
      assert RememberedFrom(c, init, i, post, updateAt)
        <==> StoresAt(c, init, i, post, updateAt) && forall j :: i < j < n ==> !ForgetsAt(c, init, j, post, updateAt);
    }
  }

  lemma SameBefore(c: Config, steps: seq<Step>, post: int, updateAt: int)
    requires steps != []
    ensures var init := steps[..|steps| - 1];
            forall i :: 0 <= i < |init| ==>
              && StoresAt(c, steps, i, post, updateAt) == StoresAt(c, init, i, post, updateAt)
              && ForgetsAt(c, steps, i, post, updateAt) == ForgetsAt(c, init, i, post, updateAt)
  {
    hide Stores, Forgets, Run;
    var init := steps[..|steps| - 1];
    forall i | 0 <= i < |init| ensures At(c, steps, i) == At(c, init, i) && steps[i] == init[i] {
      assert init[..i] == steps[..i];
    }
  }

  // ---------- where a delivery comes from ----------

  /** The step at which the tracker was asked for a delivery. */
  lemma {:induction false} AskedAt(c: Config, steps: seq<Step>, d: int) returns (j: int)
    requires 0 <= d < |Run(c, steps).deliveries|
    ensures 0 <= j < |steps|
    ensures steps[j] == Deliver(Run(c, steps).deliveries[d].action, Run(c, steps).deliveries[d].hook)
    ensures Enabled(c, At(c, steps, j), steps[j])
    ensures Run(c, steps).deliveries[d].remembered == Asked(At(c, steps, j), At(c, steps, j).actions[steps[j].action])
    ensures At(c, steps, j).actions <= Run(c, steps).actions
  {
    hide Run, At, Sound, Enabled, Next, Asked;
    assert Run(c, []).deliveries == [] by { NoStart(c); }
    var init, last := steps[..|steps| - 1], steps[|steps| - 1];
    var s := Run(c, init);
    AtLast(c, steps);
    RunSound(c, init);
    StepSound(c, s, last);
    if d < |s.deliveries| {
      assert SameDelivery(s.deliveries[d], Run(c, steps).deliveries[d]);
      j := AskedAt(c, init, d);
    } else {
      j := |init|;
      LastAsked(c, s, last, d);
    }
  }

  lemma NoStart(c: Config)
    ensures Run(c, []).events == [] && Run(c, []).deliveries == []
  {
  }

  lemma LastAsked(c: Config, s: State, step: Step, d: int)
    requires |s.deliveries| <= d < |Next(c, s, step).deliveries|
    ensures step.Deliver? && Enabled(c, s, step) && d == |s.deliveries|
    ensures var n := Next(c, s, step).deliveries[d];
            n.action == step.action && n.hook == step.hook && n.remembered == Asked(s, s.actions[step.action])
  {
    hide Accepts, HookPasses, MayWrite, NewIfUsed, PostOf, PostOrGroupOf, WithUser, Asked, Written, Received;
    assert step.FromMatrix? ==> Next(c, s, step).deliveries == s.deliveries by {
      if step.FromMatrix? { NoEvents(c, s, step); }
    }
  }

  /** The guard stops a delivery exactly when it remembered the version delivered, by the history up to its question. */
  lemma RedundantIff(c: Config, steps: seq<Step>, d: int) returns (j: int)
    requires 0 <= d < |Run(c, steps).deliveries|
    ensures var s := Run(c, steps);
            && ValidDelivery(s, s.deliveries[d])
            && 0 <= j < |steps| && steps[j] == Deliver(s.deliveries[d].action, s.deliveries[d].hook)
            && Enabled(c, At(c, steps, j), steps[j])
            && var a := s.actions[s.deliveries[d].action];
               Redundant(a, s.deliveries[d]) <==> OnMatrix(a) && Remembered(c, steps[..j], a.post, a.updateAt)
  {
    RunSound(c, steps);
    j := AskedAt(c, steps, d);
    hide Run, Remembered, Enabled;
    var s, sj := Run(c, steps), At(c, steps, j);
    assert ValidDelivery(s, s.deliveries[d]);
    var a := s.actions[s.deliveries[d].action];
    assert sj.actions[steps[j].action] == a;
    if !a.Reacted? { GuardIff(c, steps[..j], a.post, a.updateAt); }
  }

  // ---------- no echo to Matrix ----------

  /** The delivery that wrote an event of the bridge. */
  lemma {:induction false} WrittenBy(c: Config, steps: seq<Step>, e: int) returns (i: int)
    requires 0 <= e < |Run(c, steps).events| && Run(c, steps).events[e].source.Some?
    ensures 0 <= i < |steps| && steps[i].ToMatrix? && steps[i].outcome.Sent?
    ensures Enabled(c, At(c, steps, i), steps[i])
    ensures Run(c, steps).events[e].source == Some(At(c, steps, i).deliveries[steps[i].delivery].action)
    ensures |At(c, steps, i).events| <= e < |At(c, steps, i + 1).events|
    ensures At(c, steps, i).actions <= Run(c, steps).actions
  {
    hide Run, At, Sound, Enabled, Next;
    assert Run(c, []).events == [] by { NoStart(c); }
    var init, last := steps[..|steps| - 1], steps[|steps| - 1];
    var s := Run(c, init);
    AtLast(c, steps);
    RunSound(c, init);
    StepSound(c, s, last);
    if e < |s.events| {
      i := WrittenBy(c, init, e);
      if i + 1 < |steps| { assert At(c, steps, i + 1) == At(c, init, i + 1); }
    } else {
      i := |init|;
      LastWrote(c, s, last, e);
    }
  }

  lemma LastWrote(c: Config, s: State, step: Step, e: int)
    requires Sound(s, c) && |s.events| <= e < |Next(c, s, step).events| && Next(c, s, step).events[e].source.Some?
    ensures step.ToMatrix? && step.outcome.Sent? && Enabled(c, s, step)
    ensures Next(c, s, step).events[e].source == Some(s.deliveries[step.delivery].action)
  {
    if step.ToMatrix? && Enabled(c, s, step) {
      DeliveredShape(s, c, step.delivery, step.outcome);
      if step.outcome.Sent? { WrittenByGhost(s, c, s.deliveries[step.delivery], step.outcome); }
      hide Enabled, Do, Written, Sound;
    } else {
      OthersWriteNothing(c, s, step);
      hide Enabled, Do, Sound, Next;
    }
  }

  lemma OthersWriteNothing(c: Config, s: State, step: Step)
    requires !(step.ToMatrix? && Enabled(c, s, step))
    ensures Next(c, s, step).events == s.events
              || (step.UserSends? && Next(c, s, step).events == s.events + [step.sent])
    ensures Next(c, s, step).events != s.events ==> step.sent.source.None?
  {
    hide HookPasses, MayWrite;
    if step.FromMatrix? { NoEvents(c, s, step); }
    hide Accepts, NewIfUsed, PostOf, PostOrGroupOf, WithUser, Received;
  }

  lemma NoEvents(c: Config, s: State, step: Step)
    requires step.FromMatrix?
    ensures Next(c, s, step).events == s.events && Next(c, s, step).deliveries == s.deliveries
  {
  }

  /**
    Everything the bridge writes on Matrix has a ghost sender, is in the name of a local user, and was written by
    the delivery of a write on Mattermost: a user's, or an update the bridge made of a local user's post, for a Matrix
    event or to record an event ID.  An edit passed both guards: at step j the tracker did not remember the version,
    and at step i the content was not found unchanged.
  */
  lemma NoEchoToMatrix(c: Config, steps: seq<Step>, e: int) returns (i: int, j: int)
    requires 0 <= e < |Run(c, steps).events| && Run(c, steps).events[e].source.Some?
    ensures 0 <= j < i < |steps| && steps[i].ToMatrix? && Enabled(c, At(c, steps, i), steps[i])
              && steps[i].outcome.Sent?
    ensures |At(c, steps, i).events| <= e < |At(c, steps, i + 1).events|
    ensures var s, si := Run(c, steps), At(c, steps, i);
            var d := si.deliveries[steps[i].delivery];
            && steps[j] == Deliver(d.action, d.hook)
            && s.events[e].source == Some(d.action) && 0 <= d.action < |s.actions|
            && IsGhostUser(s.events[e].sender, c.domain)
            && var a := s.actions[d.action];
               && ValidAction(s, a) && Author(s, a) in s.users - s.remoteUsers
               && (s.events[e].kind.Reaction? <==> a.Reacted?)
               && (a.source.ByUser? || a.Updated?)
               && (OnMatrix(a) ==>
                     && !Remembered(c, steps[..j], a.post, a.updateAt)
                     && Possible(si, a.version, steps[i].outcome.look)
                     && !Unchanged(si, c, a.version, steps[i].outcome.look))
  {
    RunSound(c, steps);
    i := WrittenBy(c, steps, e);
    var s, si := Run(c, steps), At(c, steps, i);
    var d := si.deliveries[steps[i].delivery];
    var a := s.actions[d.action];
    j := RedundantIff(c, steps[..i], steps[i].delivery);
    assert steps[..i][..j] == steps[..j];
    assert si.actions[d.action] == a;
    hide Run, Remembered, Unchanged, Possible, NamesFirst;
    assert Traced(s, c, s.events[e]);
    assert Attributed(s, c, a);
    assert MayWrite(si, c, d, steps[i].outcome);
  }

  /**
    A bridge write on Mattermost that is being delivered can be mirrored back exactly when it updates a post whose
    author is not remote and gets past both guards: the tracker, asked at step j, did not remember the version, because
    it was never stored (refused, or overtaken by the hook), or has been delivered, replaced or dropped as old since;
    and the content cannot be fetched or is not found unchanged.  Without a server the bridge has no ghosts.
  */
  lemma EchoesIff(c: Config, steps: seq<Step>, d: int, out: Outcome) returns (j: int)
    requires var s := Run(c, steps);
             && 0 <= d < |s.deliveries| && s.deliveries[d].open && ValidDelivery(s, s.deliveries[d])
             && !s.actions[s.deliveries[d].action].source.ByUser? && out.Sent?
    ensures var s := Run(c, steps);
            var a := s.actions[s.deliveries[d].action];
            && 0 <= j < |steps| && steps[j] == Deliver(s.deliveries[d].action, s.deliveries[d].hook)
            && (Enabled(c, s, ToMatrix(d, out))
                <==> && c.domain != ""
                     && a.Updated?
                     && Author(s, a) !in s.remoteUsers
                     && if OnMatrix(a) then
                          && !Remembered(c, steps[..j], a.post, a.updateAt)
                          && Possible(s, a.version, out.look) && !Unchanged(s, c, a.version, out.look)
                        else HasText(c.toMatrix(a.version.message)) || out.files != [])
  {
    RunSound(c, steps);
    j := RedundantIff(c, steps, d);
    var s := Run(c, steps);
    hide Run, Remembered, Unchanged, Possible, NamesFirst, HasText;
    assert Attributed(s, c, s.actions[s.deliveries[d].action]);
  }

  // ---------- the bridge's own updates ----------

  /** The files that the room holds with the event of this version have addresses. */
  ghost predicate Addressed(s: State, v: Version, look: Look)
    requires v.eventID.Some? && Possible(s, v, look) && look.related.Some?
  {
    forall f :: Related(Some(f), v.eventID) in RelatedEvents(s, look.related.value) ==> f.uri != ""
  }

  /** Nothing is attached to the post or grouped with its event. */
  predicate NoFiles(s: State, v: Version, look: Look)
    requires v.eventID.Some? && Possible(s, v, look)
  {
    Readable(v.files, look.unreadable) == [] && ShownFiles(s, v, look) == Some([])
  }

  /** Matrix shows the files of the messages that the relations lookup names and that are grouped with the event. */
  lemma ShownFilesAre(s: State, v: Version, look: Look, f: File)
    requires v.eventID.Some? && Possible(s, v, look) && look.related.Some?
    ensures f in ShownFiles(s, v, look).value
       <==> exists i :: 0 <= i < |look.related.value|
                        && var e := s.events[look.related.value[i]];
                           e.kind.Message? && e.file == Some(f) && e.group == v.eventID
  {
    var related := RelatedEvents(s, look.related.value);
    FilesOfAre(related, v.eventID.value);
    if Related(Some(f), v.eventID) in related {
      var i :| 0 <= i < |related| && related[i] == Related(Some(f), v.eventID);
      var e := s.events[look.related.value[i]];
      assert e.kind.Message? && e.file == Some(f) && e.group == v.eventID;
    }
    if i :| 0 <= i < |look.related.value|
            && var e := s.events[look.related.value[i]];
               e.kind.Message? && e.file == Some(f) && e.group == v.eventID {
      assert related[i] == Related(Some(f), v.eventID);
    }
  }

  /** With no files waiting, a text is found unchanged only when there are no files at all. */
  lemma UnchangedIff(c: Config, s: State, v: Version, look: Look)
    requires v.eventID.Some? && Possible(s, v, look) && look.pending == [] && c.toMatrix(v.message).body != ""
    requires look.related.Some? ==> Addressed(s, v, look)
    ensures Unchanged(s, c, v, look)
       <==> look.fetched && CurrentText(s, c, v.eventID.value) == c.toMatrix(v.message) && NoFiles(s, v, look)
  {
    if look.fetched {
      AttachmentsNeverMatch(CurrentText(s, c, v.eventID.value),
        if look.related.Some? then Some(RelatedEvents(s, look.related.value)) else None,
        v.eventID.value, c.toMatrix(v.message), v.files, look.unreadable);
    }
    hide CurrentText, RelatedEvents, Readable, FilesOf, Identical;
  }

  /**
    The update that records the event ID of a local user's text post: with no files waiting it can be mirrored back
    exactly when the tracker did not remember it and not all of this holds: the event is fetched and its files are
    looked up, neither post nor event has any, and Matrix shows no later edit of a different text.
  */
  lemma BookkeepingEchoesIff(c: Config, steps: seq<Step>, d: int, out: Outcome) returns (j: int)
    requires var s := Run(c, steps);
             && 0 <= d < |s.deliveries| && s.deliveries[d].open && ValidDelivery(s, s.deliveries[d]) && out.Sent?
             && var a := s.actions[s.deliveries[d].action];
                && a.source.Bookkeeping? && a.Updated? && a.version.eventID.Some?
                && c.domain != "" && Author(s, a) !in s.remoteUsers && c.toMatrix(a.version.message).body != ""
                && Possible(s, a.version, out.look) && out.look.pending == []
                && (out.look.related.Some? ==> Addressed(s, a.version, out.look))
    ensures var s := Run(c, steps);
            var a := s.actions[s.deliveries[d].action];
            && 0 <= j < |steps| && steps[j] == Deliver(s.deliveries[d].action, s.deliveries[d].hook)
            && 0 <= a.version.eventID.value < |s.events|
            && var edited := LastEdit(s.events, a.version.eventID.value, s.events[a.version.eventID.value].sender);
               Enabled(c, s, ToMatrix(d, out))
               <==> && !Remembered(c, steps[..j], a.post, a.updateAt)
                    && !(&& out.look.fetched && NoFiles(s, a.version, out.look)
                         && (c.latest && edited.Some? ==> edited.value == c.toMatrix(a.version.message)))
  {
    RunSound(c, steps);
    j := EchoesIff(c, steps, d, out);
    var s := Run(c, steps);
    hide Run, Remembered, Unchanged, Enabled;
    var a := s.actions[s.deliveries[d].action];
    assert Attributed(s, c, a);
    UnchangedIff(c, s, a.version, out.look);
    hide NoFiles, Possible, Addressed, LastEdit;
  }

  // ---------- runs ----------

  const NO_LOOK: Look := Look([], {}, false, None)

  /**
    A local user's post has been sent, with those files that could be; its event ID is recorded, and the timestamp of
    that update is to be stored.
  */
  function Posted(u: string, message: string, files: seq<File>, sent: seq<File>): seq<Step> {
    [AddUser(u, false), UserPosts(u, message, files), Deliver(0, MessageHasBeenPosted),
     ToMatrix(0, Sent(NO_LOOK, sent, false, true))]
  }

  /** What such a run leaves. */
  predicate IsPosted(c: Config, s: State, u: string, message: string, files: seq<File>, sent: seq<File>) {
    && |s.events| == 1 + |sent|
    && s.events[0] == Event(GhostUserID(u, c.domain), Message, c.toMatrix(message), None, Some(0), true, None, Some(0))
    && (forall i :: 1 <= i < |s.events| ==> s.events[i].file == Some(sent[i - 1]) && s.events[i].kind == Message)
    && s.posts == [Post(u, false, Version(message, files, Some(0)))]
    && |s.actions| == 2 && s.actions[1] == Updated(0, Version(message, files, Some(0)), 0, Bookkeeping)
    && s.remoteUsers == {} && s.eventPost == map[] && s.now == 0
    && |s.deliveries| == 1 && s.tracker == Tracker.Empty() && s.untracked == {1}
  }

  lemma PostedState(c: Config, u: string, message: string, files: seq<File>, sent: seq<File>)
    requires c.domain != "" && u != "" && HasText(c.toMatrix(message))
    ensures IsPosted(c, Run(c, Posted(u, message, files, sent)), u, message, files, sent)
  {
    var all := Posted(u, message, files, sent);
    RunNext(c, [], all[0]);
    RunNext(c, all[..1], all[1]);
    RunNext(c, all[..2], all[2]);
    RunNext(c, all[..3], all[3]);
    assert [] + [all[0]] == all[..1] && all[..1] + [all[1]] == all[..2] && all[..2] + [all[2]] == all[..3];
    assert all[..3] + [all[3]] == all;
    hide Run, Next, Posted, IsPosted;
    PostMade(c, Run(c, []), u, message, files);
    PostSent(c, Run(c, all[..3]), u, message, files, sent);
  }

  lemma PostMade(c: Config, s: State, u: string, message: string, files: seq<File>)
    requires s == Run(c, []) && u != ""
    ensures var s1 := Next(c, Next(c, s, AddUser(u, false)), UserPosts(u, message, files));
            Next(c, s1, Deliver(0, MessageHasBeenPosted))
            == EMPTY.(users := {u}, posts := [Post(u, false, Version(message, files, None))],
                   actions := [Created(0, Version(message, files, None), 0, ByUser)],
                   deliveries := [Delivery(0, MessageHasBeenPosted, None, true)])
  {
    assert {} + {u} == {u} && {} + (if false then {u} else {}) == {};
  }

  lemma PartsOf(c: Config, message: string, files: seq<File>)
    requires HasText(c.toMatrix(message))
    ensures var parts := Parts(c, message, files);
            && |parts| == 1 + |files| && parts[0] == Part(c.toMatrix(message), None)
            && forall i :: 1 <= i < |parts| ==> parts[i] == Part(Text(files[i - 1].name, ""), Some(files[i - 1]))
  {
    hide HasText;
  }

  /** The events of a new post are its parts, in order. */
  lemma PartWritten(c: Config, s: State, d: Delivery, out: Outcome, i: int)
    requires ValidDelivery(s, d) && out.Sent? && MayWrite(s, c, d, out)
    requires var a := s.actions[d.action];
             && !a.Reacted? && a.version.eventID.None? && 0 <= i < |Parts(c, a.version.message, out.files)|
    ensures var w, a := Written(s, c, d, out), s.actions[d.action];
            var parts := Parts(c, a.version.message, out.files);
            && |w| == |parts|
            && w[i] == Event(GhostUserID(Author(s, a), c.domain), Message, parts[i].text, parts[i].file, Some(a.post),
                             true, if i == 0 || out.threaded then None else Some(|s.events|), Some(d.action))
  {
    hide GhostUserID, MayWrite, Author, Parts;
    var parts := Parts(c, s.actions[d.action].version.message, out.files);
    assert |Written(s, c, d, out)| == |parts|;
    var group := if i == 0 || out.threaded then None else Some(|s.events|);
    assert Written(s, c, d, out)[i] == Mirrored(s, c, d.action, Message, parts[i], group);
    hide Written;
  }

  /** A new post with text is its text and then its files. */
  lemma PostWritten(c: Config, s: State, d: Delivery, out: Outcome)
    requires ValidDelivery(s, d) && out.Sent? && MayWrite(s, c, d, out)
    requires var a := s.actions[d.action];
             !a.Reacted? && a.version.eventID.None? && HasText(c.toMatrix(a.version.message))
    ensures var w, a := Written(s, c, d, out), s.actions[d.action];
            && |w| == 1 + |out.files|
            && w[0] == Event(GhostUserID(Author(s, a), c.domain), Message, c.toMatrix(a.version.message), None,
                             Some(a.post), true, None, Some(d.action))
            && forall i :: 1 <= i < |w| ==> w[i].file == Some(out.files[i - 1]) && w[i].kind == Message
  {
    hide GhostUserID, MayWrite, Author, Parts, Written, HasText;
    PartsOf(c, s.actions[d.action].version.message, out.files);
    PartWritten(c, s, d, out, 0);
    var w, files := Written(s, c, d, out), out.files;
    forall i | 1 <= i < |w| ensures w[i].file == Some(files[i - 1]) && w[i].kind == Message {
      PartWritten(c, s, d, out, i);
    }
  }

  /** What a delivery that asked the tracker in vain leaves besides. */
  lemma KeepsRest(c: Config, s: State, i: int, out: Outcome)
    requires Enabled(c, s, ToMatrix(i, out)) && s.deliveries[i].remembered.None?
    ensures var s' := Do(c, s, ToMatrix(i, out));
            && s'.now == s.now && s'.eventPost == s.eventPost && s'.tracker == s.tracker
            && s'.untracked == s.untracked + if Records(s, s.deliveries[i], out) then {|s.actions|} else {}
  {
    hide IsGhostUser, Written, HookPasses, Author, MayWrite, Tracker.Do;
  }

  lemma PostSent(c: Config, s: State, u: string, message: string, files: seq<File>, sent: seq<File>)
    requires c.domain != "" && u != "" && HasText(c.toMatrix(message))
    requires s == EMPTY.(users := {u}, posts := [Post(u, false, Version(message, files, None))],
                         actions := [Created(0, Version(message, files, None), 0, ByUser)],
                         deliveries := [Delivery(0, MessageHasBeenPosted, None, true)])
    ensures IsPosted(c, Next(c, s, ToMatrix(0, Sent(NO_LOOK, sent, false, true))), u, message, files, sent)
  {
    hide GhostUserID, Tracker.Do, Tracker.Known, Unchanged, Possible, Written, Parts, LastEdit;
    var out := Sent(NO_LOOK, sent, false, true);
    assert MayWrite(s, c, s.deliveries[0], out);
    PostWritten(c, s, s.deliveries[0], out);
    hide MayWrite, HasText;
    DeliveredShape(s, c, 0, out);
    KeepsRest(c, s, 0, out);
    hide Do;
  }

  /** Delivery d of the bookkeeping update, after whatever has not touched posts and room. */
  predicate Redelivered(s: State, s': State, d: int, remembered: Option<int>) {
    && s'.events == s.events && s'.posts == s.posts && s'.actions == s.actions && s'.remoteUsers == s.remoteUsers
    && 0 <= d < |s'.deliveries| && s'.deliveries[d].open && s'.deliveries[d].action == 1
    && s'.deliveries[d].remembered == remembered
  }

  /** An edit of an attachment's post is never found unchanged: it is written unless the tracker remembered it. */
  lemma OnlyTrackerStops(c: Config, s: State, s': State, d: int, remembered: Option<int>, look: Look,
                         u: string, message: string, files: seq<File>, sent: seq<File>)
    requires IsPosted(c, s, u, message, files, sent) && Redelivered(s, s', d, remembered)
    requires c.domain != "" && c.toMatrix(message).body != "" && files != [] && Answers(look, sent)
    ensures Enabled(c, s', ToMatrix(d, Sent(look, [], false, true))) <==> remembered != Some(0)
  {
    var v := Version(message, files, Some(0));
    assert s'.actions[1].version == v && Possible(s', v, look);
    AllReadable(files, look.unreadable);
    if look.related.Some? { RoomAddressed(c, s', v, look, sent); }
    UnchangedIff(c, s', v, look);
    hide Addressed, Unchanged, CurrentText, Readable, Identical;
  }

  /** Any answers of a homeserver, about the events of the room; nothing is waiting and every attachment can be read. */
  predicate Answers(look: Look, sent: seq<File>) {
    && look.pending == [] && look.unreadable == {}
    && (look.related.Some? ==> forall i :: 0 <= i < |look.related.value| ==> 0 <= look.related.value[i] <= |sent|)
    && forall i :: 0 <= i < |sent| ==> sent[i].uri != ""
  }

  lemma RoomAddressed(c: Config, s: State, v: Version, look: Look, sent: seq<File>)
    requires v.eventID == Some(0) && Possible(s, v, look) && look.related.Some? && Answers(look, sent)
    requires |s.events| == 1 + |sent| && s.events[0].file.None?
    requires forall i :: 1 <= i < |s.events| ==> s.events[i].file == Some(sent[i - 1])
    ensures Addressed(s, v, look)
  {
    var related := RelatedEvents(s, look.related.value);
    forall f | Related(Some(f), v.eventID) in related ensures f.uri != "" {
      var i :| 0 <= i < |related| && related[i] == Related(Some(f), v.eventID);
      var e := look.related.value[i];
      assert s.events[e].file == Some(f);
      assert e != 0 && s.events[e].file == Some(sent[e - 1]);
    }
  }

  /**
    The bookkeeping update of a text post with attachments, whatever the homeserver answers: it echoes when a hook
    overtakes postTracker.Put or the tracker takes nothing, not once it is stored, and again when the other hook
    delivers it a second time; two deliveries that overlap are both dropped.
  */
  lemma BookkeepingEchoes(c: Config, u: string, message: string, files: seq<File>, sent: seq<File>, look: Look)
    requires c.domain != "" && u != "" && c.toMatrix(message).body != "" && files != [] && Answers(look, sent)
    ensures var posted := Posted(u, message, files, sent);
            var stored := posted + [Track(1, 0)] + [Deliver(1, MessageHasBeenUpdated)];
            var overtaken := Run(c, posted + [Deliver(1, MessageHasBeenUpdated)]);
            var again := Run(c, stored + [ToMatrix(1, Nothing)] + [Deliver(1, OnSharedChannelsSyncMsg)]);
            var overlapping := Run(c, stored + [Deliver(1, OnSharedChannelsSyncMsg)] + [ToMatrix(1, Nothing)]);
            && Enabled(c, overtaken, ToMatrix(1, Sent(look, [], false, true)))
            && (Enabled(c, Run(c, stored), ToMatrix(1, Sent(look, [], false, true))) <==> c.maxTracked <= 0)
            && Enabled(c, again, ToMatrix(2, Sent(look, [], false, true)))
            && (Enabled(c, overlapping, ToMatrix(2, Sent(look, [], false, true))) <==> c.maxTracked <= 0)
  {
    var posted := Posted(u, message, files, sent);
    var tracked := posted + [Track(1, 0)];
    var stored := tracked + [Deliver(1, MessageHasBeenUpdated)];
    PostedState(c, u, message, files, sent);
    RunNext(c, posted, Deliver(1, MessageHasBeenUpdated));
    RunNext(c, posted, Track(1, 0));
    RunNext(c, tracked, Deliver(1, MessageHasBeenUpdated));
    RunNext(c, stored, ToMatrix(1, Nothing));
    RunNext(c, stored + [ToMatrix(1, Nothing)], Deliver(1, OnSharedChannelsSyncMsg));
    RunNext(c, stored, Deliver(1, OnSharedChannelsSyncMsg));
    RunNext(c, stored + [Deliver(1, OnSharedChannelsSyncMsg)], ToMatrix(1, Nothing));
    hide Run, Next, Enabled, Posted, IsPosted, Answers, Redelivered;
    var s := Run(c, posted);
    var taken := if c.maxTracked <= 0 then None else Some(0);
    FourDeliveries(c, s, u, message, files, sent);
    OnlyTrackerStops(c, s, Run(c, posted + [Deliver(1, MessageHasBeenUpdated)]), 1, None, look, u, message, files,
                     sent);
    OnlyTrackerStops(c, s, Run(c, stored), 1, taken, look, u, message, files, sent);
    OnlyTrackerStops(c, s, Run(c, stored + [ToMatrix(1, Nothing)] + [Deliver(1, OnSharedChannelsSyncMsg)]),
                     2, None, look, u, message, files, sent);
    OnlyTrackerStops(c, s, Run(c, stored + [Deliver(1, OnSharedChannelsSyncMsg)] + [ToMatrix(1, Nothing)]),
                     2, taken, look, u, message, files, sent);
  }

  predicate SameContent(s: State, s': State) {
    s'.events == s.events && s'.posts == s.posts && s'.actions == s.actions && s'.remoteUsers == s.remoteUsers
  }

  /** Another hook delivers the bookkeeping update. */
  lemma AskAgain(c: Config, s: State, s1: State, hook: Hook, u: string, message: string, files: seq<File>,
                 sent: seq<File>)
    requires IsPosted(c, s, u, message, files, sent) && SameContent(s, s1)
    requires hook.MessageHasBeenUpdated? || hook.OnSharedChannelsSyncMsg?
    ensures var s2 := Next(c, s1, Deliver(1, hook));
            && Redelivered(s, s2, |s1.deliveries|, Tracker.Known(s1.tracker.entries, 0))
            && s2.tracker == s1.tracker && |s2.deliveries| == |s1.deliveries| + 1 && s1.deliveries <= s2.deliveries
            && SameContent(s, s2)
  {
    hide GhostUserID, Tracker.Known;
  }

  /** A delivery writes nothing. */
  lemma Dropped(c: Config, s: State, s1: State, d: int, remembered: Option<int>, u: string, message: string,
                files: seq<File>, sent: seq<File>)
    requires IsPosted(c, s, u, message, files, sent) && Redelivered(s, s1, d, remembered)
    ensures var s2 := Next(c, s1, ToMatrix(d, Nothing));
            && SameContent(s, s2) && |s2.deliveries| == |s1.deliveries|
            && (forall k :: 0 <= k < |s1.deliveries| && k != d ==> s2.deliveries[k] == s1.deliveries[k])
            && (remembered.Some? ==> Tracker.Known(s2.tracker.entries, 0) == None)
            && (remembered.None? ==> s2.tracker == s1.tracker)
  {
    hide GhostUserID, MayWrite, Written;
  }

  lemma Stored(c: Config, s: State, u: string, message: string, files: seq<File>, sent: seq<File>)
    requires IsPosted(c, s, u, message, files, sent)
    ensures var s1 := Next(c, s, Track(1, 0));
            && SameContent(s, s1) && s1.deliveries == s.deliveries
            && Tracker.Known(s1.tracker.entries, 0) == if c.maxTracked <= 0 then None else Some(0)
  {
    hide GhostUserID;
    assert Enabled(c, s, Track(1, 0));
    Tracker.FirstPut(c.maxTracked, 0, 0, 0, 0);
    hide Tracker.Do, Tracker.Known;
  }

  lemma FourDeliveries(c: Config, s: State, u: string, message: string, files: seq<File>, sent: seq<File>)
    requires IsPosted(c, s, u, message, files, sent)
    ensures var taken := if c.maxTracked <= 0 then None else Some(0);
            var once := Next(c, Next(c, s, Track(1, 0)), Deliver(1, MessageHasBeenUpdated));
            && Redelivered(s, Next(c, s, Deliver(1, MessageHasBeenUpdated)), 1, None)
            && Redelivered(s, once, 1, taken)
            && Redelivered(s, Next(c, Next(c, once, ToMatrix(1, Nothing)), Deliver(1, OnSharedChannelsSyncMsg)),
                           2, None)
            && Redelivered(s, Next(c, Next(c, once, Deliver(1, OnSharedChannelsSyncMsg)), ToMatrix(1, Nothing)),
                           2, taken)
  {
    assert |s.deliveries| == 1 && Tracker.Known(s.tracker.entries, 0) == None;
    hide Next, IsPosted, Tracker.Known;
    var taken := if c.maxTracked <= 0 then None else Some(0);
    var t := Next(c, s, Track(1, 0));
    var once := Next(c, t, Deliver(1, MessageHasBeenUpdated));
    var twice := Next(c, once, Deliver(1, OnSharedChannelsSyncMsg));
    Stored(c, s, u, message, files, sent);
    AskAgain(c, s, s, MessageHasBeenUpdated, u, message, files, sent);
    AskAgain(c, s, t, MessageHasBeenUpdated, u, message, files, sent);
    Dropped(c, s, once, 1, taken, u, message, files, sent);
    AskAgain(c, s, Next(c, once, ToMatrix(1, Nothing)), OnSharedChannelsSyncMsg, u, message, files, sent);
    AskAgain(c, s, once, OnSharedChannelsSyncMsg, u, message, files, sent);
    Dropped(c, s, twice, 1, taken, u, message, files, sent);
  }

  /** A text post without attachments is not echoed while the homeserver answers and shows no other edit. */
  lemma TextOnlyIsSkipped(c: Config, u: string, message: string, look: Look)
    requires c.domain != "" && u != "" && c.toMatrix(message).body != ""
    requires look.pending == [] && look.fetched && look.related == Some([])
    ensures var overtaken := Run(c, Posted(u, message, [], []) + [Deliver(1, MessageHasBeenUpdated)]);
            !Enabled(c, overtaken, ToMatrix(1, Sent(look, [], false, true)))
  {
    PostedState(c, u, message, [], []);
    RunNext(c, Posted(u, message, [], []), Deliver(1, MessageHasBeenUpdated));
    hide Run, Next, Posted, Enabled, IsPosted, Redelivered;
    var s := Run(c, Posted(u, message, [], []));
    FourDeliveries(c, s, u, message, [], []);
    TextSkipped(c, s, Next(c, s, Deliver(1, MessageHasBeenUpdated)), u, message, look);
  }

  lemma TextSkipped(c: Config, s: State, s': State, u: string, message: string, look: Look)
    requires IsPosted(c, s, u, message, [], []) && Redelivered(s, s', 1, None) && c.toMatrix(message).body != ""
    requires look.pending == [] && look.fetched && look.related == Some([])
    ensures !Enabled(c, s', ToMatrix(1, Sent(look, [], false, true)))
  {
    var v := Version(message, [], Some(0));
    assert s'.actions[1].version == v && Possible(s', v, look);
    assert LastEdit(s'.events, 0, s'.events[0].sender).None? by { assert s'.events[..0] == []; }
    UnchangedIff(c, s', v, look);
    hide Unchanged, GhostUserID, Identical;
  }

  /** A Matrix user's edit of a local user's post comes back to Matrix as that user's own edit, if its text differs. */
  lemma ForeignEditEchoes(c: Config, u: string, message: string, text: Text, look: Look)
    requires c.domain != "" && u != "" && HasText(c.toMatrix(message))
    requires c.toMatrix(Converted(c, text)) != c.toMatrix(message)
    requires look.pending == []
    requires look.related.Some? ==> forall i :: 0 <= i < |look.related.value| ==> 0 <= look.related.value[i] <= 1
    ensures var bob := Event("@bob:" + c.domain, Edit(0), text, None, None, false, None, None);
            var accepted := Posted(u, message, [], []) + [UserSends(bob)] + [FromMatrix(1, "")];
            var s := Run(c, accepted + [Deliver(2, MessageHasBeenUpdated)]
                         + [ToMatrix(1, Sent(look, [], false, true))]);
            && |s.events| == 3 && |s.actions| == 3
            && s.actions[2] == Updated(0, Version(Converted(c, text), [], Some(0)), 0, ByBridge(1))
            && s.events[1] == bob
            && s.events[2] == Event(GhostUserID(u, c.domain), Edit(0), c.toMatrix(Converted(c, text)), None, None,
                                    false, None, Some(2))
  {
    var bob := Event("@bob:" + c.domain, Edit(0), text, None, None, false, None, None);
    assert PREFIX[1] == '_' && bob.sender[1] == 'b';
    var posted := Posted(u, message, [], []);
    PostedState(c, u, message, [], []);
    RunNext(c, posted, UserSends(bob));
    RunNext(c, posted + [UserSends(bob)], FromMatrix(1, ""));
    RunNext(c, posted + [UserSends(bob)] + [FromMatrix(1, "")], Deliver(2, MessageHasBeenUpdated));
    RunNext(c, posted + [UserSends(bob)] + [FromMatrix(1, "")] + [Deliver(2, MessageHasBeenUpdated)],
            ToMatrix(1, Sent(look, [], false, true)));
    assert !IsGhostUser(bob.sender, c.domain);
    hide Run, Next, Posted, IsPosted, IsGhostUser, GhostUserID, HasText;
    EditEchoed(c, Run(c, posted), u, message, bob, look);
  }

  lemma EditEchoed(c: Config, s: State, u: string, message: string, e: Event, look: Look)
    requires c.domain != "" && IsPosted(c, s, u, message, [], [])
    requires !IsGhostUser(e.sender, c.domain) && e == Event(e.sender, Edit(0), e.text, None, None, false, None, None)
    requires c.toMatrix(Converted(c, e.text)) != c.toMatrix(message) && look.pending == []
    requires look.related.Some? ==> forall i :: 0 <= i < |look.related.value| ==> 0 <= look.related.value[i] <= 1
    ensures var s1 := Next(c, Next(c, s, UserSends(e)), FromMatrix(1, ""));
            var s2 := Next(c, Next(c, s1, Deliver(2, MessageHasBeenUpdated)), ToMatrix(1, Sent(look, [], false, true)));
            && |s2.events| == 3 && |s2.actions| == 3
            && s2.actions[2] == Updated(0, Version(Converted(c, e.text), [], Some(0)), 0, ByBridge(1))
            && s2.events[1] == e
            && s2.events[2] == Event(GhostUserID(u, c.domain), Edit(0), c.toMatrix(Converted(c, e.text)), None, None,
                                     false, None, Some(2))
  {
    GhostIsRecognised(u, c.domain);
    hide Next, IsGhostUser, GhostUserID;
    EditAccepted(c, s, u, message, e);
    EditMirrored(c, Next(c, Next(c, s, UserSends(e)), FromMatrix(1, "")), u, message, e, look);
  }

  lemma EditAccepted(c: Config, s: State, u: string, message: string, e: Event)
    requires IsPosted(c, s, u, message, [], [])
    requires !IsGhostUser(e.sender, c.domain) && e.kind == Edit(0) && e.postID.None? && !e.ownRemote && e.source.None?
    ensures var v := Version(Converted(c, e.text), [], Some(0));
            Next(c, Next(c, s, UserSends(e)), FromMatrix(1, ""))
            == s.(events := s.events + [e], posts := [Post(u, false, v)],
                  actions := s.actions + [Updated(0, v, 0, ByBridge(1))])
  {
    var s1 := Next(c, s, UserSends(e));
    assert s1.events == s.events + [e];
    assert s1.events[1] == e && PostOf(s1, 0) == Some(0);
  }

  lemma EditMirrored(c: Config, s: State, u: string, message: string, e: Event, look: Look)
    requires c.domain != "" && c.toMatrix(Converted(c, e.text)) != c.toMatrix(message) && look.pending == []
    requires |s.events| == 2 && s.events[0].text == c.toMatrix(message) && s.events[0].kind == Message
    requires s.events[1] == e && e.kind == Edit(0) && s.events[0].sender != e.sender
    requires s.posts == [Post(u, false, Version(Converted(c, e.text), [], Some(0)))] && u !in s.remoteUsers
    requires |s.actions| == 3 && s.actions[2] == Updated(0, s.posts[0].version, 0, ByBridge(1))
    requires |s.deliveries| == 1 && s.tracker == Tracker.Empty()
    requires look.related.Some? ==> forall i :: 0 <= i < |look.related.value| ==> 0 <= look.related.value[i] <= 1
    ensures var s' := Next(c, Next(c, s, Deliver(2, MessageHasBeenUpdated)), ToMatrix(1, Sent(look, [], false, true)));
            && s'.actions == s.actions
            && s'.events == s.events
               + [Event(GhostUserID(u, c.domain), Edit(0), c.toMatrix(Converted(c, e.text)), None, None, false, None,
                        Some(2))]
  {
    var s1 := Next(c, s, Deliver(2, MessageHasBeenUpdated));
    var v := s.posts[0].version;
    assert s1.events == s.events && s1.actions == s.actions && s1.posts == s.posts && Possible(s1, v, look);
    NotEdited(s1.events, e);
    assert CurrentText(s1, c, 0) == c.toMatrix(message);
    assert !Unchanged(s1, c, v, look) by { hide GhostUserID, LastEdit; }
    var out := Sent(look, [], false, true);
    assert MayWrite(s1, c, s1.deliveries[1], out);
    hide GhostUserID, Unchanged, MayWrite;
    DeliveredShape(s1, c, 1, out);
  }

  lemma NotEdited(events: seq<Event>, e: Event)
    requires |events| == 2 && events[1] == e && events[0].kind == Message && events[0].sender != e.sender
    ensures LastEdit(events, 0, events[0].sender).None?
  {
    assert events[..1][0] == events[0] && LastEdit(events[..1][..0], 0, events[0].sender).None?;
  }

  /** A user's edit made before the event ID is recorded is undone on Mattermost by the update that records it. */
  lemma RecordingUndoesEdit(c: Config, u: string, first: string, second: string)
    requires c.domain != "" && u != "" && HasText(c.toMatrix(first))
    ensures var edited := [AddUser(u, false), UserPosts(u, first, []), Deliver(0, MessageHasBeenPosted),
                           UserEdits(0, second, [])];
            && Run(c, edited).posts == [Post(u, false, Version(second, [], None))]
            && Run(c, edited + [ToMatrix(0, Sent(NO_LOOK, [], false, true))]).posts
               == [Post(u, false, Version(first, [], Some(0)))]
  {
    var steps := [AddUser(u, false), UserPosts(u, first, []), Deliver(0, MessageHasBeenPosted)];
    var edited := [AddUser(u, false), UserPosts(u, first, []), Deliver(0, MessageHasBeenPosted),
                   UserEdits(0, second, [])];
    RunNext(c, [], steps[0]);
    RunNext(c, steps[..1], steps[1]);
    RunNext(c, steps[..2], steps[2]);
    RunNext(c, steps, UserEdits(0, second, []));
    RunNext(c, edited, ToMatrix(0, Sent(NO_LOOK, [], false, true)));
    assert [] + [steps[0]] == steps[..1] && steps[..1] + [steps[1]] == steps[..2] && steps[..2] + [steps[2]] == steps;
    assert steps + [UserEdits(0, second, [])] == edited;
    hide Run, Next;
    PostMade(c, Run(c, []), u, first, []);
    EditUndone(c, Run(c, steps), u, first, second);
  }

  lemma EditUndone(c: Config, s: State, u: string, first: string, second: string)
    requires c.domain != "" && HasText(c.toMatrix(first)) && u !in s.remoteUsers
    requires s.posts == [Post(u, false, Version(first, [], None))] && s.events == []
    requires s.actions == [Created(0, Version(first, [], None), 0, ByUser)]
    requires s.deliveries == [Delivery(0, MessageHasBeenPosted, None, true)]
    ensures var s1 := Next(c, s, UserEdits(0, second, []));
            var s2 := Next(c, s1, ToMatrix(0, Sent(NO_LOOK, [], false, true)));
            && s1.posts == [Post(u, false, Version(second, [], None))]
            && s2.posts == [Post(u, false, Version(first, [], Some(0)))]
  {
    hide GhostUserID, Unchanged, Possible, Tracker.Do, Tracker.Known, LastEdit;
    var s1, out := Next(c, s, UserEdits(0, second, [])), Sent(NO_LOOK, [], false, true);
    assert s1.deliveries == s.deliveries && s1.actions[0] == s.actions[0] && s1.remoteUsers == s.remoteUsers;
    assert MayWrite(s1, c, s1.deliveries[0], out);
    hide MayWrite, Written;
    DeliveredShape(s1, c, 0, out);
  }
}
