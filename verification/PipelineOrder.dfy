/** Order, timers and shutdown of the batcher and the event queue (server/batcher.go, server/queue.go). */
module PipelineOrder {
  import opened Prelude
  import opened Pipeline

  // ---------- per-post order through the batcher ----------

  function AddsFor(steps: seq<Step>, key: string): seq<Work> {
    if steps == [] then []
    else (if steps[0].Add? && steps[0].work.key == key then [steps[0].work] else []) + AddsFor(steps[1..], key)
  }

  /** The batch that a step takes out of the batcher, if any. */
  function TakenBy(s: State, step: Step): seq<Task> {
    match step
    case Callback(t) => if t in s.batches.fired then Batch(s.batches, s.batches.fired[t]) else []
    case Flush(key) => Batch(s.batches, key)
    case _ => []
  }

  function Takes(c: Config, s: State, steps: seq<Step>): seq<Task>
    requires Allowed(c, s, steps)
    decreases |steps|
  {
    if steps == [] then [] else TakenBy(s, steps[0]) + Takes(c, Do(c, s, steps[0]), steps[1..])
  }

  function UnitsFor(tasks: seq<Task>, key: string): seq<Work> {
    if tasks == [] then [] else (if tasks[0].key == key then tasks[0].units else []) + UnitsFor(tasks[1..], key)
  }

  lemma {:induction false} UnitsForAppend(a: seq<Task>, b: seq<Task>, key: string)
    ensures UnitsFor(a + b, key) == UnitsFor(a, key) + UnitsFor(b, key)
  {
    if a == [] {
      assert a + b == b;
    } else {
      assert (a + b)[1..] == a[1..] + b;
      UnitsForAppend(a[1..], b, key);
    }
  }

  lemma UnitsForOne(t: Task, key: string)
    ensures UnitsFor([t], key) == if t.key == key then t.units else []
    ensures UnitsFor([], key) == []
  {
    assert [t][1..] == [];
  }

  lemma BatchFor(b: Batches, flushed: string, key: string)
    ensures UnitsFor(Batch(b, flushed), key) == if flushed == key then Pending(b, key) else []
    ensures Pending(Flushed(b, flushed), key) == if flushed == key then [] else Pending(b, key)
  {
    UnitsForOne(Task(flushed, Pending(b, flushed)), key);
  }

  lemma AddOrder(c: Config, s: State, step: Step, key: string)
    requires Enabled(c, s, step) && step.Add?
    ensures Pending(s.batches, key) + AddsFor([step], key)
         == UnitsFor(TakenBy(s, step), key) + Pending(Do(c, s, step).batches, key)
  {
    assert [step][1..] == [];
    UnitsForOne(Task("", []), key);
  }

  lemma TakeOrder(c: Config, s: State, step: Step, key: string)
    requires Enabled(c, s, step) && (step.Callback? || step.Flush?)
    ensures Pending(s.batches, key) + AddsFor([step], key)
         == UnitsFor(TakenBy(s, step), key) + Pending(Do(c, s, step).batches, key)
  {
    hide Flushed, Batch;
    assert [step][1..] == [];
    BatchFor(s.batches, if step.Flush? then step.key else s.batches.fired[step.timer], key);
  }

  lemma OtherOrder(c: Config, s: State, step: Step, key: string)
    requires Enabled(c, s, step) && !step.Callback? && !step.Flush? && !step.Add?
    ensures Pending(s.batches, key) + AddsFor([step], key)
         == UnitsFor(TakenBy(s, step), key) + Pending(Do(c, s, step).batches, key)
  {
    assert [step][1..] == [];
    UnitsForOne(Task("", []), key);
    hide Shortened, Rested, Without;
  }

  lemma StepOrder(c: Config, s: State, step: Step, key: string)
    requires Enabled(c, s, step)
    ensures Pending(s.batches, key) + AddsFor([step], key)
         == UnitsFor(TakenBy(s, step), key) + Pending(Do(c, s, step).batches, key)
  {
    hide Enabled, Do, Pending, TakenBy, UnitsFor, AddsFor;
    match step
    case Callback(_) => TakeOrder(c, s, step, key);
    case Flush(_) => TakeOrder(c, s, step, key);
    case Add(_) => AddOrder(c, s, step, key);
    case _ => OtherOrder(c, s, step, key);
  }

  lemma AddsForStep(steps: seq<Step>, key: string)
    requires steps != []
    ensures AddsFor(steps, key) == AddsFor([steps[0]], key) + AddsFor(steps[1..], key)
  {
    assert [steps[0]][1..] == [];
  }

  /** What was pending for a post and what is added to it leaves in that order, batch after batch. */
  lemma {:induction false} OrderFrom(c: Config, s: State, steps: seq<Step>, key: string)
    requires Allowed(c, s, steps)
    ensures Pending(s.batches, key) + AddsFor(steps, key)
         == UnitsFor(Takes(c, s, steps), key) + Pending(Run(c, s, steps).batches, key)
    decreases |steps|
  {
    hide Enabled, Do, Pending, TakenBy;
    if steps == [] {
      assert UnitsFor(Takes(c, s, steps), key) == [];
      assert AddsFor(steps, key) == [];
    } else {
      var s1 := Do(c, s, steps[0]);
      StepOrder(c, s, steps[0], key);
      OrderFrom(c, s1, steps[1..], key);
      AddsForStep(steps, key);
      UnitsForAppend(TakenBy(s, steps[0]), Takes(c, s1, steps[1..]), key);
      Chained(Pending(s.batches, key), AddsFor([steps[0]], key), AddsFor(steps[1..], key),
                 UnitsFor(TakenBy(s, steps[0]), key), Pending(s1.batches, key),
                 UnitsFor(Takes(c, s1, steps[1..]), key), Pending(Run(c, s, steps).batches, key));
    }
  }

  /** Per post, the batches in the order taken followed by what is pending are the additions in order. */
  lemma PostOrder(c: Config, steps: seq<Step>, key: string)
    requires Allowed(c, Init(c), steps)
    ensures AddsFor(steps, key)
         == UnitsFor(Takes(c, Init(c), steps), key) + Pending(Run(c, Init(c), steps).batches, key)
  {
    OrderFrom(c, Init(c), steps, key);
    assert Pending(NO_BATCHES, key) + AddsFor(steps, key) == AddsFor(steps, key);
  }

  /** FlushAll flushes each key of its snapshot, so whatever was pending then has been taken in the end. */
  lemma {:induction false} FlushAllTakesAll(c: Config, s: State, steps: seq<Step>, at: int, key: string)
    requires Allowed(c, s, steps) && 0 <= at < |steps| && steps[at] == Flush(key)
    ensures Pending(s.batches, key) <= UnitsFor(Takes(c, s, steps), key)
    decreases |steps|
  {
    var s1 := Do(c, s, steps[0]);
    UnitsForAppend(TakenBy(s, steps[0]), Takes(c, s1, steps[1..]), key);
    if at == 0 {
      BatchFor(s.batches, key, key);
    } else {
      FlushAllTakesAll(c, s1, steps[1..], at - 1, key);
      StepOrder(c, s, steps[0], key);
      hide Do, Pending, TakenBy, UnitsFor, AddsFor;
      PrefixSplit(Pending(s.batches, key), AddsFor([steps[0]], key), UnitsFor(TakenBy(s, steps[0]), key),
                  Pending(s1.batches, key), UnitsFor(Takes(c, s1, steps[1..]), key));
    }
  }

  lemma PrefixSplit(p: seq<Work>, a: seq<Work>, t: seq<Work>, q: seq<Work>, u: seq<Work>)
    requires p + a == t + q && q <= u
    ensures p <= t + u
  {
    assert t + q <= t + u;
    assert p <= p + a;
  }

  // ---------- timers ----------

  /** Exactly the pending posts have a timer, and it is armed or its callback is on the way. */
  ghost predicate Timed(b: Batches) {
    && b.items.Keys == b.timers.Keys
    && (forall k :: k in b.items ==> b.items[k] != [])
    && (forall k :: k in b.timers ==>
          && b.timers[k] < b.nextTimer
          && ((b.timers[k] in b.armed && b.armed[b.timers[k]] == k)
              || (b.timers[k] in b.fired && b.fired[b.timers[k]] == k)))
    && (forall t :: t in b.armed ==>
          t < b.nextTimer && t !in b.fired && b.armed[t] in b.timers && b.timers[b.armed[t]] == t)
    && (forall t :: t in b.fired ==> t < b.nextTimer)
  }

  lemma AddTimed(b: Batches, work: Work)
    requires Timed(b)
    ensures Timed(Added(b, work))
  {
  }

  lemma FlushTimed(b: Batches, key: string)
    requires Timed(b)
    ensures Timed(Flushed(b, key))
  {
  }

  lemma FireTimed(b: Batches, t: int)
    requires Timed(b) && t in b.armed
    ensures Timed(Fired(b, t))
  {
  }

  lemma CallbackTimed(b: Batches, t: int)
    requires Timed(b) && t in b.fired
    ensures Timed(CalledBack(Flushed(b, b.fired[t]), t))
  {
    var b1 := Flushed(b, b.fired[t]);
    FlushTimed(b, b.fired[t]);
    assert t !in b1.armed;
    assert forall k :: k in b1.timers ==> k != b.fired[t];
  }

  lemma StepTimed(c: Config, s: State, step: Step)
    requires Enabled(c, s, step) && Timed(s.batches)
    ensures Timed(Do(c, s, step).batches)
  {
    hide Timed, Flushed, Added, Fired, CalledBack;
    match step
    case Add(work) => AddTimed(s.batches, work);
    case Fire(t) => FireTimed(s.batches, t);
    case Callback(t) => CallbackTimed(s.batches, t);
    case Flush(key) => FlushTimed(s.batches, key);
    case _ =>
  }

  lemma {:induction false} RunTimed(c: Config, s: State, steps: seq<Step>)
    requires Allowed(c, s, steps) && Timed(s.batches)
    ensures Timed(Run(c, s, steps).batches)
    decreases |steps|
  {
    hide Timed, Do, Enabled;
    if steps != [] {
      StepTimed(c, s, steps[0]);
      RunTimed(c, Do(c, s, steps[0]), steps[1..]);
    }
  }

  /** The steps by which a pending post's own timer gets it flushed. */
  function Expiry(b: Batches, key: string): seq<Step>
    requires key in b.timers
  {
    if b.timers[key] in b.armed then [Fire(b.timers[key]), Callback(b.timers[key])] else [Callback(b.timers[key])]
  }

  /** No reachable state strands a pending post: its timer can expire and then takes exactly what is pending. */
  lemma NothingStranded(c: Config, steps: seq<Step>, key: string)
    requires Allowed(c, Init(c), steps)
    requires Pending(Run(c, Init(c), steps).batches, key) != []
    ensures var s := Run(c, Init(c), steps);
            && key in s.batches.timers
            && Allowed(c, s, Expiry(s.batches, key))
            && Run(c, s, Expiry(s.batches, key)).taken == s.taken + [Task(key, Pending(s.batches, key))]
            && Pending(Run(c, s, Expiry(s.batches, key)).batches, key) == []
  {
    var s := Run(c, Init(c), steps);
    RunTimed(c, Init(c), steps);
    assert Timed(s.batches) && key in s.batches.timers;
    var t := s.batches.timers[key];
    hide Run, Allowed, Timed;
    if t in s.batches.armed {
      var s1 := Do(c, s, Fire(t));
      RunOne(c, s1, Callback(t));
      RunFirst(c, s, Fire(t), [Callback(t)]);
    } else {
      RunOne(c, s, Callback(t));
    }
  }

  lemma RunOne(c: Config, s: State, step: Step)
    requires Enabled(c, s, step)
    ensures Allowed(c, s, [step]) && Run(c, s, [step]) == Do(c, s, step)
  {
    assert [step][1..] == [];
  }

  /** The step takes what is pending for the key. */
  predicate Empties(s: State, step: Step, key: string) {
    match step
    case Flush(k) => k == key
    case Callback(t) => t in s.batches.fired && s.batches.fired[t] == key
    case _ => false
  }

  predicate NeverEmpties(c: Config, s: State, steps: seq<Step>, key: string)
    requires Allowed(c, s, steps)
    decreases |steps|
  {
    steps == [] || (!Empties(s, steps[0], key) && NeverEmpties(c, Do(c, s, steps[0]), steps[1..], key))
  }

  /**
    A batch is never put off: until it is taken its timer is the one its first item armed, whatever is added later, and
    what is pending only grows behind what was.
  */
  lemma {:induction false} FirstTimerStays(c: Config, s: State, steps: seq<Step>, key: string)
    requires Allowed(c, s, steps) && NeverEmpties(c, s, steps, key) && key in s.batches.timers
    ensures var s' := Run(c, s, steps);
            && key in s'.batches.timers && s'.batches.timers[key] == s.batches.timers[key]
            && Pending(s.batches, key) <= Pending(s'.batches, key)
    decreases |steps|
  {
    if steps != [] {
      StepKeepsTimer(c, s, steps[0], key);
      hide Enabled, Do, Empties;
      FirstTimerStays(c, Do(c, s, steps[0]), steps[1..], key);
    }
  }

  /** The timer of the key, and the items pending for it before anything else. */
  predicate StillArmed(b: Batches, b': Batches, key: string) {
    key in b.timers && key in b'.timers && b'.timers[key] == b.timers[key] && Pending(b, key) <= Pending(b', key)
  }

  lemma AddKeepsTimer(b: Batches, work: Work, key: string)
    requires key in b.timers
    ensures StillArmed(b, Added(b, work), key)
  {
  }

  lemma OthersKeepTimer(b: Batches, k: string, t: int, key: string)
    requires key in b.timers
    ensures k != key ==> StillArmed(b, Flushed(b, k), key)
    ensures k != key ==> StillArmed(b, CalledBack(Flushed(b, k), t), key)
    ensures t in b.armed ==> StillArmed(b, Fired(b, t), key)
    ensures StillArmed(b, b, key)
  {
  }

  lemma StepKeepsTimer(c: Config, s: State, step: Step, key: string)
    requires Enabled(c, s, step) && !Empties(s, step, key) && key in s.batches.timers
    ensures StillArmed(s.batches, Do(c, s, step).batches, key)
  {
    hide Added, Flushed, CalledBack, Fired, StillArmed;
    match step
    case Add(work) => AddKeepsTimer(s.batches, work, key);
    case Flush(k) => OthersKeepTimer(s.batches, k, 0, key);
    case Callback(t) => OthersKeepTimer(s.batches, s.batches.fired[t], t, key);
    case Fire(t) => OthersKeepTimer(s.batches, "", t, key);
    case _ => OthersKeepTimer(s.batches, "", 0, key);
  }

  // ---------- the queue ----------

  /** What the queue accepts and what workers start, in order. */
  function AcceptedBy(s: State, step: Step): seq<Task> {
    if step.Deliver? && 0 <= step.at < |s.taken| && !step.outcome.Refused? then [s.taken[step.at]] else []
  }

  function StartedBy(s: State, step: Step): seq<Task> {
    match step
    case Deliver(i, outcome) => if 0 <= i < |s.taken| && outcome.Handed? then [s.taken[i]] else []
    case WorkerTakes(w) => if s.buffer != [] then [s.buffer[0]] else []
    case _ => []
  }

  function Accepts(c: Config, s: State, steps: seq<Step>): seq<Task>
    requires Allowed(c, s, steps)
    decreases |steps|
  {
    if steps == [] then [] else AcceptedBy(s, steps[0]) + Accepts(c, Do(c, s, steps[0]), steps[1..])
  }

  function Starts(c: Config, s: State, steps: seq<Step>): seq<Task>
    requires Allowed(c, s, steps)
    decreases |steps|
  {
    if steps == [] then [] else StartedBy(s, steps[0]) + Starts(c, Do(c, s, steps[0]), steps[1..])
  }

  lemma StepStarts(c: Config, s: State, step: Step)
    requires Enabled(c, s, step)
    ensures s.buffer + AcceptedBy(s, step) == StartedBy(s, step) + Do(c, s, step).buffer
  {
  }

  /** However many workers there are, they start tasks in the order in which these were accepted. */
  lemma {:induction false} StartOrder(c: Config, s: State, steps: seq<Step>)
    requires Allowed(c, s, steps)
    ensures s.buffer + Accepts(c, s, steps) == Starts(c, s, steps) + Run(c, s, steps).buffer
    decreases |steps|
  {
    hide Enabled, Do, AcceptedBy, StartedBy;
    if steps == [] {
      assert s.buffer + Accepts(c, s, steps) == s.buffer;
    } else {
      var s1 := Do(c, s, steps[0]);
      StepStarts(c, s, steps[0]);
      StartOrder(c, s1, steps[1..]);
      Chained(s.buffer, AcceptedBy(s, steps[0]), Accepts(c, s1, steps[1..]),
                StartedBy(s, steps[0]), s1.buffer, Starts(c, s1, steps[1..]), Run(c, s, steps).buffer);
    }
  }

  /** What a single worker has performed and still has to, in order. */
  function Performed(s: State): seq<Work>
    requires |s.workers| == 1
  {
    s.ran + Rest(s.workers[0])
  }

  lemma StepPerforms(c: Config, s: State, step: Step)
    requires Enabled(c, s, step) && |s.workers| == 1
    ensures |Do(c, s, step).workers| == 1
    ensures Performed(Do(c, s, step)) == Performed(s) + Units(StartedBy(s, step))
  {
    hide Units;
    UnitsOne(Task("", []));
    match step
    case Deliver(i, outcome) => UnitsOne(s.taken[i]);
    case WorkerTakes(w) => UnitsOne(s.buffer[0]);
    case WorkerRuns(w) =>
      assert w == 0;
      HeadPerformed(s.ran, s.workers[0].rest);
    case _ =>
  }

  lemma HeadPerformed(ran: seq<Work>, rest: seq<Work>)
    requires rest != []
    ensures (ran + [rest[0]]) + Rest(Rested(rest[1..])) == ran + rest
  {
    assert rest == [rest[0]] + rest[1..];
  }

  lemma {:induction false} RunPerforms(c: Config, s: State, steps: seq<Step>)
    requires Allowed(c, s, steps) && |s.workers| == 1
    ensures |Run(c, s, steps).workers| == 1
    ensures Performed(Run(c, s, steps)) == Performed(s) + Units(Starts(c, s, steps))
    decreases |steps|
  {
    hide Enabled, Do, StartedBy, Performed;
    if steps != [] {
      var s1 := Do(c, s, steps[0]);
      StepPerforms(c, s, steps[0]);
      RunPerforms(c, s1, steps[1..]);
      UnitsAppend(StartedBy(s, steps[0]), Starts(c, s1, steps[1..]));
      Regroup(Performed(s), Units(StartedBy(s, steps[0])), Units(Starts(c, s1, steps[1..])));
    } else {
      UnitsOne(Task("", []));
    }
  }

  /** With one worker, work is performed in the order in which its tasks were accepted. */
  lemma SingleWorkerIsFifo(c: Config, steps: seq<Step>)
    requires c.Workers() == 1 && Allowed(c, Init(c), steps)
    ensures var s := Run(c, Init(c), steps);
            s.ran + Rests(s.workers) + Units(s.buffer) == Units(Accepts(c, Init(c), steps))
  {
    var s0, s := Init(c), Run(c, Init(c), steps);
    StartOrder(c, s0, steps);
    RunPerforms(c, s0, steps);
    hide Run, Allowed, Starts, Accepts;
    var starts := Starts(c, s0, steps);
    assert s0.buffer + Accepts(c, s0, steps) == Accepts(c, s0, steps);
    assert Performed(s0) + Units(starts) == Units(starts);
    assert Rests(s.workers) == Rest(s.workers[0]) by {
      assert s.workers == [s.workers[0]];
      assert s.workers[1..] == [];
    }
    UnitsAppend(starts, s.buffer);
  }

  /** Work has so far been performed in the order in which its tasks were accepted. */
  ghost predicate InOrder(c: Config, steps: seq<Step>)
    requires Allowed(c, Init(c), steps)
  {
    Run(c, Init(c), steps).ran <= Units(Accepts(c, Init(c), steps))
  }

  lemma RunFirst(c: Config, s: State, step: Step, rest: seq<Step>)
    requires Enabled(c, s, step) && Allowed(c, Do(c, s, step), rest)
    ensures Allowed(c, s, [step] + rest) && Run(c, s, [step] + rest) == Run(c, Do(c, s, step), rest)
    ensures Accepts(c, s, [step] + rest) == AcceptedBy(s, step) + Accepts(c, Do(c, s, step), rest)
  {
    assert ([step] + rest)[1..] == rest;
  }

  lemma RunNone(c: Config, s: State)
    ensures Allowed(c, s, []) && Run(c, s, []) == s && Accepts(c, s, []) == []
  {
  }

  /** Two tasks go to two waiting workers, and the second is performed first. */
  lemma TwoWorkersReorder(c: Config) returns (steps: seq<Step>)
    requires c.Workers() >= 2
    ensures Allowed(c, Init(c), steps) && !InOrder(c, steps)
  {
    var a, b := Task("a", [Work("a", "")]), Task("b", [Work("b", "")]);
    var s0 := Init(c);
    var s1 := Do(c, s0, Offer(a));
    var s2 := Do(c, s1, Deliver(0, Handed(0)));
    assert s2.workers[1] == Idle && s2.taken == [] && s2.buffer == [] && s2.ran == [];
    SecondFirst(c, s2, b);
    hide Run, Allowed, Accepts, Units;
    steps := [Offer(b), Deliver(0, Handed(1)), WorkerRuns(1)];
    RunFirst(c, s1, Deliver(0, Handed(0)), steps);
    RunFirst(c, s0, Offer(a), [Deliver(0, Handed(0))] + steps);
    steps := [Offer(a)] + ([Deliver(0, Handed(0))] + steps);
    assert Accepts(c, s0, steps) == [a] + [b];
    UnitsAppend([a], [b]);
    UnitsOne(a);
    UnitsOne(b);
    assert (a.units + b.units)[0] == Work("a", "");
  }

  lemma SecondFirst(c: Config, s: State, b: Task)
    requires |s.workers| >= 2 && s.workers[1].Idle? && s.taken == [] && s.buffer == [] && s.ran == [] && |b.units| == 1
    ensures var steps := [Offer(b), Deliver(0, Handed(1)), WorkerRuns(1)];
            Allowed(c, s, steps) && Run(c, s, steps).ran == b.units && Accepts(c, s, steps) == [b]
  {
    var s1 := Do(c, s, Offer(b));
    var s2 := Do(c, s1, Deliver(0, Handed(1)));
    assert s1.taken == [b] && s2.workers[1] == Running(b.units) && s2.ran == [];
    var s3 := Do(c, s2, WorkerRuns(1));
    assert s3.ran == b.units;
    hide Run, Allowed, Accepts;
    RunNone(c, s3);
    RunFirst(c, s2, WorkerRuns(1), []);
    RunFirst(c, s1, Deliver(0, Handed(1)), [WorkerRuns(1)]);
    RunFirst(c, s, Offer(b), [Deliver(0, Handed(1)), WorkerRuns(1)]);
  }

  /** Every run performs work in the order of acceptance exactly when there is one worker. */
  lemma FifoIff(c: Config)
    ensures (forall steps :: Allowed(c, Init(c), steps) ==> InOrder(c, steps)) <==> c.workerCount <= 1
  {
    if c.Workers() == 1 {
      forall steps | Allowed(c, Init(c), steps) ensures InOrder(c, steps) {
        SingleWorkerIsFifo(c, steps);
        hide Run, Accepts;
      }
    } else {
      var steps := TwoWorkersReorder(c);
    }
  }

  // ---------- bounds and shutdown ----------

  /** Every task has something to do. */
  ghost predicate Loaded(tasks: seq<Task>) {
    forall i :: 0 <= i < |tasks| ==> tasks[i].units != []
  }

  lemma LoadedChanges(tasks: seq<Task>, i: int, t: Task)
    requires Loaded(tasks)
    ensures t.units != [] ==> Loaded(tasks + [t])
    ensures 0 <= i < |tasks| ==> Loaded(Without(tasks, i)) && Loaded(Shortened(tasks, i))
    ensures tasks != [] ==> Loaded(tasks[1..])
  {
  }

  /**
    The buffer stays within its capacity, running and fallback tasks have work left, and a returned Stop
    has seen every worker out.
  */
  ghost predicate Sound(c: Config, s: State) {
    && |s.buffer| <= (if c.bufferSize < 0 then 100 else c.bufferSize)
    && Loaded(s.taken) && Loaded(s.buffer) && Loaded(s.fallbacks)
    && (forall w :: 0 <= w < |s.workers| && s.workers[w].Running? ==> s.workers[w].rest != [])
    && (s.returned ==> s.stopping && forall w :: 0 <= w < |s.workers| ==> s.workers[w].Exited?)
  }

  lemma DeliverSound(c: Config, s: State, i: int, outcome: Outcome)
    requires Enabled(c, s, Deliver(i, outcome)) && Sound(c, s)
    ensures Sound(c, Do(c, s, Deliver(i, outcome)))
  {
    var t := s.taken[i];
    assert t.units != [];
    LoadedChanges(s.taken, i, t);
    LoadedChanges(s.buffer, 0, t);
    LoadedChanges(s.fallbacks, 0, t);
    hide Loaded, Without;
  }

  lemma FlushSound(c: Config, s: State, key: string)
    requires Loaded(s.taken)
    ensures Loaded(s.taken + Batch(s.batches, key))
  {
    LoadedChanges(s.taken, 0, Task(key, Pending(s.batches, key)));
    if Batch(s.batches, key) == [] {
      assert s.taken + Batch(s.batches, key) == s.taken;
    }
  }

  lemma StepSound(c: Config, s: State, step: Step)
    requires Enabled(c, s, step) && Sound(c, s)
    ensures Sound(c, Do(c, s, step))
  {
    match step
    case Deliver(i, outcome) => DeliverSound(c, s, i, outcome);
    case Callback(t) =>
      FlushSound(c, s, s.batches.fired[t]);
      hide Loaded, Batch;
    case Flush(key) =>
      FlushSound(c, s, key);
      hide Loaded, Batch;
    case Offer(task) =>
      LoadedChanges(s.taken, 0, task);
      hide Loaded;
    case WorkerTakes(w) =>
      LoadedChanges(s.buffer, 0, s.buffer[0]);
      assert s.buffer[0].units != [];
      hide Loaded;
    case FallbackRuns(i) =>
      LoadedChanges(s.fallbacks, i, s.fallbacks[i]);
      hide Loaded, Shortened;
    case _ => hide Loaded;
  }

  lemma {:induction false} RunSound(c: Config, s: State, steps: seq<Step>)
    requires Allowed(c, s, steps) && Sound(c, s)
    ensures Sound(c, Run(c, s, steps))
    decreases |steps|
  {
    hide Enabled, Do, Sound;
    if steps != [] {
      StepSound(c, s, steps[0]);
      RunSound(c, Do(c, s, steps[0]), steps[1..]);
    }
  }

  lemma {:induction false} NoneRunning(ws: seq<Worker>)
    requires forall w :: 0 <= w < |ws| ==> ws[w].Exited?
    ensures Rests(ws) == []
  {
    if ws != [] {
      NoneRunning(ws[1..]);
    }
  }

  /**
    Once Stop has returned no worker runs anything; what is not done is pending, taken, buffered or run inline by
    its sender.
  */
  lemma StoppedIsQuiet(c: Config, steps: seq<Step>, w: Work)
    requires Allowed(c, Init(c), steps) && Run(c, Init(c), steps).returned
    ensures var s := Run(c, Init(c), steps);
            && Rests(s.workers) == []
            && (multiset(AllGiven(steps))[w]
                == AllPending(s.batches.items)[w] + UnitsOf(s.taken, w) + UnitsOf(s.buffer, w) + UnitsOf(s.fallbacks, w)
                   + Occurs(s.ran, w) + Occurs(s.ranInline, w))
  {
    var s := Run(c, Init(c), steps);
    RunSound(c, Init(c), steps);
    NoneRunning(s.workers);
    Conservation(c, steps, w);
  }

  /** After Stop has returned the buffered tasks stay where they are and the workers do nothing more. */
  lemma {:induction false} BufferedIsAbandoned(c: Config, s: State, steps: seq<Step>)
    requires Allowed(c, s, steps) && Sound(c, s) && s.returned
    ensures Run(c, s, steps).returned && Run(c, s, steps).ran == s.ran && s.buffer <= Run(c, s, steps).buffer
    decreases |steps|
  {
    if steps != [] {
      var s1 := Do(c, s, steps[0]);
      StepSound(c, s, steps[0]);
      assert s1.returned && s1.ran == s.ran && s.buffer <= s1.buffer;
      hide Enabled, Do, Sound;
      BufferedIsAbandoned(c, s1, steps[1..]);
    }
  }
}
