/**
  The reaction batcher, the event queue and the full-queue fallback as one concurrent system
  (server/batcher.go, server/queue.go, server/hooks.go, server/matrix_webhook.go).

  One step is one section under the batcher's lock, one channel operation, or one unit of work.
*/
module Pipeline {

  /** One reaction, post edit or Matrix event to be synchronised. */
  datatype Work = Work(key: string, detail: string)

  datatype Task = Task(key: string, units: seq<Work>)

  datatype Batches = Batches(
    items: map<string, seq<Work>>,
    timers: map<string, int>,
    armed: map<int, string>,
    fired: map<int, string>,
    nextTimer: int)

  /** A worker waits in its select, runs a task (of which `rest` is not done), or has returned. */
  datatype Worker = Idle | Running(rest: seq<Work>) | Exited

  datatype State = State(
    batches: Batches,
    taken: seq<Task>,
    buffer: seq<Task>,
    workers: seq<Worker>,
    fallbacks: seq<Task>,
    ran: seq<Work>,
    ranInline: seq<Work>,
    stopping: bool,
    returned: bool)

  datatype Config = Config(workerCount: int, bufferSize: int)
  {
    function Workers(): (n: int)
      ensures n >= 1
    {
      if workerCount <= 0 then 1 else workerCount
    }

    function Capacity(): (n: int)
      ensures n >= 0
    {
      if bufferSize < 0 then 100 else bufferSize
    }
  }

  datatype Outcome = Buffered | Handed(worker: int) | Refused

  datatype Step =
    | Add(work: Work)                        // Batcher.Add
    | Fire(timer: int)                       // a timer expires; its callback starts
    | Callback(timer: int)                   // the callback's locked section of Flush
    | Flush(key: string)                     // the locked section of any other Flush
    | Offer(task: Task)                      // an edit hook or a webhook handler comes with a task
    | Deliver(at: int, outcome: Outcome)     // Enqueue of a taken batch or offered task
    | WorkerTakes(worker: int)
    | WorkerRuns(worker: int)
    | FallbackRuns(at: int)
    | StopCalled
    | WorkerExits(worker: int)
    | StopReturns

  // ---------- the batcher ----------

  const NO_BATCHES: Batches := Batches(map[], map[], map[], map[], 0)

  function Pending(b: Batches, key: string): seq<Work> {
    if key in b.items then b.items[key] else []
  }

  function Added(b: Batches, work: Work): Batches {
    var items := b.items[work.key := Pending(b, work.key) + [work]];
    if work.key in b.timers then b.(items := items)
    else
      Batches(items, b.timers[work.key := b.nextTimer], b.armed[b.nextTimer := work.key], b.fired, b.nextTimer + 1)
  }

  /** The locked section of Flush; a timer that has already fired cannot be stopped. */
  function Flushed(b: Batches, key: string): Batches {
    if key in b.timers
    then Batches(b.items - {key}, b.timers - {key}, b.armed - {b.timers[key]}, b.fired, b.nextTimer)
    else b.(items := b.items - {key})
  }

  function Fired(b: Batches, timer: int): Batches
    requires timer in b.armed
  {
    b.(armed := b.armed - {timer}, fired := b.fired[timer := b.armed[timer]])
  }

  function CalledBack(b: Batches, timer: int): Batches {
    b.(fired := b.fired - {timer})
  }

  /** What Flush hands to onFlush, which is not called for an empty batch. */
  function Batch(b: Batches, key: string): seq<Task> {
    if Pending(b, key) == [] then [] else [Task(key, Pending(b, key))]
  }

  // ---------- the system ----------

  function Init(c: Config): State {
    State(NO_BATCHES, [], [], seq(c.Workers(), _ => Idle), [], [], [], false, false)
  }

  function Without<T>(s: seq<T>, i: int): seq<T>
    requires 0 <= i < |s|
  {
    s[..i] + s[i + 1..]
  }

  predicate Enabled(c: Config, s: State, step: Step) {
    match step
    case Add(_) => true
    case Fire(t) => t in s.batches.armed
    case Callback(t) => t in s.batches.fired
    case Flush(_) => true
    case Offer(task) => task.units != []
    case Deliver(i, outcome) =>
      && 0 <= i < |s.taken|
      && (match outcome
          case Buffered => |s.buffer| < c.Capacity()
          case Handed(w) => s.buffer == [] && 0 <= w < |s.workers| && s.workers[w].Idle?
          case Refused => |s.buffer| >= c.Capacity())
    case WorkerTakes(w) => 0 <= w < |s.workers| && s.workers[w].Idle? && s.buffer != []
    case WorkerRuns(w) => 0 <= w < |s.workers| && s.workers[w].Running? && s.workers[w].rest != []
    case FallbackRuns(i) => 0 <= i < |s.fallbacks| && s.fallbacks[i].units != []
    case StopCalled => !s.stopping
    case WorkerExits(w) => s.stopping && 0 <= w < |s.workers| && s.workers[w].Idle?
    case StopReturns => s.stopping && forall w :: 0 <= w < |s.workers| ==> s.workers[w].Exited?
  }

  function Rested(rest: seq<Work>): Worker {
    if rest == [] then Idle else Running(rest)
  }

  function Do(c: Config, s: State, step: Step): State
    requires Enabled(c, s, step)
  {
    match step
    case Add(work) => s.(batches := Added(s.batches, work))
    case Fire(t) => s.(batches := Fired(s.batches, t))
    case Callback(t) =>
      var key := s.batches.fired[t];
      s.(batches := CalledBack(Flushed(s.batches, key), t), taken := s.taken + Batch(s.batches, key))
    case Flush(key) => s.(batches := Flushed(s.batches, key), taken := s.taken + Batch(s.batches, key))
    case Offer(task) => s.(taken := s.taken + [task])
    case Deliver(i, outcome) =>
      var task := s.taken[i];
      var s1 := s.(taken := Without(s.taken, i));
      (match outcome
       case Buffered => s1.(buffer := s.buffer + [task])
       case Handed(w) => s1.(workers := s.workers[w := Running(task.units)])
       case Refused => s1.(fallbacks := s.fallbacks + [task]))
    case WorkerTakes(w) => s.(buffer := s.buffer[1..], workers := s.workers[w := Running(s.buffer[0].units)])
    case WorkerRuns(w) =>
      var rest := s.workers[w].rest;
      s.(workers := s.workers[w := Rested(rest[1..])], ran := s.ran + [rest[0]])
    case FallbackRuns(i) =>
      s.(fallbacks := Shortened(s.fallbacks, i), ranInline := s.ranInline + [s.fallbacks[i].units[0]])
    case StopCalled => s.(stopping := true)
    case WorkerExits(w) => s.(workers := s.workers[w := Exited])
    case StopReturns => s.(returned := true)
  }

  predicate Allowed(c: Config, s: State, steps: seq<Step>)
    decreases |steps|
  {
    steps == [] || (Enabled(c, s, steps[0]) && Allowed(c, Do(c, s, steps[0]), steps[1..]))
  }

  function Run(c: Config, s: State, steps: seq<Step>): State
    requires Allowed(c, s, steps)
    decreases |steps|
  {
    if steps == [] then s else Run(c, Do(c, s, steps[0]), steps[1..])
  }

  // ---------- what a run is given and what it holds ----------

  function Units(tasks: seq<Task>): seq<Work> {
    if tasks == [] then [] else tasks[0].units + Units(tasks[1..])
  }

  function Rest(w: Worker): seq<Work> {
    if w.Running? then w.rest else []
  }

  function Rests(ws: seq<Worker>): seq<Work> {
    if ws == [] then [] else Rest(ws[0]) + Rests(ws[1..])
  }

  ghost function AllPending(items: map<string, seq<Work>>): multiset<Work>
    decreases |items|
  {
    if items == map[] then multiset{}
    else
      var k :| k in items;
      multiset(items[k]) + AllPending(items - {k})
  }

  /** How often `w` is in the system, place by place. */
  ghost function Held(s: State, w: Work): int {
    AllPending(s.batches.items)[w] + UnitsOf(s.taken, w) + UnitsOf(s.buffer, w) + RestsOf(s.workers, w)
    + UnitsOf(s.fallbacks, w) + Occurs(s.ran, w) + Occurs(s.ranInline, w)
  }

  function Occurs(units: seq<Work>, w: Work): int {
    multiset(units)[w]
  }

  function UnitsOf(tasks: seq<Task>, w: Work): int {
    Occurs(Units(tasks), w)
  }

  function RestsOf(ws: seq<Worker>, w: Work): int {
    Occurs(Rests(ws), w)
  }

  function Given(step: Step): seq<Work> {
    match step
    case Add(work) => [work]
    case Offer(task) => task.units
    case _ => []
  }

  /** Everything added to the batcher or offered to the queue, in order. */
  function AllGiven(steps: seq<Step>): seq<Work> {
    if steps == [] then [] else Given(steps[0]) + AllGiven(steps[1..])
  }

  // ---------- conservation ----------

  lemma {:induction false} PendingWithout(items: map<string, seq<Work>>, k: string)
    requires k in items
    ensures AllPending(items) == multiset(items[k]) + AllPending(items - {k})
    decreases |items|
  {
    var j :| j in items && AllPending(items) == multiset(items[j]) + AllPending(items - {j});
    if j != k {
      PendingWithout(items - {j}, k);
      PendingWithout(items - {k}, j);
      assert items - {j} - {k} == items - {k} - {j};
    }
  }

  lemma PendingPut(items: map<string, seq<Work>>, k: string, v: seq<Work>)
    ensures AllPending(items[k := v]) == multiset(v) + AllPending(items - {k})
  {
    PendingWithout(items[k := v], k);
    assert items[k := v] - {k} == items - {k};
  }

  lemma PendingTaken(b: Batches, k: string)
    ensures AllPending(b.items) == multiset(Pending(b, k)) + AllPending(b.items - {k})
  {
    if k in b.items {
      PendingWithout(b.items, k);
    } else {
      assert b.items - {k} == b.items;
    }
  }

  lemma OccursAppend(a: seq<Work>, b: seq<Work>, w: Work)
    ensures Occurs(a + b, w) == Occurs(a, w) + Occurs(b, w)
    ensures Occurs([], w) == 0
  {
  }

  lemma OccursHead(rest: seq<Work>, log: seq<Work>, w: Work)
    requires rest != []
    ensures Occurs(rest[1..], w) + Occurs(log + [rest[0]], w) == Occurs(rest, w) + Occurs(log, w)
  {
    assert rest == [rest[0]] + rest[1..];
  }

  lemma {:induction false} UnitsAppend(a: seq<Task>, b: seq<Task>)
    ensures Units(a + b) == Units(a) + Units(b)
  {
    if a == [] {
      assert a + b == b;
    } else {
      assert (a + b)[1..] == a[1..] + b;
      UnitsAppend(a[1..], b);
    }
  }

  lemma UnitsOne(t: Task)
    ensures Units([t]) == t.units && Units([]) == []
  {
    assert [t][1..] == [];
  }

  lemma UnitsMore(ts: seq<Task>, t: Task, w: Work)
    ensures UnitsOf(ts + [t], w) == UnitsOf(ts, w) + Occurs(t.units, w)
  {
    UnitsAppend(ts, [t]);
    UnitsOne(t);
  }

  lemma UnitsParts(a: seq<Task>, t: Task, b: seq<Task>, w: Work)
    ensures UnitsOf(a + [t] + b, w) == UnitsOf(a, w) + Occurs(t.units, w) + UnitsOf(b, w)
    ensures UnitsOf(a + b, w) == UnitsOf(a, w) + UnitsOf(b, w)
  {
    UnitsMore(a, t, w);
    UnitsAppend(a + [t], b);
    UnitsAppend(a, b);
  }

  lemma UnitsWithout(ts: seq<Task>, i: int, w: Work)
    requires 0 <= i < |ts|
    ensures UnitsOf(ts, w) == Occurs(ts[i].units, w) + UnitsOf(Without(ts, i), w)
  {
    hide UnitsOf;
    UnitsParts(ts[..i], ts[i], ts[i + 1..], w);
    assert ts == ts[..i] + [ts[i]] + ts[i + 1..];
  }

  lemma UnitsPut(ts: seq<Task>, i: int, t: Task, w: Work)
    requires 0 <= i < |ts|
    ensures UnitsOf(ts[i := t], w) + Occurs(ts[i].units, w) == UnitsOf(ts, w) + Occurs(t.units, w)
  {
    hide UnitsOf;
    UnitsWithout(ts, i, w);
    UnitsWithout(ts[i := t], i, w);
    assert Without(ts[i := t], i) == Without(ts, i);
  }

  lemma {:induction false} RestsPut(ws: seq<Worker>, i: int, v: Worker, w: Work)
    requires 0 <= i < |ws|
    ensures RestsOf(ws[i := v], w) + Occurs(Rest(ws[i]), w) == RestsOf(ws, w) + Occurs(Rest(v), w)
    decreases i
  {
    hide RestsOf, Occurs;
    RestsHead(ws, w);
    RestsHead(ws[i := v], w);
    if i > 0 {
      assert ws[i := v][1..] == ws[1..][i - 1 := v];
      RestsPut(ws[1..], i - 1, v, w);
    } else {
      assert ws[i := v][1..] == ws[1..];
    }
  }

  lemma RestsHead(ws: seq<Worker>, w: Work)
    requires ws != []
    ensures RestsOf(ws, w) == Occurs(Rest(ws[0]), w) + RestsOf(ws[1..], w)
  {
    OccursAppend(Rest(ws[0]), Rests(ws[1..]), w);
  }

  lemma AddHeld(b: Batches, work: Work)
    ensures AllPending(Added(b, work).items) == AllPending(b.items) + multiset{work}
  {
    PendingPut(b.items, work.key, Pending(b, work.key) + [work]);
    PendingTaken(b, work.key);
  }

  lemma FlushHeld(b: Batches, taken: seq<Task>, key: string, w: Work)
    ensures AllPending(Flushed(b, key).items)[w] + UnitsOf(taken + Batch(b, key), w)
         == AllPending(b.items)[w] + UnitsOf(taken, w)
  {
    PendingTaken(b, key);
    assert Flushed(b, key).items == b.items - {key};
    hide AllPending, UnitsOf;
    if Pending(b, key) == [] {
      assert taken + Batch(b, key) == taken;
    } else {
      UnitsMore(taken, Task(key, Pending(b, key)), w);
    }
  }

  lemma DeliverHeld(c: Config, s: State, i: int, outcome: Outcome, w: Work)
    requires Enabled(c, s, Deliver(i, outcome))
    ensures Held(Do(c, s, Deliver(i, outcome)), w) == Held(s, w)
  {
    hide AllPending, UnitsOf, RestsOf, Occurs;
    UnitsWithout(s.taken, i, w);
    match outcome
    case Buffered => UnitsMore(s.buffer, s.taken[i], w);
    case Handed(k) => WorkerStarts(s.workers, k, s.taken[i].units, w);
    case Refused => UnitsMore(s.fallbacks, s.taken[i], w);
  }

  lemma WorkerStarts(ws: seq<Worker>, k: int, units: seq<Work>, w: Work)
    requires 0 <= k < |ws| && ws[k].Idle?
    ensures RestsOf(ws[k := Running(units)], w) == RestsOf(ws, w) + Occurs(units, w)
  {
    RestsPut(ws, k, Running(units), w);
    OccursAppend([], [], w);
    hide RestsOf, Occurs;
  }

  lemma WorkerHeld(c: Config, s: State, step: Step, w: Work)
    requires Enabled(c, s, step) && (step.WorkerTakes? || step.WorkerRuns? || step.WorkerExits?)
    ensures Held(Do(c, s, step), w) == Held(s, w)
  {
    hide AllPending, UnitsOf, RestsOf, Occurs;
    match step
    case WorkerTakes(k) =>
      UnitsWithout(s.buffer, 0, w);
      assert Without(s.buffer, 0) == s.buffer[1..];
      WorkerStarts(s.workers, k, s.buffer[0].units, w);
    case WorkerRuns(k) =>
      var rest := s.workers[k].rest;
      OccursHead(rest, s.ran, w);
      RestsPut(s.workers, k, Rested(rest[1..]), w);
    case WorkerExits(k) => RestsPut(s.workers, k, Exited, w);
  }

  /** What is left of the inline work after one unit of its i-th batch. */
  function Shortened(ts: seq<Task>, i: int): seq<Task>
    requires 0 <= i < |ts| && ts[i].units != []
  {
    if |ts[i].units| == 1 then Without(ts, i) else ts[i := Task(ts[i].key, ts[i].units[1..])]
  }

  lemma ShortenedHeld(ts: seq<Task>, i: int, log: seq<Work>, w: Work)
    requires 0 <= i < |ts| && ts[i].units != []
    ensures UnitsOf(Shortened(ts, i), w) + Occurs(log + [ts[i].units[0]], w) == UnitsOf(ts, w) + Occurs(log, w)
  {
    OccursAppend([], [], w);
    hide UnitsOf, Occurs;
    OccursHead(ts[i].units, log, w);
    if |ts[i].units| == 1 {
      UnitsWithout(ts, i, w);
      assert ts[i].units[1..] == [];
    } else {
      UnitsPut(ts, i, Task(ts[i].key, ts[i].units[1..]), w);
    }
  }

  lemma BatcherHeld(c: Config, s: State, step: Step, w: Work)
    requires Enabled(c, s, step) && (step.Callback? || step.Flush? || step.Offer?)
    ensures Held(Do(c, s, step), w) == Held(s, w) + Occurs(Given(step), w)
  {
    hide AllPending, UnitsOf, RestsOf, Flushed, Batch;
    match step
    case Callback(t) => FlushHeld(s.batches, s.taken, s.batches.fired[t], w);
    case Flush(key) => FlushHeld(s.batches, s.taken, key, w);
    case Offer(task) => UnitsMore(s.taken, task, w);
  }

  lemma FallbackHeld(c: Config, s: State, i: int, w: Work)
    requires Enabled(c, s, FallbackRuns(i))
    ensures Held(Do(c, s, FallbackRuns(i)), w) == Held(s, w)
  {
    hide AllPending, UnitsOf, RestsOf, Occurs, Shortened;
    ShortenedHeld(s.fallbacks, i, s.ranInline, w);
  }

  lemma SignalHeld(c: Config, s: State, step: Step, w: Work)
    requires Enabled(c, s, step) && (step.Fire? || step.StopCalled? || step.StopReturns?)
    ensures Held(Do(c, s, step), w) == Held(s, w)
  {
    hide AllPending, UnitsOf, RestsOf, Occurs;
  }

  lemma StepHeld(c: Config, s: State, step: Step, w: Work)
    requires Enabled(c, s, step)
    ensures Held(Do(c, s, step), w) == Held(s, w) + Occurs(Given(step), w)
  {
    OccursAppend([], [], w);
    if step.Add? {
      AddHeld(s.batches, step.work);
    } else {
      hide Held, Enabled, Do, Occurs;
      match step
      case Deliver(i, outcome) => DeliverHeld(c, s, i, outcome, w);
      case FallbackRuns(i) => FallbackHeld(c, s, i, w);
      case WorkerTakes(_) => WorkerHeld(c, s, step, w);
      case WorkerRuns(_) => WorkerHeld(c, s, step, w);
      case WorkerExits(_) => WorkerHeld(c, s, step, w);
      case Fire(_) => SignalHeld(c, s, step, w);
      case StopCalled => SignalHeld(c, s, step, w);
      case StopReturns => SignalHeld(c, s, step, w);
      case _ => BatcherHeld(c, s, step, w);
    }
  }

  lemma {:induction false} RunHeld(c: Config, s: State, steps: seq<Step>, w: Work)
    requires Allowed(c, s, steps)
    ensures Held(Run(c, s, steps), w) == Held(s, w) + Occurs(AllGiven(steps), w)
    decreases |steps|
  {
    if steps == [] {
      OccursAppend([], [], w);
    } else {
      hide Held, Enabled, Do, Occurs;
      StepHeld(c, s, steps[0], w);
      RunHeld(c, Do(c, s, steps[0]), steps[1..], w);
      OccursAppend(Given(steps[0]), AllGiven(steps[1..]), w);
    }
  }

  lemma {:induction false} IdleRest(n: int)
    requires n >= 0
    ensures Rests(seq(n, _ => Idle)) == []
  {
    if n > 0 {
      IdleRest(n - 1);
      assert seq(n, _ => Idle)[1..] == seq(n - 1, _ => Idle);
    }
  }

  /** In every interleaving, each piece of work is held exactly as often as it was given. */
  lemma Conservation(c: Config, steps: seq<Step>, w: Work)
    requires Allowed(c, Init(c), steps)
    ensures Held(Run(c, Init(c), steps), w) == multiset(AllGiven(steps))[w]
  {
    RunHeld(c, Init(c), steps, w);
    IdleRest(c.Workers());
  }
}
