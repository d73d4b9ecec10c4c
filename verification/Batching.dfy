/**
  The batcher, the event queue's entry and the reaction fallback as objects (server/batcher.go, server/queue.go,
  server/hooks.go).
*/
module Batching {
  import opened Prelude
  import opened Pipeline
  import opened PipelineOrder

  class Batcher {
    var items: map<string, seq<Work>>
    var timers: map<string, int>

    /** The runtime's timers: those still armed, those whose callback has started, and the next one's name. */
    var armed: map<int, string>
    var fired: map<int, string>
    var nextTimer: int

    /** The calls of onFlush, in order. */
    ghost var flushed: seq<Task>

    constructor ()
      ensures State() == NO_BATCHES && flushed == []
    {
      items, timers, armed, fired, nextTimer := map[], map[], map[], map[], 0;
      flushed := [];
    }

    function State(): Batches
      reads this
    {
      Batches(items, timers, armed, fired, nextTimer)
    }

    method Add(work: Work)
      modifies this
      ensures State() == Added(old(State()), work) && flushed == old(flushed)
      ensures items == old(items)[work.key := Pending(old(State()), work.key) + [work]]
      ensures work.key in old(timers) ==> timers == old(timers) && armed == old(armed)
      ensures work.key !in old(timers) ==>
                timers == old(timers)[work.key := old(nextTimer)] && armed == old(armed)[old(nextTimer) := work.key]
    {
      items := items[work.key := (if work.key in items then items[work.key] else []) + [work]];
      if work.key in timers {
        return;
      }
      timers := timers[work.key := nextTimer];
      armed := armed[nextTimer := work.key];
      nextTimer := nextTimer + 1;
    }

    method Flush(key: string)
      modifies this
      ensures State() == Flushed(old(State()), key)
      ensures flushed == old(flushed) + Batch(old(State()), key)
      ensures items == old(items) - {key} && timers == old(timers) - {key}
      ensures key in old(timers) ==> old(timers)[key] !in armed
      ensures flushed == if Pending(old(State()), key) == [] then old(flushed)
                         else old(flushed) + [Task(key, Pending(old(State()), key))]
    {
      var batch := if key in items then items[key] else [];
      items := items - {key};
      if key in timers {
        armed := armed - {timers[key]};
        timers := timers - {key};
      }
      if |batch| > 0 {
        flushed := flushed + [Task(key, batch)];
      }
    }

    /** With nobody else at work, every pending batch is flushed once and whole, and nothing stays pending. */
    method FlushAll() returns (ghost done: seq<Task>)
      requires Timed(State())
      modifies this
      ensures Timed(State()) && items == map[]
      ensures flushed == old(flushed) + done && |done| == |old(items)|
      ensures forall key :: UnitsFor(done, key) == Pending(old(State()), key)
    {
      hide Timed, FlushedBut, UnitsFor, Batch;
      var keys := items.Keys;
      ghost var start := State();
      done := [];
      NothingDone(start);
      while keys != {}
        invariant Timed(State()) && keys == items.Keys && keys <= start.items.Keys
        invariant forall key :: key in keys ==> items[key] == start.items[key]
        invariant flushed == old(flushed) + done && |done| + |keys| == |start.items|
        invariant FlushedBut(start, keys, done)
        decreases |keys|
      {
        var k :| k in keys;
        FlushTimed(State(), k);
        hide Flushed;
        OneMoreDone(start, keys, done, k, State());
        Regroup(old(flushed), done, Batch(State(), k));
        done := done + Batch(State(), k);
        Flush(k);
        keys := keys - {k};
      }
      AllDone(start, done);
    }

    /** Of what `start` held, exactly the batches of `keys` are not yet among those flushed. */
    ghost predicate FlushedBut(start: Batches, keys: set<string>, done: seq<Task>) {
      forall key :: UnitsFor(done, key) == if key in keys then [] else Pending(start, key)
    }

    lemma NothingDone(start: Batches)
      ensures FlushedBut(start, start.items.Keys, [])
    {
    }

    lemma AllDone(start: Batches, done: seq<Task>)
      requires FlushedBut(start, {}, done)
      ensures forall key :: UnitsFor(done, key) == Pending(start, key)
    {
    }

    lemma OneMoreDone(start: Batches, keys: set<string>, done: seq<Task>, k: string, b: Batches)
      requires FlushedBut(start, keys, done) && Timed(b)
      requires k in keys && k in b.items && k in start.items && b.items[k] == start.items[k]
      ensures FlushedBut(start, keys - {k}, done + Batch(b, k)) && |Batch(b, k)| == 1
      ensures Flushed(b, k).items == b.items - {k}
    {
      assert |Batch(b, k)| == 1 && Flushed(b, k).items == b.items - {k} && Pending(b, k) == Pending(start, k);
      hide UnitsFor, Batch, Flushed, Timed;
      forall key ensures UnitsFor(done + Batch(b, k), key) == if key in keys - {k} then [] else Pending(start, key) {
        UnitsForAppend(done, Batch(b, k), key);
        BatchFor(b, k, key);
      }
    }
  }

  // ---------- the queue ----------

  /** Buffered tasks, and the number of workers blocked in their select. */
  datatype Queue = Queue(buffer: seq<Task>, waiting: int) {
    /** Nobody waits while there is something to take. */
    predicate Valid() {
      0 <= waiting && (waiting > 0 ==> buffer == [])
    }

    predicate Full(c: Config) {
      waiting == 0 && |buffer| >= (if c.bufferSize < 0 then 100 else c.bufferSize)
    }
  }

  function Enqueued(c: Config, q: Queue, task: Task): Queue {
    if q.waiting > 0 then q.(waiting := q.waiting - 1)
    else if |q.buffer| < c.Capacity() then q.(buffer := q.buffer + [task])
    else q
  }

  function Received(q: Queue): Queue {
    if q.buffer == [] then q.(waiting := q.waiting + 1) else q.(buffer := q.buffer[1..])
  }

  function IdleWorkers(s: State): set<int> {
    set w | 0 <= w < |s.workers| && s.workers[w].Idle?
  }

  /** The queue is the one of the pipeline: the same buffer, and those waiting are idle workers. */
  predicate Matches(s: State, q: Queue) {
    q.Valid() && s.buffer == q.buffer && q.waiting <= |IdleWorkers(s)|
  }

  /** Enqueue is the pipeline's delivery of a task, handed to a worker, buffered, or refused as the queue decides. */
  lemma EnqueueDelivers(c: Config, s: State, q: Queue, i: int) returns (outcome: Outcome)
    requires Matches(s, q) && 0 <= i < |s.taken|
    ensures Enabled(c, s, Deliver(i, outcome))
    ensures Matches(Do(c, s, Deliver(i, outcome)), Enqueued(c, q, s.taken[i]))
    ensures (outcome.Handed? <==> q.waiting > 0) && (outcome.Refused? <==> q.Full(c))
  {
    if q.waiting > 0 {
      var w :| w in IdleWorkers(s);
      outcome := Handed(w);
      assert IdleWorkers(Do(c, s, Deliver(i, outcome))) == IdleWorkers(s) - {w};
    } else {
      outcome := if |q.buffer| < c.Capacity() then Buffered else Refused;
    }
  }

  /** A worker that receives takes the pipeline's next task, or begins to wait and leaves the pipeline as it is. */
  lemma ReceiveTakes(c: Config, s: State, q: Queue, w: int)
    requires Matches(s, q) && w in IdleWorkers(s) && q.waiting < |IdleWorkers(s)|
    ensures if s.buffer == [] then Matches(s, Received(q))
            else Enabled(c, s, WorkerTakes(w)) && Matches(Do(c, s, WorkerTakes(w)), Received(q))
  {
    if s.buffer != [] {
      assert IdleWorkers(Do(c, s, WorkerTakes(w))) == IdleWorkers(s) - {w};
    }
  }

  class EventQueue {
    var taskChan: seq<Task>

    /** Workers blocked in their select, and the tasks sent straight to such workers. */
    var waiting: int
    var handed: seq<Task>
    const config: Config

    constructor (workerCount: int, bufferSize: int)
      ensures Valid() && config == Config(workerCount, bufferSize) && Accepted() == [] && Value() == Queue([], 0)
    {
      config, taskChan, waiting, handed := Config(workerCount, bufferSize), [], 0, [];
    }

    function Value(): Queue
      reads this
    {
      Queue(taskChan, waiting)
    }

    predicate Valid()
      reads this
    {
      Value().Valid()
    }

    /** All tasks accepted, in order, but for those taken out of the buffer. */
    function Accepted(): seq<Task>
      reads this
    {
      handed + taskChan
    }

    predicate Full()
      reads this
    {
      Value().Full(config)
    }

    /** Never blocks: with nobody waiting and a full buffer it refuses and stays as it is. */
    method Enqueue(task: Task) returns (ok: bool)
      requires Valid()
      modifies this
      ensures Valid() && ok == !old(Full()) && (!ok ==> Full())
      ensures Value() == Enqueued(config, old(Value()), task)
      ensures Accepted() == if ok then old(Accepted()) + [task] else old(Accepted())
      ensures handed == if old(waiting) > 0 then old(handed) + [task] else old(handed)
    {
      if waiting > 0 {
        handed := handed + [task];
        waiting := waiting - 1;
        return true;
      }
      if |taskChan| < config.Capacity() {
        taskChan := taskChan + [task];
        return true;
      }
      return false;
    }

    /** A worker comes to its select: it takes the oldest buffered task or waits. */
    method Receive() returns (task: Option<Task>)
      requires Valid()
      modifies this
      ensures Valid() && handed == old(handed) && Value() == Received(old(Value()))
      ensures task == if old(taskChan) == [] then None else Some(old(taskChan)[0])
    {
      if |taskChan| == 0 {
        waiting := waiting + 1;
        return None;
      }
      task := Some(taskChan[0]);
      taskChan := taskChan[1..];
    }
  }

  class Plugin {
    const eventQueue: EventQueue

    /** The reactions synchronised by the caller itself. */
    var synced: seq<Work>

    constructor (queue: EventQueue)
      ensures eventQueue == queue && synced == []
    {
      eventQueue, synced := queue, [];
    }

    /**
      A batch goes to the queue whole or, when that is full, is worked off at once in order: never both, never
      neither.
    */
    method ProcessReactionBatch(postID: string, items: seq<Work>)
      requires eventQueue.Valid()
      modifies this, eventQueue
      ensures eventQueue.Valid()
      ensures var full, tasks := old(eventQueue.Full()), old(eventQueue.Accepted());
              if full then eventQueue.Accepted() == tasks && synced == old(synced) + items
              else eventQueue.Accepted() == tasks + [Task(postID, items)] && synced == old(synced)
    {
      hide EventQueue.Valid, EventQueue.Accepted, EventQueue.Full;
      var ok := eventQueue.Enqueue(Task(postID, items));
      if !ok {
        for i := 0 to |items|
          invariant synced == old(synced) + items[..i]
          invariant eventQueue.Valid() && eventQueue.Accepted() == old(eventQueue.Accepted())
        {
          synced := synced + [items[i]];
        }
        assert items[..|items|] == items;
      }
    }
  }
}
