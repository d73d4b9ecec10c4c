/**
  Stopping the event queue and deactivating the plugin (server/queue.go, server/plugin.go): what is left undone.
*/
module Shutdown {
  import opened Pipeline
  import opened PipelineOrder

  /**
    When Stop has returned, exactly the buffered work is undone if and only if no batch is pending, none is
    on its way to the queue and nothing is being run inline.
  */
  lemma OnlyBufferedRemainsIff(c: Config, steps: seq<Step>)
    requires Allowed(c, Init(c), steps) && Run(c, Init(c), steps).returned
    ensures var s := Run(c, Init(c), steps);
            (forall w ::
               multiset(AllGiven(steps))[w] == Occurs(s.ran, w) + Occurs(s.ranInline, w) + UnitsOf(s.buffer, w))
            <==> s.batches.items == map[] && s.taken == [] && s.fallbacks == []
  {
    var s := Run(c, Init(c), steps);
    RunTimed(c, Init(c), steps);
    RunSound(c, Init(c), steps);
    forall w
      ensures multiset(AllGiven(steps))[w] - (Occurs(s.ran, w) + Occurs(s.ranInline, w) + UnitsOf(s.buffer, w))
           == AllPending(s.batches.items)[w] + UnitsOf(s.taken, w) + UnitsOf(s.fallbacks, w)
    {
      StoppedIsQuiet(c, steps, w);
    }
    if s.batches.items != map[] {
      var k :| k in s.batches.items;
      PendingWithout(s.batches.items, k);
      assert AllPending(s.batches.items)[s.batches.items[k][0]] > 0;
    }
    if s.taken != [] {
      FirstCounts(s.taken);
    }
    if s.fallbacks != [] {
      FirstCounts(s.fallbacks);
    }
  }

  lemma FirstCounts(tasks: seq<Task>)
    requires Loaded(tasks) && tasks != []
    ensures tasks[0].units != [] && UnitsOf(tasks, tasks[0].units[0]) > 0
  {
    OccursAppend(tasks[0].units, Units(tasks[1..]), tasks[0].units[0]);
  }

  // ---------- the decision at the call ----------

  /** Nothing pending, nothing on its way to the queue, nothing being run inline. */
  predicate Settled(s: State) {
    s.batches.items == map[] && s.taken == [] && s.fallbacks == []
  }

  /** Of all the work given, exactly what the buffer holds is undone. */
  ghost predicate OnlyBufferedUndone(c: Config, steps: seq<Step>)
    requires Allowed(c, Init(c), steps)
  {
    var s := Run(c, Init(c), steps);
    forall w :: multiset(AllGiven(steps))[w] == Occurs(s.ran, w) + Occurs(s.ranInline, w) + UnitsOf(s.buffer, w)
  }

  /** No new work comes in. */
  predicate Quiet(steps: seq<Step>) {
    forall i :: 0 <= i < |steps| ==> !steps[i].Add? && !steps[i].Offer?
  }

  /** Stop is called now, and returns; nothing new comes in meanwhile. */
  ghost predicate StopRun(c: Config, s: State, more: seq<Step>) {
    && more != [] && more[0].StopCalled? && Quiet(more)
    && Allowed(c, s, more) && Run(c, s, more).returned
  }

  lemma {:induction false} RunsAppend(c: Config, s: State, a: seq<Step>, b: seq<Step>)
    requires Allowed(c, s, a) && Allowed(c, Run(c, s, a), b)
    ensures Allowed(c, s, a + b) && Run(c, s, a + b) == Run(c, Run(c, s, a), b)
    decreases |a|
  {
    hide Enabled, Do;
    if a == [] {
      assert a + b == b;
    } else {
      assert (a + b)[1..] == a[1..] + b;
      RunsAppend(c, Do(c, s, a[0]), a[1..], b);
    }
  }

  lemma QuietStep(c: Config, s: State, step: Step)
    requires Enabled(c, s, step) && !step.Add? && !step.Offer?
    ensures Settled(s) ==> Settled(Do(c, s, step))
    ensures forall key :: key in Do(c, s, step).batches.items ==> key in s.batches.items && step != Flush(key)
  {
  }

  lemma {:induction false} QuietKeepsSettled(c: Config, s: State, steps: seq<Step>)
    requires Allowed(c, s, steps) && Quiet(steps) && Settled(s)
    ensures Settled(Run(c, s, steps))
    decreases |steps|
  {
    hide Enabled, Do, Settled;
    if steps != [] {
      QuietStep(c, s, steps[0]);
      QuietKeepsSettled(c, Do(c, s, steps[0]), steps[1..]);
    }
  }

  /** What workers finishing does not touch. */
  predicate SameElse(a: State, b: State) {
    && a.batches == b.batches && a.taken == b.taken && a.fallbacks == b.fallbacks
    && a.stopping == b.stopping && |a.workers| == |b.workers|
  }

  /** A worker finishes what it runs and returns. */
  lemma {:induction false} FinishWorker(c: Config, s: State, w: int) returns (more: seq<Step>)
    requires s.stopping && 0 <= w < |s.workers| && (s.workers[w].Running? ==> s.workers[w].rest != [])
    ensures Allowed(c, s, more) && Quiet(more) && SameElse(s, Run(c, s, more))
    ensures Run(c, s, more).workers == s.workers[w := Exited]
    decreases |Rest(s.workers[w])|
  {
    match s.workers[w]
    case Exited =>
      more := [];
      assert s.workers[w := Exited] == s.workers;
    case Idle =>
      RunOne(c, s, WorkerExits(w));
      more := [WorkerExits(w)];
    case Running(rest) =>
      var s1 := Do(c, s, WorkerRuns(w));
      more := FinishWorker(c, s1, w);
      hide Allowed, Run;
      RunFirst(c, s, WorkerRuns(w), more);
      assert s1.workers[w := Exited] == s.workers[w := Exited];
      more := [WorkerRuns(w)] + more;
  }

  lemma {:induction false} FinishWorkers(c: Config, s: State, k: int) returns (more: seq<Step>)
    requires s.stopping && 0 <= k <= |s.workers|
    requires forall w :: 0 <= w < |s.workers| && s.workers[w].Running? ==> s.workers[w].rest != []
    requires forall w :: 0 <= w < k ==> s.workers[w].Exited?
    ensures Allowed(c, s, more) && Quiet(more) && SameElse(s, Run(c, s, more))
    ensures forall w :: 0 <= w < |s.workers| ==> Run(c, s, more).workers[w].Exited?
    decreases |s.workers| - k
  {
    if k == |s.workers| {
      more := [];
    } else {
      more := FinishWorker(c, s, k);
      var s1 := Run(c, s, more);
      var rest := FinishWorkers(c, s1, k + 1);
      hide Allowed, Run;
      RunsAppend(c, s, more, rest);
      more := more + rest;
    }
  }

  /** Stop can always run to its end while every flush on its way waits. */
  lemma StopAtOnce(c: Config, s: State) returns (more: seq<Step>)
    requires !s.stopping && Sound(c, s)
    ensures StopRun(c, s, more)
    ensures Settled(Run(c, s, more)) <==> Settled(s)
  {
    var s1 := Do(c, s, StopCalled);
    var finish := FinishWorkers(c, s1, 0);
    hide Allowed, Run, Sound;
    var s2 := Run(c, s1, finish);
    RunOne(c, s2, StopReturns);
    RunsAppend(c, s1, finish, [StopReturns]);
    RunFirst(c, s, StopCalled, finish + [StopReturns]);
    more := [StopCalled] + (finish + [StopReturns]);
  }

  /**
    At the call of Stop: whatever the rest of the system still does, only buffered work is left undone when it
    returns, if and only if nothing is pending, on its way to the queue, or run inline at the call.
  */
  lemma StopLeavesOnlyBufferedIff(c: Config, steps: seq<Step>)
    requires Allowed(c, Init(c), steps) && !Run(c, Init(c), steps).stopping
    ensures (forall more :: StopRun(c, Run(c, Init(c), steps), more) ==>
               Allowed(c, Init(c), steps + more) && OnlyBufferedUndone(c, steps + more))
            <==> Settled(Run(c, Init(c), steps))
  {
    var s := Run(c, Init(c), steps);
    RunSound(c, Init(c), steps);
    forall more | StopRun(c, s, more)
      ensures Allowed(c, Init(c), steps + more)
      ensures OnlyBufferedUndone(c, steps + more) <==> Settled(Run(c, s, more))
      ensures Settled(s) ==> Settled(Run(c, s, more))
    {
      RunsAppend(c, Init(c), steps, more);
      OnlyBufferedRemainsIff(c, steps + more);
      if Settled(s) { QuietKeepsSettled(c, s, more); }
    }
    hide Allowed, Run, StopRun, OnlyBufferedUndone, Sound;
    if !Settled(s) {
      var more := StopAtOnce(c, s);
      assert StopRun(c, s, more) && !OnlyBufferedUndone(c, steps + more);
    }
  }

  // ---------- deactivation ----------

  lemma {:induction false} FlushedAway(c: Config, s: State, steps: seq<Step>, key: string)
    requires Allowed(c, s, steps) && Quiet(steps) && key in Run(c, s, steps).batches.items
    ensures key in s.batches.items && Flush(key) !in steps
    decreases |steps|
  {
    if steps != [] {
      hide Enabled, Do;
      FlushedAway(c, Do(c, s, steps[0]), steps[1..], key);
      QuietStep(c, s, steps[0]);
    }
  }

  /**
    OnDeactivate: FlushAll, which flushes every key it finds, then Stop.  When nothing new comes in, FlushAll settles
    the batcher, and only buffered work is left undone if and only if no batch or task is then on its way to the
    queue or run inline by someone else.
  */
  lemma DeactivationIff(c: Config, steps: seq<Step>, flush: seq<Step>)
    requires Allowed(c, Init(c), steps) && Allowed(c, Run(c, Init(c), steps), flush) && Quiet(flush)
    requires forall key :: key in Run(c, Init(c), steps).batches.items ==> Flush(key) in flush
    requires !Run(c, Run(c, Init(c), steps), flush).stopping
    ensures Allowed(c, Init(c), steps + flush)
    ensures var s := Run(c, Init(c), steps + flush);
            && s.batches.items == map[]
            && ((forall more :: StopRun(c, s, more) ==>
                   Allowed(c, Init(c), steps + flush + more) && OnlyBufferedUndone(c, steps + flush + more))
                <==> s.taken == [] && s.fallbacks == [])
  {
    var s0 := Run(c, Init(c), steps);
    RunsAppend(c, Init(c), steps, flush);
    var s := Run(c, s0, flush);
    forall key ensures key !in s.batches.items {
      if key in s.batches.items { FlushedAway(c, s0, flush, key); }
    }
    assert s.batches.items == map[];
    StopLeavesOnlyBufferedIff(c, steps + flush);
  }

  /** A refused batch is worked off inline. */
  lemma {:induction false} FinishInline(c: Config, s: State) returns (more: seq<Step>)
    requires |s.fallbacks| == 1 && s.fallbacks[0].units != []
    ensures Allowed(c, s, more) && Quiet(more)
    ensures var s' := Run(c, s, more);
            s'.fallbacks == [] && s'.batches == s.batches && s'.taken == s.taken && s'.stopping == s.stopping
    decreases |s.fallbacks[0].units|
  {
    var s1 := Do(c, s, FallbackRuns(0));
    if |s.fallbacks[0].units| == 1 {
      RunOne(c, s, FallbackRuns(0));
      more := [FallbackRuns(0)];
    } else {
      more := FinishInline(c, s1);
      hide Allowed, Run;
      RunFirst(c, s, FallbackRuns(0), more);
      more := [FallbackRuns(0)] + more;
    }
  }

  /** FlushAll takes one batch to the queue, or works it off when the queue is full. */
  lemma FlushOne(c: Config, s: State, key: string) returns (more: seq<Step>)
    requires Pending(s.batches, key) != [] && s.taken == [] && s.fallbacks == []
    ensures Allowed(c, s, more) && Quiet(more) && Flush(key) in more
    ensures var s' := Run(c, s, more);
            s'.taken == [] && s'.fallbacks == [] && s'.batches == Flushed(s.batches, key) && s'.stopping == s.stopping
  {
    hide Allowed, Run;
    var s1 := Do(c, s, Flush(key));
    assert s1.taken == [Task(key, Pending(s.batches, key))];
    var outcome := if |s.buffer| < c.Capacity() then Buffered else Refused;
    DeliverOne(c, s1, outcome);
    var s2 := Do(c, s1, Deliver(0, outcome));
    hide Do, Enabled;
    var rest := [];
    RunNone(c, s2);
    if outcome.Refused? {
      rest := FinishInline(c, s2);
    }
    RunFirst(c, s1, Deliver(0, outcome), rest);
    assert Enabled(c, s, Flush(key)) by { FlushEnabled(c, s, key); }
    RunFirst(c, s, Flush(key), [Deliver(0, outcome)] + rest);
    more := [Flush(key)] + ([Deliver(0, outcome)] + rest);
    assert more[0] == Flush(key);
  }

  lemma FlushEnabled(c: Config, s: State, key: string)
    ensures Enabled(c, s, Flush(key))
  {
  }

  lemma DeliverOne(c: Config, s: State, outcome: Outcome)
    requires |s.taken| == 1 && s.fallbacks == []
    requires outcome == if |s.buffer| < c.Capacity() then Buffered else Refused
    ensures Enabled(c, s, Deliver(0, outcome))
    ensures var s' := Do(c, s, Deliver(0, outcome));
            && s'.taken == [] && s'.batches == s.batches && s'.stopping == s.stopping
            && s'.fallbacks == if outcome.Refused? then s.taken else []
  {
  }

  /** FlushAll on its own, from any state with nothing under way, ends with nothing under way. */
  lemma {:induction false} UndisturbedFlushAll(c: Config, s: State) returns (flush: seq<Step>)
    requires Timed(s.batches) && s.taken == [] && s.fallbacks == []
    ensures Allowed(c, s, flush) && Quiet(flush) && Run(c, s, flush).stopping == s.stopping
    ensures forall key :: key in s.batches.items ==> Flush(key) in flush
    ensures Settled(Run(c, s, flush))
    decreases |s.batches.items|
  {
    hide Allowed, Run, Timed, Flushed;
    if s.batches.items == map[] {
      flush := [];
      RunNone(c, s);
    } else {
      var key :| key in s.batches.items;
      PendingKey(s.batches, key);
      var first := FlushOne(c, s, key);
      FlushTimed(s.batches, key);
      var s1 := Run(c, s, first);
      var rest := UndisturbedFlushAll(c, s1);
      RunsAppend(c, s, first, rest);
      flush := first + rest;
      forall k | k in s.batches.items ensures Flush(k) in flush {
        if k != key { assert Flush(k) in rest; }
      }
    }
  }

  lemma PendingKey(b: Batches, key: string)
    requires Timed(b) && key in b.items
    ensures Pending(b, key) != [] && Flushed(b, key).items == b.items - {key}
  {
  }

  /** Deactivated with nothing else under way, the plugin leaves only buffered work undone. */
  lemma UndisturbedDeactivation(c: Config, steps: seq<Step>) returns (flush: seq<Step>)
    requires Allowed(c, Init(c), steps)
    requires var s := Run(c, Init(c), steps); !s.stopping && s.taken == [] && s.fallbacks == []
    ensures Allowed(c, Init(c), steps + flush) && Quiet(flush)
    ensures forall more :: StopRun(c, Run(c, Init(c), steps + flush), more) ==>
              Allowed(c, Init(c), steps + flush + more) && OnlyBufferedUndone(c, steps + flush + more)
  {
    RunTimed(c, Init(c), steps);
    flush := UndisturbedFlushAll(c, Run(c, Init(c), steps));
    RunsAppend(c, Init(c), steps, flush);
    DeactivationIff(c, steps, flush);
  }

  /** Stop waits for the workers only: a flushed batch may still be on its way to the queue when it returns. */
  lemma StopMissesFlush(c: Config, work: Work) returns (more: seq<Step>)
    ensures var steps := [Add(work), Flush(work.key)];
            && Allowed(c, Init(c), steps) && Run(c, Init(c), steps).taken == [Task(work.key, [work])]
            && StopRun(c, Run(c, Init(c), steps), more)
            && Allowed(c, Init(c), steps + more) && !OnlyBufferedUndone(c, steps + more)
  {
    var steps := [Add(work), Flush(work.key)];
    var s1 := Do(c, Init(c), Add(work));
    assert Pending(s1.batches, work.key) == [work];
    var s2 := Do(c, s1, Flush(work.key));
    assert s2.taken == [Task(work.key, [work])] && !s2.stopping;
    hide Allowed, Run, Do;
    RunOne(c, s1, Flush(work.key));
    RunFirst(c, Init(c), Add(work), [Flush(work.key)]);
    assert [Add(work)] + [Flush(work.key)] == steps;
    RunSound(c, Init(c), steps);
    hide Sound, StopRun, OnlyBufferedUndone;
    more := StopAtOnce(c, s2);
    StopRunAllowed(c, s2, more);
    RunsAppend(c, Init(c), steps, more);
    OnlyBufferedIffSettled(c, steps + more);
  }

  lemma StopRunAllowed(c: Config, s: State, more: seq<Step>)
    requires StopRun(c, s, more)
    ensures Allowed(c, s, more) && Run(c, s, more).returned
  {
  }

  lemma OnlyBufferedIffSettled(c: Config, steps: seq<Step>)
    requires Allowed(c, Init(c), steps) && Run(c, Init(c), steps).returned
    ensures OnlyBufferedUndone(c, steps) <==> Settled(Run(c, Init(c), steps))
  {
    OnlyBufferedRemainsIff(c, steps);
  }
}
