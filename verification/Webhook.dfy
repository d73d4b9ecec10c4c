/** The webhook's handler and its cleanup as objects (server/matrix_webhook.go). */
module Webhook {
  import opened Prelude
  import opened Transactions
  import opened Batching
  import Pipeline

  const OK: int := 200
  const BAD_REQUEST: int := 400
  const METHOD_NOT_ALLOWED: int := 405

  function TaskOf(event: string): Pipeline.Task {
    Pipeline.Task(event, [Pipeline.Work(event, "matrix-event")])
  }

  /**
    The first `queued` events came to the queue: the units of the tasks newly accepted are one for each of them, in
    order, and no task is empty.  The rest were worked off inline; none is lost, none is doubled.
  */
  ghost predicate Dispatched(events: seq<string>, queued: int, tasks0: seq<Pipeline.Task>, inline0: seq<string>,
                             tasks: seq<Pipeline.Task>, inline: seq<string>)
  {
    && 0 <= queued <= |events| && tasks0 <= tasks
    && Perform(tasks[|tasks0|..], events[..queued])
    && inline == inline0 + events[queued..]
  }

  /** The work of the tasks is one unit for each event, in order. */
  ghost predicate Perform(tasks: seq<Pipeline.Task>, events: seq<string>) {
    && (forall i :: 0 <= i < |tasks| ==> tasks[i].units != [])
    && |Pipeline.Units(tasks)| == |events|
    && forall i :: 0 <= i < |events| ==> Pipeline.Units(tasks)[i].key == events[i]
  }

  lemma PerformsOneMore(tasks: seq<Pipeline.Task>, events: seq<string>, event: string)
    requires Perform(tasks, events)
    ensures Perform(tasks + [TaskOf(event)], events + [event])
  {
    Pipeline.UnitsAppend(tasks, [TaskOf(event)]);
    Pipeline.UnitsOne(TaskOf(event));
  }

  lemma OfferIs(c: Pipeline.Config, s: Pipeline.State, task: Pipeline.Task)
    requires task.units != []
    ensures Pipeline.Enabled(c, s, Pipeline.Offer(task)) && Pipeline.Given(Pipeline.Offer(task)) == task.units
    ensures Pipeline.Do(c, s, Pipeline.Offer(task)) == s.(taken := s.taken + [task])
  {
  }

  /** Such tasks are work the pipeline may be offered at any time, so its conservation covers every unit of them. */
  lemma {:induction false} PerformedIsOffered(c: Pipeline.Config, s: Pipeline.State, tasks: seq<Pipeline.Task>)
      returns (steps: seq<Pipeline.Step>)
    requires forall i :: 0 <= i < |tasks| ==> tasks[i].units != []
    ensures |steps| == |tasks| && forall i :: 0 <= i < |tasks| ==> steps[i] == Pipeline.Offer(tasks[i])
    ensures Pipeline.Allowed(c, s, steps) && Pipeline.AllGiven(steps) == Pipeline.Units(tasks)
    ensures Pipeline.Run(c, s, steps) == s.(taken := s.taken + tasks)
    decreases |tasks|
  {
    hide Pipeline.Enabled, Pipeline.Do, Pipeline.Given;
    if tasks == [] {
      assert s.taken + tasks == s.taken;
      steps := [];
    } else {
      var s1 := s.(taken := s.taken + [tasks[0]]);
      OfferIs(c, s, tasks[0]);
      var rest := PerformedIsOffered(c, s1, tasks[1..]);
      steps := [Pipeline.Offer(tasks[0])] + rest;
      assert steps[1..] == rest;
      assert s.taken + [tasks[0]] + tasks[1..] == s.taken + tasks;
    }
  }

  lemma NothingDispatched(events: seq<string>, tasks: seq<Pipeline.Task>, inline: seq<string>)
    ensures Dispatched(events[..0], 0, tasks, inline, tasks, inline)
    ensures events[..|events|] == events
  {
    assert tasks[|tasks|..] == [];
    assert inline + events[..0][0..] == inline;
  }

  lemma OneQueued(events: seq<string>, n: int, tasks0: seq<Pipeline.Task>, inline0: seq<string>,
                  tasks: seq<Pipeline.Task>, inline: seq<string>)
    requires 0 <= n < |events| && Dispatched(events[..n], n, tasks0, inline0, tasks, inline)
    ensures Dispatched(events[..n + 1], n + 1, tasks0, inline0, tasks + [TaskOf(events[n])], inline)
  {
    hide Perform, TaskOf;
    assert events[..n][..n] == events[..n] && events[..n][n..] == [] == events[..n + 1][n + 1..];
    assert events[..n + 1][..n + 1] == events[..n] + [events[n]];
    PerformsOneMore(tasks[|tasks0|..], events[..n], events[n]);
    assert (tasks + [TaskOf(events[n])])[|tasks0|..] == tasks[|tasks0|..] + [TaskOf(events[n])];
  }

  lemma OneInline(events: seq<string>, n: int, queued: int, tasks0: seq<Pipeline.Task>, inline0: seq<string>,
                  tasks: seq<Pipeline.Task>, inline: seq<string>)
    requires 0 <= n < |events| && Dispatched(events[..n], queued, tasks0, inline0, tasks, inline)
    ensures Dispatched(events[..n + 1], queued, tasks0, inline0, tasks, inline + [events[n]])
  {
    hide Perform;
    assert events[..n + 1][..queued] == events[..n][..queued];
    assert events[..n + 1][queued..] == events[..n][queued..] + [events[n]];
  }

  class Handlers {
    var processedTransactions: map<string, int>
    const eventQueue: EventQueue

    /** The events that handlers processed themselves. */
    var processedInline: seq<string>

    constructor (queue: EventQueue)
      ensures processedTransactions == map[] && processedInline == [] && eventQueue == queue
    {
      processedTransactions, processedInline, eventQueue := map[], [], queue;
    }

    /** Both phases, with nobody in between: exactly the entries older than an hour go. */
    method CleanupOldTransactions(now: int)
      modifies this`processedTransactions
      ensures (processedTransactions
               == map txn | txn in old(processedTransactions)
                              && old(processedTransactions)[txn] + 3_600_000_000_000 >= now
                    :: old(processedTransactions)[txn])
    {
      var cutoff := now - HOUR;
      var toDelete := ScanOld(cutoff);
      DeleteOld(toDelete, cutoff);
    }

    /** The read phase. */
    method ScanOld(cutoff: int) returns (toDelete: seq<string>)
      ensures forall txn :: txn in toDelete <==> txn in Old(processedTransactions, cutoff)
    {
      toDelete := [];
      var txns := processedTransactions.Keys;
      while txns != {}
        invariant txns <= processedTransactions.Keys
        invariant forall txn :: txn in toDelete <==> txn in Old(processedTransactions, cutoff) && txn !in txns
        decreases |txns|
      {
        var txn :| txn in txns;
        if processedTransactions[txn] < cutoff {
          toDelete := toDelete + [txn];
        }
        txns := txns - {txn};
      }
    }

    /** The write phase, whatever has happened to the record since the scan. */
    method DeleteOld(toDelete: seq<string>, cutoff: int)
      modifies this`processedTransactions
      ensures processedTransactions == Kept(old(processedTransactions), (set txn | txn in toDelete), cutoff)
    {
      for i := 0 to |toDelete|
        invariant processedTransactions == Kept(old(processedTransactions), (set txn | txn in toDelete[..i]), cutoff)
      {
        assert toDelete[..i + 1] == toDelete[..i] + [toDelete[i]];
        var txnID := toDelete[i];
        if txnID in processedTransactions && processedTransactions[txnID] < cutoff {
          processedTransactions := processedTransactions - {txnID};
        }
      }
      assert toDelete[..|toDelete|] == toDelete;
    }

    /** Nothing leaves the queue meanwhile, so once it is full it stays full. */
    method DispatchEvents(events: seq<string>) returns (ghost queued: int)
      requires eventQueue.Valid()
      modifies this`processedInline, eventQueue
      ensures eventQueue.Valid()
      ensures Dispatched(events, queued, old(eventQueue.Accepted()), old(processedInline),
                         eventQueue.Accepted(), processedInline)
      ensures queued < |events| ==> eventQueue.Full()
    {
      hide Dispatched, TaskOf, EventQueue.Valid, EventQueue.Accepted, EventQueue.Full;
      ghost var tasks0, inline0 := eventQueue.Accepted(), processedInline;
      NothingDispatched(events, tasks0, inline0);
      queued := 0;
      for n := 0 to |events|
        invariant queued <= n && eventQueue.Valid()
        invariant Dispatched(events[..n], queued, tasks0, inline0, eventQueue.Accepted(), processedInline)
        invariant queued < n ==> eventQueue.Full()
      {
        ghost var tasks := eventQueue.Accepted();
        var ok := eventQueue.Enqueue(TaskOf(events[n]));
        if ok {
          OneQueued(events, n, tasks0, inline0, tasks, processedInline);
          queued := queued + 1;
        } else {
          OneInline(events, n, queued, tasks0, inline0, tasks, processedInline);
          processedInline := processedInline + [events[n]];
        }
      }
    }

    /** One request from arrival to answer; `body` is None when it cannot be read or parsed. */
    method HandleMatrixTransaction(put: bool, txnID: string, body: Option<seq<string>>, now: int)
      returns (status: int, shouldCleanup: bool, ghost queued: int)
      requires eventQueue.Valid()
      modifies this`processedTransactions, this`processedInline, eventQueue
      ensures eventQueue.Valid()
      ensures status == (if !put then 405
                         else if txnID == "" then 400
                         else if txnID in old(processedTransactions) then 200
                         else if body.None? then 400 else 200)
      ensures var processes := put && txnID != "" && txnID !in old(processedTransactions) && body.Some?;
              if processes
              then
                && processedTransactions == old(processedTransactions)[txnID := now]
                && shouldCleanup == (|processedTransactions| % 100 == 0)
                && Dispatched(body.value, queued, old(eventQueue.Accepted()), old(processedInline),
                              eventQueue.Accepted(), processedInline)
              else
                && processedTransactions == old(processedTransactions) && !shouldCleanup
                && eventQueue.Accepted() == old(eventQueue.Accepted()) && processedInline == old(processedInline)
    {
      if !put {
        return METHOD_NOT_ALLOWED, false, 0;
      }
      if txnID == "" {
        return BAD_REQUEST, false, 0;
      }
      if txnID in processedTransactions {
        return OK, false, 0;
      }
      if body.None? {
        return BAD_REQUEST, false, 0;
      }
      processedTransactions := processedTransactions[txnID := now];
      shouldCleanup := |processedTransactions| % 100 == 0;
      queued := DispatchEvents(body.value);
      status := OK;
    }
  }
}
