/**
  Transaction deduplication of the Matrix webhook (server/matrix_webhook.go): any number of handlers and
  two-phase cleanups at work at once.  One step is one section under the transactions lock, one reading of
  the clock, or the dispatch of one event.  Times are nanoseconds and never go back.
*/
module Transactions {

  const HOUR: int := 3_600_000_000_000

  /** A request is turned away, has passed the duplicate check, or has marked its transaction and dispatches. */
  datatype Phase = Ignored | Passed | Marked

  datatype Handler = Handler(
    txn: string,
    events: seq<string>,
    phase: Phase,
    checkedAt: int,
    checkedStep: int,
    markedAt: int,
    markedStep: int,
    left: seq<string>)

  datatype Cleanup = Spawned | Cut(cutoff: int) | Scanned(cutoff: int, toDelete: set<string>) | Finished(cutoff: int)

  /** One event handed to the queue, or processed by the handler itself. */
  datatype Dispatch = Dispatch(handler: int, event: string, queued: bool)

  datatype State = State(
    now: int,
    clock: int,
    processed: map<string, int>,
    handlers: seq<Handler>,
    cleanups: seq<Cleanup>,
    log: seq<Dispatch>)

  datatype Step =
    | Tick(to: int)
    | Check(txn: string, events: seq<string>)
    | Reject(handler: int)                 // the body cannot be read or parsed
    | Mark(handler: int)
    | Send(handler: int, queued: bool)     // the next event, to the queue or, when that is full, at once
    | ReadClock(cleanup: int)
    | Scan(cleanup: int)
    | Delete(cleanup: int)

  function Init(now: int): State {
    State(now, 0, map[], [], [], [])
  }

  function Old(processed: map<string, int>, cutoff: int): set<string> {
    set txn | txn in processed && processed[txn] < cutoff
  }

  /** The entries that survive the delete phase: those not scanned as old or no longer old. */
  function Kept(processed: map<string, int>, toDelete: set<string>, cutoff: int): map<string, int> {
    processed - (toDelete * Old(processed, cutoff))
  }

  predicate Enabled(s: State, step: Step) {
    match step
    case Tick(to) => s.now <= to
    case Check(_, _) => true
    case Reject(h) => 0 <= h < |s.handlers| && s.handlers[h].phase.Passed?
    case Mark(h) => 0 <= h < |s.handlers| && s.handlers[h].phase.Passed?
    case Send(h, _) => 0 <= h < |s.handlers| && s.handlers[h].phase.Marked? && s.handlers[h].left != []
    case ReadClock(k) => 0 <= k < |s.cleanups| && s.cleanups[k].Spawned?
    case Scan(k) => 0 <= k < |s.cleanups| && s.cleanups[k].Cut?
    case Delete(k) => 0 <= k < |s.cleanups| && s.cleanups[k].Scanned?
  }

  /** A request passes when it names a transaction that is not recorded. */
  predicate Passes(s: State, txn: string) {
    txn != "" && txn !in s.processed
  }

  function Arriving(s: State, txn: string, events: seq<string>): Handler {
    Handler(txn, events, if Passes(s, txn) then Passed else Ignored, s.now, s.clock, 0, 0, [])
  }

  function Marking(s: State, h: Handler): Handler {
    h.(phase := Marked, markedAt := s.now, markedStep := s.clock, left := h.events)
  }

  function Do(s: State, step: Step): State
    requires Enabled(s, step)
  {
    var s1 := s.(clock := s.clock + 1);
    match step
    case Tick(to) => s1.(now := to)
    case Check(txn, events) => s1.(handlers := s.handlers + [Arriving(s, txn, events)])
    case Reject(h) => s1.(handlers := s.handlers[h := s.handlers[h].(phase := Ignored)])
    case Mark(h) =>
      var processed := s.processed[s.handlers[h].txn := s.now];
      s1.(handlers := s.handlers[h := Marking(s, s.handlers[h])], processed := processed,
          cleanups := s.cleanups + if |processed| % 100 == 0 then [Spawned] else [])
    case Send(h, queued) =>
      var handler := s.handlers[h];
      s1.(handlers := s.handlers[h := handler.(left := handler.left[1..])],
          log := s.log + [Dispatch(h, handler.left[0], queued)])
    case ReadClock(k) => s1.(cleanups := s.cleanups[k := Cut(s.now - HOUR)])
    case Scan(k) =>
      s1.(cleanups := s.cleanups[k := Scanned(s.cleanups[k].cutoff, Old(s.processed, s.cleanups[k].cutoff))])
    case Delete(k) =>
      s1.(processed := Kept(s.processed, s.cleanups[k].toDelete, s.cleanups[k].cutoff),
          cleanups := s.cleanups[k := Finished(s.cleanups[k].cutoff)])
  }

  predicate Allowed(s: State, steps: seq<Step>)
    decreases |steps|
  {
    steps == [] || (Enabled(s, steps[0]) && Allowed(Do(s, steps[0]), steps[1..]))
  }

  function Run(s: State, steps: seq<Step>): State
    requires Allowed(s, steps)
    decreases |steps|
  {
    if steps == [] then s else Run(Do(s, steps[0]), steps[1..])
  }

  // ---------- at most once an hour ----------

  /** A mark is still on record, as itself or renewed, or is more than an hour old. */
  predicate Remembered(s: State, h: Handler) {
    h.phase.Marked? ==>
      && h.markedStep < s.clock && h.markedAt <= s.now
      && ((h.txn in s.processed && s.processed[h.txn] >= h.markedAt) || s.now > h.markedAt + HOUR)
  }

  /** `j` did not pass the check after the mark of `i` and within an hour of it. */
  predicate Apart(i: Handler, j: Handler) {
    i.phase.Marked? && !j.phase.Ignored? && i.txn == j.txn && i.markedStep < j.checkedStep ==>
      j.checkedAt > i.markedAt + HOUR
  }

  predicate CutsInPast(s: State, c: Cleanup) {
    c.Cut? || c.Scanned? ==> c.cutoff + HOUR <= s.now
  }

  ghost predicate Consistent(s: State) {
    && (forall i :: 0 <= i < |s.handlers| ==> Remembered(s, s.handlers[i]) && s.handlers[i].checkedStep < s.clock)
    && (forall k :: 0 <= k < |s.cleanups| ==> CutsInPast(s, s.cleanups[k]))
    && (forall i, j :: 0 <= i < |s.handlers| && 0 <= j < |s.handlers| ==> Apart(s.handlers[i], s.handlers[j]))
  }

  /** A request passes the check only when every mark of its transaction is more than an hour old. */
  lemma PassesOnlyAfterHour(s: State, txn: string, i: int)
    requires Consistent(s) && Passes(s, txn)
    requires 0 <= i < |s.handlers| && s.handlers[i].phase.Marked? && s.handlers[i].txn == txn
    ensures s.now > s.handlers[i].markedAt + HOUR
  {
    assert Remembered(s, s.handlers[i]);
  }

  lemma CheckConsistent(s: State, txn: string, events: seq<string>)
    requires Consistent(s)
    ensures Consistent(Do(s, Check(txn, events)))
  {
    var s' := Do(s, Check(txn, events));
    var n := |s.handlers|;
    forall i | 0 <= i < |s'.handlers|
      ensures Remembered(s', s'.handlers[i]) && s'.handlers[i].checkedStep < s'.clock
    {
      if i < n { assert Remembered(s, s.handlers[i]); }
    }
    forall i, j | 0 <= i < |s'.handlers| && 0 <= j < |s'.handlers| ensures Apart(s'.handlers[i], s'.handlers[j]) {
      if i < n && j < n {
        assert Apart(s.handlers[i], s.handlers[j]);
      } else if i < n && Passes(s, txn) && s.handlers[i].phase.Marked? && s.handlers[i].txn == txn {
        PassesOnlyAfterHour(s, txn, i);
      }
    }
    assert forall k :: 0 <= k < |s.cleanups| ==> CutsInPast(s, s.cleanups[k]) ==> CutsInPast(s', s'.cleanups[k]);
  }

  lemma MarkConsistent(s: State, h: int)
    requires Consistent(s) && Enabled(s, Mark(h))
    ensures Consistent(Do(s, Mark(h)))
  {
    var s' := Do(s, Mark(h));
    forall i | 0 <= i < |s'.handlers|
      ensures Remembered(s', s'.handlers[i]) && s'.handlers[i].checkedStep < s'.clock
    {
      assert Remembered(s, s.handlers[i]) && s.handlers[i].checkedStep < s.clock;
    }
    forall i, j | 0 <= i < |s'.handlers| && 0 <= j < |s'.handlers| ensures Apart(s'.handlers[i], s'.handlers[j]) {
      assert Apart(s.handlers[i], s.handlers[j]);
      assert s.handlers[j].checkedStep < s.clock;
    }
    forall k | 0 <= k < |s'.cleanups| ensures CutsInPast(s', s'.cleanups[k]) {
      if k < |s.cleanups| { assert CutsInPast(s, s.cleanups[k]); }
    }
  }

  lemma DeleteConsistent(s: State, k: int)
    requires Consistent(s) && Enabled(s, Delete(k))
    ensures Consistent(Do(s, Delete(k)))
  {
    var s' := Do(s, Delete(k));
    assert CutsInPast(s, s.cleanups[k]);
    forall i | 0 <= i < |s'.handlers|
      ensures Remembered(s', s'.handlers[i]) && s'.handlers[i].checkedStep < s'.clock
    {
      assert Remembered(s, s.handlers[i]);
    }
    forall c | 0 <= c < |s'.cleanups| ensures CutsInPast(s', s'.cleanups[c]) {
      assert CutsInPast(s, s.cleanups[c]);
    }
  }

  /** The remaining steps leave the record, and what handlers say of their check and mark, as they are. */
  lemma OtherConsistent(s: State, step: Step)
    requires Consistent(s) && Enabled(s, step) && !step.Check? && !step.Mark? && !step.Delete?
    ensures Consistent(Do(s, step))
  {
    var s' := Do(s, step);
    forall i | 0 <= i < |s'.handlers|
      ensures Remembered(s', s'.handlers[i]) && s'.handlers[i].checkedStep < s'.clock
    {
      assert Remembered(s, s.handlers[i]) && s.handlers[i].checkedStep < s.clock;
    }
    forall i, j | 0 <= i < |s'.handlers| && 0 <= j < |s'.handlers| ensures Apart(s'.handlers[i], s'.handlers[j]) {
      assert Apart(s.handlers[i], s.handlers[j]);
    }
    forall k | 0 <= k < |s'.cleanups| ensures CutsInPast(s', s'.cleanups[k]) {
      assert CutsInPast(s, s.cleanups[k]);
    }
  }

  lemma StepConsistent(s: State, step: Step)
    requires Consistent(s) && Enabled(s, step)
    ensures Consistent(Do(s, step))
  {
    hide Consistent, Do;
    match step
    case Check(txn, events) => CheckConsistent(s, txn, events);
    case Mark(h) => MarkConsistent(s, h);
    case Delete(k) => DeleteConsistent(s, k);
    case _ => OtherConsistent(s, step);
  }

  lemma {:induction false} RunConsistent(s: State, steps: seq<Step>)
    requires Consistent(s) && Allowed(s, steps)
    ensures Consistent(Run(s, steps))
    decreases |steps|
  {
    hide Consistent, Enabled, Do;
    if steps != [] {
      StepConsistent(s, steps[0]);
      RunConsistent(Do(s, steps[0]), steps[1..]);
    }
  }

  /**
    Idempotency over every interleaving of handlers and cleanups: of two requests for one transaction that
    were both let through, neither marked before the other was checked, or more than an hour lies between.
  */
  lemma ProcessedAtMostOnceAnHour(now: int, steps: seq<Step>, i: int, j: int)
    requires Allowed(Init(now), steps)
    requires var s := Run(Init(now), steps);
             && 0 <= i < |s.handlers| && 0 <= j < |s.handlers|
             && s.handlers[i].phase.Marked? && !s.handlers[j].phase.Ignored? && s.handlers[i].txn == s.handlers[j].txn
    ensures var hi, hj := Run(Init(now), steps).handlers[i], Run(Init(now), steps).handlers[j];
            hj.checkedStep <= hi.markedStep || hj.checkedAt > hi.markedAt + 3_600_000_000_000
  {
    RunConsistent(Init(now), steps);
    var s := Run(Init(now), steps);
    assert Apart(s.handlers[i], s.handlers[j]);
  }

  /** Some request for the transaction has been marked. */
  predicate MarkedFor(h: Handler, txn: string) {
    h.phase.Marked? && h.txn == txn
  }

  /** The record holds handlers' marks only. */
  ghost predicate Grounded(s: State) {
    forall txn :: txn in s.processed ==>
      exists i :: 0 <= i < |s.handlers| && MarkedFor(s.handlers[i], txn)
  }

  lemma StepGrounded(s: State, step: Step)
    requires Enabled(s, step) && Grounded(s)
    ensures Grounded(Do(s, step))
  {
    hide Old, Passes;
    var s' := Do(s, step);
    forall txn | txn in s'.processed ensures exists i :: 0 <= i < |s'.handlers| && MarkedFor(s'.handlers[i], txn) {
      if step.Mark? && s.handlers[step.handler].txn == txn {
        assert MarkedFor(s'.handlers[step.handler], txn);
      } else {
        var i :| 0 <= i < |s.handlers| && MarkedFor(s.handlers[i], txn);
        assert MarkedFor(s'.handlers[i], txn);
      }
    }
  }

  lemma {:induction false} RunGrounded(s: State, steps: seq<Step>)
    requires Grounded(s) && Allowed(s, steps)
    ensures Grounded(Run(s, steps))
    decreases |steps|
  {
    hide Grounded, Enabled, Do;
    if steps != [] {
      StepGrounded(s, steps[0]);
      RunGrounded(Do(s, steps[0]), steps[1..]);
    }
  }

  /**
    While no mark of a transaction is more than an hour old, a request is let through if and only if it names one and
    no request for it was marked before this one's check.
  */
  lemma LetThroughIff(now: int, steps: seq<Step>, txn: string, events: seq<string>)
    requires Allowed(Init(now), steps)
    requires var s := Run(Init(now), steps);
             forall i :: 0 <= i < |s.handlers| && MarkedFor(s.handlers[i], txn) ==>
               s.now <= s.handlers[i].markedAt + 3_600_000_000_000
    ensures var s := Run(Init(now), steps);
            var s' := Do(s, Check(txn, events));
            && |s'.handlers| == |s.handlers| + 1
            && (s'.handlers[|s.handlers|].phase.Passed?
                <==> txn != "" && forall i :: 0 <= i < |s.handlers| ==> !MarkedFor(s.handlers[i], txn))
  {
    var s := Run(Init(now), steps);
    RunConsistent(Init(now), steps);
    RunGrounded(Init(now), steps);
    hide Run, Allowed;
    if Passes(s, txn) {
      forall i | 0 <= i < |s.handlers| ensures !MarkedFor(s.handlers[i], txn) {
        if MarkedFor(s.handlers[i], txn) { PassesOnlyAfterHour(s, txn, i); }
      }
    }
  }

  // ---------- what a cleanup forgets ----------

  /** Once scanned, nothing older than the cutoff is there but what is to be deleted; once finished, nothing at all. */
  predicate Forgets(s: State, c: Cleanup) {
    match c
    case Spawned => true
    case Cut(cutoff) => cutoff + HOUR <= s.now
    case Scanned(cutoff, toDelete) => cutoff + HOUR <= s.now && Old(s.processed, cutoff) <= toDelete
    case Finished(cutoff) => cutoff + HOUR <= s.now && Old(s.processed, cutoff) == {}
  }

  predicate Forgetful(s: State) {
    forall k :: 0 <= k < |s.cleanups| ==> Forgets(s, s.cleanups[k])
  }

  lemma StepForgetful(s: State, step: Step)
    requires Enabled(s, step) && Forgetful(s)
    ensures Forgetful(Do(s, step))
  {
    var s' := Do(s, step);
    forall k | 0 <= k < |s'.cleanups| ensures Forgets(s', s'.cleanups[k]) {
      if k < |s.cleanups| { assert Forgets(s, s.cleanups[k]); }
    }
  }

  lemma {:induction false} RunForgetful(s: State, steps: seq<Step>)
    requires Forgetful(s) && Allowed(s, steps)
    ensures Forgetful(Run(s, steps))
    decreases |steps|
  {
    hide Forgetful, Enabled, Do;
    if steps != [] {
      StepForgetful(s, steps[0]);
      RunForgetful(Do(s, steps[0]), steps[1..]);
    }
  }

  predicate HasCutoff(s: State, k: int, cutoff: int) {
    0 <= k < |s.cleanups| && !s.cleanups[k].Spawned? && s.cleanups[k].cutoff == cutoff
  }

  lemma {:induction false} RunKeepsCutoff(s: State, steps: seq<Step>, k: int, cutoff: int)
    requires HasCutoff(s, k, cutoff) && Allowed(s, steps)
    ensures HasCutoff(Run(s, steps), k, cutoff)
    decreases |steps|
  {
    if steps != [] {
      assert HasCutoff(Do(s, steps[0]), k, cutoff) by { hide Old, Kept, Passes; }
      hide HasCutoff, Enabled, Do;
      RunKeepsCutoff(Do(s, steps[0]), steps[1..], k, cutoff);
    }
  }

  lemma {:induction false} RunJoins(s: State, a: seq<Step>, b: seq<Step>)
    requires Allowed(s, a + b)
    ensures Allowed(s, a) && Allowed(Run(s, a), b) && Run(s, a + b) == Run(Run(s, a), b)
    decreases |a|
  {
    hide Enabled, Do;
    if a == [] {
      assert a + b == b;
    } else {
      assert (a + b)[0] == a[0] && (a + b)[1..] == a[1..] + b;
      RunJoins(Do(s, a[0]), a[1..], b);
    }
  }

  /**
    Whatever runs beside it, a cleanup that has finished leaves no mark that was more than an hour old when it read the
    clock.
  */
  lemma CleanupForgets(now: int, before: seq<Step>, k: int, after: seq<Step>, txn: string)
    requires Allowed(Init(now), before + ([ReadClock(k)] + after))
    requires var s := Run(Init(now), before + ([ReadClock(k)] + after));
             0 <= k < |s.cleanups| && s.cleanups[k].Finished? && txn in s.processed
    ensures Allowed(Init(now), before)
    ensures Run(Init(now), before + ([ReadClock(k)] + after)).processed[txn] + 3_600_000_000_000
         >= Run(Init(now), before).now
  {
    var all := before + ([ReadClock(k)] + after);
    RunJoins(Init(now), before, [ReadClock(k)] + after);
    var s := Run(Init(now), before);
    assert ([ReadClock(k)] + after)[0] == ReadClock(k) && ([ReadClock(k)] + after)[1..] == after;
    RunKeepsCutoff(Do(s, ReadClock(k)), after, k, s.now - HOUR);
    RunForgetful(Init(now), all);
    var end := Run(Init(now), all);
    hide Run, Allowed;
    assert Forgets(end, end.cleanups[k]);
    assert txn !in Old(end.processed, s.now - HOUR);
  }

  /** How many marks of a run have brought the record to a multiple of a hundred. */
  function Hundreds(s: State, steps: seq<Step>): nat
    requires Allowed(s, steps)
    decreases |steps|
  {
    if steps == [] then 0
    else
      var s' := Do(s, steps[0]);
      (if steps[0].Mark? && |s'.processed| % 100 == 0 then 1 else 0) + Hundreds(s', steps[1..])
  }

  /** In every run just these marks have started a cleanup each. */
  lemma {:induction false} CleanupsStarted(s: State, steps: seq<Step>)
    requires Allowed(s, steps)
    ensures |Run(s, steps).cleanups| == |s.cleanups| + Hundreds(s, steps)
    decreases |steps|
  {
    if steps != [] {
      var s' := Do(s, steps[0]);
      assert |s'.cleanups| == |s.cleanups| + if steps[0].Mark? && |s'.processed| % 100 == 0 then 1 else 0 by {
        hide Old, Kept, Passes;
      }
      hide Enabled, Do;
      CleanupsStarted(s', steps[1..]);
    }
  }

  // ---------- each event once ----------

  function SentBy(log: seq<Dispatch>, h: int): seq<string> {
    if log == [] then []
    else SentBy(log[..|log| - 1], h) + if log[|log| - 1].handler == h then [log[|log| - 1].event] else []
  }

  lemma SentOneMore(log: seq<Dispatch>, d: Dispatch, h: int)
    ensures SentBy(log + [d], h) == SentBy(log, h) + if d.handler == h then [d.event] else []
  {
    assert (log + [d])[..|log|] == log;
  }

  /** A marked handler has dispatched the events it has not left; any other handler, and none at all, nothing. */
  predicate Accounted(s: State, h: int) {
    if 0 <= h < |s.handlers| && s.handlers[h].phase.Marked?
    then SentBy(s.log, h) + s.handlers[h].left == s.handlers[h].events
    else SentBy(s.log, h) == []
  }

  lemma StepAccounted(s: State, step: Step, h: int)
    requires Enabled(s, step) && Accounted(s, h)
    ensures Accounted(Do(s, step), h)
  {
    hide Old, Kept, Passes;
    if step.Send? {
      var handler := s.handlers[step.handler];
      SentOneMore(s.log, Dispatch(step.handler, handler.left[0], step.queued), h);
      hide SentBy;
      if h == step.handler {
        assert handler.left == [handler.left[0]] + handler.left[1..];
        assert (SentBy(s.log, h) + [handler.left[0]]) + handler.left[1..] == SentBy(s.log, h) + handler.left;
      }
    } else {
      hide SentBy;
      if step.Mark? && h == step.handler {
        assert SentBy(s.log, h) + s.handlers[h].events == s.handlers[h].events;
      }
    }
  }

  lemma {:induction false} RunAccounted(s: State, steps: seq<Step>, h: int)
    requires Allowed(s, steps) && Accounted(s, h)
    ensures Accounted(Run(s, steps), h)
    decreases |steps|
  {
    hide Accounted, Enabled, Do;
    if steps != [] {
      StepAccounted(s, steps[0], h);
      RunAccounted(Do(s, steps[0]), steps[1..], h);
    }
  }

  /**
    A marked transaction's events are queued or processed inline in order and exactly once each; an ignored
    request's never.
  */
  lemma EachEventOnce(now: int, steps: seq<Step>, h: int)
    requires Allowed(Init(now), steps) && 0 <= h < |Run(Init(now), steps).handlers|
    ensures var s := Run(Init(now), steps);
            && (s.handlers[h].phase.Marked? ==> SentBy(s.log, h) + s.handlers[h].left == s.handlers[h].events)
            && (s.handlers[h].phase.Marked? && s.handlers[h].left == [] ==> SentBy(s.log, h) == s.handlers[h].events)
            && (!s.handlers[h].phase.Marked? ==> SentBy(s.log, h) == [])
  {
    assert Accounted(Init(now), h);
    RunAccounted(Init(now), steps, h);
    var s := Run(Init(now), steps);
    assert SentBy(s.log, h) + [] == SentBy(s.log, h);
  }

  // ---------- why overlap matters ----------

  lemma RunFirst(s: State, step: Step, rest: seq<Step>)
    requires Enabled(s, step) && Allowed(Do(s, step), rest)
    ensures Allowed(s, [step] + rest) && Run(s, [step] + rest) == Run(Do(s, step), rest)
  {
    assert ([step] + rest)[1..] == rest;
  }

  lemma RunNone(s: State)
    ensures Allowed(s, []) && Run(s, []) == s
  {
  }

  /** Two overlapping requests for one transaction both dispatch its event. */
  lemma OverlapProcessesTwice(now: int, txn: string, event: string)
    requires txn != ""
    ensures var steps := [Check(txn, [event]), Check(txn, [event]), Mark(0), Mark(1), Send(0, true), Send(1, true)];
            && Allowed(Init(now), steps)
            && Run(Init(now), steps).log == [Dispatch(0, event, true), Dispatch(1, event, true)]
  {
    var s1 := Do(Init(now), Check(txn, [event]));
    var s2 := Do(s1, Check(txn, [event]));
    assert |s2.handlers| == 2 && s2.handlers[0].phase.Passed? && s2.handlers[1].phase.Passed?;
    assert s2.handlers[0].events == [event] && s2.handlers[1].events == [event] && s2.log == [];
    BothSend(s2, event);
    hide Run, Allowed, Do;
    var rest := [Mark(0), Mark(1), Send(0, true), Send(1, true)];
    RunFirst(s1, Check(txn, [event]), rest);
    RunFirst(Init(now), Check(txn, [event]), [Check(txn, [event])] + rest);
    assert [Check(txn, [event])] + ([Check(txn, [event])] + rest)
        == [Check(txn, [event]), Check(txn, [event]), Mark(0), Mark(1), Send(0, true), Send(1, true)];
  }

  lemma BothSend(s: State, event: string)
    requires |s.handlers| == 2 && s.handlers[0].phase.Passed? && s.handlers[1].phase.Passed?
    requires s.handlers[0].events == [event] && s.handlers[1].events == [event] && s.log == []
    ensures var steps := [Mark(0), Mark(1), Send(0, true), Send(1, true)];
            Allowed(s, steps) && Run(s, steps).log == [Dispatch(0, event, true), Dispatch(1, event, true)]
  {
    var s1 := Do(s, Mark(0));
    var s2 := Do(s1, Mark(1));
    assert s2.handlers[0].left == [event] && s2.handlers[1].left == [event] && s2.log == [];
    SendTwo(s2, event);
    assert Enabled(s, Mark(0)) && Enabled(s1, Mark(1));
    hide Run, Allowed, Do;
    RunFirst(s1, Mark(1), [Send(0, true), Send(1, true)]);
    RunFirst(s, Mark(0), [Mark(1), Send(0, true), Send(1, true)]);
  }

  lemma SendTwo(s: State, event: string)
    requires |s.handlers| == 2 && s.handlers[0].phase.Marked? && s.handlers[1].phase.Marked?
    requires s.handlers[0].left == [event] && s.handlers[1].left == [event] && s.log == []
    ensures var steps := [Send(0, true), Send(1, true)];
            Allowed(s, steps) && Run(s, steps).log == [Dispatch(0, event, true), Dispatch(1, event, true)]
  {
    hide Run, Allowed;
    var s1 := Do(s, Send(0, true));
    assert s1.log == [Dispatch(0, event, true)] && s1.handlers[1] == s.handlers[1];
    var s2 := Do(s1, Send(1, true));
    assert s2.log == [Dispatch(0, event, true)] + [Dispatch(1, event, true)];
    RunNone(s2);
    RunFirst(s1, Send(1, true), []);
    assert [Send(1, true)] + [] == [Send(1, true)];
    RunFirst(s, Send(0, true), [Send(1, true)]);
    assert [Send(0, true)] + [Send(1, true)] == [Send(0, true), Send(1, true)];
  }
}
