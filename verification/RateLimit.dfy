/**
  The token-bucket and interval rate limiter (server/matrix/ratelimit.go).

  Instants and durations are whole nanoseconds, as in Go's time package; the bucket level is a
  real number.  Every call receives the instant at which it reads the clock.
*/
module RateLimit {
  import opened Prelude

  const NANOS_PER_SECOND: int := 1_000_000_000
  const DISABLED_WAIT_TIME: int := 3600 * NANOS_PER_SECOND

  datatype Config = Config(rate: real, burst: int, interval: int) {
    predicate Disabled() {
      rate == 0.0 && burst == 0 && interval == 0
    }

    predicate IntervalMode() {
      interval > 0
    }

    /** A refused request can be admitted later. */
    predicate CanAdmit() {
      Disabled() || IntervalMode() || (rate > 0.0 && burst >= 1)
    }

    /** Token mode with the non-negative parameters that all presets have. */
    predicate TokenMode() {
      (rate != 0.0 || burst != 0 || interval != 0) && interval <= 0 && rate >= 0.0 && burst >= 0
    }
  }

  /** What Allow reads and writes; `lastOp` is None for Go's zero time. */
  datatype State = State(tokens: real, lastRefill: int, lastOp: Option<int>)

  function Seconds(ns: int): real {
    ns as real / 1000000000.0
  }

  /** Tokens gained in `ns` nanoseconds. */
  function Gain(rate: real, ns: int): real {
    Seconds(ns) * rate
  }

  function Capped(x: real, cap: int): real {
    if x > cap as real then cap as real else x
  }

  function Initial(c: Config, now: int): State {
    State(c.burst as real, now, None)
  }

  /** The limiter's decision at `now` and the state it leaves. */
  function AllowStep(c: Config, s: State, now: int): (State, bool) {
    if c.Disabled() then (s, true)
    else if c.IntervalMode() then
      if s.lastOp.Some? && now - s.lastOp.value < c.interval then (s, false)
      else (s.(lastOp := Some(now)), true)
    else
      var level := Capped(s.tokens + Gain(c.rate, now - s.lastRefill), c.burst);
      if level >= 1.0 then (s.(tokens := level - 1.0, lastRefill := now), true)
      else (s.(tokens := level, lastRefill := now), false)
  }

  // ---------- arithmetic of the refill ----------

  lemma GainAdds(rate: real, a: int, b: int)
    ensures Gain(rate, a) + Gain(rate, b) == Gain(rate, a + b)
  {
    assert Seconds(a) + Seconds(b) == Seconds(a + b);
  }

  lemma GainGrows(rate: real, a: int, b: int)
    requires rate >= 0.0 && a <= b
    ensures Gain(rate, a) <= Gain(rate, b)
  {
    assert Seconds(a) <= Seconds(b);
  }

  lemma GainZero(rate: real)
    ensures Gain(rate, 0) == 0.0
  {
  }

  // ---------- runs ----------

  predicate Nondecreasing(times: seq<int>) {
    forall i, j :: 0 <= i <= j < |times| ==> times[i] <= times[j]
  }

  /** The state after the first n calls of a run from `s`. */
  function StateAfter(c: Config, s: State, times: seq<int>, n: nat): State
    requires n <= |times|
  {
    if n == 0 then s else AllowStep(c, StateAfter(c, s, times, n - 1), times[n - 1]).0
  }

  /** The limiter's answers over the first n calls. */
  function Decisions(c: Config, s: State, times: seq<int>, n: nat): (d: seq<bool>)
    requires n <= |times|
    ensures |d| == n
  {
    if n == 0 then []
    else Decisions(c, s, times, n - 1) + [AllowStep(c, StateAfter(c, s, times, n - 1), times[n - 1]).1]
  }

  lemma {:induction false} DecisionsPrefix(c: Config, s: State, times: seq<int>, n: nat, k: nat)
    requires k <= n <= |times|
    ensures Decisions(c, s, times, n)[..k] == Decisions(c, s, times, k)
  {
    if k < n {
      DecisionsPrefix(c, s, times, n - 1, k);
      assert Decisions(c, s, times, n)[..k] == Decisions(c, s, times, n - 1)[..k];
    }
  }

  /** Admissions among the first n requests. */
  function Admitted(sched: seq<bool>, n: nat): nat
    requires n <= |sched|
  {
    if n == 0 then 0 else Admitted(sched, n - 1) + (if sched[n - 1] then 1 else 0)
  }

  /** Admissions among the first n requests made at or after `from`. */
  function AdmittedSince(times: seq<int>, sched: seq<bool>, n: nat, from: int): nat
    requires n <= |sched| && |sched| <= |times|
  {
    if n == 0 then 0
    else AdmittedSince(times, sched, n - 1, from) + (if sched[n - 1] && from <= times[n - 1] then 1 else 0)
  }

  /** Admissions among the first n requests made in the closed window [from, to]. */
  function AdmittedIn(times: seq<int>, sched: seq<bool>, n: nat, from: int, to: int): nat
    requires n <= |sched| && |sched| <= |times|
  {
    if n == 0 then 0
    else AdmittedIn(times, sched, n - 1, from, to)
         + (if sched[n - 1] && from <= times[n - 1] <= to then 1 else 0)
  }

  /** The contract a rate limiter owes its server: at most burst + rate*(to - from) in every window. */
  ghost predicate ConformsToBurst(c: Config, times: seq<int>, sched: seq<bool>, n: nat)
    requires n <= |sched| && |sched| <= |times|
  {
    forall from, to :: from <= to ==>
      AdmittedIn(times, sched, n, from, to) as real <= c.burst as real + Gain(c.rate, to - from)
  }

  /** The bucket level when `sched`, not the limiter, decides which requests take a token. */
  function Level(c: Config, times: seq<int>, sched: seq<bool>, n: nat): real
    requires n <= |sched| && |sched| <= |times|
  {
    if n == 0 then c.burst as real
    else
      var before := if n == 1 then c.burst as real
                    else Capped(Level(c, times, sched, n - 1) + Gain(c.rate, times[n - 1] - times[n - 2]), c.burst);
      before - (if sched[n - 1] then 1.0 else 0.0)
  }

  ghost predicate NeverDry(c: Config, times: seq<int>, sched: seq<bool>, n: nat)
    requires n <= |sched| && |sched| <= |times|
  {
    forall k :: 0 <= k <= n ==> Level(c, times, sched, k) >= 0.0
  }

  // ---------- windows of a nondecreasing run ----------

  lemma {:induction false} SinceIsWindow(times: seq<int>, sched: seq<bool>, n: nat, from: int, to: int)
    requires n <= |sched| <= |times|
    requires forall i :: 0 <= i < n ==> times[i] <= to
    ensures AdmittedIn(times, sched, n, from, to) == AdmittedSince(times, sched, n, from)
  {
    if n > 0 {
      SinceIsWindow(times, sched, n - 1, from, to);
    }
  }

  lemma {:induction false} NothingBefore(times: seq<int>, sched: seq<bool>, n: nat, from: int)
    requires n <= |sched| <= |times|
    requires forall i :: 0 <= i < n ==> times[i] < from
    ensures AdmittedSince(times, sched, n, from) == 0
  {
    if n > 0 {
      NothingBefore(times, sched, n - 1, from);
    }
  }

  /** The last request of the run that is not after `to`: its prefix holds the window's admissions. */
  lemma {:induction false} WindowPrefix(times: seq<int>, sched: seq<bool>, n: nat, from: int, to: int) returns (m: nat)
    requires n <= |sched| <= |times| && Nondecreasing(times)
    ensures m <= n
    ensures m > 0 ==> times[m - 1] <= to
    ensures AdmittedIn(times, sched, n, from, to) == AdmittedSince(times, sched, m, from)
  {
    if n == 0 || times[n - 1] <= to {
      m := n;
      SinceIsWindow(times, sched, n, from, to);
    } else {
      m := WindowPrefix(times, sched, n - 1, from, to);
    }
  }

  lemma {:induction false} WindowGrows(times: seq<int>, sched: seq<bool>, m: nat, n: nat, from: int, to: int)
    requires m <= n <= |sched| <= |times|
    ensures AdmittedIn(times, sched, m, from, to) <= AdmittedIn(times, sched, n, from, to)
  {
    if m < n {
      WindowGrows(times, sched, m, n - 1, from, to);
    }
  }

  // ---------- the bucket level measures every window at once ----------

  /** The level never exceeds what any window ending at the last request leaves over. */
  lemma {:induction false} LevelBelowWindow(c: Config, times: seq<int>, sched: seq<bool>, n: nat, from: int)
    requires c.rate >= 0.0 && 0 < n <= |sched| <= |times| && Nondecreasing(times)
    requires from <= times[n - 1]
    ensures Level(c, times, sched, n)
         <= c.burst as real + Gain(c.rate, times[n - 1] - from) - AdmittedSince(times, sched, n, from) as real
  {
    var last := times[n - 1];
    GainGrows(c.rate, 0, last - from);
    if n == 1 {
    } else if from <= times[n - 2] {
      LevelBelowWindow(c, times, sched, n - 1, from);
      GainAdds(c.rate, times[n - 2] - from, last - times[n - 2]);
    } else {
      NothingBefore(times, sched, n - 1, from);
    }
  }

  /** Some window is exactly as full as the level says. */
  lemma {:induction false} LevelIsSomeWindow(c: Config, times: seq<int>, sched: seq<bool>, n: nat) returns (from: int)
    requires c.rate >= 0.0 && 0 < n <= |sched| <= |times| && Nondecreasing(times)
    ensures from <= times[n - 1]
    ensures Level(c, times, sched, n)
         == c.burst as real + Gain(c.rate, times[n - 1] - from) - AdmittedSince(times, sched, n, from) as real
  {
    var last := times[n - 1];
    if n > 1 && Level(c, times, sched, n - 1) + Gain(c.rate, last - times[n - 2]) <= c.burst as real {
      from := LevelIsSomeWindow(c, times, sched, n - 1);
      GainAdds(c.rate, times[n - 2] - from, last - times[n - 2]);
    } else {
      from := last;
      LevelBelowWindow(c, times, sched, n, last);
    }
  }

  /** A schedule keeps to burst + rate*dt in every closed window exactly when its bucket never runs dry. */
  lemma ConformsIffNeverDry(c: Config, times: seq<int>, sched: seq<bool>, n: nat)
    requires c.rate >= 0.0 && c.burst >= 0 && n <= |sched| <= |times| && Nondecreasing(times)
    ensures ConformsToBurst(c, times, sched, n) <==> NeverDry(c, times, sched, n)
  {
    if NeverDry(c, times, sched, n) {
      forall from: int, to: int | from <= to
        ensures AdmittedIn(times, sched, n, from, to) as real <= c.burst as real + Gain(c.rate, to - from)
      {
        NeverDryBoundsWindow(c, times, sched, n, from, to);
      }
      assert ConformsToBurst(c, times, sched, n);
    }
    if ConformsToBurst(c, times, sched, n) {
      forall k | 0 <= k <= n ensures Level(c, times, sched, k) >= 0.0 {
        ConformingNeverDry(c, times, sched, n, k);
      }
    }
  }

  lemma ConformingNeverDry(c: Config, times: seq<int>, sched: seq<bool>, n: nat, k: nat)
    requires c.rate >= 0.0 && c.burst >= 0 && k <= n <= |sched| <= |times| && Nondecreasing(times)
    requires ConformsToBurst(c, times, sched, n)
    ensures Level(c, times, sched, k) >= 0.0
  {
    if k > 0 {
      var from := LevelIsSomeWindow(c, times, sched, k);
      SinceIsWindow(times, sched, k, from, times[k - 1]);
      WindowGrows(times, sched, k, n, from, times[k - 1]);
      assert AdmittedIn(times, sched, n, from, times[k - 1]) as real
          <= c.burst as real + Gain(c.rate, times[k - 1] - from);
    }
  }

  lemma NeverDryBoundsWindow(c: Config, times: seq<int>, sched: seq<bool>, n: nat, from: int, to: int)
    requires c.rate >= 0.0 && c.burst >= 0 && n <= |sched| <= |times| && Nondecreasing(times) && from <= to
    requires NeverDry(c, times, sched, n)
    ensures AdmittedIn(times, sched, n, from, to) as real <= c.burst as real + Gain(c.rate, to - from)
  {
    GainGrows(c.rate, 0, to - from);
    var m := WindowPrefix(times, sched, n, from, to);
    if m > 0 && from <= times[m - 1] {
      LevelBelowWindow(c, times, sched, m, from);
      GainGrows(c.rate, times[m - 1] - from, to - from);
    } else {
      NothingBefore(times, sched, m, from);
    }
  }

  // ---------- token mode ----------

  /** A full bucket created no later than the first call. */
  predicate FreshRun(times: seq<int>, start: int) {
    Nondecreasing(times) && (times != [] ==> start <= times[0])
  }

  lemma AllowTakesToken(c: Config, s: State, now: int)
    requires c.TokenMode() && 0.0 <= s.tokens <= c.burst as real && s.lastRefill <= now
    ensures var level := Capped(s.tokens + Gain(c.rate, now - s.lastRefill), c.burst);
            var (s', ok) := AllowStep(c, s, now);
            && s'.tokens == level - (if ok then 1.0 else 0.0)
            && 0.0 <= s'.tokens <= c.burst as real
            && s'.lastRefill == now
            && (s.tokens == c.burst as real ==> level == c.burst as real)
  {
    GainGrows(c.rate, 0, now - s.lastRefill);
    GainZero(c.rate);
  }

  /** The limiter's own level is the level of its own answers, and stays within [0, burst]. */
  lemma {:induction false} TokensTrackDecisions(c: Config, start: int, times: seq<int>, n: nat, sched: seq<bool>)
    requires c.TokenMode() && n <= |times| == |sched| && FreshRun(times, start)
    requires sched == Decisions(c, Initial(c, start), times, |times|)
    ensures var s := StateAfter(c, Initial(c, start), times, n);
            && 0.0 <= s.tokens <= c.burst as real
            && s.tokens == Level(c, times, sched, n)
            && s.lastRefill == (if n == 0 then start else times[n - 1])
  {
    if n > 0 {
      TokensTrackDecisions(c, start, times, n - 1, sched);
      DecisionAt(c, start, times, n);
      AllowTakesToken(c, StateAfter(c, Initial(c, start), times, n - 1), times[n - 1]);
    }
  }

  lemma DecisionAt(c: Config, start: int, times: seq<int>, n: nat)
    requires 0 < n <= |times|
    ensures Decisions(c, Initial(c, start), times, |times|)[n - 1]
         == AllowStep(c, StateAfter(c, Initial(c, start), times, n - 1), times[n - 1]).1
  {
    var sched := Decisions(c, Initial(c, start), times, |times|);
    DecisionsPrefix(c, Initial(c, start), times, |times|, n);
    assert sched[n - 1] == sched[..n][n - 1];
  }

  /** Window bound: whatever the call times, every closed window holds at most burst + rate*(to - from) admissions. */
  lemma WindowBound(c: Config, start: int, times: seq<int>)
    requires c.TokenMode() && FreshRun(times, start)
    ensures ConformsToBurst(c, times, Decisions(c, Initial(c, start), times, |times|), |times|)
  {
    var sched := Decisions(c, Initial(c, start), times, |times|);
    forall k | 0 <= k <= |times| ensures Level(c, times, sched, k) >= 0.0 {
      TokensTrackDecisions(c, start, times, k, sched);
    }
    ConformsIffNeverDry(c, times, sched, |times|);
  }

  /** Greedy dominance: a rival's lead in tokens is never more than its lag in admissions. */
  lemma {:induction false} GreedyLead(c: Config, times: seq<int>, mine: seq<bool>, rival: seq<bool>, n: nat)
    requires c.rate >= 0.0 && n <= |times| == |mine| == |rival| && Nondecreasing(times)
    requires forall k :: 0 < k <= n ==>
      (mine[k - 1] <==> Level(c, times, mine, k) + (if mine[k - 1] then 1.0 else 0.0) >= 1.0)
    requires NeverDry(c, times, rival, n)
    ensures Admitted(rival, n) <= Admitted(mine, n)
    ensures Level(c, times, rival, n) - Level(c, times, mine, n)
         <= (Admitted(mine, n) - Admitted(rival, n)) as real
  {
    if n > 0 {
      GreedyLead(c, times, mine, rival, n - 1);
      assert Level(c, times, mine, n) >= 0.0 || !mine[n - 1];
      if rival[n - 1] && !mine[n - 1] {
        assert Level(c, times, mine, n) < 1.0 <= Level(c, times, rival, n) + 1.0;
        assert n > 1;
        assert Level(c, times, rival, n - 1) > Level(c, times, mine, n - 1);
      }
    }
  }

  /** No schedule that keeps to the limits admits more requests, up to any point, than Allow does. */
  lemma GreedyOptimal(c: Config, start: int, times: seq<int>, rival: seq<bool>, n: nat)
    requires c.TokenMode() && FreshRun(times, start) && |rival| == |times| && n <= |times|
    requires ConformsToBurst(c, times, rival, |times|)
    ensures Admitted(rival, n) <= Admitted(Decisions(c, Initial(c, start), times, |times|), n)
  {
    var mine := Decisions(c, Initial(c, start), times, |times|);
    ConformsIffNeverDry(c, times, rival, |times|);
    forall k | 0 < k <= n
      ensures mine[k - 1] <==> Level(c, times, mine, k) + (if mine[k - 1] then 1.0 else 0.0) >= 1.0
    {
      TokensTrackDecisions(c, start, times, k, mine);
      DecisionAt(c, start, times, k);
      TokensTrackDecisions(c, start, times, k - 1, mine);
      AllowTakesToken(c, StateAfter(c, Initial(c, start), times, k - 1), times[k - 1]);
    }
    GreedyLead(c, times, mine, rival, n);
  }

  /** The one configuration the window bound excludes: a disabled limiter admits every request. */
  lemma {:induction false} DisabledAdmitsAll(c: Config, s: State, times: seq<int>, n: nat)
    requires c.rate == 0.0 && c.burst == 0 && c.interval == 0 && n <= |times|
    ensures Admitted(Decisions(c, s, times, n), n) == n && StateAfter(c, s, times, n) == s
  {
    if n > 0 {
      DisabledAdmitsAll(c, s, times, n - 1);
      AdmittedPrefix(Decisions(c, s, times, n), Decisions(c, s, times, n - 1), n - 1);
    }
  }

  lemma {:induction false} AdmittedPrefix(a: seq<bool>, b: seq<bool>, n: nat)
    requires n <= |a| && n <= |b| && a[..n] == b[..n]
    ensures Admitted(a, n) == Admitted(b, n)
  {
    if n > 0 {
      assert a[n - 1] == a[..n][n - 1] && b[n - 1] == b[..n][n - 1];
      assert a[..n - 1] == a[..n][..n - 1] && b[..n - 1] == b[..n][..n - 1];
      AdmittedPrefix(a, b, n - 1);
    }
  }

  // ---------- interval mode ----------

  /** Admitted requests are at least `interval` apart. */
  ghost predicate Spaced(times: seq<int>, sched: seq<bool>, n: nat, interval: int)
    requires n <= |sched| && |sched| <= |times|
  {
    forall i, j :: 0 <= i < j < n && sched[i] && sched[j] ==> times[j] - times[i] >= interval
  }

  function LastAdmitted(times: seq<int>, sched: seq<bool>, n: nat): Option<int>
    requires n <= |sched| && |sched| <= |times|
  {
    if n == 0 then None
    else if sched[n - 1] then Some(times[n - 1])
    else LastAdmitted(times, sched, n - 1)
  }

  lemma {:induction false} LastAdmittedAt(times: seq<int>, sched: seq<bool>, n: nat) returns (i: int)
    requires n <= |sched| <= |times| && Nondecreasing(times)
    ensures LastAdmitted(times, sched, n).Some? ==>
              0 <= i < n && sched[i] && LastAdmitted(times, sched, n) == Some(times[i])
    ensures forall j :: 0 <= j < n && sched[j] ==>
              LastAdmitted(times, sched, n).Some? && times[j] <= LastAdmitted(times, sched, n).value
    ensures Admitted(sched, n) > 0 <==> LastAdmitted(times, sched, n).Some?
  {
    i := -1;
    if n > 0 {
      if sched[n - 1] { i := n - 1; } else { i := LastAdmittedAt(times, sched, n - 1); }
    }
  }

  lemma {:induction false} IntervalDecisions(c: Config, start: int, times: seq<int>, n: nat, sched: seq<bool>)
    requires c.IntervalMode() && n <= |times| == |sched| && Nondecreasing(times)
    requires sched == Decisions(c, Initial(c, start), times, |times|)
    ensures StateAfter(c, Initial(c, start), times, n).lastOp == LastAdmitted(times, sched, n)
    ensures Spaced(times, sched, n, c.interval)
    ensures n > 0 ==> (sched[n - 1] <==>
              LastAdmitted(times, sched, n - 1).None?
              || times[n - 1] - LastAdmitted(times, sched, n - 1).value >= c.interval)
  {
    if n > 0 {
      IntervalDecisions(c, start, times, n - 1, sched);
      DecisionAt(c, start, times, n);
      var _ := LastAdmittedAt(times, sched, n - 1);
    }
  }

  /** k spaced admissions since `from` take (k - 1) intervals. */
  lemma {:induction false} SpacedSince(times: seq<int>, sched: seq<bool>, n: nat, interval: int, from: int)
    requires interval > 0 && n <= |sched| <= |times| && Nondecreasing(times)
    requires Spaced(times, sched, n, interval)
    ensures var k := AdmittedSince(times, sched, n, from);
            k > 0 ==> LastAdmitted(times, sched, n).Some?
                      && LastAdmitted(times, sched, n).value >= from + (k - 1) * interval
  {
    if n > 0 {
      SpacedSince(times, sched, n - 1, interval, from);
      var k := AdmittedSince(times, sched, n - 1, from);
      if sched[n - 1] && k > 0 {
        SpacedFromLast(times, sched, n, interval);
        assert k * interval == (k - 1) * interval + interval;
      }
    }
  }

  lemma SpacedFromLast(times: seq<int>, sched: seq<bool>, n: nat, interval: int)
    requires 0 < n <= |sched| <= |times| && Nondecreasing(times)
    requires Spaced(times, sched, n, interval) && sched[n - 1] && LastAdmitted(times, sched, n - 1).Some?
    ensures times[n - 1] - LastAdmitted(times, sched, n - 1).value >= interval
  {
    var i := LastAdmittedAt(times, sched, n - 1);
  }

  /** Interval mode admits at most (to - from) / interval + 1 requests in any closed window. */
  lemma IntervalWindowBound(c: Config, start: int, times: seq<int>, from: int, to: int)
    requires c.IntervalMode() && Nondecreasing(times) && from <= to
    ensures AdmittedIn(times, Decisions(c, Initial(c, start), times, |times|), |times|, from, to)
         <= (to - from) / c.interval + 1
  {
    var sched := Decisions(c, Initial(c, start), times, |times|);
    IntervalDecisions(c, start, times, |times|, sched);
    var m := WindowPrefix(times, sched, |times|, from, to);
    SpacedSince(times, sched, m, c.interval, from);
    var i := LastAdmittedAt(times, sched, m);
    var k := AdmittedSince(times, sched, m, from);
    if k > 0 {
      assert (k - 1) * c.interval <= to - from;
      FloorAtLeast(to - from, c.interval, k - 1);
    } else {
      FloorAtLeast(to - from, c.interval, 0);
    }
  }

  lemma FloorAtLeast(x: int, d: int, q: int)
    requires d > 0 && x >= q * d
    ensures x / d >= q
  {
    var f := x / d;
    assert x < (f + 1) * d;
    assert q >= f + 1 ==> q * d >= (f + 1) * d;
  }

  /** No spaced schedule admits more requests, up to any point, than Allow does in interval mode. */
  lemma IntervalOptimal(c: Config, start: int, times: seq<int>, rival: seq<bool>, n: nat)
    requires c.IntervalMode() && Nondecreasing(times) && |rival| == |times| && n <= |times|
    requires Spaced(times, rival, |times|, c.interval)
    ensures Admitted(rival, n) <= Admitted(Decisions(c, Initial(c, start), times, |times|), n)
  {
    IntervalLead(c, start, times, rival, Decisions(c, Initial(c, start), times, |times|), n);
  }

  /** Greedy keeps at least as many admissions and, when level, an earlier last one. */
  lemma {:induction false} IntervalLead(c: Config, start: int, times: seq<int>, rival: seq<bool>, mine: seq<bool>,
                                        n: nat)
    requires c.IntervalMode() && Nondecreasing(times) && n <= |times| == |rival| == |mine|
    requires Spaced(times, rival, |times|, c.interval)
    requires mine == Decisions(c, Initial(c, start), times, |times|)
    ensures Admitted(rival, n) <= Admitted(mine, n)
    ensures LastAdmitted(times, mine, n).Some? && Admitted(rival, n) == Admitted(mine, n) ==>
              LastAdmitted(times, rival, n).Some?
              && LastAdmitted(times, mine, n).value <= LastAdmitted(times, rival, n).value
  {
    if n > 0 {
      IntervalLead(c, start, times, rival, mine, n - 1);
      IntervalDecisions(c, start, times, n, mine);
      var i := LastAdmittedAt(times, rival, n - 1);
      var j := LastAdmittedAt(times, mine, n - 1);
    }
  }

  // ---------- waiting ----------

  /** The exact time, in nanoseconds after the last refill, at which the bucket holds one token. */
  function NeededNanos(c: Config, s: State): real
    requires c.rate != 0.0
  {
    (1.0 - s.tokens) / c.rate * 1000000000.0
  }

  function WaitTime(c: Config, s: State, now: int): int {
    if c.Disabled() then 0
    else if c.IntervalMode() then
      if s.lastOp.None? then 0
      else if now - s.lastOp.value >= c.interval then 0
      else c.interval - (now - s.lastOp.value)
    else if s.tokens >= 1.0 then 0
    else if c.rate <= 0.0 then DISABLED_WAIT_TIME
    else NeededNanos(c, s).Floor
  }

  /** Least whole number of nanoseconds that is enough. */
  function LeastDelay(c: Config, s: State): int
    requires c.rate > 0.0
  {
    if NeededNanos(c, s) == NeededNanos(c, s).Floor as real then NeededNanos(c, s).Floor
    else NeededNanos(c, s).Floor + 1
  }

  lemma NeededIsExact(c: Config, s: State, d: int)
    requires c.rate > 0.0
    ensures s.tokens + Gain(c.rate, d) >= 1.0 <==> d as real >= NeededNanos(c, s)
  {
    var need := NeededNanos(c, s);
    var q := (1.0 - s.tokens) / c.rate;
    assert q * c.rate == 1.0 - s.tokens;
    assert Gain(c.rate, d) - (1.0 - s.tokens) == (Seconds(d) - q) * c.rate;
    if Seconds(d) >= q { assert (Seconds(d) - q) * c.rate >= 0.0; }
    if Seconds(d) < q { assert (q - Seconds(d)) * c.rate > 0.0; }
  }

  /**
    Wait exactness.  After a refusal at `now`, Allow succeeds at now + d exactly when d reaches the
    least delay, for every d; the computed wait is that delay in interval mode, and in token mode
    is it or, when the exact time is no whole number of nanoseconds, one nanosecond less.
  */
  lemma WaitIsExact(c: Config, s0: State, now: int, d: nat)
    requires !c.Disabled() && (c.IntervalMode() || (c.rate > 0.0 && c.burst >= 1))
    requires !AllowStep(c, s0, now).1
    ensures var s := AllowStep(c, s0, now).0;
            var w := WaitTime(c, s, now);
            if c.IntervalMode()
              then w > 0 && (AllowStep(c, s, now + d).1 <==> d >= w)
              else w >= 0 && LeastDelay(c, s) > 0
                   && (AllowStep(c, s, now + d).1 <==> d >= LeastDelay(c, s))
                   && (w == LeastDelay(c, s) || w + 1 == LeastDelay(c, s))
                   && (w == LeastDelay(c, s) <==> w as real == NeededNanos(c, s))
  {
    var s := AllowStep(c, s0, now).0;
    if !c.IntervalMode() {
      NeededIsExact(c, s, d);
      NeededIsExact(c, s, 0);
      GainZero(c.rate);
      assert NeededNanos(c, s) > 0.0;
    }
  }

  /** Where a request is admitted without a refill there is nothing to wait for. */
  lemma NoWaitWhenAdmitted(c: Config, s: State, now: int)
    requires AllowStep(c, s, now).1 && (c.Disabled() || c.IntervalMode() || now == s.lastRefill)
    ensures WaitTime(c, s, now) == 0
  {
    GainZero(c.rate);
  }

  /** A rate of zero never recovers: the wait is an hour and every later call is refused. */
  lemma StarvedForever(c: Config, s0: State, now: int, later: int)
    requires !c.Disabled() && !c.IntervalMode() && c.rate == 0.0 && !AllowStep(c, s0, now).1
    ensures var s := AllowStep(c, s0, now).0;
            WaitTime(c, s, now) == 3_600_000_000_000 && !AllowStep(c, s, later).1
  {
    assert Gain(c.rate, later - now) == 0.0;
  }

  /** A refusal only refills: it never changes what a later call is answered. */
  lemma RefusalIsTransparent(c: Config, s: State, now: int, later: int)
    requires !c.Disabled() && (c.IntervalMode() || c.rate >= 0.0)
    requires now <= later && !AllowStep(c, s, now).1
    ensures AllowStep(c, AllowStep(c, s, now).0, later) == AllowStep(c, s, later)
  {
    GainAdds(c.rate, now - s.lastRefill, later - now);
  }

  /**
    A limiter without rate or without burst that refuses once refuses for ever; its waits are real ones up to this
    rate.
  */
  lemma NeverAdmits(c: Config, s: State, now: int, later: int)
    requires c.TokenMode() && !c.CanAdmit()
    requires now <= later && !AllowStep(c, s, now).1
    ensures !AllowStep(c, s, later).1
    ensures c.rate <= 1000000000.0 ==> WaitTime(c, AllowStep(c, s, now).0, now) > 0
  {
    if c.rate == 0.0 {
      StarvedForever(c, s, now, later);
      RefusalIsTransparent(c, s, now, later);
    } else {
      var t := AllowStep(c, s, now).0.tokens;
      assert t <= 0.0;
      assert (1.0 - t) / c.rate * c.rate >= 1.0;
      if (1.0 - t) / c.rate < 0.000000001 {
        assert (0.000000001 - (1.0 - t) / c.rate) * c.rate > 0.0;
      }
    }
  }

  /** While a token is awaited, each nanosecond that passes is a nanosecond less to wait. */
  lemma NeededShrinks(c: Config, s: State, now: int, later: int)
    requires c.rate > 0.0 && !c.Disabled() && !c.IntervalMode() && c.burst >= 1
    requires now <= later && !AllowStep(c, s, now).1 && !AllowStep(c, s, later).1
    ensures NeededNanos(c, AllowStep(c, s, later).0)
         == NeededNanos(c, AllowStep(c, s, now).0) - (later - now) as real
  {
    RefusalIsTransparent(c, s, now, later);
    var t1 := AllowStep(c, s, now).0.tokens;
    var t2 := AllowStep(c, s, later).0.tokens;
    assert t2 == t1 + Seconds(later - now) * c.rate;
    assert (1.0 - t2) / c.rate == (1.0 - t1) / c.rate - Seconds(later - now);
  }

  /** The limiter object; its methods run under its mutex. */
  class TokenBucket {
    const rate: real
    const burstSize: int
    const interval: int
    var tokens: real
    var lastRefill: int
    var lastOp: Option<int>

    function Conf(): Config {
      Config(rate, burstSize, interval)
    }

    function Snapshot(): State
      reads this
    {
      State(tokens, lastRefill, lastOp)
    }

    constructor (config: Config, now: int)
      ensures Conf() == config && Snapshot() == Initial(config, now)
    {
      rate, burstSize, interval := config.rate, config.burst, config.interval;
      tokens, lastRefill, lastOp := config.burst as real, now, None;
    }

    predicate IsDisabled() {
      rate == 0.0 && burstSize == 0 && interval == 0
    }

    method Allow(now: int) returns (ok: bool)
      modifies this
      ensures (Snapshot(), ok) == AllowStep(Conf(), old(Snapshot()), now)
    {
      if IsDisabled() {
        return true;
      }
      if interval > 0 {
        if lastOp.Some? && now - lastOp.value < interval {
          return false;
        }
        lastOp := Some(now);
        return true;
      }
      var elapsed := now - lastRefill;
      tokens := tokens + Gain(rate, elapsed);
      if tokens > burstSize as real {
        tokens := burstSize as real;
      }
      lastRefill := now;
      if tokens >= 1.0 {
        tokens := tokens - 1.0;
        return true;
      }
      return false;
    }

    method GetWaitTime(now: int) returns (w: int)
      ensures w == WaitTime(Conf(), Snapshot(), now)
    {
      if IsDisabled() {
        return 0;
      }
      if interval > 0 {
        if lastOp.None? {
          return 0;
        }
        var elapsed := now - lastOp.value;
        if elapsed >= interval {
          return 0;
        }
        return interval - elapsed;
      }
      if tokens >= 1.0 {
        return 0;
      }
      var tokensNeeded := 1.0 - tokens;
      if rate <= 0.0 {
        return DISABLED_WAIT_TIME;
      }
      return (tokensNeeded / rate * 1000000000.0).Floor;
    }

    /**
      Wait with no competing caller.  `late(i)` is how much later than asked turn i of the loop
      resumes; a turn that does not sleep takes at least a nanosecond.  `cancelAt` is when the
      context ends, if it does: a limiter that can admit nothing more sleeps on until then.
    */
    method Wait(now: int, cancelAt: Option<int>, late: nat -> nat) returns (ok: bool, end: int, sleeps: nat)
      requires Conf().CanAdmit() || (Conf().TokenMode() && rate <= 1000000000.0 && cancelAt.Some?)
      modifies this
      ensures now <= end
      ensures if Conf().CanAdmit() then sleeps <= 1 else ok == AllowStep(Conf(), old(Snapshot()), now).1
      ensures ok ==> AllowStep(Conf(), old(Snapshot()), end) == (Snapshot(), true)
      ensures !ok ==> cancelAt.Some? && AllowStep(Conf(), old(Snapshot()), end) == (Snapshot(), false)
      ensures ok && AllowStep(Conf(), old(Snapshot()), now).1 ==> end == now
      ensures !ok && (forall i :: late(i) == 0) ==> cancelAt.value < end + WaitTime(Conf(), Snapshot(), end)
      ensures ok && Conf().CanAdmit() && sleeps == 1 && cancelAt.Some? ==>
                now + WaitTime(Conf(), AllowStep(Conf(), old(Snapshot()), now).0, now) <= cancelAt.value
      ensures ok && !AllowStep(Conf(), old(Snapshot()), now).1 && (forall i :: late(i) == 0) ==>
                var w := WaitTime(Conf(), AllowStep(Conf(), old(Snapshot()), now).0, now);
                now + w <= end <= now + w + 1
    {
      ghost var s0 := Snapshot();
      var c := Conf();
      end, sleeps := now, 0;
      ok := Allow(end);
      if ok {
        return;
      }
      ghost var s1 := Snapshot();
      ghost var w1 := WaitTime(c, s1, now);
      ghost var least := if interval > 0 then w1 else if c.CanAdmit() then LeastDelay(c, s1) else 0;
      if c.CanAdmit() { WaitIsExact(c, s0, now, 0); }
      var turn := 0;
      while !ok
        invariant now <= end
        invariant !ok ==> Snapshot() == AllowStep(c, s0, end).0 && !AllowStep(c, s0, end).1
        invariant ok ==> AllowStep(c, s0, end) == (Snapshot(), true)
        invariant if c.CanAdmit() then !ok ==> end - now < least else !ok
        invariant !ok && sleeps == 0 ==> end == now
        invariant c.CanAdmit() ==> sleeps <= 1
        invariant c.CanAdmit() && sleeps == 1 ==> end - now >= w1
        invariant c.CanAdmit() && sleeps == 1 && cancelAt.Some? ==> now + w1 <= cancelAt.value
        invariant ok && (forall i :: late(i) == 0) ==> now + w1 <= end <= now + w1 + 1
        decreases !ok, if c.CanAdmit() then least - (end - now) else cancelAt.value - end
      {
        var before := end;
        var waitTime := GetWaitTime(end);
        if c.CanAdmit() {
          WaitIsExact(c, s0, end, 0);
          if interval <= 0 {
            NeededShrinks(c, s0, now, end);
          }
        } else {
          NeverAdmits(c, s0, end, end);
        }
        if waitTime <= 0 {
          end := end + 1 + late(turn);
        } else {
          var wake := end + waitTime + late(turn);
          if cancelAt.Some? && cancelAt.value < wake {
            return false, end, sleeps;
          }
          end, sleeps := wake, sleeps + 1;
        }
        RefusalIsTransparent(c, s0, before, end);
        if c.CanAdmit() {
          WaitIsExact(c, s0, now, end - now);
          RefusalIsTransparent(c, s0, now, end);
        } else {
          NeverAdmits(c, s0, before, end);
        }
        ok := Allow(end);
        turn := turn + 1;
      }
    }
  }
}
