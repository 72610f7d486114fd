// Restarting a failing task: exponential backoff, forgiven after a long enough run.
module Supervision {
  import opened Basics

  const MIN_BACKOFF: nat := 1_000
  const MAX_BACKOFF: nat := 30_000
  const MULTIPLIER: nat := 2
  const STABLE_RUN: nat := 60_000

  class ExponentialBackoff {
    var current: nat
    const min: nat
    const max: nat
    const multiplier: nat

    constructor (min: nat, max: nat, multiplier: nat)
      ensures current == min && this.min == min && this.max == max && this.multiplier == multiplier
    {
      this.current, this.min, this.max, this.multiplier := min, min, max, multiplier;
    }

    method NextBackoff() returns (wait: nat)
      modifies this
      ensures wait == old(current) && current == Min(max, old(current) * multiplier)
    {
      wait := current;
      current := Min(max, current * multiplier);
    }

    method Reset()
      modifies this
      ensures current == min
    {
      current := min;
    }
  }

  // ---- Restarts as a function of run lengths (all times in milliseconds) ----------------

  /** The wait that follows a run of this length. */
  function WaitAfter(current: nat, ran: nat): nat {
    if ran > STABLE_RUN then MIN_BACKOFF else current
  }

  function Backoff(runs: seq<nat>): nat {
    if runs == [] then MIN_BACKOFF
    else Min(MAX_BACKOFF, WaitAfter(Backoff(runs[..|runs| - 1]), runs[|runs| - 1]) * MULTIPLIER)
  }

  /** When the restart that follows these runs happens. */
  function RestartTime(runs: seq<nat>): nat {
    if runs == [] then 0
    else
      var front, ran := runs[..|runs| - 1], runs[|runs| - 1];
      RestartTime(front) + ran + WaitAfter(Backoff(front), ran)
  }

  /** How far the restarts so far may be ahead of one every 18 s, by backoff state. */
  function Debt(current: nat): nat {
    if current == 1_000 then 0
    else if current == 2_000 then 17_000
    else if current == 4_000 then 33_000
    else if current == 8_000 then 47_000
    else if current == 16_000 then 57_000
    else 59_000
  }

  lemma {:induction false} BackoffStates(runs: seq<nat>)
    ensures Backoff(runs) in {1_000, 2_000, 4_000, 8_000, 16_000, 30_000}
  {
    if runs != [] {
      BackoffStates(runs[..|runs| - 1]);
    }
  }

  /** Time gained and debt taken on balance at 18 s a restart, across resets. */
  lemma {:induction false} DebtBalance(runs: seq<nat>, i: nat, j: nat)
    requires i <= j <= |runs|
    ensures RestartTime(runs[..j]) + Debt(Backoff(runs[..j])) >=
            RestartTime(runs[..i]) + Debt(Backoff(runs[..i])) + 18_000 * (j - i)
    decreases j
  {
    if i < j {
      DebtBalance(runs, i, j - 1);
      BackoffStates(runs[..j - 1]);
      assert runs[..j][..j - 1] == runs[..j - 1];
    }
  }

  /** Restarts are rate limited: whatever the task does, in any stretch of n consecutive
      restarts at least 18 n - 59 seconds pass, resets included. */
  lemma {:induction false} RestartRate(runs: seq<nat>, i: nat, j: nat)
    requires i <= j <= |runs|
    ensures RestartTime(runs[..j]) - RestartTime(runs[..i]) >= 18_000 * (j - i) - 59_000
  {
    DebtBalance(runs, i, j);
  }

  /** The constant cannot be improved: a task that fails at once restarts five times in
      31 seconds. */
  lemma {:induction false} RestartRateTight()
    ensures RestartTime([0, 0, 0, 0, 0]) == 18_000 * 5 - 59_000
  {
    var r5: seq<nat> := [0, 0, 0, 0, 0];
    var r1: seq<nat> := [0];
    var r2: seq<nat> := [0, 0];
    var r3: seq<nat> := [0, 0, 0];
    var r4: seq<nat> := [0, 0, 0, 0];
    assert r1[..0] == [] && r2[..1] == r1 && r3[..2] == r2 && r4[..3] == r3 && r5[..4] == r4;
    assert Backoff(r1) == 2_000 && Backoff(r2) == 4_000;
    assert Backoff(r3) == 8_000 && Backoff(r4) == 16_000;
    assert RestartTime(r2) == 3_000 && RestartTime(r4) == 15_000;
  }

  function Pow2(n: nat): nat {
    if n == 0 then 1 else 2 * Pow2(n - 1)
  }

  /** Run m is the last one up to n that lasted over a minute; or it is the first, and none
      after it did. */
  ghost predicate LastForgiven(runs: seq<nat>, m: nat, n: nat) {
    m <= n < |runs| && (m == 0 || runs[m] > 60_000) && forall i :: m < i <= n ==> runs[i] <= 60_000
  }

  /** The delay after run n in closed form: one second, doubled with every further run
      since the last that was forgiven, up to half a minute. */
  lemma {:induction false} RestartDelay(runs: seq<nat>, m: nat, n: nat)
    requires LastForgiven(runs, m, n)
    ensures RestartTime(runs[..n + 1]) - RestartTime(runs[..n]) - runs[n] == Min(30_000, 1_000 * Pow2(n - m))
    ensures Backoff(runs[..n + 1]) == Min(30_000, 1_000 * Pow2(n + 1 - m))
    decreases n
  {
    OneMoreRun(runs, n);
    if m < n {
      RestartDelay(runs, m, n - 1);
    }
  }

  /** Some run is the last one forgiven, so the closed form covers every restart. */
  lemma {:induction false} SomeForgiven(runs: seq<nat>, n: nat) returns (m: nat)
    requires n < |runs|
    ensures LastForgiven(runs, m, n)
  {
    m := n;
    while m > 0 && runs[m] <= 60_000
      invariant m <= n && forall i :: m < i <= n ==> runs[i] <= 60_000
    {
      m := m - 1;
    }
  }

  // ---- The supervisor ------------------------------------------------------------------

  /** One pass: how long the task runs, and whether cancellation strikes while it runs or
      while its restart is being waited for. */
  datatype Pass = Returns(ran: nat) | CancelledRunning(ran: nat) | CancelledWaiting(ran: nat)

  function Runs(passes: seq<Pass>): seq<nat> {
    seq(|passes|, i requires 0 <= i < |passes| => passes[i].ran)
  }

  function RestartTimes(runs: seq<nat>): seq<nat> {
    if runs == [] then [] else RestartTimes(runs[..|runs| - 1]) + [RestartTime(runs)]
  }

  lemma {:induction false} OneMoreRun(runs: seq<nat>, n: nat)
    requires n < |runs|
    ensures var wait := WaitAfter(Backoff(runs[..n]), runs[n]);
      && Backoff(runs[..n + 1]) == Min(MAX_BACKOFF, wait * MULTIPLIER)
      && RestartTime(runs[..n + 1]) == RestartTime(runs[..n]) + runs[n] + wait
      && RestartTimes(runs[..n + 1]) == RestartTimes(runs[..n]) + [RestartTime(runs[..n + 1])]
  {
    assert runs[..n + 1][..n] == runs[..n];
  }

  lemma {:induction false} RestartTimesAre(runs: seq<nat>)
    ensures |RestartTimes(runs)| == |runs|
    ensures forall n :: 0 <= n < |runs| ==> RestartTimes(runs)[n] == RestartTime(runs[..n + 1])
  {
    if runs != [] {
      var front := runs[..|runs| - 1];
      RestartTimesAre(front);
      assert runs[..|runs|] == runs;
      forall n | 0 <= n < |front| ensures RestartTimes(runs)[n] == RestartTime(runs[..n + 1]) {
        assert front[..n + 1] == runs[..n + 1];
      }
    }
  }

  function Previous(restarts: seq<nat>, n: nat): nat
    requires n <= |restarts|
  {
    if n == 0 then 0 else restarts[n - 1]
  }

  lemma {:induction false} RestartsAreSpaced(runs: seq<nat>)
    ensures var restarts := RestartTimes(runs);
      && |restarts| == |runs|
      && forall m: nat, n: nat :: LastForgiven(runs, m, n) ==>
           restarts[n] == Previous(restarts, n) + runs[n] + Min(30_000, 1_000 * Pow2(n - m))
  {
    RestartTimesAre(runs);
    var restarts := RestartTimes(runs);
    forall m: nat, n: nat | LastForgiven(runs, m, n)
      ensures restarts[n] == Previous(restarts, n) + runs[n] + Min(30_000, 1_000 * Pow2(n - m))
    {
      RestartDelay(runs, m, n);
    }
  }

  /** Restart times, one for each pass that came before a cancellation: each is its run and
      its delay after the one before. */
  method Supervise(passes: seq<Pass>) returns (restarts: seq<nat>, served: nat)
    ensures served <= |passes| && restarts == RestartTimes(Runs(passes)[..served])
    ensures |restarts| == served
    ensures forall m: nat, n: nat :: LastForgiven(Runs(passes)[..served], m, n) ==>
      restarts[n] == Previous(restarts, n) + passes[n].ran + Min(30_000, 1_000 * Pow2(n - m))
    ensures forall i :: 0 <= i < served ==> passes[i].Returns?
    ensures served < |passes| ==> !passes[served].Returns?
  {
    var backoff := new ExponentialBackoff(MIN_BACKOFF, MAX_BACKOFF, MULTIPLIER);
    restarts, served := [], 0;
    var now := 0;
    ghost var runs := Runs(passes);
    while served < |passes|
      invariant served <= |passes| && restarts == RestartTimes(runs[..served])
      invariant fresh(backoff) && backoff.min == MIN_BACKOFF && backoff.max == MAX_BACKOFF
      invariant backoff.multiplier == MULTIPLIER && backoff.current == Backoff(runs[..served])
      invariant now == RestartTime(runs[..served])
      invariant forall i :: 0 <= i < served ==> passes[i].Returns?
    {
      OneMoreRun(runs, served);
      var pass := passes[served];
      if pass.CancelledRunning? {
        break;
      }
      if pass.ran > STABLE_RUN {
        backoff.Reset();
      }
      var wait := backoff.NextBackoff();
      if pass.CancelledWaiting? {
        break;
      }
      now := now + pass.ran + wait;
      restarts := restarts + [now];
      served := served + 1;
    }
    RestartsAreSpaced(runs[..served]);
  }
}
