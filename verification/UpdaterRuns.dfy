// The updater task inside the pipeline: its passes are runs of pipeline actions, so what
// holds after every run of the pipeline holds of the sharded table.
module UpdaterRuns {
  import opened Basics
  import opened FlatTable
  import opened History
  import opened Pipeline
  import opened Staleness
  import opened Updater

  function Execute(cfg: Settings, r: Router, run: seq<Action>): Router {
    if run == [] then r else Act(cfg, Execute(cfg, r, run[..|run| - 1]), run[|run| - 1])
  }

  lemma {:induction false} ExecuteConcat(cfg: Settings, r: Router, a: seq<Action>, b: seq<Action>)
    ensures Execute(cfg, r, a + b) == Execute(cfg, Execute(cfg, r, a), b)
    decreases |b|
  {
    if b == [] {
      assert a + b == a;
    } else {
      ExecuteConcat(cfg, r, a, b[..|b| - 1]);
      assert (a + b)[..|a + b| - 1] == a + b[..|b| - 1];
    }
  }

  lemma {:induction false} ExecExtends(cfg: Settings, run: seq<Action>, more: seq<Action>)
    ensures Exec(cfg, run + more) == Execute(cfg, Exec(cfg, run), more)
    decreases |more|
  {
    if more == [] {
      assert run + more == run;
    } else {
      ExecExtends(cfg, run, more[..|more| - 1]);
      assert (run + more)[..|run + more| - 1] == run + more[..|more| - 1];
    }
  }

  // ---- One pass ------------------------------------------------------------------------

  function Times(a: Action, n: nat): seq<Action> {
    seq(n, _ => a)
  }

  lemma {:induction false} TimesStep(cfg: Settings, r: Router, a: Action, n: nat)
    requires n > 0
    ensures Execute(cfg, r, Times(a, n)) == Act(cfg, Execute(cfg, r, Times(a, n - 1)), a)
  {
    assert Times(a, n)[..n - 1] == Times(a, n - 1);
  }

  /** The actions of one pass over what it finds queued: one batch from the first receive
      to the last update, or one prune, or the end. */
  function PassActions(queue: seq<Observation>, cancelled: bool, tick: Option<Time>): seq<Action> {
    var n := Min(|queue|, BATCH_SIZE);
    if cancelled then [Cancel]
    else if queue != [] then Times(Receive, n) + [Seal] + Times(ApplyOne, n)
    else if tick.Some? then [PruneTick(tick.value)]
    else []
  }

  lemma {:induction false} ReceiveTimes(cfg: Settings, r: Router, n: nat)
    requires r.phase == Idle && r.batch == [] && n <= Min(|r.queue|, BATCH_SIZE)
    ensures Execute(cfg, r, Times(Receive, n)) ==
      r.(batch := r.queue[..n], queue := r.queue[n..], phase := if n == 0 then Idle else Collecting)
  {
    if n > 0 {
      ReceiveTimes(cfg, r, n - 1);
      TimesStep(cfg, r, Receive, n);
      assert r.queue[..n - 1] + [r.queue[n - 1..][0]] == r.queue[..n];
      assert r.queue[n - 1..][1..] == r.queue[n..];
    }
  }

  lemma {:induction false} ApplyTimes(cfg: Settings, r: Router, n: nat)
    requires r.phase == Applying && r.batch != [] && n <= |r.batch|
    ensures var r' := Execute(cfg, r, Times(ApplyOne, n));
      && r'.applied == r.applied + AsEvents(r.batch[..n])
      && r'.batch == r.batch[n..] && r'.queue == r.queue
      && r'.phase == if n == |r.batch| then Idle else Applying
  {
    if n > 0 {
      ApplyTimes(cfg, r, n - 1);
      TimesStep(cfg, r, ApplyOne, n);
      AsEventsAppend(r.batch[..n - 1], r.batch[n - 1]);
      assert r.batch[..n - 1] + [r.batch[n - 1]] == r.batch[..n];
      assert r.batch[n - 1..] == [r.batch[n - 1]] + r.batch[n..];
      Associative(r.applied, AsEvents(r.batch[..n - 1]), [Observed(r.batch[n - 1])]);
    }
  }

  lemma {:induction false} BatchRuns(cfg: Settings, r: Router)
    requires r.phase == Idle && r.batch == [] && r.queue != []
    ensures var n, r' := Min(|r.queue|, BATCH_SIZE), Execute(cfg, r, PassActions(r.queue, false, None));
      && r'.applied == r.applied + AsEvents(r.queue[..n])
      && r'.queue == r.queue[n..] && r'.batch == [] && r'.phase == Idle
  {
    var n := Min(|r.queue|, BATCH_SIZE);
    var r1 := Execute(cfg, r, Times(Receive, n));
    ReceiveTimes(cfg, r, n);
    ExecuteConcat(cfg, r, Times(Receive, n), [Seal]);
    ExecuteConcat(cfg, r, Times(Receive, n) + [Seal], Times(ApplyOne, n));
    assert Execute(cfg, r1, [Seal]) == Act(cfg, r1, Seal) by {
      assert [Seal][..0] == [];
    }
    ApplyTimes(cfg, r1.(phase := Applying), n);
    assert r1.batch[..n] == r.queue[..n];
  }

  /** Each pass of the updater task is a run of pipeline actions. */
  lemma {:induction false} PassRuns(cfg: Settings, r: Router, wake: Wake, queue: seq<Observation>)
    requires r.phase == Idle && r.batch == [] && r.queue == queue + wake.arrivals
    ensures var r' := Execute(cfg, r, PassActions(r.queue, wake.cancelled, wake.tick));
      && (r'.applied, r'.queue) == After(r.applied, queue, wake)
      && r'.batch == [] && r'.phase == if wake.cancelled then Stopped else Idle
  {
    var actions := PassActions(r.queue, wake.cancelled, wake.tick);
    if !wake.cancelled && r.queue != [] {
      BatchRuns(cfg, r);
    } else if actions != [] {
      assert actions[..0] == [];
    }
  }

  // ---- Many passes ---------------------------------------------------------------------

  /** What ingress does between two passes, and what the next pass finds. */
  datatype Round = Round(ingress: seq<Action>, cancelled: bool, tick: Option<Time>)

  predicate Outside(a: Action) {
    a.Ingress? || a.RotateDedup?
  }

  /** The updater's own actions are its passes, and a cancelled pass is the last. */
  ghost predicate Proper(rounds: seq<Round>) {
    && (forall i, j :: 0 <= i < |rounds| && 0 <= j < |rounds[i].ingress| ==> Outside(rounds[i].ingress[j]))
    && (forall i :: 0 <= i < |rounds| - 1 ==> !rounds[i].cancelled)
  }

  lemma {:induction false} IngressQueues(cfg: Settings, r: Router, ingress: seq<Action>)
    requires forall j :: 0 <= j < |ingress| ==> Outside(ingress[j])
    ensures var r' := Execute(cfg, r, ingress);
      && r.queue <= r'.queue && r'.applied == r.applied
      && r'.batch == r.batch && r'.phase == r.phase
  {
    if ingress != [] {
      IngressQueues(cfg, r, ingress[..|ingress| - 1]);
    }
  }

  /** The pipeline up to the next pass, that pass, and what it wakes up to. */
  function Before(run: seq<Action>, round: Round): seq<Action> {
    run + round.ingress
  }

  function Through(cfg: Settings, run: seq<Action>, round: Round): seq<Action> {
    var before := Before(run, round);
    before + PassActions(Exec(cfg, before).queue, round.cancelled, round.tick)
  }

  function WakeOf(cfg: Settings, run: seq<Action>, round: Round): Wake {
    var queue, grown := Exec(cfg, run).queue, Exec(cfg, Before(run, round)).queue;
    Wake(grown[Min(|queue|, |grown|)..], round.cancelled, round.tick)
  }

  lemma {:induction false} RoundArrives(cfg: Settings, run: seq<Action>, round: Round)
    requires forall j :: 0 <= j < |round.ingress| ==> Outside(round.ingress[j])
    ensures var r, b := Exec(cfg, run), Exec(cfg, Before(run, round));
      && b.queue == r.queue + WakeOf(cfg, run, round).arrivals
      && b.applied == r.applied && b.batch == r.batch && b.phase == r.phase
  {
    ExecExtends(cfg, run, round.ingress);
    IngressQueues(cfg, Exec(cfg, run), round.ingress);
  }

  lemma {:induction false} RoundRuns(cfg: Settings, run: seq<Action>, round: Round)
    requires forall j :: 0 <= j < |round.ingress| ==> Outside(round.ingress[j])
    requires Exec(cfg, run).phase == Idle && Exec(cfg, run).batch == []
    ensures var r, r' := Exec(cfg, run), Exec(cfg, Through(cfg, run, round));
      && (r'.applied, r'.queue) == After(r.applied, r.queue, WakeOf(cfg, run, round))
      && r'.batch == [] && r'.phase == if round.cancelled then Stopped else Idle
  {
    var before := Before(run, round);
    var b := Exec(cfg, before);
    RoundArrives(cfg, run, round);
    ExecExtends(cfg, before, PassActions(b.queue, round.cancelled, round.tick));
    PassRuns(cfg, b, WakeOf(cfg, run, round), Exec(cfg, run).queue);
  }

  function RunOf(cfg: Settings, rounds: seq<Round>): seq<Action> {
    if rounds == [] then []
    else Through(cfg, RunOf(cfg, rounds[..|rounds| - 1]), rounds[|rounds| - 1])
  }

  /** What the updater task wakes up to in that run. */
  function WakesOf(cfg: Settings, rounds: seq<Round>): seq<Wake> {
    if rounds == [] then []
    else
      var front := rounds[..|rounds| - 1];
      WakesOf(cfg, front) + [WakeOf(cfg, RunOf(cfg, front), rounds[|rounds| - 1])]
  }

  /** The updater task, served these wake-ups, and the pipeline agree on the log applied
      and on the queue. */
  lemma {:induction false} ServedIsRun(cfg: Settings, rounds: seq<Round>)
    requires Proper(rounds)
    ensures var r := Exec(cfg, RunOf(cfg, rounds));
      && (r.applied, r.queue) == Served(WakesOf(cfg, rounds))
      && r.batch == []
      && r.phase == if rounds != [] && rounds[|rounds| - 1].cancelled then Stopped else Idle
  {
    if rounds != [] {
      var front := rounds[..|rounds| - 1];
      ServedIsRun(cfg, front);
      RoundRuns(cfg, RunOf(cfg, front), rounds[|rounds| - 1]);
      ServedStep(WakesOf(cfg, front), WakeOf(cfg, RunOf(cfg, front), rounds[|rounds| - 1]));
    }
  }

  lemma {:induction false} ServedStep(wakes: seq<Wake>, wake: Wake)
    ensures Served(wakes + [wake]) == After(Served(wakes).0, Served(wakes).1, wake)
  {
    assert (wakes + [wake])[..|wakes|] == wakes;
  }

  /** What the sharded table holds once the updater task has served these wake-ups: the
      pipeline's table, and so the staleness bound. */
  lemma {:induction false} ShardedStaleness(cfg: Settings, rounds: seq<Round>, updater: RoutingUpdater, k: RouteKey)
    requires Proper(rounds) && updater.Valid() && updater.ttl == cfg.ttl
    requires (updater.log, updater.queue) == Served(WakesOf(cfg, rounds))
    ensures var run, t := RunOf(cfg, rounds), updater.table.contents;
      && t == Exec(cfg, run).table
      && (Clocked(run) ==> Within(Lookup(t, k), Lookup(Immediate(cfg, run, cfg.ttl), k), 1))
      && (Clocked(run) && Exec(cfg, run).dropped == 0 && updater.queue == [] && cfg.ttl >= 999 ==>
            Within(Lookup(Immediate(cfg, run, Short(cfg.ttl)), k), Lookup(t, k), 1_000))
  {
    var run := RunOf(cfg, rounds);
    ServedIsRun(cfg, rounds);
    AlwaysConsistent(cfg, run);
    if Clocked(run) {
      StalenessBound(cfg, run, k);
    }
  }
}
