// Learning routes end to end: ingress gates and enqueues observations, one updater task
// collects them in batches, applies them and prunes. Each frame's ingress is one step, and
// so is each receive and each table update of the updater, so frames arrive anywhere
// within a batch.
module Pipeline {
  import opened Basics
  import opened FlatTable
  import opened History
  import opened TimeWheel
  import opened SharedDedup

  const BATCH_SIZE: nat := 256

  datatype Frame = Frame(endpoint: EndpointId, sys: Byte, comp: Byte, msgId: nat, hash: Hash, at: Time)
  {
    function Observation(): Observation {
      FlatTable.Observation.Observation(endpoint, sys, comp, at)
    }
  }

  /** `filter` is the endpoint's incoming filter; `learns` its update-routing flag. */
  datatype Settings = Settings(
    filter: Frame -> bool, learns: EndpointId -> bool, dedupMs: nat, ttl: nat, queueCap: nat)

  datatype Phase = Idle | Collecting | Applying | Stopped

  /** The last five fields record history; no decision reads them. `committed` lists
      enqueued observations and prunes in the order they were committed, `applied` those
      that have reached the table, and `ideal` what an ungated, unqueued table would get. */
  datatype Router = Router(
    table: Table, wheels: seq<Wheel>, queue: seq<Observation>, batch: seq<Observation>, phase: Phase,
    committed: seq<TableEvent>, applied: seq<TableEvent>, ideal: seq<TableEvent>,
    needed: nat, dropped: nat)
  {
    function Pending(): seq<Observation> {
      batch + queue
    }
  }

  datatype Action =
    | Ingress(frame: Frame)
    | RotateDedup(shard: nat)
    | Receive
    | Seal
    | ApplyOne
    | PruneTick(when: Time)
    | Cancel

  function Start(cfg: Settings): Router {
    Router(EMPTY_TABLE, NewShared(NumBuckets(cfg.dedupMs)), [], [], Idle, [], [], [], 0, 0)
  }

  /** Stages one and two: placeholder systems, the filter, then deduplication. */
  predicate Admits(cfg: Settings, r: Router, f: Frame) {
    f.sys != 0 && cfg.filter(f) && !Duplicate(r.wheels, f.hash)
  }

  /** Stage three: read the table, and enqueue only what it needs. */
  function ObserveRoute(cfg: Settings, r: Router, f: Frame): Router {
    var o := f.Observation();
    if !cfg.learns(f.endpoint) then r
    else
      var seen := r.(ideal := r.ideal + [Observed(o)]);
      if !r.table.NeedsUpdate(f.endpoint, f.sys, f.comp, f.at) then seen
      else if r.phase == Stopped || |r.queue| >= cfg.queueCap then
        seen.(needed := r.needed + 1, dropped := r.dropped + 1)
      else
        seen.(needed := r.needed + 1, queue := r.queue + [o], committed := r.committed + [Observed(o)])
  }

  /** An action that is not enabled leaves the router as it is. */
  function Act(cfg: Settings, r: Router, a: Action): Router {
    match a
    case Ingress(f) =>
      if Admits(cfg, r, f)
      then ObserveRoute(cfg, r.(wheels := StepShared(r.wheels, Submit(f.hash))), f) else r
    case RotateDedup(i) => r.(wheels := StepShared(r.wheels, RotateShard(i)))
    case Receive =>
      if r.queue != [] && (r.phase == Idle || (r.phase == Collecting && |r.batch| < BATCH_SIZE))
      then r.(phase := Collecting, batch := r.batch + [r.queue[0]], queue := r.queue[1..]) else r
    case Seal =>
      if r.phase == Collecting && (|r.batch| == BATCH_SIZE || r.queue == [])
      then r.(phase := Applying) else r
    case ApplyOne =>
      if r.phase == Applying && r.batch != [] then
        var o := r.batch[0];
        r.(table := r.table.Observe(o), applied := r.applied + [Observed(o)], batch := r.batch[1..],
           phase := if |r.batch| == 1 then Idle else Applying)
      else r
    case PruneTick(when) =>
      if r.phase == Idle && r.queue == [] then
        r.(table := r.table.Prune(when, cfg.ttl), applied := r.applied + [Pruned(when)],
           committed := r.committed + [Pruned(when)], ideal := r.ideal + [Pruned(when)])
      else r
    case Cancel => if r.phase == Idle then r.(phase := Stopped) else r
  }

  function Exec(cfg: Settings, run: seq<Action>): Router {
    if run == [] then Start(cfg) else Act(cfg, Exec(cfg, run[..|run| - 1]), run[|run| - 1])
  }

  // ---- Conservation and order ----------------------------------------------------------

  function AsEvents(os: seq<Observation>): seq<TableEvent> {
    seq(|os|, i requires 0 <= i < |os| => Observed(os[i]))
  }

  function Observations(log: seq<TableEvent>): nat {
    if log == [] then 0
    else Observations(log[..|log| - 1]) + (if log[|log| - 1].Observed? then 1 else 0)
  }

  /** What every reachable state satisfies. */
  ghost predicate Consistent(cfg: Settings, r: Router) {
    && r.table == Replay(r.applied, cfg.ttl)
    && r.committed == r.applied + AsEvents(r.Pending())
    && r.needed == r.dropped + Observations(r.committed)
    && |r.queue| <= cfg.queueCap
    && |r.batch| <= BATCH_SIZE
    && (r.batch != [] <==> r.phase == Collecting || r.phase == Applying)
  }

  lemma {:induction false} AsEventsAppend(os: seq<Observation>, o: Observation)
    ensures AsEvents(os + [o]) == AsEvents(os) + [Observed(o)]
  {
  }

  lemma {:induction false} AsEventsFirst(os: seq<Observation>)
    requires os != []
    ensures AsEvents(os) == [Observed(os[0])] + AsEvents(os[1..])
  {
  }

  lemma {:induction false} CommitOne(log: seq<TableEvent>, ev: TableEvent)
    ensures Observations(log + [ev]) == Observations(log) + (if ev.Observed? then 1 else 0)
  {
    assert (log + [ev])[..|log|] == log;
  }

  /** Not admitted, not learning, gated or dropped: what is pending and applied stays. */
  lemma {:induction false} UnqueuedConsistent(cfg: Settings, r: Router, r': Router, missed: nat)
    requires Consistent(cfg, r)
    requires r' == r.(ideal := r'.ideal, needed := r.needed + missed, dropped := r.dropped + missed)
    ensures Consistent(cfg, r')
  {
  }

  lemma {:induction false} EnqueuedConsistent(cfg: Settings, r: Router, r': Router, o: Observation)
    requires Consistent(cfg, r) && |r.queue| < cfg.queueCap
    requires r' == r.(ideal := r'.ideal, needed := r.needed + 1,
                      queue := r.queue + [o], committed := r.committed + [Observed(o)])
    ensures Consistent(cfg, r')
  {
    CommitOne(r.committed, Observed(o));
    Associative(r.batch, r.queue, [o]);
    AsEventsAppend(r.Pending(), o);
    Associative(r.applied, AsEvents(r.Pending()), [Observed(o)]);
  }

  lemma {:induction false} ObserveConsistent(cfg: Settings, r: Router, f: Frame)
    requires Consistent(cfg, r)
    ensures Consistent(cfg, ObserveRoute(cfg, r, f))
  {
    var r' := ObserveRoute(cfg, r, f);
    if !cfg.learns(f.endpoint) || !r.table.NeedsUpdate(f.endpoint, f.sys, f.comp, f.at) {
      UnqueuedConsistent(cfg, r, r', 0);
    } else if r.phase == Stopped || |r.queue| >= cfg.queueCap {
      UnqueuedConsistent(cfg, r, r', 1);
    } else {
      EnqueuedConsistent(cfg, r, r', f.Observation());
    }
  }

  lemma {:induction false} WheelsConsistent(cfg: Settings, r: Router, wheels: seq<Wheel>)
    requires Consistent(cfg, r)
    ensures Consistent(cfg, r.(wheels := wheels))
  {
  }

  lemma {:induction false} ReceiveConsistent(cfg: Settings, r: Router)
    requires Consistent(cfg, r)
    ensures Consistent(cfg, Act(cfg, r, Receive))
  {
    if r.queue != [] {
      assert r.batch + [r.queue[0]] + r.queue[1..] == r.Pending();
    }
  }

  lemma {:induction false} ApplyConsistent(cfg: Settings, r: Router)
    requires Consistent(cfg, r)
    ensures Consistent(cfg, Act(cfg, r, ApplyOne))
  {
    if r.batch != [] {
      var o := r.batch[0];
      ReplayStep(r.applied, Observed(o), cfg.ttl);
      AsEventsFirst(r.Pending());
      assert r.Pending()[1..] == r.batch[1..] + r.queue;
      Associative(r.applied, [Observed(o)], AsEvents(r.batch[1..] + r.queue));
    }
  }

  lemma {:induction false} PruneConsistent(cfg: Settings, r: Router, when: Time)
    requires Consistent(cfg, r)
    ensures Consistent(cfg, Act(cfg, r, PruneTick(when)))
  {
    ReplayStep(r.applied, Pruned(when), cfg.ttl);
    CommitOne(r.committed, Pruned(when));
    if r.phase == Idle && r.queue == [] {
      assert r.committed == r.applied;
      assert AsEvents([]) == [];
    }
  }

  lemma {:induction false} ActConsistent(cfg: Settings, r: Router, a: Action)
    requires Consistent(cfg, r)
    ensures Consistent(cfg, Act(cfg, r, a))
  {
    match a
    case Ingress(f) =>
      var wheels := StepShared(r.wheels, Submit(f.hash));
      WheelsConsistent(cfg, r, wheels);
      ObserveConsistent(cfg, r.(wheels := wheels), f);
    case RotateDedup(i) => WheelsConsistent(cfg, r, StepShared(r.wheels, RotateShard(i)));
    case Receive => ReceiveConsistent(cfg, r);
    case Seal =>
    case ApplyOne => ApplyConsistent(cfg, r);
    case PruneTick(when) => PruneConsistent(cfg, r, when);
    case Cancel =>
  }

  lemma {:induction false} AlwaysConsistent(cfg: Settings, run: seq<Action>)
    ensures Consistent(cfg, Exec(cfg, run))
  {
    if run != [] {
      AlwaysConsistent(cfg, run[..|run| - 1]);
      ActConsistent(cfg, Exec(cfg, run[..|run| - 1]), run[|run| - 1]);
    }
  }

  lemma {:induction false} ObservationsOfPending(log: seq<TableEvent>, os: seq<Observation>)
    ensures Observations(log + AsEvents(os)) == Observations(log) + |os|
    decreases |os|
  {
    if os == [] {
      assert log + AsEvents(os) == log;
    } else {
      ObservationsOfPending(log, os[..|os| - 1]);
      assert (log + AsEvents(os))[..|log + AsEvents(os)| - 1] == log + AsEvents(os[..|os| - 1]);
    }
  }

  /** In every run: each needed observation is dropped, queued, in the batch or applied;
      what is applied is a prefix of what was committed, in order; and the table is the
      replay of that prefix, so batch boundaries leave no trace in it. */
  lemma {:induction false} Conservation(cfg: Settings, run: seq<Action>)
    ensures var r := Exec(cfg, run);
      && r.needed == r.dropped + |r.queue| + |r.batch| + Observations(r.applied)
      && r.applied <= r.committed
      && r.committed[|r.applied|..] == AsEvents(r.Pending())
      && r.table == Replay(r.applied, cfg.ttl)
      && |r.queue| <= cfg.queueCap && |r.batch| <= BATCH_SIZE
  {
    AlwaysConsistent(cfg, run);
    var r := Exec(cfg, run);
    ObservationsOfPending(r.applied, r.Pending());
  }

  // ---- Ingress, exactly ----------------------------------------------------------------

  lemma {:induction false} ExecStep(cfg: Settings, run: seq<Action>, a: Action)
    ensures Exec(cfg, run + [a]) == Act(cfg, Exec(cfg, run), a)
  {
  }

  /** A frame of a real system that passed its filter and deduplication, at an endpoint
      that learns, and that the table has use for. */
  predicate Wanted(cfg: Settings, r: Router, f: Frame) {
    && f.sys != 0 && cfg.filter(f) && !Duplicate(r.wheels, f.hash)
    && cfg.learns(f.endpoint) && r.table.NeedsUpdate(f.endpoint, f.sys, f.comp, f.at)
  }

  /** In every run: a wanted frame is enqueued, last, exactly while the queue has room and
      the updater lives; otherwise it is dropped. Nothing else is enqueued or dropped. */
  lemma {:induction false} IngressExactly(cfg: Settings, run: seq<Action>, f: Frame)
    ensures var r, r' := Exec(cfg, run), Exec(cfg, run + [Ingress(f)]);
      var lost := r.phase == Stopped || |r.queue| == cfg.queueCap;
      && r'.queue == (if Wanted(cfg, r, f) && !lost then r.queue + [f.Observation()] else r.queue)
      && r'.dropped == (if Wanted(cfg, r, f) && lost then r.dropped + 1 else r.dropped)
      && r'.needed == (if Wanted(cfg, r, f) then r.needed + 1 else r.needed)
      && r'.table == r.table && r'.batch == r.batch && r'.phase == r.phase
  {
    AlwaysConsistent(cfg, run);
    ExecStep(cfg, run, Ingress(f));
  }

  /** And the ideal table hears of every admitted frame that its endpoint learns from. */
  lemma {:induction false} IdealExactly(cfg: Settings, run: seq<Action>, f: Frame)
    ensures var r, r' := Exec(cfg, run), Exec(cfg, run + [Ingress(f)]);
      if f.sys != 0 && cfg.filter(f) && !Duplicate(r.wheels, f.hash) && cfg.learns(f.endpoint)
      then r'.ideal == r.ideal + [Observed(f.Observation())] else r'.ideal == r.ideal
  {
    ExecStep(cfg, run, Ingress(f));
  }

  /** It is pruned whenever the table is, and hears of nothing else. */
  lemma {:induction false} IdealPruned(cfg: Settings, run: seq<Action>, a: Action)
    requires !a.Ingress?
    ensures var r, r' := Exec(cfg, run), Exec(cfg, run + [a]);
      if a.PruneTick? && r'.applied == r.applied + [Pruned(a.when)]
      then r'.ideal == r.ideal + [Pruned(a.when)] else r'.ideal == r.ideal
  {
    ExecStep(cfg, run, a);
  }

  /** The steps of a run that brought in a wanted frame, and those that lost it. */
  ghost predicate WantedAt(cfg: Settings, run: seq<Action>, i: nat) {
    i < |run| && run[i].Ingress? && Wanted(cfg, Exec(cfg, run[..i]), run[i].frame)
  }

  ghost predicate DroppedAt(cfg: Settings, run: seq<Action>, i: nat) {
    WantedAt(cfg, run, i) &&
    (Exec(cfg, run[..i]).phase == Stopped || |Exec(cfg, run[..i]).queue| == cfg.queueCap)
  }

  ghost function WantedSteps(cfg: Settings, run: seq<Action>, n: nat): set<nat>
    requires n <= |run|
  {
    set i: nat | i < n && WantedAt(cfg, run, i)
  }

  ghost function DroppedSteps(cfg: Settings, run: seq<Action>, n: nat): set<nat>
    requires n <= |run|
  {
    set i: nat | i < n && DroppedAt(cfg, run, i)
  }

  lemma {:induction false} StepCounts(cfg: Settings, run: seq<Action>, a: Action)
    ensures var r, r' := Exec(cfg, run), Exec(cfg, run + [a]);
      && r'.needed == r.needed + (if a.Ingress? && Wanted(cfg, r, a.frame) then 1 else 0)
      && r'.dropped == r.dropped +
           (if a.Ingress? && Wanted(cfg, r, a.frame) && (r.phase == Stopped || |r.queue| == cfg.queueCap)
            then 1 else 0)
  {
    if a.Ingress? {
      IngressExactly(cfg, run, a.frame);
    } else {
      ExecStep(cfg, run, a);
    }
  }

  lemma {:induction false} WantedStep(cfg: Settings, run: seq<Action>, n: nat)
    requires n < |run|
    ensures |WantedSteps(cfg, run, n + 1)| ==
            |WantedSteps(cfg, run, n)| + (if WantedAt(cfg, run, n) then 1 else 0)
  {
    OneMoreStep(WantedSteps(cfg, run, n), WantedSteps(cfg, run, n + 1), n, WantedAt(cfg, run, n));
  }

  lemma {:induction false} DroppedStep(cfg: Settings, run: seq<Action>, n: nat)
    requires n < |run|
    ensures |DroppedSteps(cfg, run, n + 1)| ==
            |DroppedSteps(cfg, run, n)| + (if DroppedAt(cfg, run, n) then 1 else 0)
  {
    OneMoreStep(DroppedSteps(cfg, run, n), DroppedSteps(cfg, run, n + 1), n, DroppedAt(cfg, run, n));
  }

  lemma {:induction false} OneMoreStep(before: set<nat>, after: set<nat>, n: nat, counts: bool)
    requires n !in before
    requires forall i :: i in after <==> i in before || (i == n && counts)
    ensures |after| == |before| + (if counts then 1 else 0)
  {
    assert after == if counts then before + {n} else before;
  }

  /** Over a whole run, the counters count the wanted frames, and those that came when the
      queue was full or the updater gone. */
  lemma {:induction false} DropsExactly(cfg: Settings, run: seq<Action>, n: nat)
    requires n <= |run|
    ensures Exec(cfg, run[..n]).needed == |WantedSteps(cfg, run, n)|
    ensures Exec(cfg, run[..n]).dropped == |DroppedSteps(cfg, run, n)|
  {
    if n > 0 {
      DropsExactly(cfg, run, n - 1);
      assert run[..n] == run[..n - 1] + [run[n - 1]];
      StepCounts(cfg, run[..n - 1], run[n - 1]);
      WantedStep(cfg, run, n - 1);
      DroppedStep(cfg, run, n - 1);
    }
  }

  /** In every run: a tick prunes exactly if the updater lives and nothing is pending; an
      update applies the oldest pending observation; and no other step applies anything. */
  lemma {:induction false} AppliedExactly(cfg: Settings, run: seq<Action>, a: Action)
    ensures var r, r' := Exec(cfg, run), Exec(cfg, run + [a]);
      r'.applied == r.applied +
        match a
        case PruneTick(when) => if r.phase != Stopped && r.Pending() == [] then [Pruned(when)] else []
        case ApplyOne => if r.phase == Applying && r.Pending() != [] then [Observed(r.Pending()[0])] else []
        case _ => []
  {
    AlwaysConsistent(cfg, run);
    ExecStep(cfg, run, a);
    assert Exec(cfg, run).applied + [] == Exec(cfg, run).applied;
  }

  /** What an updater that lives does next, if it has anything to do. */
  function NextAction(r: Router): Action {
    match r.phase
    case Idle => Receive
    case Collecting => if |r.batch| < BATCH_SIZE && r.queue != [] then Receive else Seal
    case Applying => ApplyOne
    case Stopped => Cancel
  }

  /** How much the updater has still to do. */
  function Work(r: Router): nat {
    4 * |r.queue| + 2 * |r.batch| + if r.phase == Applying then 0 else 1
  }

  lemma {:induction false} Progress(cfg: Settings, r: Router)
    requires Consistent(cfg, r) && r.phase != Stopped && r.Pending() != []
    ensures var r' := Act(cfg, r, NextAction(r));
      && NextAction(r) in {Receive, Seal, ApplyOne}
      && r'.phase != Stopped && Work(r') < Work(r) && r'.dropped == r.dropped
  {
  }

  /** The updater cannot get stuck: after any run it has steps of its own that empty the
      batch and the queue, unless it has been cancelled. */
  lemma {:induction false} CanCatchUp(cfg: Settings, run: seq<Action>) returns (more: seq<Action>)
    requires Exec(cfg, run).phase != Stopped
    ensures forall i :: 0 <= i < |more| ==> more[i] in {Receive, Seal, ApplyOne}
    ensures var r, r' := Exec(cfg, run), Exec(cfg, run + more);
      r'.Pending() == [] && r'.phase != Stopped && r'.dropped == r.dropped
    decreases Work(Exec(cfg, run))
  {
    var r := Exec(cfg, run);
    if r.Pending() == [] {
      more := [];
      assert run + more == run;
    } else {
      AlwaysConsistent(cfg, run);
      var a := NextAction(r);
      Progress(cfg, r);
      ExecStep(cfg, run, a);
      var rest := CanCatchUp(cfg, run + [a]);
      more := [a] + rest;
      Associative(run, [a], rest);
    }
  }

  /** Once the updater has stopped, no step changes the table or the queue any more. */
  lemma {:induction false} StoppedForGood(cfg: Settings, run: seq<Action>, n: nat)
    requires n <= |run| && Exec(cfg, run[..n]).phase == Stopped
    ensures var r, r' := Exec(cfg, run[..n]), Exec(cfg, run);
      r'.phase == Stopped && r'.table == r.table && r'.queue == r.queue && r'.applied == r.applied
    decreases |run|
  {
    if n < |run| {
      var front := run[..|run| - 1];
      assert front[..n] == run[..n];
      StoppedForGood(cfg, front, n);
    } else {
      assert run[..n] == run;
    }
  }

  // ---- Provenance ----------------------------------------------------------------------

  /** The i-th action brought in a frame from e that touches k and passed every stage. */
  ghost predicate Learned(cfg: Settings, run: seq<Action>, i: nat, k: RouteKey, e: EndpointId) {
    && i < |run| && run[i].Ingress?
    && var f := run[i].frame;
       && f.endpoint == e && Touches(Observed(f.Observation()), k)
       && f.sys != 0 && cfg.filter(f) && cfg.learns(e)
       && !Duplicate(Exec(cfg, run[..i]).wheels, f.hash)
  }

  ghost predicate SomeLearned(cfg: Settings, run: seq<Action>, k: RouteKey, e: EndpointId) {
    exists i: nat :: Learned(cfg, run, i, k, e)
  }

  lemma {:induction false} CommittedIsLearned(cfg: Settings, run: seq<Action>, j: nat, k: RouteKey)
    requires j < |Exec(cfg, run).committed| && Touches(Exec(cfg, run).committed[j], k)
    ensures SomeLearned(cfg, run, k, Exec(cfg, run).committed[j].o.endpoint)
  {
    var front, last := run[..|run| - 1], run[|run| - 1];
    var r, r' := Exec(cfg, front), Exec(cfg, run);
    var e := r'.committed[j].o.endpoint;
    if j < |r.committed| {
      CommittedIsLearned(cfg, front, j, k);
      var i: nat :| Learned(cfg, front, i, k, e);
      assert run[..i] == front[..i];
      assert Learned(cfg, run, i, k, e);
    } else {
      assert run[..|front|] == front;
      assert Learned(cfg, run, |front|, k, e);
    }
  }

  /** No route from nowhere: every endpoint in every entry was put there by a frame it
      received from a real system, through its filter and past deduplication. */
  lemma {:induction false} Provenance(cfg: Settings, run: seq<Action>, k: RouteKey, e: EndpointId)
    requires Holds(Exec(cfg, run).table, k, e)
    ensures SomeLearned(cfg, run, k, e)
  {
    var r := Exec(cfg, run);
    AlwaysConsistent(cfg, run);
    TableIsItsLog(r.applied, k, e, cfg.ttl);
    var j: nat :| Survives(r.applied, j, k, cfg.ttl) && r.applied[j].o.endpoint == e;
    assert r.committed[j] == r.applied[j];
    CommittedIsLearned(cfg, run, j, k);
  }

  // ---- Deduplication of everything forwarded -------------------------------------------

  /** The lock regions of the deduplicator that one action enters. */
  function DedupOps(cfg: Settings, a: Action): seq<SharedOp> {
    match a
    case Ingress(f) => if f.sys != 0 && cfg.filter(f) then [Submit(f.hash)] else []
    case RotateDedup(i) => [RotateShard(i)]
    case _ => []
  }

  function DedupTrace(cfg: Settings, run: seq<Action>): seq<SharedOp> {
    if run == [] then [] else DedupTrace(cfg, run[..|run| - 1]) + DedupOps(cfg, run[|run| - 1])
  }

  lemma {:induction false} DedupActs(cfg: Settings, r: Router, a: Action)
    requires |r.wheels| == NUM_SHARDS
    ensures var ops := DedupOps(cfg, a);
      Act(cfg, r, a).wheels == if ops == [] then r.wheels else StepShared(r.wheels, ops[0])
  {
  }

  /** The pipeline drives the deduplicator exactly as its own lock regions say. */
  lemma {:induction false} WheelsAreShared(cfg: Settings, run: seq<Action>)
    ensures Exec(cfg, run).wheels == RunShared(NumBuckets(cfg.dedupMs), DedupTrace(cfg, run))
  {
    if run != [] {
      var front, ops := run[..|run| - 1], DedupOps(cfg, run[|run| - 1]);
      WheelsAreShared(cfg, front);
      DedupActs(cfg, Exec(cfg, front), run[|run| - 1]);
      if ops == [] {
        assert DedupTrace(cfg, front) + ops == DedupTrace(cfg, front);
      } else {
        assert (DedupTrace(cfg, front) + ops)[..|DedupTrace(cfg, front)|] == DedupTrace(cfg, front);
      }
    }
  }

  lemma {:induction false} DedupTraceStep(cfg: Settings, run: seq<Action>, a: Action)
    ensures DedupTrace(cfg, run + [a]) == DedupTrace(cfg, run) + DedupOps(cfg, a)
  {
    assert (run + [a])[..|run|] == run;
  }

  lemma {:induction false} DedupTraceSplit(cfg: Settings, run: seq<Action>, i: nat)
    requires i <= |run|
    ensures DedupTrace(cfg, run) == DedupTrace(cfg, run[..i]) + DedupTrace(cfg, run[i..])
  {
    if i < |run| {
      var front, last := run[..|run| - 1], run[|run| - 1];
      DedupTraceSplit(cfg, front, i);
      assert front[..i] == run[..i];
      assert run[i..] == front[i..] + [last];
      DedupTraceStep(cfg, front[i..], last);
      Associative(DedupTrace(cfg, run[..i]), DedupTrace(cfg, front[i..]), DedupOps(cfg, last));
    } else {
      assert run[..i] == run;
    }
  }

  ghost predicate AdmittedAt(cfg: Settings, run: seq<Action>, i: nat, h: Hash) {
    i < |run| && run[i].Ingress? && run[i].frame.hash == h && Admits(cfg, Exec(cfg, run[..i]), run[i].frame)
  }

  lemma {:induction false} AdmittedIsAccepted(cfg: Settings, run: seq<Action>, i: nat, h: Hash)
    requires AdmittedAt(cfg, run, i, h)
    ensures var p := |DedupTrace(cfg, run[..i])|;
      && Accepts(NumBuckets(cfg.dedupMs), DedupTrace(cfg, run), p, h)
      && DedupTrace(cfg, run)[p..] == DedupTrace(cfg, run[i..])
  {
    DedupTraceSplit(cfg, run, i);
    DedupTraceSplit(cfg, run[i..], 1);
    assert run[i..][..1] == [run[i]];
    assert [run[i]][..0] == [];
    assert DedupTrace(cfg, [run[i]]) == [Submit(h)];
    var p := |DedupTrace(cfg, run[..i])|;
    assert DedupTrace(cfg, run)[..p] == DedupTrace(cfg, run[..i]);
    WheelsAreShared(cfg, run[..i]);
  }

  /** Redundant links deliver one copy: in every run, two admitted frames with one hash -
      from whatever endpoints - are at least a full wheel of rotations apart. */
  lemma {:induction false} OneCopyPerWindow(cfg: Settings, run: seq<Action>, i: nat, j: nat, h: Hash)
    requires i < j && AdmittedAt(cfg, run, i, h) && AdmittedAt(cfg, run, j, h)
    ensures ShardRotations(DedupTrace(cfg, run[i..j]), WheelOf(h)) >= NumBuckets(cfg.dedupMs)
  {
    var p, q := |DedupTrace(cfg, run[..i])|, |DedupTrace(cfg, run[..j])|;
    AdmittedIsAccepted(cfg, run, i, h);
    AdmittedIsAccepted(cfg, run, j, h);
    DedupSlice(cfg, run, i, j);
    OwnOpFirst(cfg, run[i..j]);
    AcceptancesApart(NumBuckets(cfg.dedupMs), DedupTrace(cfg, run), p, q, h);
  }

  /** Every submission in the deduplicator's trace was a frame that passed the filter. */
  lemma {:induction false} DedupOrigin(cfg: Settings, run: seq<Action>, p: nat) returns (i: nat)
    requires p < |DedupTrace(cfg, run)| && DedupTrace(cfg, run)[p].Submit?
    ensures i < |run| && run[i].Ingress? && |DedupTrace(cfg, run[..i])| == p
    ensures DedupTrace(cfg, run)[p] == Submit(run[i].frame.hash)
    ensures run[i].frame.sys != 0 && cfg.filter(run[i].frame)
  {
    var front := run[..|run| - 1];
    if p < |DedupTrace(cfg, front)| {
      i := DedupOrigin(cfg, front, p);
      assert front[..i] == run[..i];
    } else {
      i := |run| - 1;
    }
  }

  /** In every run a frame is admitted exactly if its system is real, its filter lets it
      pass, and no copy of it was admitted within a full wheel of rotations. */
  lemma {:induction false} AdmittedExactly(cfg: Settings, run: seq<Action>, f: Frame)
    ensures Admits(cfg, Exec(cfg, run), f) <==>
      && f.sys != 0 && cfg.filter(f)
      && !exists i: nat :: AdmittedAt(cfg, run, i, f.hash) &&
           ShardRotations(DedupTrace(cfg, run[i..]), WheelOf(f.hash)) < NumBuckets(cfg.dedupMs)
  {
    var n, trace, h := NumBuckets(cfg.dedupMs), DedupTrace(cfg, run), f.hash;
    WheelsAreShared(cfg, run);
    OneAcceptancePerWindow(n, trace, h);
    if i: nat :| AdmittedAt(cfg, run, i, h) && ShardRotations(DedupTrace(cfg, run[i..]), WheelOf(h)) < n {
      AdmittedIsAccepted(cfg, run, i, h);
      assert Accepts(n, trace, |DedupTrace(cfg, run[..i])|, h);
    }
    if p: nat :| Accepts(n, trace, p, h) && ShardRotations(trace[p..], WheelOf(h)) < n {
      var i := DedupOrigin(cfg, run, p);
      DedupTraceSplit(cfg, run, i);
      WheelsAreShared(cfg, run[..i]);
      assert trace[..p] == DedupTrace(cfg, run[..i]) && trace[p..] == DedupTrace(cfg, run[i..]);
      assert AdmittedAt(cfg, run, i, h);
    }
  }

  lemma {:induction false} DedupSlice(cfg: Settings, run: seq<Action>, i: nat, j: nat)
    requires i <= j <= |run|
    ensures var all := DedupTrace(cfg, run);
      var p, q := |DedupTrace(cfg, run[..i])|, |DedupTrace(cfg, run[..j])|;
      q == p + |DedupTrace(cfg, run[i..j])| <= |all| && all[p..q] == DedupTrace(cfg, run[i..j])
  {
    DedupTraceSplit(cfg, run[..j], i);
    assert run[..j][..i] == run[..i] && run[..j][i..] == run[i..j];
    DedupTraceSplit(cfg, run, j);
  }

  lemma {:induction false} OwnOpFirst(cfg: Settings, run: seq<Action>)
    requires run != [] && DedupOps(cfg, run[0]) != []
    ensures DedupTrace(cfg, run) != []
  {
    DedupTraceSplit(cfg, run, 1);
    assert run[..1][..0] == [];
  }
}
