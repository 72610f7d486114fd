// What throttling and queueing cost: the gated, queued table lies between two immediate,
// ungated tables, one with the same TTL and one whose TTL is a second shorter.
module Staleness {
  import opened Basics
  import opened Groups
  import opened FlatTable
  import opened History
  import opened SharedDedup
  import opened Pipeline

  predicate Timed(a: Action) {
    a.Ingress? || a.PruneTick?
  }

  function When(a: Action): Time
    requires Timed(a)
  {
    if a.Ingress? then a.frame.at else a.when
  }

  /** Clock readings never decrease along the run. */
  ghost predicate Clocked(run: seq<Action>) {
    forall i, j :: 0 <= i < j < |run| && Timed(run[i]) && Timed(run[j]) ==> When(run[i]) <= When(run[j])
  }

  /** The immediate, ungated table: every admitted observation at once, pruned at `ttl`. */
  function Immediate(cfg: Settings, run: seq<Action>, ttl: nat): Table {
    Replay(Exec(cfg, run).ideal, ttl)
  }

  /** `a` is within `b`: whatever a knows b knows, and b is less than `slack` ms behind. */
  ghost predicate Within(a: Option<RouteEntry>, b: Option<RouteEntry>, slack: nat) {
    a.Some? ==>
      && b.Some?
      && a.value.endpoints <= b.value.endpoints
      && a.value.lastSeen < b.value.lastSeen + slack
  }

  // ---- One key, one event --------------------------------------------------------------

  lemma {:induction false} BothStep(
      a: Option<RouteEntry>, b: Option<RouteEntry>, slack: nat, ev: TableEvent, k: RouteKey, ta: nat, tb: nat)
    requires Within(a, b, slack) && slack >= 1
    requires tb + 1 >= ta + slack
    ensures Within(KeyStep(a, ev, k, ta), KeyStep(b, ev, k, tb), slack)
  {
  }

  /** An observation the gate let pass unrecorded is already known, and recent. */
  lemma {:induction false} GatedStep(
      a: Option<RouteEntry>, b: Option<RouteEntry>, o: Observation, k: RouteKey, ttl: nat)
    requires Within(a, b, GATE_MS)
    requires Touches(Observed(o), k) ==>
      b.Some? && o.endpoint in b.value.endpoints && o.at < b.value.lastSeen + GATE_MS
    ensures Within(KeyStep(a, Observed(o), k, ttl), b, GATE_MS)
  {
  }

  /** Extra observations, no older than anything seen, only raise the upper table. */
  lemma {:induction false} ExtraStep(
      a: Option<RouteEntry>, b: Option<RouteEntry>, o: Observation, k: RouteKey, ttl: nat)
    requires Within(a, b, 1)
    requires a.Some? ==> a.value.lastSeen <= o.at
    ensures Within(a, KeyStep(b, Observed(o), k, ttl), 1)
  {
  }

  // ---- Order along a run ---------------------------------------------------------------

  lemma {:induction false} CommittedOrdered(cfg: Settings, run: seq<Action>, now: Time)
    requires Clocked(run)
    requires forall i :: 0 <= i < |run| && Timed(run[i]) ==> When(run[i]) <= now
    ensures Ordered(Exec(cfg, run).committed) && UpTo(Exec(cfg, run).committed, now)
  {
    if run != [] {
      var front, last := run[..|run| - 1], run[|run| - 1];
      CommittedOrdered(cfg, front, if Timed(last) then When(last) else now);
    }
  }

  lemma {:induction false} DroppedGrows(cfg: Settings, run: seq<Action>)
    requires run != []
    ensures Exec(cfg, run[..|run| - 1]).dropped <= Exec(cfg, run).dropped
  {
  }

  /** A frame the gate turned away: the committed log already accounts for it. */
  lemma {:induction false} GateAccounts(cfg: Settings, run: seq<Action>, f: Frame, k: RouteKey)
    requires Clocked(run + [Ingress(f)])
    requires !Exec(cfg, run).table.NeedsUpdate(f.endpoint, f.sys, f.comp, f.at)
    requires Touches(Observed(f.Observation()), k)
    ensures var b := Lookup(Replay(Exec(cfg, run).committed, cfg.ttl), k);
      b.Some? && f.endpoint in b.value.endpoints && f.at < b.value.lastSeen + GATE_MS
  {
    var r := Exec(cfg, run);
    AlwaysConsistent(cfg, run);
    var n := |run|;
    forall i | 0 <= i < n && Timed(run[i]) ensures When(run[i]) <= f.at {
      assert (run + [Ingress(f)])[i] == run[i] && (run + [Ingress(f)])[n] == Ingress(f);
    }
    assert Clocked(run) by {
      forall i, j | 0 <= i < j < n && Timed(run[i]) && Timed(run[j]) ensures When(run[i]) <= When(run[j]) {
        assert (run + [Ingress(f)])[i] == run[i] && (run + [Ingress(f)])[j] == run[j];
      }
    }
    CommittedOrdered(cfg, run, f.at);
    assert r.committed[..|r.applied|] == r.applied;
    ObservationsOnlyAdd(r.committed, |r.applied|, k, cfg.ttl);
    match k
    case Component(_, _) =>
    case System(_) =>
  }

  // ---- Along the run -------------------------------------------------------------------

  /** What one action does to the two logs. */
  datatype Effect = Nothing | Both(ev: TableEvent) | IdealOnly(o: Observation)

  function EffectOf(cfg: Settings, r: Router, a: Action): Effect {
    match a
    case Ingress(f) =>
      if !Admits(cfg, r, f) || !cfg.learns(f.endpoint) then Nothing
      else if !r.table.NeedsUpdate(f.endpoint, f.sys, f.comp, f.at) || r.phase == Stopped || |r.queue| >= cfg.queueCap
      then IdealOnly(f.Observation())
      else Both(Observed(f.Observation()))
    case PruneTick(when) => if r.phase == Idle && r.queue == [] then Both(Pruned(when)) else Nothing
    case _ => Nothing
  }

  lemma {:induction false} EffectOnLogs(cfg: Settings, r: Router, a: Action, k: RouteKey, ttl: nat)
    ensures var eff, r' := EffectOf(cfg, r, a), Act(cfg, r, a);
      && Lookup(Replay(r'.committed, ttl), k) ==
           (if eff.Both? then KeyStep(Lookup(Replay(r.committed, ttl), k), eff.ev, k, ttl)
            else Lookup(Replay(r.committed, ttl), k))
      && Lookup(Replay(r'.ideal, ttl), k) ==
           (match eff
            case Nothing => Lookup(Replay(r.ideal, ttl), k)
            case Both(ev) => KeyStep(Lookup(Replay(r.ideal, ttl), k), ev, k, ttl)
            case IdealOnly(o) => KeyStep(Lookup(Replay(r.ideal, ttl), k), Observed(o), k, ttl))
  {
    match EffectOf(cfg, r, a)
    case Nothing =>
    case Both(ev) =>
      ReplayStep(r.committed, ev, ttl);
      ReplayStep(r.ideal, ev, ttl);
      KeysIndependent(Replay(r.committed, ttl), ev, k, ttl);
      KeysIndependent(Replay(r.ideal, ttl), ev, k, ttl);
    case IdealOnly(o) =>
      ReplayStep(r.ideal, Observed(o), ttl);
      KeysIndependent(Replay(r.ideal, ttl), Observed(o), k, ttl);
  }

  /** Nothing stays in the committed table that an immediate table of the same TTL lost. */
  lemma {:induction false} CommittedBelowImmediate(cfg: Settings, run: seq<Action>, k: RouteKey)
    requires Clocked(run)
    ensures Within(Lookup(Replay(Exec(cfg, run).committed, cfg.ttl), k),
                   Lookup(Immediate(cfg, run, cfg.ttl), k), 1)
  {
    if run != [] {
      var front, last := run[..|run| - 1], run[|run| - 1];
      var r := Exec(cfg, front);
      CommittedBelowImmediate(cfg, front, k);
      EffectOnLogs(cfg, r, last, k, cfg.ttl);
      var a, b := Lookup(Replay(r.committed, cfg.ttl), k), Lookup(Replay(r.ideal, cfg.ttl), k);
      match EffectOf(cfg, r, last)
      case Nothing =>
      case Both(ev) => BothStep(a, b, 1, ev, k, cfg.ttl, cfg.ttl);
      case IdealOnly(o) =>
        CommittedOrdered(cfg, front, o.at);
        SeenInLog(r.committed, k, cfg.ttl, o.at);
        ExtraStep(a, b, o, k, cfg.ttl);
    }
  }

  /** While nothing was dropped, everything an immediate table with a TTL one second
      shorter holds is in the committed table, less than a second behind. */
  lemma {:induction false} ImmediateBelowCommitted(cfg: Settings, run: seq<Action>, k: RouteKey)
    requires Clocked(run) && Exec(cfg, run).dropped == 0 && cfg.ttl >= 999
    ensures Within(Lookup(Immediate(cfg, run, Minus(cfg.ttl, GATE_MS)), k),
                   Lookup(Replay(Exec(cfg, run).committed, cfg.ttl), k), GATE_MS)
  {
    if run != [] {
      var front, last := run[..|run| - 1], run[|run| - 1];
      var r, short := Exec(cfg, front), Minus(cfg.ttl, GATE_MS);
      DroppedGrows(cfg, run);
      ImmediateBelowCommitted(cfg, front, k);
      EffectOnLogs(cfg, r, last, k, cfg.ttl);
      EffectOnLogs(cfg, r, last, k, short);
      var a, b := Lookup(Replay(r.ideal, short), k), Lookup(Replay(r.committed, cfg.ttl), k);
      match EffectOf(cfg, r, last)
      case Nothing =>
      case Both(ev) => ShortStep(a, b, ev, k, cfg.ttl);
      case IdealOnly(o) =>
        assert run == front + [last];
        if Touches(Observed(o), k) {
          GateAccounts(cfg, front, last.frame, k);
        }
        GatedStep(a, b, o, k, short);
    }
  }

  lemma {:induction false} ShortStep(
      a: Option<RouteEntry>, b: Option<RouteEntry>, ev: TableEvent, k: RouteKey, ttl: nat)
    requires Within(a, b, GATE_MS) && ttl >= 999
    ensures Within(KeyStep(a, ev, k, Minus(ttl, GATE_MS)), KeyStep(b, ev, k, ttl), GATE_MS)
  {
  }

  /** Nothing has overflowed the queue, and the updater has nothing left to do. */
  ghost predicate CaughtUp(cfg: Settings, run: seq<Action>) {
    Exec(cfg, run).dropped == 0 && Exec(cfg, run).Pending() == []
  }

  function Short(ttl: nat): nat {
    Minus(ttl, 1_000)
  }

  /** Main result. In every run with a nondecreasing clock the table knows no key, no
      endpoint and no time that an immediate table of the same TTL does not; and whenever
      the updater has caught up - in particular after each prune - it knows every key and
      endpoint of an immediate table whose TTL is one second shorter, less than a second
      behind. */
  lemma {:induction false} StalenessBound(cfg: Settings, run: seq<Action>, k: RouteKey)
    requires Clocked(run)
    ensures Within(Lookup(Exec(cfg, run).table, k), Lookup(Immediate(cfg, run, cfg.ttl), k), 1)
    ensures CaughtUp(cfg, run) && cfg.ttl >= 999 ==>
      Within(Lookup(Immediate(cfg, run, Short(cfg.ttl)), k), Lookup(Exec(cfg, run).table, k), 1_000)
  {
    var r := Exec(cfg, run);
    AlwaysConsistent(cfg, run);
    CommittedBelowImmediate(cfg, run, k);
    CommittedOrdered(cfg, run, Latest(run));
    assert r.committed[..|r.applied|] == r.applied;
    ObservationsOnlyAdd(r.committed, |r.applied|, k, cfg.ttl);
    if CaughtUp(cfg, run) && cfg.ttl >= 999 {
      assert AsEvents(r.Pending()) == [];
      assert r.committed == r.applied;
      ImmediateBelowCommitted(cfg, run, k);
    }
  }

  /** No component route is ever orphaned: in every run with a nondecreasing clock, what
      is sent for a component is also sent for its whole system. */
  lemma {:induction false} NeverOrphaned(
      cfg: Settings, run: seq<Action>, groups: GroupConfig, e: EndpointId, s: Byte, c: Byte)
    requires Clocked(run)
    ensures var t := Exec(cfg, run).table;
      && Covered(t)
      && (t.ShouldSend(groups, e, s, c) ==> t.ShouldSend(groups, e, s, 0))
      && (Holds(t, Component(s, c), e) ==> t.ShouldSend(groups, e, s, c))
  {
    var r := Exec(cfg, run);
    AlwaysConsistent(cfg, run);
    CommittedOrdered(cfg, run, Latest(run));
    forall i | 0 <= i < |r.applied| ensures r.applied[i] == r.committed[i] {}
    OrderedLogCovered(r.applied, cfg.ttl);
    CoveredRouting(r.table, groups, e, s, c);
  }

  function Latest(run: seq<Action>): (now: Time)
    ensures forall i :: 0 <= i < |run| && Timed(run[i]) ==> When(run[i]) <= now
  {
    if run == [] then 0
    else
      var rest := Latest(run[..|run| - 1]);
      if Timed(run[|run| - 1]) then Max(rest, When(run[|run| - 1])) else rest
  }

  // ---- The bound is exact --------------------------------------------------------------

  /** The lower half of the bound, for every configuration with this TTL and every run. */
  ghost predicate LosesAtMostOneSecond(ttl: nat) {
    forall cfg: Settings, run: seq<Action>, k: RouteKey, e: EndpointId ::
      (cfg.ttl == ttl && Clocked(run) && CaughtUp(cfg, run) && Holds(Immediate(cfg, run, Short(ttl)), k, e)) ==>
        Holds(Exec(cfg, run).table, k, e)
  }

  /** A needed observation joins an empty queue. */
  lemma {:induction false} Enqueue(cfg: Settings, r: Router, f: Frame)
    requires Admits(cfg, r, f) && cfg.learns(f.endpoint)
    requires r.table.NeedsUpdate(f.endpoint, f.sys, f.comp, f.at)
    requires r.phase == Idle && r.queue == [] && cfg.queueCap >= 1
    ensures var r', o := Act(cfg, r, Ingress(f)), f.Observation();
      && r'.queue == [o] && r'.ideal == r.ideal + [Observed(o)]
      && r'.table == r.table && r'.phase == Idle && r'.batch == r.batch && r'.dropped == r.dropped
  {
  }

  /** The updater takes one observation through a batch of its own. */
  lemma {:induction false} UpdateCycle(cfg: Settings, r: Router, o: Observation)
    requires r.phase == Idle && r.batch == [] && r.queue == [o]
    ensures var r' := Act(cfg, Act(cfg, Act(cfg, r, Receive), Seal), ApplyOne);
      && r'.table == r.table.Observe(o) && r'.phase == Idle && r'.batch == [] && r'.queue == []
      && r'.ideal == r.ideal && r'.dropped == r.dropped && r'.wheels == r.wheels
  {
  }

  /** A refresh inside the gate reaches no one, and the next prune removes the route. */
  lemma {:induction false} ForgottenRefresh(cfg: Settings, r: Router, f: Frame)
    requires Admits(cfg, r, f) && cfg.learns(f.endpoint)
    requires r.phase == Idle && r.batch == [] && r.queue == []
    requires cfg.ttl < 999 && f.at == cfg.ttl + 1
    requires r.table == EMPTY_TABLE.Observe(f.(at := 0).Observation())
    ensures var r' := Act(cfg, Act(cfg, r, Ingress(f)), PruneTick(f.at));
      && !Holds(r'.table, System(f.sys), f.endpoint)
      && r'.ideal == r.ideal + [Observed(f.Observation())] + [Pruned(f.at)]
      && r'.Pending() == [] && r'.dropped == r.dropped
  {
  }

  /** A router that takes every frame: no filter, no deduplication, room in the queue. */
  ghost predicate TakesAll(cfg: Settings) {
    cfg.dedupMs == 0 && cfg.queueCap >= 1 && (forall f :: cfg.filter(f)) && (forall e :: cfg.learns(e))
  }

  function TakeAll(ttl: nat): (cfg: Settings)
    ensures TakesAll(cfg) && cfg.ttl == ttl
  {
    Settings((f: Frame) => true, (e: EndpointId) => true, 0, ttl, 1)
  }

  /** One frame, taken through a batch of its own. */
  function Teach(f: Frame): seq<Action> {
    [Ingress(f), Receive, Seal, ApplyOne]
  }

  lemma {:induction false} Taught(cfg: Settings, run: seq<Action>, f: Frame)
    requires TakesAll(cfg) && f.sys != 0
    requires var r := Exec(cfg, run);
      && r.phase == Idle && r.batch == [] && r.queue == []
      && r.table.NeedsUpdate(f.endpoint, f.sys, f.comp, f.at)
    ensures var r, r' := Exec(cfg, run), Exec(cfg, run + Teach(f));
      && r'.phase == Idle && r'.batch == [] && r'.queue == [] && r'.dropped == r.dropped
      && r'.table == r.table.Observe(f.Observation())
      && r'.ideal == r.ideal + [Observed(f.Observation())]
  {
    var run1 := run + [Ingress(f)];
    DisabledAdmits(cfg, run, f);
    Enqueue(cfg, Exec(cfg, run), f);
    ExecStep(cfg, run, Ingress(f));
    ExecStep(cfg, run1, Receive);
    ExecStep(cfg, run1 + [Receive], Seal);
    ExecStep(cfg, run1 + [Receive] + [Seal], ApplyOne);
    UpdateCycle(cfg, Exec(cfg, run1), f.Observation());
    assert run1 + [Receive] + [Seal] + [ApplyOne] == run + Teach(f);
  }

  function Refreshed(ttl: nat): seq<Action> {
    Teach(Frame(0, 1, 1, 0, 0, 0)) + [Ingress(Frame(0, 1, 1, 0, 0, ttl + 1)), PruneTick(ttl + 1)]
  }

  lemma {:induction false} RefreshedRun(cfg: Settings, ttl: nat)
    requires TakesAll(cfg) && cfg.ttl == ttl && ttl < 999
    ensures var r := Exec(cfg, Refreshed(ttl));
      && r.ideal == [Observed(Observation(0, 1, 1, 0))] + [Observed(Observation(0, 1, 1, ttl + 1))] + [Pruned(ttl + 1)]
      && r.dropped == 0 && r.Pending() == [] && !Holds(r.table, System(1), 0)
  {
    var f1, f2 := Frame(0, 1, 1, 0, 0, 0), Frame(0, 1, 1, 0, 0, ttl + 1);
    Taught(cfg, [], f1);
    assert [] + Teach(f1) == Teach(f1);
    ExecStep(cfg, Teach(f1), Ingress(f2));
    ExecStep(cfg, Teach(f1) + [Ingress(f2)], PruneTick(ttl + 1));
    DisabledAdmits(cfg, Teach(f1), f2);
    ForgottenRefresh(cfg, Exec(cfg, Teach(f1)), f2);
    assert Teach(f1) + [Ingress(f2)] + [PruneTick(ttl + 1)] == Refreshed(ttl);
  }

  /** With a shorter TTL the gate hides a refresh from the prune that needed it. */
  lemma {:induction false} ShortTtlForgets(ttl: nat)
    requires ttl < 999
    ensures !LosesAtMostOneSecond(ttl)
  {
    var cfg := TakeAll(ttl);
    RefreshedRun(cfg, ttl);
    RefreshRemembered(Observation(0, 1, 1, 0), Observation(0, 1, 1, ttl + 1), ttl);
    assert Holds(Immediate(cfg, Refreshed(ttl), Short(ttl)), System(1), 0);
    assert Clocked(Refreshed(ttl));
  }

  lemma {:induction false} RefreshRemembered(o1: Observation, o2: Observation, ttl: nat)
    requires o2.at == ttl + 1 && o1.sys == o2.sys
    ensures Holds(Replay([Observed(o1)] + [Observed(o2)] + [Pruned(ttl + 1)], 0), System(o2.sys), o2.endpoint)
  {
  }

  lemma {:induction false} DisabledAdmits(cfg: Settings, run: seq<Action>, f: Frame)
    requires cfg.dedupMs == 0 && f.sys != 0 && cfg.filter(f)
    ensures Admits(cfg, Exec(cfg, run), f)
  {
    NoWheels(cfg, run);
  }

  lemma {:induction false} NoWheels(cfg: Settings, run: seq<Action>)
    requires cfg.dedupMs == 0
    ensures |Exec(cfg, run).wheels| == NUM_SHARDS
    ensures forall i :: 0 <= i < NUM_SHARDS ==> Exec(cfg, run).wheels[i].buckets == []
  {
    if run != [] {
      NoWheels(cfg, run[..|run| - 1]);
    }
  }

  /** The bound holds from 999 ms up and fails below: TTLs are configured in whole
      seconds, so it holds for every TTL but zero. */
  lemma {:induction false} OneSecondExactly(ttl: nat)
    ensures LosesAtMostOneSecond(ttl) <==> ttl >= 999
  {
    if ttl >= 999 {
      forall cfg: Settings, run: seq<Action>, k: RouteKey, e: EndpointId |
        cfg.ttl == ttl && Clocked(run) && CaughtUp(cfg, run) && Holds(Immediate(cfg, run, Short(ttl)), k, e)
        ensures Holds(Exec(cfg, run).table, k, e)
      {
        StalenessBound(cfg, run, k);
      }
    } else {
      ShortTtlForgets(ttl);
    }
  }
}
