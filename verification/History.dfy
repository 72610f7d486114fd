// The routing table as a function of the log of updates and prunes applied to it.
module History {
  import opened Basics
  import opened Groups
  import opened FlatTable

  datatype TableEvent = Observed(o: Observation) | Pruned(when: Time)
  {
    function At(): Time {
      match this
      case Observed(o) => o.at
      case Pruned(when) => when
    }
  }

  function Apply(t: Table, ev: TableEvent, ttl: nat): Table {
    match ev
    case Observed(o) => t.Observe(o)
    case Pruned(when) => t.Prune(when, ttl)
  }

  function Replay(log: seq<TableEvent>, ttl: nat): Table {
    if log == [] then EMPTY_TABLE
    else Apply(Replay(log[..|log| - 1], ttl), log[|log| - 1], ttl)
  }

  lemma {:induction false} ReplayStep(log: seq<TableEvent>, ev: TableEvent, ttl: nat)
    ensures Replay(log + [ev], ttl) == Apply(Replay(log, ttl), ev, ttl)
  {
  }

  // ---- One key at a time ---------------------------------------------------------------

  /** Both kinds of key, so that one argument serves component and system routes. */
  datatype RouteKey = Component(sys: Byte, comp: Byte) | System(sys: Byte)

  function Lookup(t: Table, k: RouteKey): Option<RouteEntry> {
    match k
    case Component(s, c) => if (s, c) in t.routes then Some(t.routes[(s, c)]) else None
    case System(s) => if s in t.sysRoutes then Some(t.sysRoutes[s]) else None
  }

  predicate Touches(ev: TableEvent, k: RouteKey) {
    ev.Observed? && ev.o.sys == k.sys && (k.Component? ==> ev.o.comp == k.comp)
  }

  predicate Holds(t: Table, k: RouteKey, e: EndpointId) {
    Lookup(t, k).Some? && e in Lookup(t, k).value.endpoints
  }

  function KeyStep(entry: Option<RouteEntry>, ev: TableEvent, k: RouteKey, ttl: nat): Option<RouteEntry> {
    if Touches(ev, k) then
      Some(RouteEntry((if entry.Some? then entry.value.endpoints else {}) + {ev.o.endpoint}, ev.o.at))
    else if ev.Pruned? && entry.Some? && Expired(entry.value, ev.when, ttl) then None
    else entry
  }

  /** Each key evolves on its own: an event changes entry k as if k were the only key. */
  lemma {:induction false} KeysIndependent(t: Table, ev: TableEvent, k: RouteKey, ttl: nat)
    ensures Lookup(Apply(t, ev, ttl), k) == KeyStep(Lookup(t, k), ev, k, ttl)
  {
  }

  lemma {:induction false} ReplayKey(log: seq<TableEvent>, k: RouteKey, ttl: nat)
    ensures Lookup(Replay([], ttl), k) == None
    ensures log != [] ==>
      Lookup(Replay(log, ttl), k) ==
        KeyStep(Lookup(Replay(log[..|log| - 1], ttl), k), log[|log| - 1], k, ttl)
  {
  }

  // ---- The table is its log ------------------------------------------------------------

  /** When k was last observed; 0 for a key never observed. */
  function LastObserved(log: seq<TableEvent>, k: RouteKey): Time {
    if log == [] then 0
    else if Touches(log[|log| - 1], k) then log[|log| - 1].o.at
    else LastObserved(log[..|log| - 1], k)
  }

  /** The j-th event is a prune that finds k unobserved for more than the TTL. */
  predicate Removes(log: seq<TableEvent>, j: nat, k: RouteKey, ttl: nat)
    requires j < |log|
  {
    log[j].Pruned? && Minus(log[j].when, LastObserved(log[..j], k)) > ttl
  }

  /** The i-th event observes k, and no later prune removes k. */
  ghost predicate Survives(log: seq<TableEvent>, i: nat, k: RouteKey, ttl: nat) {
    i < |log| && Touches(log[i], k) && forall j :: i < j < |log| ==> !Removes(log, j, k, ttl)
  }

  /** For any order of updates, prunes and timestamps: endpoint e is in the entry of k
      iff an observation of (e, k) survives, and the entry carries the time of the last
      observation of k. */
  lemma {:induction false} TableIsItsLog(log: seq<TableEvent>, k: RouteKey, e: EndpointId, ttl: nat)
    ensures Holds(Replay(log, ttl), k, e) <==>
            exists i: nat :: Survives(log, i, k, ttl) && log[i].o.endpoint == e
    ensures Lookup(Replay(log, ttl), k).Some? <==> exists i: nat :: Survives(log, i, k, ttl)
    ensures Lookup(Replay(log, ttl), k).Some? ==>
            Lookup(Replay(log, ttl), k).value.lastSeen == LastObserved(log, k)
  {
    ReplayKey(log, k, ttl);
    if log != [] {
      var front, last := log[..|log| - 1], log[|log| - 1];
      TableIsItsLog(front, k, e, ttl);
      forall i | 0 <= i < |front|
        ensures Survives(log, i, k, ttl) <==> Survives(front, i, k, ttl) && !Removes(log, |front|, k, ttl)
      {
        SurvivesFront(log, i, k, ttl);
      }
      if Touches(last, k) {
        assert Survives(log, |front|, k, ttl);
      }
    }
  }

  lemma {:induction false} SurvivesFront(log: seq<TableEvent>, i: nat, k: RouteKey, ttl: nat)
    requires i + 1 < |log|
    ensures var front := log[..|log| - 1];
            Survives(log, i, k, ttl) <==> Survives(front, i, k, ttl) && !Removes(log, |front|, k, ttl)
  {
    var front := log[..|log| - 1];
    forall j | i < j < |front|
      ensures Removes(log, j, k, ttl) == Removes(front, j, k, ttl)
    {
      assert log[..j] == front[..j];
    }
  }

  // ---- Gate and verdict, read off the log ----------------------------------------------

  /** Endpoint e has an observation of k that no prune has removed. */
  ghost predicate KnownVia(log: seq<TableEvent>, k: RouteKey, e: EndpointId, ttl: nat) {
    exists i: nat :: Survives(log, i, k, ttl) && log[i].o.endpoint == e
  }

  ghost predicate Known(log: seq<TableEvent>, k: RouteKey, ttl: nat) {
    exists i: nat :: Survives(log, i, k, ttl)
  }

  lemma {:induction false} HoldsIsKnownVia(log: seq<TableEvent>, k: RouteKey, ttl: nat)
    ensures forall e :: Holds(Replay(log, ttl), k, e) <==> KnownVia(log, k, e, ttl)
    ensures Lookup(Replay(log, ttl), k).Some? <==> Known(log, k, ttl)
  {
    forall e
      ensures Holds(Replay(log, ttl), k, e) <==> KnownVia(log, k, e, ttl)
    {
      TableIsItsLog(log, k, e, ttl);
    }
    TableIsItsLog(log, k, 0, ttl);
  }

  /** The gate stays shut exactly when both the component and its system are known through
      this endpoint, and both were observed less than a second ago. */
  lemma {:induction false} GateIsItsLog(
      log: seq<TableEvent>, e: EndpointId, s: Byte, c: Byte, now: Time, ttl: nat)
    ensures !Replay(log, ttl).NeedsUpdate(e, s, c, now) <==>
      && KnownVia(log, Component(s, c), e, ttl) && KnownVia(log, System(s), e, ttl)
      && Minus(now, LastObserved(log, Component(s, c))) < 1_000
      && Minus(now, LastObserved(log, System(s))) < 1_000
  {
    TableIsItsLog(log, Component(s, c), e, ttl);
    TableIsItsLog(log, System(s), e, ttl);
  }

  /** ep is e, or belongs to the group of e. */
  predicate Near(groups: GroupConfig, ep: EndpointId, e: EndpointId) {
    ep == e || groups.AnyInSameGroup({ep}, e)
  }

  /** A message for (s, c) goes to e iff e hears a sniffer, or the message is broadcast,
      or s is known and e is, or shares its group with, an endpoint that c is known
      through - falling back to the endpoints of s when c itself is not known. */
  lemma {:induction false} VerdictIsItsLog(
      log: seq<TableEvent>, groups: GroupConfig, e: EndpointId, s: Byte, c: Byte, ttl: nat)
    ensures Replay(log, ttl).ShouldSend(groups, e, s, c) <==>
      || (exists x :: x in groups.snifferSysids && KnownVia(log, System(x), e, ttl))
      || s == 0
      || (Known(log, System(s), ttl) &&
          var k := if c != 0 && Known(log, Component(s, c), ttl) then Component(s, c) else System(s);
          exists ep :: KnownVia(log, k, ep, ttl) && Near(groups, ep, e))
  {
    var t := Replay(log, ttl);
    forall x: Byte ensures x in t.sysRoutes && e in t.sysRoutes[x].endpoints <==> KnownVia(log, System(x), e, ttl) {
      HoldsIsKnownVia(log, System(x), ttl);
      assert Holds(t, System(x), e) <==> x in t.sysRoutes && e in t.sysRoutes[x].endpoints;
    }
    assert t.Sniffs(groups, e) <==> exists x :: x in groups.snifferSysids && KnownVia(log, System(x), e, ttl);
    HoldsIsKnownVia(log, System(s), ttl);
    HoldsIsKnownVia(log, Component(s, c), ttl);
    var k := if c != 0 && Known(log, Component(s, c), ttl) then Component(s, c) else System(s);
    assert t.Selected(s, c).Some? <==> Known(log, System(s), ttl);
    if t.Selected(s, c).Some? {
      var selected := t.Selected(s, c).value;
      assert forall ep :: ep in selected <==> Holds(t, k, ep);
      ReachesOneByOne(groups, selected, e);
      assert groups.Reaches(selected, e) <==> exists ep :: KnownVia(log, k, ep, ttl) && Near(groups, ep, e);
    }
  }

  lemma {:induction false} ReachesOneByOne(groups: GroupConfig, endpoints: set<EndpointId>, e: EndpointId)
    ensures groups.Reaches(endpoints, e) <==>
            exists ep :: ep in endpoints && Near(groups, ep, e)
  {
  }

  // ---- Ordered logs --------------------------------------------------------------------

  ghost predicate Ordered(log: seq<TableEvent>) {
    forall i, j :: 0 <= i < j < |log| ==> log[i].At() <= log[j].At()
  }

  ghost predicate UpTo(log: seq<TableEvent>, now: Time) {
    forall i :: 0 <= i < |log| ==> log[i].At() <= now
  }

  lemma {:induction false} SeenInLog(log: seq<TableEvent>, k: RouteKey, ttl: nat, now: Time)
    requires UpTo(log, now)
    ensures Lookup(Replay(log, ttl), k).Some? ==> Lookup(Replay(log, ttl), k).value.lastSeen <= now
  {
    ReplayKey(log, k, ttl);
    if log != [] {
      SeenInLog(log[..|log| - 1], k, ttl, now);
    }
  }

  /** Applied in time order, the log never leaves a component route without its system. */
  lemma {:induction false} OrderedLogCovered(log: seq<TableEvent>, ttl: nat)
    requires Ordered(log)
    ensures Covered(Replay(log, ttl))
  {
    if log != [] {
      var front, last := log[..|log| - 1], log[|log| - 1];
      OrderedLogCovered(front, ttl);
      var t := Replay(front, ttl);
      match last
      case Pruned(when) => CoveredRemovals(t, when, ttl, 0);
      case Observed(o) =>
        forall k ensures Lookup(t, k).Some? ==> Lookup(t, k).value.lastSeen <= o.at {
          SeenInLog(front, k, ttl, o.at);
        }
        assert SeenBy(t, o.at) by {
          forall k | k in t.routes ensures t.routes[k].lastSeen <= o.at {
            assert Lookup(t, Component(k.0, k.1)).Some?;
          }
          forall s | s in t.sysRoutes ensures t.sysRoutes[s].lastSeen <= o.at {
            assert Lookup(t, System(s)).Some?;
          }
        }
        CoveredStep(t, o);
    }
  }

  /** Two producers enqueueing out of time order can orphan a component route: the system
      expires first, and nothing is delivered to a component that is still in the table. */
  lemma {:induction false} UnorderedLogCanOrphan(ttl: nat)
    ensures exists log, cfg ::
      var t := Replay(log, ttl);
      && Holds(t, Component(1, 1), 0)
      && !t.ShouldSend(cfg, 0, 1, 1)
  {
    var a := Observed(Observation(0, 1, 1, 1));
    var b := Observed(Observation(0, 1, 2, 0));
    var p := Pruned(ttl + 1);
    ReplayStep([], a, ttl);
    ReplayStep([a], b, ttl);
    ReplayStep([a, b], p, ttl);
    assert [] + [a] == [a] && [a] + [b] == [a, b] && [a, b] + [p] == [a, b, p];
    var t := Replay([a, b, p], ttl);
    assert Holds(t, Component(1, 1), 0);
    assert !t.ShouldSend(EMPTY, 0, 1, 1);
  }

  /** No component route without its system. */
  ghost predicate NoOrphan(t: Table) {
    forall k :: k in t.routes ==> k.0 in t.sysRoutes
  }

  /** Exactly when that cannot happen: no prune, whenever it comes, orphans a component iff
      every known component has a known system observed no earlier than itself. */
  lemma {:induction false} OrphansExactly(log: seq<TableEvent>, ttl: nat)
    ensures (forall p: Time :: NoOrphan(Replay(log + [Pruned(p)], ttl))) <==>
            forall s: Byte, c: Byte :: Known(log, Component(s, c), ttl) ==>
              Known(log, System(s), ttl) && LastObserved(log, Component(s, c)) <= LastObserved(log, System(s))
  {
    var t := Replay(log, ttl);
    forall p: Time ensures Replay(log + [Pruned(p)], ttl) == t.Prune(p, ttl) {
      ReplayStep(log, Pruned(p), ttl);
    }
    forall s: Byte, c: Byte
      ensures (s, c) in t.routes <==> Known(log, Component(s, c), ttl)
      ensures (s, c) in t.routes ==> t.routes[(s, c)].lastSeen == LastObserved(log, Component(s, c))
      ensures s in t.sysRoutes <==> Known(log, System(s), ttl)
      ensures s in t.sysRoutes ==> t.sysRoutes[s].lastSeen == LastObserved(log, System(s))
    {
      TableIsItsLog(log, Component(s, c), 0, ttl);
      TableIsItsLog(log, System(s), 0, ttl);
    }
    PruneOrphansExactly(t, ttl);
  }

  lemma {:induction false} PruneOrphansExactly(t: Table, ttl: nat)
    ensures (forall p: Time :: NoOrphan(t.Prune(p, ttl))) <==>
            forall s: Byte, c: Byte :: (s, c) in t.routes ==>
              s in t.sysRoutes && t.routes[(s, c)].lastSeen <= t.sysRoutes[s].lastSeen
  {
    if forall p: Time :: NoOrphan(t.Prune(p, ttl)) {
      forall s: Byte, c: Byte | (s, c) in t.routes
        ensures s in t.sysRoutes && t.routes[(s, c)].lastSeen <= t.sysRoutes[s].lastSeen
      {
        var now: Time := t.routes[(s, c)].lastSeen + ttl;
        assert NoOrphan(t.Prune(now, ttl));
        assert (s, c) in t.Prune(now, ttl).routes;
        assert s in t.Prune(now, ttl).sysRoutes;
      }
    }
  }

  /** Extending an ordered log by observations only adds endpoints and recency. */
  lemma {:induction false} ObservationsOnlyAdd(log: seq<TableEvent>, n: nat, k: RouteKey, ttl: nat)
    requires n <= |log| && Ordered(log)
    requires forall i :: n <= i < |log| ==> log[i].Observed?
    ensures var before, after := Lookup(Replay(log[..n], ttl), k), Lookup(Replay(log, ttl), k);
            before.Some? ==>
              after.Some? && before.value.endpoints <= after.value.endpoints &&
              before.value.lastSeen <= after.value.lastSeen
    decreases |log|
  {
    if n == |log| {
      assert log[..n] == log;
    } else {
      var front := log[..|log| - 1];
      assert front[..n] == log[..n];
      ObservationsOnlyAdd(front, n, k, ttl);
      ReplayKey(log, k, ttl);
      SeenInLog(front, k, ttl, log[|log| - 1].At());
    }
  }
}
