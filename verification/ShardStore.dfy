// One shard of the routing table: two maps and an incrementally maintained endpoint counter.
module ShardStore {
  import opened Basics
  import opened FlatTable
  import opened Counting

  const SHARD_COUNT: nat := 16
  const MAX_ROUTES_PER_SHARD: nat := 100_000 / SHARD_COUNT
  const MAX_SYSTEMS_PER_SHARD: nat := 1_000 / SHARD_COUNT
  const FORCED_PRUNE_AGE: nat := 60_000

  /** Masking a `u8` by SHARD_COUNT - 1 is taking it modulo 16. */
  function ShardOf(s: Byte): nat {
    s % SHARD_COUNT
  }

  /** Every key belongs to shard `i`. */
  ghost predicate Located(t: Table, i: nat) {
    (forall k :: k in t.routes ==> ShardOf(k.0) == i) &&
    (forall s :: s in t.sysRoutes ==> ShardOf(s) == i)
  }

  lemma {:induction false} LocatedSize(t: Table, i: nat)
    requires Located(t, i)
    ensures |t.routes| <= 4096 && |t.sysRoutes| <= 16
  {
    Pigeonhole(t.sysRoutes.Keys, (s: Byte) => s / 16, 16);
    Pigeonhole(t.routes.Keys, (k: (Byte, Byte)) => (k.0 / 16) * 256 + k.1, 4096);
  }

  // ---- Capacity ------------------------------------------------------------------------

  function ForcedPrune(t: Table, maxRoutes: nat, clock: Time): Table {
    if |t.routes| >= maxRoutes then t.Prune(clock, FORCED_PRUNE_AGE) else t
  }

  ghost predicate Evicted(p: Table, w: Table, maxSystems: nat) {
    if |p.sysRoutes| >= maxSystems && p.sysRoutes != map[]
    then exists s :: p.Oldest(s) && w == p.RemoveSystem(s)
    else w == p
  }

  /** `w` is `t` after the capacity branches that precede an update. */
  ghost predicate Relieved(t: Table, w: Table, maxRoutes: nat, maxSystems: nat, clock: Time) {
    Evicted(ForcedPrune(t, maxRoutes, clock), w, maxSystems)
  }

  /** With byte-sized identifiers neither cap can be reached, so an update of a shard
      never prunes or evicts. */
  lemma {:induction false} CapsUnreachable(t: Table, w: Table, i: nat, clock: Time)
    requires Located(t, i)
    ensures Relieved(t, w, MAX_ROUTES_PER_SHARD, MAX_SYSTEMS_PER_SHARD, clock) <==> w == t
  {
    LocatedSize(t, i);
  }

  /** For any positive system cap, eviction makes room: the cap is never exceeded. */
  lemma {:induction false} EvictionKeepsCap(
      t: Table, w: Table, maxRoutes: nat, maxSystems: nat, clock: Time, o: Observation)
    requires Relieved(t, w, maxRoutes, maxSystems, clock)
    requires maxSystems >= 1 && |t.sysRoutes| <= maxSystems
    ensures |w.Observe(o).sysRoutes| <= maxSystems
  {
    var p := ForcedPrune(t, maxRoutes, clock);
    RemovalsShrink(t, clock, FORCED_PRUNE_AGE, 0);
    EvictedBelowCap(p, w, maxSystems);
    OneMoreKey(w.sysRoutes, o.sys, o.endpoint, o.at);
  }

  lemma {:induction false} EvictedBelowCap(p: Table, w: Table, maxSystems: nat)
    requires Evicted(p, w, maxSystems)
    requires 1 <= maxSystems && |p.sysRoutes| <= maxSystems
    ensures |w.sysRoutes| < maxSystems
  {
  }

  lemma {:induction false} RemovalsShrink(t: Table, now: Time, maxAge: nat, s: Byte)
    ensures |t.Prune(now, maxAge).sysRoutes| <= |t.sysRoutes|
    ensures s in t.sysRoutes ==> |t.RemoveSystem(s).sysRoutes| == |t.sysRoutes| - 1
  {
    SubsetSize(t.Prune(now, maxAge).sysRoutes.Keys, t.sysRoutes.Keys);
    if s in t.sysRoutes {
      assert t.RemoveSystem(s).sysRoutes.Keys == t.sysRoutes.Keys - {s};
    }
  }

  lemma {:induction false} OneMoreKey(m: map<Byte, RouteEntry>, s: Byte, e: EndpointId, now: Time)
    ensures |Touch(m, s, e, now)| <= |m| + 1
  {
  }

  /** A full update, capacity branches included, keeps component routes covered by their
      systems when observations arrive in time order. */
  lemma {:induction false} UpdateKeepsCover(
      t: Table, w: Table, maxRoutes: nat, maxSystems: nat, clock: Time, o: Observation)
    requires Relieved(t, w, maxRoutes, maxSystems, clock)
    requires Covered(t) && SeenBy(t, o.at)
    ensures Covered(w.Observe(o)) && SeenBy(w.Observe(o), o.at)
  {
    var p := ForcedPrune(t, maxRoutes, clock);
    CoveredRemovals(t, clock, FORCED_PRUNE_AGE, 0);
    if |p.sysRoutes| >= maxSystems && p.sysRoutes != map[] {
      var s :| p.Oldest(s) && w == p.RemoveSystem(s);
      CoveredRemovals(p, clock, FORCED_PRUNE_AGE, s);
    }
    CoveredStep(w, o);
  }

  /** What relief removes, and why: routes seen over a minute ago when the shard is full of
      routes, and the routes of an oldest system when it is full of systems. */
  lemma {:induction false} ReliefExactly(
      t: Table, w: Table, maxRoutes: nat, maxSystems: nat, clock: Time, s: Byte, k: (Byte, Byte))
    requires Relieved(t, w, maxRoutes, maxSystems, clock)
    ensures s in w.sysRoutes ==>
      && s in t.sysRoutes && w.sysRoutes[s] == t.sysRoutes[s]
      && (|t.routes| >= maxRoutes ==> Minus(clock, t.sysRoutes[s].lastSeen) <= 60_000)
    ensures k in w.routes ==>
      && k in t.routes && w.routes[k] == t.routes[k]
      && (|t.routes| >= maxRoutes ==> Minus(clock, t.routes[k].lastSeen) <= 60_000)
    ensures s in t.sysRoutes && s !in w.sysRoutes ==>
      || (|t.routes| >= maxRoutes && Minus(clock, t.sysRoutes[s].lastSeen) > 60_000)
      || (|t.sysRoutes| >= maxSystems &&
          forall x :: x in w.sysRoutes ==> t.sysRoutes[s].lastSeen <= w.sysRoutes[x].lastSeen)
    ensures k in t.routes && k !in w.routes ==>
      || (|t.routes| >= maxRoutes && Minus(clock, t.routes[k].lastSeen) > 60_000)
      || (|t.sysRoutes| >= maxSystems && k.0 !in w.sysRoutes)
  {
    RemovalsShrink(t, clock, FORCED_PRUNE_AGE, s);
  }

  // ---- The shard -----------------------------------------------------------------------

  /** Caps are fields so that eviction can be verified for caps that are reachable. */
  class Shard {
    const index: nat
    const maxRoutes: nat
    const maxSystems: nat
    var routes: map<(Byte, Byte), RouteEntry>
    var sysRoutes: map<Byte, RouteEntry>
    var endpointCounts: Counts

    ghost function View(): Table
      reads this
    {
      Table(routes, sysRoutes)
    }

    ghost predicate Valid()
      reads this
    {
      Located(View(), index) && Exact(endpointCounts, View())
    }

    constructor (index: nat, maxRoutes: nat, maxSystems: nat)
      ensures Valid() && View() == EMPTY_TABLE
      ensures this.index == index && this.maxRoutes == maxRoutes && this.maxSystems == maxSystems
    {
      this.index, this.maxRoutes, this.maxSystems := index, maxRoutes, maxSystems;
      routes, sysRoutes, endpointCounts := map[], map[], map[];
    }

    /** Counts stay far below the machine word, so saturating updates are exact. */
    lemma {:induction false} CountsBounded(e: EndpointId)
      requires Located(View(), index)
      ensures Occurrences(routes, e) + Occurrences(sysRoutes, e) <= 4112
    {
      LocatedSize(View(), index);
      OccurrencesBound(routes, e);
      OccurrencesBound(sysRoutes, e);
    }

    method Prune(now: Time, maxAge: nat)
      requires Valid()
      modifies this
      ensures Valid()
      ensures View() == old(View()).Prune(now, maxAge)
    {
      forall e
        ensures Occurrences(routes, e) + Occurrences(sysRoutes, e) <= 4112
      {
        CountsBounded(e);
      }
      var keptRoutes, tally := RetainUnexpired(routes, map[], now, maxAge);
      var keptSys, removed := RetainUnexpired(sysRoutes, tally, now, maxAge);
      routes, sysRoutes := keptRoutes, keptSys;
      endpointCounts := Settle(endpointCounts, removed);
    }

    /** Ties for the oldest system are broken arbitrarily, as hash order does. */
    method RemoveOldestSystem()
      requires Valid()
      modifies this
      ensures Valid()
      ensures if old(View()).sysRoutes == map[] then View() == old(View())
              else exists s :: old(View()).Oldest(s) && View() == old(View()).RemoveSystem(s)
    {
      if sysRoutes == map[] {
        return;
      }
      var oldest := FindOldest(sysRoutes);
      forall e ensures Occurrences(sysRoutes, e) ==
        Occurrences(sysRoutes - {oldest}, e) + (if e in sysRoutes[oldest].endpoints then 1 else 0)
      {
        OccurrencesWithout(sysRoutes, oldest, e);
      }
      endpointCounts := Discharge(endpointCounts, sysRoutes[oldest].endpoints);
      sysRoutes := sysRoutes - {oldest};
      DropComponents(oldest);
      assert View() == old(View()).RemoveSystem(oldest);
    }

    static method FindOldest(m: map<Byte, RouteEntry>) returns (oldest: Byte)
      requires m != map[]
      ensures oldest in m && forall x :: x in m ==> m[oldest].lastSeen <= m[x].lastSeen
    {
      oldest :| oldest in m;
      var todo := m.Keys;
      while todo != {}
        invariant todo <= m.Keys && oldest in m
        invariant forall x :: x in m && x !in todo ==> m[oldest].lastSeen <= m[x].lastSeen
      {
        var s :| s in todo;
        if m[s].lastSeen < m[oldest].lastSeen {
          oldest := s;
        }
        todo := todo - {s};
      }
    }

    /** The `retain` that removes every component route of one system. */
    method DropComponents(s: Byte)
      requires Valid()
      modifies this`routes, this`endpointCounts
      ensures Valid()
      ensures routes == map k | k in old(routes) && k.0 != s :: old(routes)[k]
    {
      var todo := routes.Keys;
      while todo != {}
        invariant Valid()
        invariant todo <= routes.Keys <= old(routes).Keys
        invariant forall k :: k in routes ==> routes[k] == old(routes)[k]
        invariant forall k :: k in old(routes) && k !in todo ==> (k in routes <==> k.0 != s)
        decreases todo
      {
        var k :| k in todo;
        if k.0 == s {
          forall e ensures Occurrences(routes, e) ==
            Occurrences(routes - {k}, e) + (if e in routes[k].endpoints then 1 else 0)
          {
            OccurrencesWithout(routes, k, e);
          }
          endpointCounts := Discharge(endpointCounts, routes[k].endpoints);
          routes := routes - {k};
        }
        todo := todo - {k};
      }
    }

    /** Record one observation, relieving the shard first if it is at a cap. `clock` is
        the reading a forced prune would take. */
    method Update(o: Observation, clock: Time)
      requires Valid() && ShardOf(o.sys) == index
      modifies this
      ensures Valid()
      ensures exists w ::
        Relieved(old(View()), w, maxRoutes, maxSystems, clock) && View() == w.Observe(o)
    {
      if |routes| >= maxRoutes {
        Prune(clock, FORCED_PRUNE_AGE);
      }
      if |sysRoutes| >= maxSystems {
        RemoveOldestSystem();
      }
      ghost var w := View();
      assert Relieved(old(View()), w, maxRoutes, maxSystems, clock);
      Record(o);
      assert View() == w.Observe(o);
    }

    method Record(o: Observation)
      requires Valid() && ShardOf(o.sys) == index
      modifies this
      ensures Valid() && View() == old(View()).Observe(o)
    {
      CountsBounded(o.endpoint);
      ChargeTracksTouch(endpointCounts, routes, (o.sys, o.comp), o.endpoint, o.at);
      endpointCounts := Charge(endpointCounts, routes, (o.sys, o.comp), o.endpoint);
      routes := Touch(routes, (o.sys, o.comp), o.endpoint, o.at);
      ChargeTracksTouch(endpointCounts, sysRoutes, o.sys, o.endpoint, o.at);
      endpointCounts := Charge(endpointCounts, sysRoutes, o.sys, o.endpoint);
      sysRoutes := Touch(sysRoutes, o.sys, o.endpoint, o.at);
    }
  }
}
