// The routing table as one flat value: the specification that the sharded, counted and
// queued implementation is proved to agree with.
module FlatTable {
  import opened Basics
  import opened Groups

  datatype RouteEntry = RouteEntry(endpoints: set<EndpointId>, lastSeen: Time)

  datatype Observation = Observation(endpoint: EndpointId, sys: Byte, comp: Byte, at: Time)

  const GATE_MS: Time := 1000

  function Touch<K>(m: map<K, RouteEntry>, k: K, e: EndpointId, now: Time): map<K, RouteEntry> {
    var known := if k in m then m[k].endpoints else {};
    m[k := RouteEntry(known + {e}, now)]
  }

  predicate Expired(entry: RouteEntry, now: Time, maxAge: nat) {
    Minus(now, entry.lastSeen) > maxAge
  }

  function Unexpired<K>(m: map<K, RouteEntry>, now: Time, maxAge: nat): map<K, RouteEntry> {
    map k | k in m && !Expired(m[k], now, maxAge) :: m[k]
  }

  /** The gate on one entry: unknown, without this endpoint, or at least a second old. */
  predicate Stale<K>(m: map<K, RouteEntry>, k: K, e: EndpointId, now: Time) {
    k !in m || e !in m[k].endpoints || Minus(now, m[k].lastSeen) >= GATE_MS
  }

  datatype Table = Table(routes: map<(Byte, Byte), RouteEntry>, sysRoutes: map<Byte, RouteEntry>)
  {
    function Observe(o: Observation): Table {
      Table(Touch(routes, (o.sys, o.comp), o.endpoint, o.at), Touch(sysRoutes, o.sys, o.endpoint, o.at))
    }

    function Prune(now: Time, maxAge: nat): Table {
      Table(Unexpired(routes, now, maxAge), Unexpired(sysRoutes, now, maxAge))
    }

    /** A system goes together with all of its component routes. */
    function RemoveSystem(s: Byte): Table {
      Table(map k | k in routes && k.0 != s :: routes[k], sysRoutes - {s})
    }

    ghost predicate Oldest(s: Byte) {
      s in sysRoutes && forall x :: x in sysRoutes ==> sysRoutes[s].lastSeen <= sysRoutes[x].lastSeen
    }

    predicate NeedsUpdate(e: EndpointId, s: Byte, c: Byte, now: Time) {
      Stale(routes, (s, c), e, now) || Stale(sysRoutes, s, e, now)
    }

    predicate Sniffs(cfg: GroupConfig, e: EndpointId) {
      exists s :: s in cfg.snifferSysids && s in sysRoutes && e in sysRoutes[s].endpoints
    }

    /** The endpoint set that decides delivery to (s, c), if the system is known. */
    function Selected(s: Byte, c: Byte): Option<set<EndpointId>> {
      if s !in sysRoutes then None
      else if c != 0 && (s, c) in routes then Some(routes[(s, c)].endpoints)
      else Some(sysRoutes[s].endpoints)
    }

    predicate ShouldSend(cfg: GroupConfig, e: EndpointId, s: Byte, c: Byte) {
      || Sniffs(cfg, e)
      || s == 0
      || (Selected(s, c).Some? && cfg.Reaches(Selected(s, c).value, e))
    }

    ghost predicate Mentions(e: EndpointId) {
      (exists k :: k in routes && e in routes[k].endpoints) ||
      (exists s :: s in sysRoutes && e in sysRoutes[s].endpoints)
    }

    ghost function Endpoints(): (mentioned: set<EndpointId>)
      ensures forall e :: e in mentioned <==> Mentions(e)
    {
      (set k, e | k in routes && e in routes[k].endpoints :: e) +
      (set s, e | s in sysRoutes && e in sysRoutes[s].endpoints :: e)
    }
  }

  const EMPTY_TABLE: Table := Table(map[], map[])

  // ---- Component routes never outlive their system -------------------------------------

  /** Every component route has a system route with all its endpoints and no older. */
  ghost predicate Covered(t: Table) {
    forall k :: k in t.routes ==>
      && k.0 in t.sysRoutes
      && t.routes[k].endpoints <= t.sysRoutes[k.0].endpoints
      && t.routes[k].lastSeen <= t.sysRoutes[k.0].lastSeen
  }

  ghost predicate SeenBy(t: Table, now: Time) {
    (forall k :: k in t.routes ==> t.routes[k].lastSeen <= now) &&
    (forall s :: s in t.sysRoutes ==> t.sysRoutes[s].lastSeen <= now)
  }

  lemma {:induction false} CoveredStep(t: Table, o: Observation)
    requires Covered(t) && SeenBy(t, o.at)
    ensures Covered(t.Observe(o)) && SeenBy(t.Observe(o), o.at)
  {
  }

  lemma {:induction false} CoveredRemovals(t: Table, now: Time, maxAge: nat, s: Byte)
    requires Covered(t)
    ensures Covered(t.Prune(now, maxAge)) && Covered(t.RemoveSystem(s))
  {
  }

  /** What coverage buys: whoever gets messages for a component also gets messages
      addressed to its whole system, and no component route is unreachable. */
  lemma {:induction false} CoveredRouting(t: Table, cfg: GroupConfig, e: EndpointId, s: Byte, c: Byte)
    requires Covered(t)
    ensures t.ShouldSend(cfg, e, s, c) ==> t.ShouldSend(cfg, e, s, 0)
    ensures (s, c) in t.routes && e in t.routes[(s, c)].endpoints ==> t.ShouldSend(cfg, e, s, c)
  {
  }

  /** Members of one group that are not sniffers get the same verdict on every message,
      whatever the table has learned and however groups were registered. */
  lemma {:induction false} GroupRoutesAlike(
      t: Table, regs: seq<Registration>, sniffers: set<Byte>,
      a: EndpointId, b: EndpointId, g: string, s: Byte, c: Byte)
    requires CurrentGroup(regs, a, g) && CurrentGroup(regs, b, g)
    requires var cfg := Configure(regs).(snifferSysids := sniffers);
      !t.Sniffs(cfg, a) && !t.Sniffs(cfg, b)
    ensures var cfg := Configure(regs).(snifferSysids := sniffers);
      t.ShouldSend(cfg, a, s, c) == t.ShouldSend(cfg, b, s, c)
  {
    if t.Selected(s, c).Some? {
      GroupSharesVerdict(regs, t.Selected(s, c).value, a, b, g);
    }
  }
}
