// The public routing table: sixteen shards that answer every question as one flat table.
module Routing {
  import opened Basics
  import opened Groups
  import opened FlatTable
  import opened Counting
  import opened ShardStore
  import opened Statistics

  /** The part of a table that belongs to shard `i`. */
  function Slice(t: Table, i: nat): Table {
    Table(map k | k in t.routes && ShardOf(k.0) == i :: t.routes[k],
          map s | s in t.sysRoutes && ShardOf(s) == i :: t.sysRoutes[s])
  }

  /** The table-wide prune: each shard is judged by the clock reading it took itself. */
  function PruneBy(t: Table, clocks: seq<Time>, maxAge: nat): Table
    requires |clocks| == SHARD_COUNT
  {
    Table(map k | k in t.routes && !Expired(t.routes[k], clocks[ShardOf(k.0)], maxAge) :: t.routes[k],
          map s | s in t.sysRoutes && !Expired(t.sysRoutes[s], clocks[ShardOf(s)], maxAge) :: t.sysRoutes[s])
  }

  /** With one clock reading the sharded prune is the flat prune. */
  lemma {:induction false} PruneByOneClock(t: Table, clocks: seq<Time>, now: Time, maxAge: nat)
    requires |clocks| == SHARD_COUNT && forall i :: 0 <= i < SHARD_COUNT ==> clocks[i] == now
    ensures PruneBy(t, clocks, maxAge) == t.Prune(now, maxAge)
  {
  }

  /** An observation changes only the slice its system selects, and changes that slice as
      if it were the whole table. */
  lemma {:induction false} SliceObserve(t: Table, o: Observation, i: nat)
    ensures Slice(t.Observe(o), i) == if ShardOf(o.sys) == i then Slice(t, i).Observe(o) else Slice(t, i)
  {
  }

  lemma {:induction false} SlicePruneBy(t: Table, clocks: seq<Time>, maxAge: nat, i: nat)
    requires |clocks| == SHARD_COUNT && i < SHARD_COUNT
    ensures Slice(PruneBy(t, clocks, maxAge), i) == Slice(t, i).Prune(clocks[i], maxAge)
  {
  }

  lemma {:induction false} SliceLocated(t: Table, i: nat)
    ensures Located(Slice(t, i), i)
  {
  }

  ghost function SystemsBelow(t: Table, i: nat): set<Byte> {
    set s | s in t.sysRoutes && ShardOf(s) < i
  }

  ghost function RoutesBelow(t: Table, i: nat): set<(Byte, Byte)> {
    set k | k in t.routes && ShardOf(k.0) < i
  }

  lemma {:induction false} SlicesAddUp(t: Table, i: nat)
    ensures |SystemsBelow(t, i + 1)| == |SystemsBelow(t, i)| + |Slice(t, i).sysRoutes|
    ensures |RoutesBelow(t, i + 1)| == |RoutesBelow(t, i)| + |Slice(t, i).routes|
  {
    DisjointUnion(SystemsBelow(t, i), Slice(t, i).sysRoutes.Keys, SystemsBelow(t, i + 1));
    DisjointUnion(RoutesBelow(t, i), Slice(t, i).routes.Keys, RoutesBelow(t, i + 1));
  }

  ghost predicate MentionedBelow(t: Table, i: nat, e: EndpointId) {
    exists j :: 0 <= j < i && Slice(t, j).Mentions(e)
  }

  lemma {:induction false} SliceMentions(t: Table, e: EndpointId)
    ensures t.Mentions(e) <==> MentionedBelow(t, SHARD_COUNT, e)
  {
    if k :| k in t.routes && e in t.routes[k].endpoints {
      assert k in Slice(t, ShardOf(k.0)).routes;
      assert Slice(t, ShardOf(k.0)).Mentions(e);
    }
    if s :| s in t.sysRoutes && e in t.sysRoutes[s].endpoints {
      assert s in Slice(t, ShardOf(s)).sysRoutes;
      assert Slice(t, ShardOf(s)).Mentions(e);
    }
  }

  lemma {:induction false} AllShards(t: Table)
    ensures |SystemsBelow(t, SHARD_COUNT)| == |t.sysRoutes|
    ensures |RoutesBelow(t, SHARD_COUNT)| == |t.routes|
    ensures forall e :: t.Mentions(e) <==> MentionedBelow(t, SHARD_COUNT, e)
  {
    assert SystemsBelow(t, SHARD_COUNT) == t.sysRoutes.Keys;
    assert RoutesBelow(t, SHARD_COUNT) == t.routes.Keys;
    forall e { SliceMentions(t, e); }
  }

  class RoutingTable {
    const shards: seq<Shard>
    var config: GroupConfig
    ghost var contents: Table

    ghost predicate Valid()
      reads this, shards
    {
      && |shards| == SHARD_COUNT
      && (forall i, j :: 0 <= i < j < |shards| ==> shards[i] != shards[j])
      && forall i :: 0 <= i < |shards| ==>
           && shards[i].index == i
           && shards[i].maxRoutes == MAX_ROUTES_PER_SHARD
           && shards[i].maxSystems == MAX_SYSTEMS_PER_SHARD
           && shards[i].Valid()
           && shards[i].View() == Slice(contents, i)
    }

    constructor ()
      ensures Valid() && fresh(shards)
      ensures contents == EMPTY_TABLE && config == EMPTY
    {
      var built: seq<Shard> := [];
      for i := 0 to SHARD_COUNT
        invariant |built| == i && fresh(built)
        invariant forall j, k :: 0 <= j < k < i ==> built[j] != built[k]
        invariant forall j :: 0 <= j < i ==>
          && built[j].index == j && built[j].Valid() && built[j].View() == EMPTY_TABLE
          && built[j].maxRoutes == MAX_ROUTES_PER_SHARD && built[j].maxSystems == MAX_SYSTEMS_PER_SHARD
      {
        var shard := new Shard(i, MAX_ROUTES_PER_SHARD, MAX_SYSTEMS_PER_SHARD);
        built := built + [shard];
      }
      shards := built;
      config := EMPTY;
      contents := EMPTY_TABLE;
    }

    method SetEndpointGroup(id: EndpointId, group: string)
      requires Valid()
      modifies this`config
      ensures Valid() && config == old(config).SetEndpointGroup(id, group)
    {
      config := config.SetEndpointGroup(id, group);
    }

    method SetSnifferSysids(sysids: set<Byte>)
      requires Valid()
      modifies this`config
      ensures Valid() && config == old(config).(snifferSysids := sysids)
    {
      config := config.(snifferSysids := sysids);
    }

    /** `clock` is the reading a forced prune would take; it never matters. */
    method Update(o: Observation, clock: Time)
      requires Valid()
      modifies this`contents, shards
      ensures Valid() && contents == old(contents).Observe(o)
    {
      var i := ShardOf(o.sys);
      SliceLocated(contents, i);
      forall w { CapsUnreachable(Slice(contents, i), w, i, clock); }
      shards[i].Update(o, clock);
      forall j | 0 <= j < SHARD_COUNT { SliceObserve(contents, o, j); }
      contents := contents.Observe(o);
    }

    method Prune(clocks: seq<Time>, maxAge: nat)
      requires Valid() && |clocks| == SHARD_COUNT
      modifies this`contents, shards
      ensures Valid() && contents == PruneBy(old(contents), clocks, maxAge)
    {
      for i := 0 to |shards|
        invariant contents == old(contents)
        invariant forall j :: 0 <= j < |shards| ==>
          && shards[j].Valid()
          && shards[j].View() ==
             if j < i then Slice(contents, j).Prune(clocks[j], maxAge) else Slice(contents, j)
      {
        shards[i].Prune(clocks[i], maxAge);
      }
      forall j | 0 <= j < SHARD_COUNT { SlicePruneBy(contents, clocks, maxAge, j); }
      contents := PruneBy(contents, clocks, maxAge);
    }

    method IsSnifferEndpoint(e: EndpointId) returns (sniffs: bool)
      requires Valid()
      ensures sniffs <==> contents.Sniffs(config, e)
    {
      var todo := config.snifferSysids;
      while todo != {}
        invariant todo <= config.snifferSysids
        invariant forall s :: s in config.snifferSysids && s !in todo && s in contents.sysRoutes ==>
          e !in contents.sysRoutes[s].endpoints
      {
        var s :| s in todo;
        var shard := shards[ShardOf(s)];
        assert s in shard.View().sysRoutes <==> s in contents.sysRoutes;
        if s in shard.sysRoutes && e in shard.sysRoutes[s].endpoints {
          return true;
        }
        todo := todo - {s};
      }
      return false;
    }

    method NeedsUpdateForEndpoint(e: EndpointId, s: Byte, c: Byte, now: Time) returns (needed: bool)
      requires Valid()
      ensures needed <==> contents.NeedsUpdate(e, s, c, now)
    {
      var shard := shards[ShardOf(s)];
      assert shard.View() == Slice(contents, ShardOf(s));
      needed := Stale(shard.routes, (s, c), e, now) || Stale(shard.sysRoutes, s, e, now);
    }

    method ShouldSend(e: EndpointId, s: Byte, c: Byte) returns (send: bool)
      requires Valid()
      ensures send <==> contents.ShouldSend(config, e, s, c)
    {
      var sniffs := IsSnifferEndpoint(e);
      if sniffs {
        return true;
      }
      if s == 0 {
        return true;
      }
      var shard := shards[ShardOf(s)];
      assert shard.View() == Slice(contents, ShardOf(s));
      if s !in shard.sysRoutes {
        return false;
      }
      var entry := shard.sysRoutes[s];
      if c == 0 {
        return config.Reaches(entry.endpoints, e);
      }
      if (s, c) in shard.routes {
        return config.Reaches(shard.routes[(s, c)].endpoints, e);
      }
      return config.Reaches(entry.endpoints, e);
    }

    /** Running totals over the first `i` shards. */
    ghost predicate Tallied(i: nat, systems: nat, routes: nat, endpoints: set<EndpointId>)
      reads this
    {
      && systems == |SystemsBelow(contents, i)| <= 16 * i
      && routes == |RoutesBelow(contents, i)| <= 4096 * i
      && forall e :: e in endpoints <==> MentionedBelow(contents, i, e)
    }

    lemma {:induction false} TallyShard(i: nat, systems: nat, routes: nat, endpoints: set<EndpointId>)
      requires Valid() && i < SHARD_COUNT && Tallied(i, systems, routes, endpoints)
      ensures Tallied(i + 1, systems + |shards[i].sysRoutes|, routes + |shards[i].routes|,
                      endpoints + shards[i].endpointCounts.Keys)
    {
      assert shards[i].View() == Slice(contents, i);
      LocatedSize(shards[i].View(), i);
      SlicesAddUp(contents, i);
      ExactKeys(shards[i].endpointCounts, shards[i].View());
      forall e
        ensures MentionedBelow(contents, i + 1, e) <==>
                MentionedBelow(contents, i, e) || Slice(contents, i).Mentions(e)
      {
      }
    }

    method AddShard(i: nat, systems: Usize, routes: Usize, endpoints: set<EndpointId>)
      returns (systems': Usize, routes': Usize, endpoints': set<EndpointId>)
      requires Valid() && i < SHARD_COUNT && Tallied(i, systems, routes, endpoints)
      ensures Tallied(i + 1, systems', routes', endpoints')
    {
      TallyShard(i, systems, routes, endpoints);
      systems' := SaturatingAdd(systems, |shards[i].sysRoutes|);
      routes' := SaturatingAdd(routes, |shards[i].routes|);
      endpoints' := endpoints + shards[i].endpointCounts.Keys;
    }

    method Stats(timestamp: nat) returns (stats: RoutingStats)
      requires Valid()
      ensures stats.totalSystems == |contents.sysRoutes|
      ensures stats.totalRoutes == |contents.routes|
      ensures stats.totalEndpoints == |contents.Endpoints()|
      ensures stats.timestamp == timestamp
    {
      var systems: Usize, routes: Usize, endpoints: set<EndpointId> := 0, 0, {};
      for i := 0 to |shards|
        invariant Tallied(i, systems, routes, endpoints)
      {
        systems, routes, endpoints := AddShard(i, systems, routes, endpoints);
      }
      AllShards(contents);
      assert endpoints == contents.Endpoints();
      stats := RoutingStats(systems, routes, |endpoints|, timestamp);
    }
  }
}
