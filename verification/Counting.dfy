// Per-endpoint occurrence counts, and the map loops that maintain them.
module Counting {
  import opened Basics
  import opened FlatTable

  type Counts = map<EndpointId, Usize>

  function Get(counts: Counts, e: EndpointId): Usize {
    if e in counts then counts[e] else 0
  }

  function Containing<K>(m: map<K, RouteEntry>, e: EndpointId): set<K> {
    set k | k in m && e in m[k].endpoints
  }

  function Occurrences<K>(m: map<K, RouteEntry>, e: EndpointId): nat {
    |Containing(m, e)|
  }

  /** The counter equals a recount of the table, and holds no zero entries. */
  ghost predicate Exact(counts: Counts, t: Table) {
    (forall e :: Get(counts, e) == Occurrences(t.routes, e) + Occurrences(t.sysRoutes, e)) &&
    (forall e :: e in counts ==> counts[e] > 0)
  }

  lemma {:induction false} ExactKeys(counts: Counts, t: Table)
    requires Exact(counts, t)
    ensures forall e :: e in counts <==> t.Mentions(e)
  {
    forall e
      ensures e in counts <==> t.Mentions(e)
    {
      assert e in counts <==> Get(counts, e) > 0;
      assert Occurrences(t.routes, e) > 0 <==> Containing(t.routes, e) != {};
      assert Occurrences(t.sysRoutes, e) > 0 <==> Containing(t.sysRoutes, e) != {};
      if k :| k in t.routes && e in t.routes[k].endpoints {
        assert k in Containing(t.routes, e);
      }
      if s :| s in t.sysRoutes && e in t.sysRoutes[s].endpoints {
        assert s in Containing(t.sysRoutes, e);
      }
    }
  }

  lemma {:induction false} OccurrencesBound<K>(m: map<K, RouteEntry>, e: EndpointId)
    ensures Occurrences(m, e) <= |m|
  {
    SubsetSize(Containing(m, e), m.Keys);
  }

  /** Removing one key takes one occurrence from each endpoint of its entry. */
  lemma {:induction false} OccurrencesWithout<K>(m: map<K, RouteEntry>, k: K, e: EndpointId)
    requires k in m
    ensures Occurrences(m, e) == Occurrences(m - {k}, e) + (if e in m[k].endpoints then 1 else 0)
  {
    if e in m[k].endpoints {
      assert Containing(m, e) == Containing(m - {k}, e) + {k};
    } else {
      assert Containing(m, e) == Containing(m - {k}, e);
    }
  }

  lemma {:induction false} OccurrencesTouched<K>(
      m: map<K, RouteEntry>, k: K, ep: EndpointId, now: Time, e: EndpointId)
    ensures Occurrences(Touch(m, k, ep, now), e) ==
            Occurrences(m, e) + (if e == ep && !(k in m && ep in m[k].endpoints) then 1 else 0)
  {
    var u := Touch(m, k, ep, now);
    OccurrencesWithout(u, k, e);
    if k in m {
      OccurrencesWithout(m, k, e);
      assert m - {k} == u - {k};
    } else {
      assert m == u - {k};
    }
  }

  /** Inserting an endpoint that was not in the entry adds one to its count. */
  function Charge<K>(counts: Counts, m: map<K, RouteEntry>, k: K, ep: EndpointId): Counts {
    if k in m && ep in m[k].endpoints then counts
    else counts[ep := SaturatingAdd(Get(counts, ep), 1)]
  }

  lemma {:induction false} ChargeTracksTouch<K>(
      counts: Counts, m: map<K, RouteEntry>, k: K, ep: EndpointId, now: Time)
    requires Get(counts, ep) < USIZE_MAX
    requires forall e :: e in counts ==> counts[e] > 0
    ensures var charged := Charge(counts, m, k, ep);
      && (forall e :: e in charged ==> charged[e] > 0)
      && forall e :: Get(charged, e) + Occurrences(m, e) == Get(counts, e) + Occurrences(Touch(m, k, ep, now), e)
  {
    forall e
      ensures Get(Charge(counts, m, k, ep), e) + Occurrences(m, e) ==
              Get(counts, e) + Occurrences(Touch(m, k, ep, now), e)
    {
      OccurrencesTouched(m, k, ep, now, e);
    }
  }

  // ---- Loops ---------------------------------------------------------------------------

  /** Add one to the tally of every endpoint of a removed entry. */
  method Tally(removed: Counts, endpoints: set<EndpointId>) returns (tally: Counts)
    requires forall e :: e in endpoints ==> Get(removed, e) < USIZE_MAX
    ensures forall e :: Get(tally, e) == Get(removed, e) + (if e in endpoints then 1 else 0)
  {
    tally := removed;
    var todo := endpoints;
    while todo != {}
      invariant todo <= endpoints
      invariant forall e ::
        Get(tally, e) == Get(removed, e) + (if e in endpoints && e !in todo then 1 else 0)
    {
      var ep :| ep in todo;
      tally := tally[ep := SaturatingAdd(Get(tally, ep), 1)];
      todo := todo - {ep};
    }
  }

  /** The `retain` of the TTL prune over one map: drop the expired entries and tally, per
      endpoint, how many were dropped. */
  method RetainUnexpired<K(==)>(m: map<K, RouteEntry>, removed: Counts, now: Time, maxAge: nat)
    returns (kept: map<K, RouteEntry>, tally: Counts)
    requires forall e :: Get(removed, e) + Occurrences(m, e) <= USIZE_MAX
    ensures kept == Unexpired(m, now, maxAge)
    ensures forall e :: Get(tally, e) + Occurrences(kept, e) == Get(removed, e) + Occurrences(m, e)
  {
    kept, tally := m, removed;
    var todo := m.Keys;
    while todo != {}
      invariant todo <= m.Keys && todo <= kept.Keys <= m.Keys
      invariant forall k :: k in kept ==> kept[k] == m[k]
      invariant forall k :: k in m && k !in todo ==> (k in kept <==> !Expired(m[k], now, maxAge))
      invariant forall e :: Get(tally, e) + Occurrences(kept, e) == Get(removed, e) + Occurrences(m, e)
    {
      var k :| k in todo;
      if Expired(m[k], now, maxAge) {
        forall e
          ensures Occurrences(kept, e) == Occurrences(kept - {k}, e) + (if e in m[k].endpoints then 1 else 0)
        {
          OccurrencesWithout(kept, k, e);
        }
        tally := Tally(tally, m[k].endpoints);
        kept := kept - {k};
      }
      todo := todo - {k};
    }
  }

  /** Settle a tally against the counter, dropping entries that reach zero. */
  method Settle(counts: Counts, tally: Counts) returns (settled: Counts)
    requires forall e :: e in counts ==> counts[e] > 0
    ensures forall e :: Get(settled, e) == Minus(Get(counts, e), Get(tally, e))
    ensures forall e :: e in settled ==> settled[e] > 0
  {
    settled := counts;
    var todo := tally.Keys;
    while todo != {}
      invariant todo <= tally.Keys
      invariant forall e :: e in settled ==> settled[e] > 0
      invariant forall e ::
        Get(settled, e) == if e in todo then Get(counts, e) else Minus(Get(counts, e), Get(tally, e))
    {
      var ep :| ep in todo;
      if ep in settled {
        var left := Minus(settled[ep], tally[ep]);
        settled := if left == 0 then settled - {ep} else settled[ep := left];
      }
      todo := todo - {ep};
    }
  }

  /** Take one from the count of every endpoint of a removed entry. */
  method Discharge(counts: Counts, endpoints: set<EndpointId>) returns (settled: Counts)
    requires forall e :: e in counts ==> counts[e] > 0
    ensures forall e :: Get(settled, e) == Minus(Get(counts, e), if e in endpoints then 1 else 0)
    ensures forall e :: e in settled ==> settled[e] > 0
  {
    settled := counts;
    var todo := endpoints;
    while todo != {}
      invariant todo <= endpoints
      invariant forall e :: e in settled ==> settled[e] > 0
      invariant forall e ::
        Get(settled, e) == Minus(Get(counts, e), if e in endpoints && e !in todo then 1 else 0)
    {
      var ep :| ep in todo;
      if ep in settled {
        var left := Minus(settled[ep], 1);
        settled := if left == 0 then settled - {ep} else settled[ep := left];
      }
      todo := todo - {ep};
    }
  }
}
