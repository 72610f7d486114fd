// The updater task as a program: the biased select, the batch vector and the prune tick.
module Updater {
  import opened Basics
  import opened FlatTable
  import opened History
  import opened ShardStore
  import opened Routing
  import opened Pipeline

  /** What one pass of the select finds: observations enqueued since the last pass, whether
      cancellation has fired, and whether the prune timer is due (and the time it reads). */
  datatype Wake = Wake(arrivals: seq<Observation>, cancelled: bool, tick: Option<Time>)

  function Arrivals(wakes: seq<Wake>): seq<Observation> {
    if wakes == [] then [] else Arrivals(wakes[..|wakes| - 1]) + wakes[|wakes| - 1].arrivals
  }

  lemma {:induction false} ArrivalsStep(wakes: seq<Wake>, i: nat)
    requires i < |wakes|
    ensures Arrivals(wakes[..i + 1]) == Arrivals(wakes[..i]) + wakes[i].arrivals
  {
    assert wakes[..i + 1][..i] == wakes[..i];
  }

  /** The observations of a log, in order. */
  function ObservedIn(log: seq<TableEvent>): seq<Observation> {
    if log == [] then []
    else
      var last := log[|log| - 1];
      ObservedIn(log[..|log| - 1]) + (if last.Observed? then [last.o] else [])
  }

  lemma {:induction false} ObservedInStep(log: seq<TableEvent>, ev: TableEvent)
    ensures ObservedIn(log + [ev]) == ObservedIn(log) + (if ev.Observed? then [ev.o] else [])
  {
  }

  lemma {:induction false} ObservedInBatch(log: seq<TableEvent>, os: seq<Observation>)
    ensures ObservedIn(log + AsEvents(os)) == ObservedIn(log) + os
    decreases |os|
  {
    if os == [] {
      assert log + AsEvents(os) == log;
    } else {
      var front := os[..|os| - 1];
      ObservedInBatch(log, front);
      ObservedInStep(log + AsEvents(front), Observed(os[|os| - 1]));
      assert log + AsEvents(os) == log + AsEvents(front) + [Observed(os[|os| - 1])];
      assert os == front + [os[|os| - 1]];
    }
  }

  /** Every prune of the log was due at some wake-up, and came after everything that had
      arrived by then. */
  ghost predicate PrunesCaughtUp(log: seq<TableEvent>, wakes: seq<Wake>, served: nat)
    requires served <= |wakes|
  {
    forall p :: 0 <= p < |log| && log[p].Pruned? ==> PrunedAtWake(log, p, wakes, served)
  }

  ghost predicate PrunedAtWake(log: seq<TableEvent>, p: nat, wakes: seq<Wake>, served: nat)
    requires p < |log| && served <= |wakes| && log[p].Pruned?
  {
    exists i :: 0 <= i < served && wakes[i].tick == Some(log[p].when) &&
      ObservedIn(log[..p]) == Arrivals(wakes[..i + 1])
  }

  lemma {:induction false} StillCaughtUp(log: seq<TableEvent>, more: seq<TableEvent>, wakes: seq<Wake>, served: nat)
    requires served < |wakes| && PrunesCaughtUp(log, wakes, served)
    requires forall i :: 0 <= i < |more| ==> more[i].Observed?
    ensures PrunesCaughtUp(log + more, wakes, served + 1)
  {
    forall p | 0 <= p < |log + more| && (log + more)[p].Pruned?
      ensures PrunedAtWake(log + more, p, wakes, served + 1)
    {
      assert PrunedAtWake(log, p, wakes, served);
      assert (log + more)[..p] == log[..p];
    }
  }

  lemma {:induction false} PruneCaughtUp(log: seq<TableEvent>, when: Time, wakes: seq<Wake>, served: nat)
    requires served < |wakes| && PrunesCaughtUp(log, wakes, served)
    requires wakes[served].tick == Some(when) && ObservedIn(log) == Arrivals(wakes[..served + 1])
    ensures PrunesCaughtUp(log + [Pruned(when)], wakes, served + 1)
  {
    var grown := log + [Pruned(when)];
    forall p | 0 <= p < |grown| && grown[p].Pruned?
      ensures PrunedAtWake(grown, p, wakes, served + 1)
    {
      if p < |log| {
        assert PrunedAtWake(log, p, wakes, served);
        assert grown[..p] == log[..p];
      } else {
        assert grown[..p] == log;
      }
    }
  }

  /** `after` has the entries of `before` that were seen within the TTL, and no others. */
  ghost predicate OnlyLive(before: Table, after: Table, now: Time, ttl: nat) {
    forall k ::
      Lookup(after, k) ==
        if Lookup(before, k).Some? && now - Lookup(before, k).value.lastSeen > ttl then None
        else Lookup(before, k)
  }

  lemma {:induction false} PruneIsOnlyLive(log: seq<TableEvent>, now: Time, ttl: nat)
    ensures OnlyLive(Replay(log, ttl), Replay(log + [Pruned(now)], ttl), now, ttl)
  {
    ReplayStep(log, Pruned(now), ttl);
    forall k { KeysIndependent(Replay(log, ttl), Pruned(now), k, ttl); }
  }

  /** The log and queue after one pass of the select. */
  function After(log: seq<TableEvent>, queue: seq<Observation>, wake: Wake): (seq<TableEvent>, seq<Observation>) {
    var ready := queue + wake.arrivals;
    var n := Min(|ready|, BATCH_SIZE);
    if wake.cancelled then (log, ready)
    else if ready != [] then (log + AsEvents(ready[..n]), ready[n..])
    else if wake.tick.Some? then (log + [Pruned(wake.tick.value)], [])
    else (log, [])
  }

  lemma {:induction false} PassKeepsOrder(
      log: seq<TableEvent>, queue: seq<Observation>, wakes: seq<Wake>, served: nat)
    requires served < |wakes|
    requires ObservedIn(log) + queue == Arrivals(wakes[..served])
    requires PrunesCaughtUp(log, wakes, served)
    ensures var (log', queue') := After(log, queue, wakes[served]);
      ObservedIn(log') + queue' == Arrivals(wakes[..served + 1]) && PrunesCaughtUp(log', wakes, served + 1)
  {
    ArrivalsStep(wakes, served);
    var ready := queue + wakes[served].arrivals;
    assert ObservedIn(log) + ready == Arrivals(wakes[..served + 1]);
    if wakes[served].cancelled {
      StillCaughtUp(log, [], wakes, served);
      assert log + [] == log;
    } else if ready != [] {
      BatchKeepsOrder(log, ready, wakes, served);
    } else {
      TickKeepsOrder(log, wakes, served);
    }
  }

  lemma {:induction false} BatchKeepsOrder(
      log: seq<TableEvent>, ready: seq<Observation>, wakes: seq<Wake>, served: nat)
    requires served < |wakes| && PrunesCaughtUp(log, wakes, served)
    ensures var n := Min(|ready|, BATCH_SIZE);
      && ObservedIn(log + AsEvents(ready[..n])) + ready[n..] == ObservedIn(log) + ready
      && PrunesCaughtUp(log + AsEvents(ready[..n]), wakes, served + 1)
  {
    var n := Min(|ready|, BATCH_SIZE);
    ObservedInBatch(log, ready[..n]);
    assert ready == ready[..n] + ready[n..];
    StillCaughtUp(log, AsEvents(ready[..n]), wakes, served);
  }

  lemma {:induction false} TickKeepsOrder(log: seq<TableEvent>, wakes: seq<Wake>, served: nat)
    requires served < |wakes| && PrunesCaughtUp(log, wakes, served)
    requires ObservedIn(log) == Arrivals(wakes[..served + 1])
    ensures PrunesCaughtUp(log, wakes, served + 1)
    ensures wakes[served].tick.Some? ==>
      var log' := log + [Pruned(wakes[served].tick.value)];
      ObservedIn(log') == ObservedIn(log) && PrunesCaughtUp(log', wakes, served + 1)
  {
    StillCaughtUp(log, [], wakes, served);
    assert log + [] == log;
    if wakes[served].tick.Some? {
      ObservedInStep(log, Pruned(wakes[served].tick.value));
      PruneCaughtUp(log, wakes[served].tick.value, wakes, served);
    }
  }

  /** The log and queue after all these passes. */
  function Served(wakes: seq<Wake>): (seq<TableEvent>, seq<Observation>) {
    if wakes == [] then ([], [])
    else
      var (log, queue) := Served(wakes[..|wakes| - 1]);
      After(log, queue, wakes[|wakes| - 1])
  }

  /** Arrivals are logged in order whatever the batches, and a prune enters the log only
      when everything that had arrived was already in it. */
  lemma {:induction false} ServedInOrder(wakes: seq<Wake>)
    ensures var (log, queue) := Served(wakes);
      ObservedIn(log) + queue == Arrivals(wakes) && PrunesCaughtUp(log, wakes, |wakes|)
  {
    if wakes != [] {
      var front := wakes[..|wakes| - 1];
      ServedInOrder(front);
      var (log, queue) := Served(front);
      SameWakes(log, wakes, |front|);
      PassKeepsOrder(log, queue, wakes, |front|);
      assert wakes[..|front| + 1] == wakes;
    }
  }

  lemma {:induction false} SameWakes(log: seq<TableEvent>, wakes: seq<Wake>, n: nat)
    requires n <= |wakes| && PrunesCaughtUp(log, wakes[..n], n)
    ensures PrunesCaughtUp(log, wakes, n)
  {
    forall p | 0 <= p < |log| && log[p].Pruned?
      ensures PrunedAtWake(log, p, wakes, n)
    {
      assert PrunedAtWake(log, p, wakes[..n], n);
      var i :| 0 <= i < n && wakes[..n][i].tick == Some(log[p].when) &&
               ObservedIn(log[..p]) == Arrivals(wakes[..n][..i + 1]);
      assert wakes[..n][..i + 1] == wakes[..i + 1];
    }
  }

  class RoutingUpdater {
    const table: RoutingTable
    const ttl: nat
    var queue: seq<Observation>
    /** Everything applied to the table so far, in order. */
    ghost var log: seq<TableEvent>

    ghost predicate Valid()
      reads this, table, table.shards
    {
      table.Valid() && table.contents == Replay(log, ttl)
    }

    constructor (table: RoutingTable, ttl: nat)
      requires table.Valid() && table.contents == EMPTY_TABLE
      ensures Valid() && this.table == table && this.ttl == ttl && queue == [] && log == []
    {
      this.table, this.ttl, queue, log := table, ttl, [], [];
    }

    /** One blocking receive and an opportunistic drain. */
    method Collect() returns (batch: seq<Observation>)
      requires queue != []
      modifies this`queue
      ensures batch == old(queue)[..Min(|old(queue)|, BATCH_SIZE)]
      ensures queue == old(queue)[Min(|old(queue)|, BATCH_SIZE)..]
    {
      batch := [queue[0]];
      queue := queue[1..];
      while |batch| < BATCH_SIZE && queue != []
        invariant batch + queue == old(queue)
        invariant 1 <= |batch| <= BATCH_SIZE
        decreases |queue|
      {
        batch := batch + [queue[0]];
        queue := queue[1..];
      }
    }

    /** The batch reaches the table one observation at a time. `clock` is what a forced
        prune would read. */
    method ApplyAll(batch: seq<Observation>, clock: Time)
      requires Valid()
      modifies this`log, table`contents, table.shards
      ensures Valid() && log == old(log) + AsEvents(batch)
    {
      for i := 0 to |batch|
        invariant Valid()
        invariant log == old(log) + AsEvents(batch[..i])
      {
        assert AsEvents(batch[..i + 1]) == AsEvents(batch[..i]) + [Observed(batch[i])];
        ApplyUpdate(batch[i], clock);
      }
      assert batch[..|batch|] == batch;
    }

    method ApplyUpdate(o: Observation, clock: Time)
      requires Valid()
      modifies this`log, table`contents, table.shards
      ensures Valid() && log == old(log) + [Observed(o)]
    {
      table.Update(o, clock);
      ReplayStep(log, Observed(o), ttl);
      log := log + [Observed(o)];
    }

    method ApplyPrune(when: Time)
      requires Valid()
      modifies this`log, table`contents, table.shards
      ensures Valid() && log == old(log) + [Pruned(when)]
    {
      var clocks := seq(SHARD_COUNT, _ => when);
      PruneByOneClock(table.contents, clocks, when, ttl);
      table.Prune(clocks, ttl);
      ReplayStep(log, Pruned(when), ttl);
      log := log + [Pruned(when)];
    }

    /** One pass of the biased select: cancellation first, then updates, then the tick. */
    method Pass(wake: Wake, clock: Time)
      requires Valid()
      modifies this, table`contents, table.shards
      ensures Valid()
      ensures (log, queue) == After(old(log), old(queue), wake)
      ensures wake.cancelled ==> log == old(log) && table.contents == old(table.contents)
      // A pass takes 256 observations, or all there are.
      ensures !wake.cancelled ==> |queue| == Minus(|old(queue)| + |wake.arrivals|, 256)
      // A tick with nothing to take leaves no entry that has outlived the TTL, and every other.
      ensures !wake.cancelled && old(queue) == [] && wake.arrivals == [] && wake.tick.Some? ==>
        OnlyLive(old(table.contents), table.contents, wake.tick.value, ttl)
    {
      queue := queue + wake.arrivals;
      if wake.cancelled {
      } else if queue != [] {
        var batch := Collect();
        ApplyAll(batch, clock);
      } else if wake.tick.Some? {
        PruneIsOnlyLive(log, wake.tick.value, ttl);
        ApplyPrune(wake.tick.value);
      }
    }

    /** The endless select loop, over any finite prefix of what it wakes up to. */
    method Run(wakes: seq<Wake>, clock: Time) returns (served: nat)
      requires Valid() && log == [] && queue == []
      modifies this, table`contents, table.shards
      ensures Valid() && served <= |wakes|
      ensures (log, queue) == Served(wakes[..served])
      ensures served < |wakes| ==> served > 0 && wakes[served - 1].cancelled
      ensures forall i :: 0 <= i < served - 1 ==> !wakes[i].cancelled
    {
      served := 0;
      while served < |wakes|
        invariant Valid() && served <= |wakes|
        invariant (log, queue) == Served(wakes[..served])
        invariant forall i :: 0 <= i < served ==> !wakes[i].cancelled
      {
        assert wakes[..served + 1][..served] == wakes[..served];
        Pass(wakes[served], clock);
        served := served + 1;
        if wakes[served - 1].cancelled {
          break;
        }
      }
    }
  }
}
