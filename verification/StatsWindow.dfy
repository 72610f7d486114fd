// The statistics window: a deque pruned on every push, aggregated by binary search.
module StatsWindow {
  import opened Basics
  import opened Statistics

  datatype Aggregated = Aggregated(avgRoutes: real, maxRoutes: Usize, minRoutes: Usize, sampleCount: nat)

  // ---- The naive reading: scan everything ever pushed ----------------------------------

  function Since(samples: seq<RoutingStats>, cutoff: nat): seq<RoutingStats> {
    if samples == [] then []
    else
      Since(samples[..|samples| - 1], cutoff) +
      (if samples[|samples| - 1].timestamp >= cutoff then [samples[|samples| - 1]] else [])
  }

  function Sum(samples: seq<RoutingStats>): nat {
    if samples == [] then 0 else Sum(samples[..|samples| - 1]) + samples[|samples| - 1].totalRoutes
  }

  /** `agg` is the count, average, minimum and maximum of `window`. */
  ghost predicate Summarises(agg: Aggregated, window: seq<RoutingStats>) {
    && |window| > 0
    && agg.sampleCount == |window|
    && agg.avgRoutes == Sum(window) as real / |window| as real
    && (forall i :: 0 <= i < |window| ==> agg.minRoutes <= window[i].totalRoutes <= agg.maxRoutes)
    && (exists i :: 0 <= i < |window| && window[i].totalRoutes == agg.minRoutes)
    && (exists i :: 0 <= i < |window| && window[i].totalRoutes == agg.maxRoutes)
  }

  lemma {:induction false} SumConcat(a: seq<RoutingStats>, b: seq<RoutingStats>)
    ensures Sum(a + b) == Sum(a) + Sum(b)
    decreases |b|
  {
    if b == [] {
      assert a + b == a;
    } else {
      SumConcat(a, b[..|b| - 1]);
      assert (a + b)[..|a + b| - 1] == a + b[..|b| - 1];
    }
  }

  lemma {:induction false} SumSingle(s: RoutingStats)
    ensures Sum([s]) == s.totalRoutes
  {
    assert [s][..0] == [];
  }

  lemma {:induction false} SumBetween(window: seq<RoutingStats>, min: nat, max: nat)
    requires forall i :: 0 <= i < |window| ==> min <= window[i].totalRoutes <= max
    ensures min * |window| <= Sum(window) <= max * |window|
  {
    if window != [] {
      var n := |window| - 1;
      SumBetween(window[..n], min, max);
      OneMoreTimes(min, n);
      OneMoreTimes(max, n);
    }
  }

  lemma {:induction false} OneMoreTimes(k: nat, n: nat)
    ensures k * (n + 1) == k * n + k
  {
  }

  /** The average lies between the extremes. */
  lemma {:induction false} AverageBetween(agg: Aggregated, window: seq<RoutingStats>)
    requires Summarises(agg, window)
    ensures agg.minRoutes as real <= agg.avgRoutes <= agg.maxRoutes as real
  {
    SumBetween(window, agg.minRoutes, agg.maxRoutes);
    QuotientBetween(Sum(window), |window|, agg.minRoutes, agg.maxRoutes);
  }

  lemma {:induction false} QuotientBetween(sum: nat, n: nat, min: nat, max: nat)
    requires n > 0 && min * n <= sum <= max * n
    ensures min as real <= sum as real / n as real <= max as real
  {
    QuotientOfProduct(min, n);
    QuotientOfProduct(max, n);
    QuotientOrder((min * n) as real, sum as real, n as real);
    QuotientOrder(sum as real, (max * n) as real, n as real);
  }

  lemma {:induction false} QuotientOfProduct(k: nat, n: nat)
    requires n > 0
    ensures (k * n) as real / n as real == k as real
  {
    assert (k * n) as real == k as real * n as real;
    QuotientTimes(k as real, n as real);
  }

  lemma {:induction false} QuotientOrder(x: real, y: real, n: real)
    requires n > 0.0 && x <= y
    ensures x / n <= y / n
  {
  }

  lemma {:induction false} QuotientTimes(x: real, n: real)
    requires n > 0.0
    ensures x * n / n == x && x / n * n == x
  {
  }

  lemma {:induction false} AverageTimesCount(agg: Aggregated, window: seq<RoutingStats>)
    requires Summarises(agg, window)
    ensures agg.avgRoutes * agg.sampleCount as real == Sum(window) as real
  {
    QuotientTimes(Sum(window) as real, |window| as real);
  }

  /** Average times count is what the samples add: the routes of a lone sample, and for
      each further sample exactly its routes more. */
  lemma {:induction false} AverageAdds(a: Aggregated, b: Aggregated, window: seq<RoutingStats>, s: RoutingStats)
    requires Summarises(b, window + [s])
    requires window != [] ==> Summarises(a, window)
    ensures b.avgRoutes * b.sampleCount as real ==
      (if window == [] then 0.0 else a.avgRoutes * a.sampleCount as real) + s.totalRoutes as real
  {
    SumConcat(window, [s]);
    SumSingle(s);
    AverageTimesCount(b, window + [s]);
    if window != [] {
      AverageTimesCount(a, window);
    }
  }

  ghost predicate SummarisesSuffix(agg: Aggregated, samples: seq<RoutingStats>) {
    exists start :: 0 <= start < |samples| && Summarises(agg, samples[start..])
  }

  ghost predicate Ordered(samples: seq<RoutingStats>) {
    forall i, j :: 0 <= i < j < |samples| ==> samples[i].timestamp <= samples[j].timestamp
  }

  // ---- The deque -----------------------------------------------------------------------

  function DropOlder(samples: seq<RoutingStats>, cutoff: nat): seq<RoutingStats> {
    if samples != [] && samples[0].timestamp < cutoff then DropOlder(samples[1..], cutoff) else samples
  }

  /** What the deque holds after these pushes. */
  function Kept(pushed: seq<RoutingStats>, maxAge: nat): seq<RoutingStats> {
    if pushed == [] then []
    else
      var last := pushed[|pushed| - 1];
      DropOlder(Kept(pushed[..|pushed| - 1], maxAge) + [last], Minus(last.timestamp, maxAge))
  }

  lemma {:induction false} DropOlderIsSuffix(samples: seq<RoutingStats>, cutoff: nat) returns (from: nat)
    ensures from <= |samples| && DropOlder(samples, cutoff) == samples[from..]
    ensures forall i :: 0 <= i < from ==> samples[i].timestamp < cutoff
    ensures from < |samples| ==> samples[from].timestamp >= cutoff
  {
    if samples != [] && samples[0].timestamp < cutoff {
      from := DropOlderIsSuffix(samples[1..], cutoff);
      from := from + 1;
    } else {
      from := 0;
    }
  }

  /** For arbitrary timestamps: a push keeps the newest sample, at the back. */
  lemma {:induction false} NeverEmptied(pushed: seq<RoutingStats>, maxAge: nat)
    requires pushed != []
    ensures var kept := Kept(pushed, maxAge);
      kept != [] && kept[|kept| - 1] == pushed[|pushed| - 1]
  {
    var last := pushed[|pushed| - 1];
    var all := Kept(pushed[..|pushed| - 1], maxAge) + [last];
    var from := DropOlderIsSuffix(all, Minus(last.timestamp, maxAge));
    assert all[|all| - 1] == last;
    assert from < |all|;
  }

  /** Some point of the deque has only older samples before it and none older after it. */
  ghost predicate Partitioned(samples: seq<RoutingStats>, cutoff: nat) {
    exists p :: 0 <= p <= |samples| && PartitionedAt(samples, cutoff, p)
  }

  ghost predicate PartitionedAt(samples: seq<RoutingStats>, cutoff: nat, p: nat)
    requires p <= |samples|
  {
    (forall i :: 0 <= i < p ==> samples[i].timestamp < cutoff) &&
    (forall i :: p <= i < |samples| ==> samples[i].timestamp >= cutoff)
  }

  lemma {:induction false} OrderedPartitioned(samples: seq<RoutingStats>, cutoff: nat)
    requires Ordered(samples)
    ensures Partitioned(samples, cutoff)
    decreases |samples|
  {
    if samples == [] || samples[|samples| - 1].timestamp < cutoff {
      assert PartitionedAt(samples, cutoff, |samples|);
    } else {
      var front := samples[..|samples| - 1];
      OrderedPartitioned(front, cutoff);
      var p :| 0 <= p <= |front| && PartitionedAt(front, cutoff, p);
      assert PartitionedAt(samples, cutoff, p);
    }
  }

  lemma {:induction false} SinceConcat(a: seq<RoutingStats>, b: seq<RoutingStats>, cutoff: nat)
    ensures Since(a + b, cutoff) == Since(a, cutoff) + Since(b, cutoff)
    decreases |b|
  {
    if b == [] {
      assert a + b == a;
    } else {
      SinceConcat(a, b[..|b| - 1], cutoff);
      assert (a + b)[..|a + b| - 1] == a + b[..|b| - 1];
    }
  }

  lemma {:induction false} SinceEmpty(samples: seq<RoutingStats>, cutoff: nat)
    ensures Since(samples, cutoff) == [] ==> forall i :: 0 <= i < |samples| ==> samples[i].timestamp < cutoff
  {
    if samples != [] {
      SinceEmpty(samples[..|samples| - 1], cutoff);
    }
  }

  /** An index cuts the naive scan off the deque iff the deque is partitioned there; so if
      it is partitioned nowhere, no index is right. */
  lemma {:induction false} SuffixIsSinceExactly(samples: seq<RoutingStats>, cutoff: nat, lo: nat)
    requires lo <= |samples|
    ensures Since(samples, cutoff) == samples[lo..] <==> PartitionedAt(samples, cutoff, lo)
  {
    if PartitionedAt(samples, cutoff, lo) {
      SinceIsSuffix(samples, cutoff, lo);
    }
    if Since(samples, cutoff) == samples[lo..] {
      SinceAllNew(samples, cutoff);
      SuffixOfSince(samples[..lo], samples[lo..], cutoff);
      assert samples == samples[..lo] + samples[lo..];
    }
  }

  lemma {:induction false} SuffixOfSince(older: seq<RoutingStats>, newer: seq<RoutingStats>, cutoff: nat)
    requires forall i :: 0 <= i < |newer| ==> newer[i].timestamp >= cutoff
    ensures Since(older + newer, cutoff) == newer ==> forall i :: 0 <= i < |older| ==> older[i].timestamp < cutoff
  {
    SinceConcat(older, newer, cutoff);
    SinceIsSuffix(newer, cutoff, 0);
    if Since(older + newer, cutoff) == newer {
      assert |Since(older, cutoff)| == 0;
      SinceEmpty(older, cutoff);
    }
  }

  lemma {:induction false} SinceAllNew(samples: seq<RoutingStats>, cutoff: nat)
    ensures forall i :: 0 <= i < |Since(samples, cutoff)| ==> Since(samples, cutoff)[i].timestamp >= cutoff
  {
    if samples != [] {
      SinceAllNew(samples[..|samples| - 1], cutoff);
    }
  }

  /** A clock that steps back: the deque is as pushed, the scan finds two samples within
      four seconds of the last, and no suffix of the deque holds exactly those. */
  lemma {:induction false} SteppedClockMisses()
    ensures exists pushed: seq<RoutingStats> ::
      var kept, cutoff := Kept(pushed, 60), 31;
      && kept == pushed && pushed != [] && cutoff == Minus(pushed[|pushed| - 1].timestamp, 4)
      && |Since(kept, cutoff)| == 2
      && forall lo :: 0 <= lo <= |kept| ==> Since(kept, cutoff) != kept[lo..]
  {
    var a, b, c := RoutingStats(0, 0, 0, 100), RoutingStats(0, 0, 0, 30), RoutingStats(0, 0, 0, 35);
    var p1, p2, p3 := [a], [a, b], [a, b, c];
    assert p1[..0] == [] && p2[..1] == p1 && p3[..2] == p2;
    assert Kept(p1, 60) == p1 by { assert [] + [a] == p1; }
    assert Kept(p2, 60) == p2 by { assert p1 + [b] == p2; }
    assert Kept(p3, 60) == p3 by { assert p2 + [c] == p3; }
    assert Since(p1, 31) == [a] && Since(p2, 31) == [a] && Since(p3, 31) == [a, c];
    forall lo | 0 <= lo <= 3 ensures Since(p3, 31) != p3[lo..] {
      SuffixIsSinceExactly(p3, 31, lo);
      assert p3[0].timestamp >= 31 && p3[1].timestamp < 31;
    }
  }

  /** In time order, the samples since a cutoff are a suffix. */
  lemma {:induction false} SinceIsSuffix(samples: seq<RoutingStats>, cutoff: nat, from: nat)
    requires from <= |samples|
    requires forall i :: 0 <= i < from ==> samples[i].timestamp < cutoff
    requires forall i :: from <= i < |samples| ==> samples[i].timestamp >= cutoff
    ensures Since(samples, cutoff) == samples[from..]
    decreases |samples|
  {
    if samples != [] {
      var front := samples[..|samples| - 1];
      if from < |samples| {
        SinceIsSuffix(front, cutoff, from);
        assert samples[from..] == front[from..] + [samples[|samples| - 1]];
      } else {
        SinceIsSuffix(front, cutoff, from - 1);
        assert front[from - 1..] == [];
      }
    }
  }

  /** In time order, pruning on every push keeps exactly what the naive scan would. */
  lemma {:induction false} KeptIsSince(pushed: seq<RoutingStats>, maxAge: nat) returns (from: nat)
    requires Ordered(pushed) && pushed != []
    ensures from <= |pushed| && Kept(pushed, maxAge) == pushed[from..]
    ensures var cutoff := Minus(pushed[|pushed| - 1].timestamp, maxAge);
      && (forall i :: 0 <= i < from ==> pushed[i].timestamp < cutoff)
      && (forall i :: from <= i < |pushed| ==> pushed[i].timestamp >= cutoff)
  {
    var front, last := pushed[..|pushed| - 1], pushed[|pushed| - 1];
    var held := 0;
    if front != [] {
      held := KeptIsSince(front, maxAge);
      assert front[|front| - 1].timestamp <= last.timestamp;
    }
    assert Kept(front, maxAge) + [last] == pushed[held..];
    from := DropFrom(pushed, held, Minus(last.timestamp, maxAge));
  }

  lemma {:induction false} DropFrom(pushed: seq<RoutingStats>, held: nat, cutoff: nat) returns (from: nat)
    requires Ordered(pushed) && held <= |pushed|
    requires forall i :: 0 <= i < held ==> pushed[i].timestamp < cutoff
    ensures from <= |pushed| && DropOlder(pushed[held..], cutoff) == pushed[from..]
    ensures forall i :: 0 <= i < from ==> pushed[i].timestamp < cutoff
    ensures forall i :: from <= i < |pushed| ==> pushed[i].timestamp >= cutoff
  {
    var rest := pushed[held..];
    var dropped := DropOlderIsSuffix(rest, cutoff);
    from := held + dropped;
    assert rest[dropped..] == pushed[from..];
    forall i | held <= i < from ensures pushed[i].timestamp < cutoff {
      assert rest[i - held] == pushed[i];
    }
    if from < |pushed| {
      assert rest[dropped] == pushed[from];
    }
  }

  class StatsHistory {
    var samples: seq<RoutingStats>
    const maxAgeSecs: nat
    ghost var pushed: seq<RoutingStats>

    ghost predicate Valid()
      reads this
    {
      samples == Kept(pushed, maxAgeSecs)
    }

    constructor (maxAgeSecs: nat)
      ensures Valid() && pushed == [] && this.maxAgeSecs == maxAgeSecs
    {
      this.maxAgeSecs, samples, pushed := maxAgeSecs, [], [];
    }

    method Push(stats: RoutingStats)
      requires Valid()
      modifies this
      ensures Valid() && pushed == old(pushed) + [stats]
      ensures samples != [] && samples[|samples| - 1] == stats
    {
      pushed := pushed + [stats];
      assert pushed[..|pushed| - 1] == old(pushed);
      NeverEmptied(pushed, maxAgeSecs);
      samples := samples + [stats];
      var cutoff := Minus(stats.timestamp, maxAgeSecs);
      while samples != [] && samples[0].timestamp < cutoff
        invariant DropOlder(samples, cutoff) == Kept(pushed, maxAgeSecs)
        decreases |samples|
        modifies this`samples
      {
        samples := samples[1..];
      }
    }

    /** Binary search for the first sample not older than the cutoff. The suffix it finds is
        the naive scan exactly when the deque is partitioned at the cutoff; and it is never
        past a newest sample that is not older. */
    method PartitionPoint(cutoff: nat) returns (lo: nat)
      ensures lo <= |samples|
      ensures Since(samples, cutoff) == samples[lo..] <==> Partitioned(samples, cutoff)
      ensures samples != [] && samples[|samples| - 1].timestamp >= cutoff ==> lo < |samples|
    {
      lo := 0;
      var hi := |samples|;
      while lo < hi
        invariant lo <= hi <= |samples|
        invariant forall p :: 0 <= p <= |samples| && PartitionedAt(samples, cutoff, p) ==> lo <= p <= hi
        invariant lo > 0 ==> samples[lo - 1].timestamp < cutoff
      {
        var mid := (lo + hi) / 2;
        if samples[mid].timestamp < cutoff {
          lo := mid + 1;
        } else {
          hi := mid;
        }
      }
      SuffixIsSinceExactly(samples, cutoff, lo);
    }

    /** Sum, minimum and maximum in a single pass; the guard that follows the pass in the
        program, for a fold over nothing, is shown not to fire. */
    static method Fold(window: seq<RoutingStats>) returns (agg: Aggregated)
      requires window != []
      ensures Summarises(agg, window)
      ensures agg.minRoutes as real <= agg.avgRoutes <= agg.maxRoutes as real
    {
      var sum: nat, min: Usize, max: Usize := 0, USIZE_MAX, 0;
      ghost var least, most := 0, 0;
      for i := 0 to |window|
        invariant sum == Sum(window[..i])
        invariant forall j :: 0 <= j < i ==> min <= window[j].totalRoutes <= max
        invariant i > 0 ==> 0 <= least < i && window[least].totalRoutes == min
        invariant i > 0 ==> 0 <= most < i && window[most].totalRoutes == max
        invariant i == 0 ==> min == USIZE_MAX && max == 0
      {
        assert window[..i + 1][..i] == window[..i];
        var routes := window[i].totalRoutes;
        if i == 0 || routes < min {
          least := i;
        }
        if i == 0 || routes > max {
          most := i;
        }
        sum := sum + routes;
        min := Min(min, routes);
        max := Max(max, routes);
      }
      assert window[..|window|] == window;
      if max == 0 && min == USIZE_MAX {
        assert false;
      }
      agg := Aggregated(sum as real / |window| as real, max, min, |window|);
      AverageBetween(agg, window);
    }

    /** Whatever the timestamps, the answer summarises some suffix of the deque; when the
        deque is partitioned at the cutoff, the naive scan of the deque; and when samples
        were pushed in time order, the naive scan of everything ever pushed, looking back
        no further than the retention time. */
    method Aggregate(windowSecs: nat) returns (agg: Option<Aggregated>)
      requires Valid()
      ensures agg == None <==> pushed == []
      ensures agg.Some? ==> SummarisesSuffix(agg.value, samples)
      ensures agg.Some? ==> agg.value.minRoutes as real <= agg.value.avgRoutes <= agg.value.maxRoutes as real
      ensures agg.Some? ==> samples != []
      ensures agg.Some? && Partitioned(samples, Minus(samples[|samples| - 1].timestamp, windowSecs)) ==>
        Summarises(agg.value, Since(samples, Minus(samples[|samples| - 1].timestamp, windowSecs)))
      ensures agg.Some? && Ordered(pushed) ==>
        Summarises(agg.value,
                   Since(pushed, Minus(pushed[|pushed| - 1].timestamp, Min(windowSecs, maxAgeSecs))))
    {
      if samples == [] {
        if pushed != [] {
          NeverEmptied(pushed, maxAgeSecs);
        }
        return None;
      }
      NeverEmptied(pushed, maxAgeSecs);
      var cutoff := Minus(samples[|samples| - 1].timestamp, windowSecs);
      var start := PartitionPoint(cutoff);
      if Ordered(pushed) {
        OrderedWindow(pushed, maxAgeSecs, windowSecs);
      }
      if start >= |samples| {
        assert false;
      }
      var folded := Fold(samples[start..]);
      agg := Some(folded);
    }
  }

  /** In time order the deque is partitioned at any cutoff, and its scan is the scan of
      everything pushed. */
  lemma {:induction false} OrderedWindow(pushed: seq<RoutingStats>, maxAge: nat, window: nat)
    requires pushed != [] && Ordered(pushed)
    ensures var last := pushed[|pushed| - 1].timestamp;
      && Partitioned(Kept(pushed, maxAge), Minus(last, window))
      && Since(Kept(pushed, maxAge), Minus(last, window)) == Since(pushed, Minus(last, Min(window, maxAge)))
  {
    var last := pushed[|pushed| - 1].timestamp;
    var from := KeptIsSince(pushed, maxAge);
    var kept := pushed[from..];
    forall i, j | 0 <= i < j < |kept| ensures kept[i].timestamp <= kept[j].timestamp {
      assert kept[i] == pushed[from + i] && kept[j] == pushed[from + j];
    }
    OrderedPartitioned(kept, Minus(last, window));
    var p :| 0 <= p <= |kept| && PartitionedAt(kept, Minus(last, window), p);
    SinceIsSuffix(kept, Minus(last, window), p);
    assert forall i :: from <= i < |pushed| ==> pushed[i] == kept[i - from];
    SinceIsSuffix(pushed, Minus(last, Min(window, maxAge)), from + p);
    assert kept[p..] == pushed[from + p..];
  }
}
