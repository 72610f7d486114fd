// What the staleness bound means for delivery: when the gated table and the two immediate
// tables that bracket it send the same messages.
module Verdicts {
  import opened Basics
  import opened Groups
  import opened FlatTable
  import opened History
  import opened Pipeline
  import opened Staleness

  /** The endpoints a message for (s, c) is meant for: none, if s is unknown. */
  function Audience(t: Table, s: Byte, c: Byte): set<EndpointId> {
    if t.Selected(s, c).Some? then t.Selected(s, c).value else {}
  }

  /** Whatever t knows, u knows. */
  ghost predicate Below(t: Table, u: Table) {
    forall k: RouteKey :: Lookup(t, k).Some? ==>
      Lookup(u, k).Some? && Lookup(t, k).value.endpoints <= Lookup(u, k).value.endpoints
  }

  lemma {:induction false} RunBracketed(cfg: Settings, run: seq<Action>)
    requires Clocked(run)
    ensures Below(Exec(cfg, run).table, Immediate(cfg, run, cfg.ttl))
    ensures CaughtUp(cfg, run) && cfg.ttl >= 999 ==>
      Below(Immediate(cfg, run, Short(cfg.ttl)), Exec(cfg, run).table)
  {
    forall k: RouteKey { StalenessBound(cfg, run, k); }
  }

  lemma {:induction false} LargerAudience(groups: GroupConfig, a: set<EndpointId>, b: set<EndpointId>, e: EndpointId)
    requires a <= b && groups.Reaches(a, e)
    ensures groups.Reaches(b, e)
  {
    if e !in a {
      var ep :| ep in a && ep in groups.groupMembers[groups.endpointGroups[e]];
      assert ep in b;
    }
  }

  lemma {:induction false} MoreSniffers(t: Table, u: Table, groups: GroupConfig, e: EndpointId)
    requires Below(t, u) && t.Sniffs(groups, e)
    ensures u.Sniffs(groups, e)
  {
    var x :| x in groups.snifferSysids && x in t.sysRoutes && e in t.sysRoutes[x].endpoints;
    assert Lookup(t, System(x)).Some?;
  }

  /** Of two tables, one below the other, the lower sends to no one the upper would not -
      for all groups and endpoints - exactly when the audiences are nested that way. */
  lemma {:induction false} AudienceDecides(t: Table, u: Table, s: Byte, c: Byte)
    requires Below(t, u)
    ensures (forall groups, e :: t.ShouldSend(groups, e, s, c) ==> u.ShouldSend(groups, e, s, c)) <==>
            s == 0 || Audience(t, s, c) <= Audience(u, s, c)
  {
    if s == 0 || Audience(t, s, c) <= Audience(u, s, c) {
      forall groups, e | t.ShouldSend(groups, e, s, c)
        ensures u.ShouldSend(groups, e, s, c)
      {
        if t.Sniffs(groups, e) {
          MoreSniffers(t, u, groups, e);
        } else if s != 0 {
          LargerAudience(groups, Audience(t, s, c), Audience(u, s, c), e);
        }
      }
    } else {
      var e :| e in Audience(t, s, c) && e !in Audience(u, s, c);
      assert t.ShouldSend(EMPTY, e, s, c) && !u.ShouldSend(EMPTY, e, s, c);
    }
  }

  /** In every run: the gated table sends nothing the immediate one would not, and when
      caught up everything the shorter-lived one would, exactly when the audiences nest. */
  lemma {:induction false} VerdictExactly(cfg: Settings, run: seq<Action>, s: Byte, c: Byte)
    requires Clocked(run)
    ensures var t, u := Exec(cfg, run).table, Immediate(cfg, run, cfg.ttl);
      (forall groups, e :: t.ShouldSend(groups, e, s, c) ==> u.ShouldSend(groups, e, s, c)) <==>
      s == 0 || Audience(t, s, c) <= Audience(u, s, c)
    ensures CaughtUp(cfg, run) && cfg.ttl >= 999 ==>
      var l, t := Immediate(cfg, run, Short(cfg.ttl)), Exec(cfg, run).table;
      (forall groups, e :: l.ShouldSend(groups, e, s, c) ==> t.ShouldSend(groups, e, s, c)) <==>
      s == 0 || Audience(l, s, c) <= Audience(t, s, c)
  {
    RunBracketed(cfg, run);
    AudienceDecides(Exec(cfg, run).table, Immediate(cfg, run, cfg.ttl), s, c);
    if CaughtUp(cfg, run) && cfg.ttl >= 999 {
      AudienceDecides(Immediate(cfg, run, Short(cfg.ttl)), Exec(cfg, run).table, s, c);
    }
  }

  /** A message does not fall back in the lower table while it does not in the upper. */
  predicate SameFallback(t: Table, u: Table, s: Byte, c: Byte) {
    c == 0 || (s, c) in t.routes || (s, c) !in u.routes
  }

  lemma {:induction false} NestedAudience(t: Table, u: Table, s: Byte, c: Byte)
    requires Below(t, u) && SameFallback(t, u, s, c)
    ensures Audience(t, s, c) <= Audience(u, s, c)
  {
    assert Lookup(t, System(s)).Some? ==> Lookup(u, System(s)).Some?;
    assert Lookup(t, Component(s, c)).Some? ==> Lookup(u, Component(s, c)).Some?;
  }

  /** Messages of every kind: each half of the bracket holds for a message whose component
      the lower table knows or the upper one does not, and for every message to a system. */
  lemma {:induction false} VerdictBound(
      cfg: Settings, run: seq<Action>, groups: GroupConfig, e: EndpointId, s: Byte, c: Byte)
    requires Clocked(run)
    ensures var t, u := Exec(cfg, run).table, Immediate(cfg, run, cfg.ttl);
      SameFallback(t, u, s, c) && t.ShouldSend(groups, e, s, c) ==> u.ShouldSend(groups, e, s, c)
    ensures CaughtUp(cfg, run) && cfg.ttl >= 999 ==>
      var l, t := Immediate(cfg, run, Short(cfg.ttl)), Exec(cfg, run).table;
      SameFallback(l, t, s, c) && l.ShouldSend(groups, e, s, c) ==> t.ShouldSend(groups, e, s, c)
  {
    RunBracketed(cfg, run);
    var t, u, l := Exec(cfg, run).table, Immediate(cfg, run, cfg.ttl), Immediate(cfg, run, Short(cfg.ttl));
    if SameFallback(t, u, s, c) {
      NestedAudience(t, u, s, c);
      AudienceDecides(t, u, s, c);
    }
    if CaughtUp(cfg, run) && cfg.ttl >= 999 && SameFallback(l, t, s, c) {
      NestedAudience(l, t, s, c);
      AudienceDecides(l, t, s, c);
    }
  }

  // ---- Neither half holds for every message ---------------------------------------------

  /** Endpoint 2 has taught (1, 2); endpoint 1 teaches (1, 1), which is still queued. The
      gated table sends a message for (1, 1) to endpoint 2, the immediate one does not. */
  lemma {:induction false} QueuedComponentFallsBack(ttl: nat)
    ensures var cfg, f1, f2 := TakeAll(ttl), Frame(2, 1, 2, 0, 0, 0), Frame(1, 1, 1, 0, 0, 0);
      var run := Teach(f1) + [Ingress(f2)];
      && Clocked(run)
      && Exec(cfg, run).table.ShouldSend(EMPTY, 2, 1, 1)
      && !Immediate(cfg, run, ttl).ShouldSend(EMPTY, 2, 1, 1)
  {
    var cfg, f1, f2 := TakeAll(ttl), Frame(2, 1, 2, 0, 0, 0), Frame(1, 1, 1, 0, 0, 0);
    OneQueued(cfg, f1, f2);
    NewComponentTakesOver(f1.Observation(), f2.Observation());
    assert Clocked(Teach(f1) + [Ingress(f2)]);
  }

  lemma {:induction false} OneQueued(cfg: Settings, f1: Frame, f2: Frame)
    requires TakesAll(cfg) && f1.sys != 0 && f2.sys == f1.sys && f2.comp != f1.comp
    ensures var run := Teach(f1) + [Ingress(f2)];
      && Exec(cfg, run).table == EMPTY_TABLE.Observe(f1.Observation())
      && Immediate(cfg, run, cfg.ttl) == EMPTY_TABLE.Observe(f1.Observation()).Observe(f2.Observation())
  {
    var o1, o2 := f1.Observation(), f2.Observation();
    Taught(cfg, [], f1);
    assert [] + Teach(f1) == Teach(f1);
    DisabledAdmits(cfg, Teach(f1), f2);
    Enqueue(cfg, Exec(cfg, Teach(f1)), f2);
    ExecStep(cfg, Teach(f1), Ingress(f2));
    assert Exec(cfg, Teach(f1) + [Ingress(f2)]).ideal == [Observed(o1)] + [Observed(o2)];
    ReplayStep([Observed(o1)], Observed(o2), cfg.ttl);
  }

  lemma {:induction false} NewComponentTakesOver(o1: Observation, o2: Observation)
    requires o1 == Observation(2, 1, 2, 0) && o2 == Observation(1, 1, 1, 0)
    ensures EMPTY_TABLE.Observe(o1).ShouldSend(EMPTY, 2, 1, 1)
    ensures !EMPTY_TABLE.Observe(o1).Observe(o2).ShouldSend(EMPTY, 2, 1, 1)
  {
    var t, u := EMPTY_TABLE.Observe(o1), EMPTY_TABLE.Observe(o1).Observe(o2);
    assert t.sysRoutes[1].endpoints == {2} && u.routes[(1, 1)].endpoints == {1};
    assert t.Selected(1, 1) == Some({2}) && u.Selected(1, 1) == Some({1});
  }

  /** With a TTL of 5 s, endpoint 1 taught (1, 1) at 0 s and endpoint 2 (1, 2) at 4.5 s. A
      prune at 4.6 s leaves both components in the gated table, but removes (1, 1) from the
      shorter-lived one, which then sends a message for it to endpoint 2. */
  lemma {:induction false} PrunedComponentFallsBack()
    ensures var cfg, f1, f2 := TakeAll(5_000), Frame(1, 1, 1, 0, 0, 0), Frame(2, 1, 2, 0, 0, 4_500);
      var run := Teach(f1) + Teach(f2) + [PruneTick(4_600)];
      && Clocked(run) && CaughtUp(cfg, run)
      && Immediate(cfg, run, 4_000).ShouldSend(EMPTY, 2, 1, 1)
      && !Exec(cfg, run).table.ShouldSend(EMPTY, 2, 1, 1)
  {
    var cfg, f1, f2 := TakeAll(5_000), Frame(1, 1, 1, 0, 0, 0), Frame(2, 1, 2, 0, 0, 4_500);
    TaughtTwice(cfg, f1, f2);
    OldComponentPruned(f1.Observation(), f2.Observation());
    TaughtTwiceClocked(f1, f2, 4_600);
  }

  lemma {:induction false} TaughtTwiceClocked(f1: Frame, f2: Frame, when: Time)
    requires f1.at <= f2.at <= when
    ensures Clocked(Teach(f1) + Teach(f2) + [PruneTick(when)])
  {
    assert Teach(f1) + Teach(f2) + [PruneTick(when)] ==
           [Ingress(f1), Receive, Seal, ApplyOne, Ingress(f2), Receive, Seal, ApplyOne, PruneTick(when)];
  }

  lemma {:induction false} TaughtTwice(cfg: Settings, f1: Frame, f2: Frame)
    requires TakesAll(cfg) && cfg.ttl == 5_000
    requires f1 == Frame(1, 1, 1, 0, 0, 0) && f2 == Frame(2, 1, 2, 0, 0, 4_500)
    ensures var run, t := Teach(f1) + Teach(f2) + [PruneTick(4_600)],
                          EMPTY_TABLE.Observe(f1.Observation()).Observe(f2.Observation());
      && CaughtUp(cfg, run)
      && Exec(cfg, run).table == t.Prune(4_600, 5_000)
      && Immediate(cfg, run, 4_000) == t.Prune(4_600, 4_000)
  {
    var o1, o2 := f1.Observation(), f2.Observation();
    Taught(cfg, [], f1);
    assert [] + Teach(f1) == Teach(f1);
    Taught(cfg, Teach(f1), f2);
    ExecStep(cfg, Teach(f1) + Teach(f2), PruneTick(4_600));
    assert Exec(cfg, Teach(f1) + Teach(f2) + [PruneTick(4_600)]).ideal ==
           [Observed(o1)] + [Observed(o2)] + [Pruned(4_600)];
    ReplayStep([Observed(o1)], Observed(o2), 4_000);
    ReplayStep([Observed(o1)] + [Observed(o2)], Pruned(4_600), 4_000);
  }

  lemma {:induction false} OldComponentPruned(o1: Observation, o2: Observation)
    requires o1 == Observation(1, 1, 1, 0) && o2 == Observation(2, 1, 2, 4_500)
    ensures var t := EMPTY_TABLE.Observe(o1).Observe(o2);
      && t.Prune(4_600, 4_000).ShouldSend(EMPTY, 2, 1, 1)
      && !t.Prune(4_600, 5_000).ShouldSend(EMPTY, 2, 1, 1)
  {
    var t := EMPTY_TABLE.Observe(o1).Observe(o2);
    assert t.sysRoutes[1].endpoints == {1, 2} && t.routes[(1, 1)].endpoints == {1};
    assert t.Prune(4_600, 4_000).Selected(1, 1) == Some({1, 2});
    assert t.Prune(4_600, 5_000).Selected(1, 1) == Some({1});
  }
}
