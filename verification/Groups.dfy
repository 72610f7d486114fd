// Endpoint groups: redundant links to one vehicle share routing knowledge.
module Groups {
  import opened Basics

  datatype GroupConfig = GroupConfig(
    endpointGroups: map<EndpointId, string>,
    groupMembers: map<string, set<EndpointId>>,
    snifferSysids: set<Byte>)
  {
    /** Registration overwrites the endpoint's group name but only ever adds to the
        reverse lookup: the endpoint is not withdrawn from a former group. */
    function SetEndpointGroup(id: EndpointId, group: string): GroupConfig {
      var members := if group in groupMembers then groupMembers[group] else {};
      GroupConfig(endpointGroups[id := group], groupMembers[group := members + {id}], snifferSysids)
    }

    predicate AnyInSameGroup(endpoints: set<EndpointId>, id: EndpointId) {
      id in endpointGroups &&
      endpointGroups[id] in groupMembers &&
      exists ep :: ep in endpoints && ep in groupMembers[endpointGroups[id]]
    }

    /** The non-sniffer verdict for one selected entry. */
    predicate Reaches(endpoints: set<EndpointId>, id: EndpointId) {
      id in endpoints || AnyInSameGroup(endpoints, id)
    }
  }

  const EMPTY: GroupConfig := GroupConfig(map[], map[], {})

  datatype Registration = Registration(id: EndpointId, group: string)

  function Configure(regs: seq<Registration>): GroupConfig {
    if regs == [] then EMPTY
    else
      var last := regs[|regs| - 1];
      Configure(regs[..|regs| - 1]).SetEndpointGroup(last.id, last.group)
  }

  /** `group` is the name most recently given to `id`. */
  ghost predicate CurrentGroup(regs: seq<Registration>, id: EndpointId, group: string) {
    exists i ::
      0 <= i < |regs| && regs[i] == Registration(id, group) &&
      forall j :: i < j < |regs| ==> regs[j].id != id
  }

  ghost predicate EverIn(regs: seq<Registration>, id: EndpointId, group: string) {
    Registration(id, group) in regs
  }

  ghost predicate RegisteredOnce(regs: seq<Registration>) {
    forall i, j :: 0 <= i < j < |regs| ==> regs[i].id != regs[j].id
  }

  lemma {:induction false} CurrentGroupStep(regs: seq<Registration>, last: Registration, id: EndpointId, group: string)
    ensures CurrentGroup(regs + [last], id, group) <==>
            if last.id == id then last.group == group else CurrentGroup(regs, id, group)
  {
    var all := regs + [last];
    assert all[|regs|] == last;
    if last.id != id {
      if i :| 0 <= i < |regs| && regs[i] == Registration(id, group) && forall j :: i < j < |regs| ==> regs[j].id != id {
        assert all[i] == Registration(id, group);
      }
      if i :| 0 <= i < |all| && all[i] == Registration(id, group) && forall j :: i < j < |all| ==> all[j].id != id {
        assert regs[i] == Registration(id, group);
        assert forall j :: i < j < |regs| ==> regs[j] == all[j];
      }
    }
  }

  /** The group name, read off the registration history. */
  lemma {:induction false} GroupIsHistory(regs: seq<Registration>, id: EndpointId, group: string)
    ensures var cfg := Configure(regs);
      id in cfg.endpointGroups && cfg.endpointGroups[id] == group <==> CurrentGroup(regs, id, group)
  {
    if regs != [] {
      var front, last := regs[..|regs| - 1], regs[|regs| - 1];
      GroupIsHistory(front, id, group);
      CurrentGroupStep(front, last, id, group);
      assert front + [last] == regs;
    }
  }

  /** The reverse lookup, read off the registration history. */
  lemma {:induction false} MembersAreHistory(regs: seq<Registration>, id: EndpointId, group: string)
    ensures var cfg := Configure(regs);
      group in cfg.groupMembers && id in cfg.groupMembers[group] <==> EverIn(regs, id, group)
  {
    if regs != [] {
      MembersAreHistory(regs[..|regs| - 1], id, group);
      assert regs == regs[..|regs| - 1] + [regs[|regs| - 1]];
    }
  }

  lemma {:induction false} ConfigureIsHistory(regs: seq<Registration>, id: EndpointId, group: string)
    ensures var cfg := Configure(regs);
      && (id in cfg.endpointGroups && cfg.endpointGroups[id] == group <==> CurrentGroup(regs, id, group))
      && (group in cfg.groupMembers && id in cfg.groupMembers[group] <==> EverIn(regs, id, group))
  {
    GroupIsHistory(regs, id, group);
    MembersAreHistory(regs, id, group);
  }

  /** For every registration history: an entry reaches an endpoint exactly when it holds
      that endpoint, or one that was ever registered in the endpoint's current group. */
  lemma {:induction false} ReachesIsHistory(regs: seq<Registration>, endpoints: set<EndpointId>, id: EndpointId)
    ensures Configure(regs).Reaches(endpoints, id) <==>
            id in endpoints ||
            exists ep, g :: ep in endpoints && CurrentGroup(regs, id, g) && EverIn(regs, ep, g)
  {
    var cfg := Configure(regs);
    forall ep, g
      ensures id in cfg.endpointGroups && cfg.endpointGroups[id] == g <==> CurrentGroup(regs, id, g)
      ensures g in cfg.groupMembers && ep in cfg.groupMembers[g] <==> EverIn(regs, ep, g)
    {
      ConfigureIsHistory(regs, id, g);
      ConfigureIsHistory(regs, ep, g);
    }
    if cfg.AnyInSameGroup(endpoints, id) {
      var g := cfg.endpointGroups[id];
      var ep :| ep in endpoints && ep in cfg.groupMembers[g];
      assert CurrentGroup(regs, id, g) && EverIn(regs, ep, g);
    }
  }

  /** Members of one group always receive the same verdict, whatever the history. */
  lemma {:induction false} GroupSharesVerdict(
      regs: seq<Registration>, endpoints: set<EndpointId>, a: EndpointId, b: EndpointId, g: string)
    requires CurrentGroup(regs, a, g) && CurrentGroup(regs, b, g)
    ensures Configure(regs).Reaches(endpoints, a) == Configure(regs).Reaches(endpoints, b)
  {
    ConfigureIsHistory(regs, a, g);
    ConfigureIsHistory(regs, b, g);
    CurrentIsEver(regs, a, g);
    CurrentIsEver(regs, b, g);
  }

  lemma {:induction false} CurrentIsEver(regs: seq<Registration>, id: EndpointId, g: string)
    ensures CurrentGroup(regs, id, g) ==> EverIn(regs, id, g)
    ensures RegisteredOnce(regs) && EverIn(regs, id, g) ==> CurrentGroup(regs, id, g)
  {
  }

  /** What a group is for: some endpoint of the entry is this one or is in its group now. */
  ghost predicate Intended(regs: seq<Registration>, endpoints: set<EndpointId>, id: EndpointId) {
    exists ep :: ep in endpoints && (ep == id || ShareGroup(regs, id, ep))
  }

  ghost predicate ShareGroup(regs: seq<Registration>, a: EndpointId, b: EndpointId) {
    exists g :: CurrentGroup(regs, a, g) && CurrentGroup(regs, b, g)
  }

  /** Whoever was ever in a group that someone else is in now is still in it. */
  ghost predicate NoneLeft(regs: seq<Registration>) {
    forall ep, id, g ::
      ep != id && CurrentGroup(regs, id, g) && EverIn(regs, ep, g) ==> CurrentGroup(regs, ep, g)
  }

  /** The verdict is the intended one, for every entry and endpoint, exactly for the
      histories in which no one has left a group that still has another member. */
  lemma {:induction false} IntendedExactly(regs: seq<Registration>)
    ensures (forall endpoints, id :: Configure(regs).Reaches(endpoints, id) <==> Intended(regs, endpoints, id))
            <==> NoneLeft(regs)
  {
    if NoneLeft(regs) {
      forall endpoints, id
        ensures Configure(regs).Reaches(endpoints, id) <==> Intended(regs, endpoints, id)
      {
        IntendedUnlessLeft(regs, endpoints, id);
      }
    }
    if forall endpoints, id :: Configure(regs).Reaches(endpoints, id) <==> Intended(regs, endpoints, id) {
      forall ep, id, g | ep != id && CurrentGroup(regs, id, g) && EverIn(regs, ep, g)
        ensures CurrentGroup(regs, ep, g)
      {
        ReachesIsHistory(regs, {ep}, id);
        assert ep in {ep} && Configure(regs).Reaches({ep}, id);
        assert Intended(regs, {ep}, id) && ShareGroup(regs, id, ep);
        OneCurrentGroup(regs, id, g);
      }
    }
  }

  lemma {:induction false} OneCurrentGroup(regs: seq<Registration>, id: EndpointId, g: string)
    requires CurrentGroup(regs, id, g)
    ensures forall x :: CurrentGroup(regs, id, x) ==> x == g
  {
    forall x | CurrentGroup(regs, id, x) ensures x == g {
      GroupIsHistory(regs, id, g);
      GroupIsHistory(regs, id, x);
    }
  }

  lemma {:induction false} IntendedUnlessLeft(regs: seq<Registration>, endpoints: set<EndpointId>, id: EndpointId)
    requires NoneLeft(regs)
    ensures Configure(regs).Reaches(endpoints, id) <==> Intended(regs, endpoints, id)
  {
    ReachesIsHistory(regs, endpoints, id);
    forall ep, g ensures CurrentGroup(regs, ep, g) ==> EverIn(regs, ep, g) {
      CurrentIsEver(regs, ep, g);
    }
    if ep, g :| ep in endpoints && ep != id && CurrentGroup(regs, id, g) && EverIn(regs, ep, g) {
      assert ShareGroup(regs, id, ep);
    }
  }

  /** In particular with each endpoint registered at most once. */
  lemma {:induction false} RegisteredOnceVerdict(regs: seq<Registration>, endpoints: set<EndpointId>, id: EndpointId)
    requires RegisteredOnce(regs)
    ensures Configure(regs).Reaches(endpoints, id) <==> Intended(regs, endpoints, id)
  {
    forall ep, g | EverIn(regs, ep, g) ensures CurrentGroup(regs, ep, g) {
      CurrentIsEver(regs, ep, g);
    }
    IntendedExactly(regs);
  }

  /** A history that leaks: an endpoint moves to another group and goes on
      serving the one it left. */
  lemma {:induction false} RegroupedEndpointStaysMember()
    ensures exists regs: seq<Registration> ::
      Configure(regs).Reaches({0}, 1) && !Intended(regs, {0}, 1)
  {
    var r0, r1, r2 := Registration(0, "a"), Registration(1, "a"), Registration(0, "b");
    var regs := [r0, r1, r2];
    assert regs[1] == r1 && regs[2] == r2;
    assert EverIn(regs, 0, "a");
    assert CurrentGroup(regs, 1, "a") && CurrentGroup(regs, 0, "b");
    ReachesIsHistory(regs, {0}, 1);
    OneCurrentGroup(regs, 1, "a");
    OneCurrentGroup(regs, 0, "b");
  }
}
