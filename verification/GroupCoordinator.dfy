/** The group objects (internal/coordinator/group.go), each method against the function of
    GroupSpec it carries out. */
module GroupCoordinators {
  import opened Bytes
  import opened Names
  import opened GroupSpec

  class ConsumerGroup {
    var State: Status
    var GenerationID: int32
    var LeaderID: Name
    var Members: map<Name, Member>

    ghost function View(): Group
      reads this
    {
      Group(State, GenerationID, LeaderID, Members)
    }

    constructor ()
      ensures View() == NoGroup
    {
      State, GenerationID, LeaderID, Members := Empty, 0, [], map[];
    }

    /** Drops every assignment. */
    method ClearAssignments()
      modifies this`Members
      ensures Members == Cleared(old(Members))
    {
      var todo: set<Name> := Members.Keys;
      while todo != {}
        invariant Members.Keys == old(Members).Keys && todo <= Members.Keys
        invariant forall m :: m in Members ==>
                    Members[m] == if m in todo then old(Members)[m] else old(Members)[m].(assignment := [])
        decreases |todo|
      {
        HasName(todo);
        var m :| m in todo;
        Members := Members[m := Members[m].(assignment := [])];
        todo := todo - {m};
      }
    }

    /** The first member met becomes leader. */
    method PickLeader()
      requires [] !in Members && LeaderID == []
      modifies this`LeaderID
      ensures if Members == map[] then LeaderID == [] else LeaderID in Members
    {
      var todo: set<Name> := Members.Keys;
      while todo != {}
        invariant todo <= Members.Keys
        invariant LeaderID == [] || LeaderID in Members
        invariant LeaderID == [] ==> todo == Members.Keys
        decreases |todo|
      {
        HasName(todo);
        var m :| m in todo;
        if LeaderID == [] {
          LeaderID := m;
        }
        todo := todo - {m};
      }
      if Members != map[] {
        assert Members.Keys != {};
      }
    }

    method TransitionToRebalance()
      requires [] !in Members
      modifies this
      ensures View() == Rebalanced(old(View()), LeaderID)
      ensures if Members == map[] then LeaderID == [] else LeaderID in Members
    {
      State := Preparing;
      GenerationID := Wrap32(GenerationID + 1);
      LeaderID := [];
      ClearAssignments();
      PickLeader();
      SameEmptiness(old(Members));
    }

    method Join(id: Name, timeoutMs: int, metadata: seq<byte>, now: int) returns (reply: JoinResponse, ghost pick: Name)
      requires Ok(View()) && id != []
      modifies this
      ensures Possible(old(View()), GroupSpec.Join(id, timeoutMs, metadata, now, pick)) && Ok(View())
      ensures View() == Joined(old(View()), id, timeoutMs, metadata, now, pick) && reply == JoinReply(View(), id)
    {
      hide Ok;
      ghost var before := View();
      NoBlankMember(before);
      if id in Members {
        Members := Members[id := Members[id].(sessionTimeoutMs := timeoutMs, lastHeartbeat := now, metadata := metadata)];
      } else {
        Members := Members[id := Member(timeoutMs, now, metadata, [])];
      }
      NonEmptyMap(Members, id);
      pick := id;
      if State == Stable || State == Empty {
        TransitionToRebalance();
        pick := LeaderID;
      }
      LeaderID := if LeaderID == [] then id else LeaderID;
      AfterOk(before, GroupSpec.Join(id, timeoutMs, metadata, now, pick));
      reply := JoinResponse(GenerationID, LeaderID, id, None);
      if id == LeaderID {
        var list := ListMembers();
        reply := reply.(members := Some(list));
      }
    }

    /** Every member with its metadata. */
    method ListMembers() returns (list: map<Name, seq<byte>>)
      ensures list == map m | m in Members :: Members[m].metadata
    {
      list := map[];
      var todo: set<Name> := Members.Keys;
      while todo != {}
        invariant todo <= Members.Keys && list.Keys == Members.Keys - todo
        invariant forall m :: m in list ==> list[m] == Members[m].metadata
        decreases |todo|
      {
        HasName(todo);
        var m :| m in todo;
        list := list[m := Members[m].metadata];
        todo := todo - {m};
      }
    }

    method Sync(id: Name, generation: int, shares: seq<Share>, now: int) returns (err: GroupError)
      modifies this
      ensures View() == Synced(old(View()), id, generation, shares, now) && err == SyncError(old(View()), id, generation)
    {
      if generation != GenerationID {
        return IllegalGeneration;
      }
      if id !in Members {
        return UnknownMember;
      }
      Members := Members[id := Members[id].(lastHeartbeat := now)];
      if id == LeaderID && |shares| > 0 {
        Distribute(shares);
        State := Stable;
      }
      err := NoError;
    }

    method Distribute(shares: seq<Share>)
      modifies this`Members
      ensures Members == Shared(old(Members), shares)
    {
      for k := 0 to |shares|
        invariant Members == Shared(old(Members), shares[..k])
      {
        assert shares[..k + 1][..k] == shares[..k];
        if shares[k].member in Members {
          Members := Members[shares[k].member := Members[shares[k].member].(assignment := shares[k].assignment)];
        }
      }
      assert shares[..|shares|] == shares;
    }

    method Heartbeat(id: Name, generation: int, now: int) returns (err: GroupError)
      modifies this
      ensures View() == Beaten(old(View()), id, generation, now) && err == HeartbeatError(old(View()), id, generation)
    {
      if generation != GenerationID {
        return IllegalGeneration;
      }
      if id !in Members {
        return UnknownMember;
      }
      if State == Preparing {
        return RebalanceInProgress;
      }
      Members := Members[id := Members[id].(lastHeartbeat := now)];
      err := NoError;
    }

    /** The common end of LeaveGroup and of a session timeout. */
    method Drop(gone: set<Name>) returns (ghost pick: Name)
      requires [] !in Members
      modifies this
      ensures View() == Shrunk(old(View()), gone, pick)
      ensures old(Members) - gone == map[] || pick in old(Members) - gone
    {
      Members := Members - gone;
      pick := [];
      if |Members| == 0 {
        State := Empty;
        LeaderID := [];
      } else {
        TransitionToRebalance();
        pick := LeaderID;
      }
    }

    method Leave(id: Name) returns (err: GroupError, ghost pick: Name)
      requires Ok(View())
      modifies this
      ensures Possible(old(View()), GroupSpec.Leave(id, pick)) && Ok(View())
      ensures View() == Left(old(View()), id, pick) && err == if id in old(Members) then NoError else UnknownMember
    {
      hide Ok;
      ghost var before := View();
      NoBlankMember(before);
      if id !in Members {
        pick := LeaderID;
        LeaderStays(before, id);
        return UnknownMember, pick;
      }
      pick := Drop({id});
      AfterOk(before, GroupSpec.Leave(id, pick));
      err := NoError;
    }

    /** checkSessionTimeouts for this group. */
    method CheckTimeouts(now: int) returns (ghost pick: Name)
      requires Ok(View())
      modifies this
      ensures Possible(old(View()), Timeouts(now, pick)) && Ok(View()) && View() == TimedOut(old(View()), now, pick)
    {
      hide Ok, Expired;
      ghost var before := View();
      NoBlankMember(before);
      var expired := CollectExpired(now);
      if expired != {} {
        pick := Drop(expired);
      } else {
        pick := LeaderID;
        LeaderAmong(before, expired);
      }
      AfterOk(before, Timeouts(now, pick));
    }

    method CollectExpired(now: int) returns (expired: set<Name>)
      ensures expired == ExpiredMembers(View(), now)
    {
      var todo: set<Name> := Members.Keys;
      expired := {};
      while todo != {}
        invariant todo <= Members.Keys && expired <= Members.Keys
        invariant forall m :: m in Members && m !in todo ==> (m in expired <==> Expired(Members[m], now))
        invariant expired !! todo
        decreases |todo|
      {
        HasName(todo);
        var m :| m in todo;
        var timeout := if Members[m].sessionTimeoutMs <= 0 then 45000 else Members[m].sessionTimeoutMs;
        if now - Members[m].lastHeartbeat > timeout {
          expired := expired + {m};
        }
        todo := todo - {m};
      }
      AllExpired(View(), now, expired);
    }
  }

  /** The groups by id. A request touches its own group only. */
  class GroupCoordinator {
    var groups: map<Name, ConsumerGroup>

    ghost predicate Valid()
      reads this, groups.Values
    {
      && (forall id :: id in groups ==> Ok(groups[id].View()))
      && (forall a, b :: a in groups && b in groups && a != b ==> groups[a] != groups[b])
    }

    constructor ()
      ensures Valid() && groups == map[]
    {
      groups := map[];
    }

    /** JoinGroup: an empty group id is refused; an unknown group is created; an empty member id is
        replaced by a generated one. */
    method JoinGroup(groupID: Name, memberID: Name, generated: Name, timeoutMs: int, metadata: seq<byte>, now: int)
      returns (reply: Option<JoinResponse>, ghost pick: Name)
      requires Valid() && generated != []
      modifies this, if groupID in groups then {groups[groupID]} else {}
      ensures Valid() && (groupID == [] ==> reply == None && groups == old(groups))
      ensures groupID != [] ==>
                var g := if groupID in old(groups) then old(groups[groupID].View()) else NoGroup;
                var id := if memberID == [] then generated else memberID;
                && groups.Keys == old(groups).Keys + {groupID}
                && groups[groupID].View() == Joined(g, id, timeoutMs, metadata, now, pick)
                && reply == Some(JoinReply(groups[groupID].View(), id))
      ensures groupID == [] && groupID in groups ==> groups[groupID].View() == old(groups[groupID].View())
      ensures forall other :: other in old(groups) && other != groupID ==>
                other in groups && groups[other] == old(groups)[other] && groups[other].View() == old(groups[other].View())
    {
      hide Ok, Joined, JoinReply, Possible;
      if groupID == [] {
        return None, [];
      }
      if groupID !in groups {
        var created := new ConsumerGroup();
        NoGroupOk();
        groups := groups[groupID := created];
      }
      var g := groups[groupID];
      var id := if memberID == [] then generated else memberID;
      var r, p := g.Join(id, timeoutMs, metadata, now);
      pick := p;
      reply := Some(r);
    }
  }

  lemma {:induction false} AllExpired(g: Group, now: int, expired: set<Name>)
    requires expired <= g.members.Keys && forall m :: m in g.members ==> (m in expired <==> Expired(g.members[m], now))
    ensures expired == ExpiredMembers(g, now)
  {
    hide Expired;
    assert forall m | m in expired :: m in ExpiredMembers(g, now);
    assert forall m | m in ExpiredMembers(g, now) :: m in expired;
  }

  lemma {:induction false} SameEmptiness(members: map<Name, Member>)
    ensures Cleared(members) == map[] <==> members == map[]
  {
    if members != map[] {
      HasName(members.Keys);
      var m :| m in members.Keys;
      NonEmptyMap(Cleared(members), m);
    }
  }

  lemma {:induction false} NoBlankMember(g: Group)
    requires Ok(g)
    ensures [] !in g.members && (g.members != map[] ==> g.leader in g.members) && (g.status == Empty <==> g.members == map[])
  {
  }

  lemma {:induction false} LeaderStays(g: Group, id: Name)
    requires Ok(g) && id !in g.members
    ensures g.members - {id} == map[] || g.leader in g.members - {id}
  {
    assert g.members - {id} == g.members;
  }

  lemma {:induction false} LeaderAmong(g: Group, gone: set<Name>)
    requires Ok(g) && gone == {}
    ensures g.members - gone == map[] || g.leader in g.members - gone
  {
    assert g.members - gone == g.members;
  }
}
