/** Who is in a consumer group, from the requests alone: sessions begin with a join, are kept up by
    accepted syncs and heartbeats, and end by leaving or by silence (internal/coordinator/group.go). */
module GroupSessions {
  import opened Bytes
  import opened Names
  import opened GroupSpec

  /** What the latest join asked for, and when the member was last heard from. */
  datatype Session = Session(timeoutMs: int, metadata: seq<byte>, seen: int)

  /** A session times out after its own limit, or 45 seconds if it has none. */
  predicate Silent(s: Session, now: int) {
    now > s.seen + if s.timeoutMs > 0 then s.timeoutMs else 45000
  }

  /** Request k counts as a sign of life of a member with a session: a sync in the current generation,
      or a heartbeat in it outside a rebalance. */
  predicate SignOfLife(gs: seq<Group>, rs: seq<Request>, k: nat, id: Name)
    requires k < |rs| <= |gs|
  {
    || (rs[k].Sync? && rs[k].id == id && rs[k].generation == gs[k].generation)
    || (rs[k].Heartbeat? && rs[k].id == id && rs[k].generation == gs[k].generation && gs[k].status != Preparing)
  }

  /** The session of a member after the first k requests. */
  function SessionOf(gs: seq<Group>, rs: seq<Request>, k: nat, id: Name): Option<Session>
    requires k <= |rs| <= |gs|
  {
    if k == 0 then None
    else
      var before := SessionOf(gs, rs, k - 1, id);
      var r := rs[k - 1];
      if r.Join? && r.id == id then Some(Session(r.timeoutMs, r.metadata, r.now))
      else if before.None? || (r.Leave? && r.id == id) || (r.Timeouts? && Silent(before.value, r.now)) then None
      else if SignOfLife(gs, rs, k - 1, id) then Some(before.value.(seen := r.now))
      else before
  }

  function SessionIn(g: Group, id: Name): Option<Session> {
    if id in g.members then Some(Session(g.members[id].sessionTimeoutMs, g.members[id].metadata, g.members[id].lastHeartbeat)) else None
  }

  /** What sharing out assignments leaves alone. */
  lemma {:induction false} SharedSessions(members: map<Name, Member>, shares: seq<Share>, id: Name)
    ensures id in Shared(members, shares) <==> id in members
    ensures id in members ==> Shared(members, shares)[id].(assignment := []) == members[id].(assignment := [])
    decreases |shares|
  {
    if shares != [] {
      SharedSessions(members, shares[..|shares| - 1], id);
    }
  }

  lemma {:induction false} ClearedSessions(members: map<Name, Member>, id: Name)
    ensures id in Cleared(members) <==> id in members
    ensures id in members ==> Cleared(members)[id] == members[id].(assignment := [])
  {
  }

  lemma {:induction false} JoinSession(g: Group, r: Request, id: Name)
    requires r.Join?
    ensures SessionIn(After(g, r), id) == if r.id == id then Some(Session(r.timeoutMs, r.metadata, r.now)) else SessionIn(g, id)
  {
    hide Wrap32, Cleared;
    var h := Entered(g, r.id, r.timeoutMs, r.metadata, r.now);
    ClearedSessions(h.members, id);
  }

  lemma {:induction false} SyncSession(g: Group, r: Request, id: Name)
    requires r.Sync?
    ensures SessionIn(After(g, r), id)
            == if id in g.members && r.id == id && r.generation == g.generation then Some(SessionIn(g, id).value.(seen := r.now)) else SessionIn(g, id)
  {
    hide Shared;
    if r.id in g.members {
      SharedSessions(g.members[r.id := g.members[r.id].(lastHeartbeat := r.now)], r.shares, id);
    }
  }

  lemma {:induction false} ShrunkSession(g: Group, gone: set<Name>, pick: Name, id: Name)
    ensures SessionIn(Shrunk(g, gone, pick), id) == if id in gone then None else SessionIn(g, id)
  {
    hide Wrap32, Cleared;
    ClearedSessions(g.members - gone, id);
  }

  lemma {:induction false} TimeoutSession(g: Group, r: Request, id: Name)
    requires r.Timeouts?
    ensures SessionIn(After(g, r), id) == if id in g.members && Silent(SessionIn(g, id).value, r.now) then None else SessionIn(g, id)
  {
    hide Shrunk;
    ShrunkSession(g, ExpiredMembers(g, r.now), r.pick, id);
    assert id in g.members ==> (id in ExpiredMembers(g, r.now) <==> Silent(SessionIn(g, id).value, r.now));
  }

  lemma {:induction false} SessionStep(g: Group, r: Request, id: Name)
    ensures var before, after := SessionIn(g, id), SessionIn(After(g, r), id);
            after == if r.Join? && r.id == id then Some(Session(r.timeoutMs, r.metadata, r.now))
                     else if before.None? || (r.Leave? && r.id == id) || (r.Timeouts? && Silent(before.value, r.now)) then None
                     else if (r.Sync? && r.id == id && r.generation == g.generation)
                             || (r.Heartbeat? && r.id == id && r.generation == g.generation && g.status != Preparing)
                     then Some(before.value.(seen := r.now))
                     else before
  {
    hide Joined, Synced, TimedOut, Shrunk, Silent;
    match r
    case Join(_, _, _, _, _) => JoinSession(g, r, id);
    case Sync(_, _, _, _) => SyncSession(g, r, id);
    case Timeouts(_, _) => TimeoutSession(g, r, id);
    case Leave(m, pick) => ShrunkSession(g, {m}, pick, id);
    case Heartbeat(_, _, _) =>
  }

  /** Over every run the members are exactly those with a session, with what their own requests said. */
  lemma {:induction false} MembersHaveSessions(gs: seq<Group>, rs: seq<Request>, k: nat, id: Name)
    requires Run(gs, rs) && k < |gs|
    ensures SessionIn(gs[k], id) == SessionOf(gs, rs, k, id)
  {
    hide After, Possible, SessionIn;
    if k == 0 {
      assert SessionIn(NoGroup, id) == None by { NobodyYet(id); }
    } else {
      MembersHaveSessions(gs, rs, k - 1, id);
      SessionStep(gs[k - 1], rs[k - 1], id);
    }
  }

  lemma {:induction false} NobodyYet(id: Name)
    ensures SessionIn(NoGroup, id) == None
  {
  }

  // ---- Session timeouts ------------------------------------------------------------------------------

  /** Request i is the member's latest join before k. */
  ghost predicate LatestJoin(rs: seq<Request>, k: nat, id: Name, i: nat) {
    && i < k <= |rs| && rs[i].Join? && rs[i].id == id
    && forall l :: i < l < k ==> !(rs[l].Join? && rs[l].id == id)
  }

  /** Request j is the last the member was heard from before k: a join or a sign of life. */
  ghost predicate LatestContact(gs: seq<Group>, rs: seq<Request>, k: nat, id: Name, j: nat) {
    && j < k <= |rs| <= |gs| && ((rs[j].Join? && rs[j].id == id) || SignOfLife(gs, rs, j, id))
    && forall l :: j < l < k ==> !(rs[l].Join? && rs[l].id == id) && !SignOfLife(gs, rs, l, id)
  }

  lemma {:induction false} SessionFrom(gs: seq<Group>, rs: seq<Request>, k: nat, id: Name) returns (i: nat, j: nat)
    requires k <= |rs| <= |gs| && SessionOf(gs, rs, k, id).Some?
    ensures LatestJoin(rs, k, id, i) && LatestContact(gs, rs, k, id, j)
    ensures !rs[j].Leave? && SessionOf(gs, rs, k, id) == Some(Session(rs[i].timeoutMs, rs[i].metadata, rs[j].now))
  {
    var r := rs[k - 1];
    if r.Join? && r.id == id {
      i, j := k - 1, k - 1;
    } else {
      i, j := SessionFrom(gs, rs, k - 1, id);
      if SignOfLife(gs, rs, k - 1, id) {
        j := k - 1;
      }
    }
  }

  /** A timeout check drops exactly the members that have been silent for longer than the limit their
      latest join asked for, counted from their latest join, accepted sync or accepted heartbeat. */
  lemma {:induction false} TimeoutsDropTheSilent(gs: seq<Group>, rs: seq<Request>, k: nat, id: Name) returns (i: nat, j: nat)
    requires Run(gs, rs) && k < |rs| && rs[k].Timeouts? && id in gs[k].members
    ensures LatestJoin(rs, k, id, i) && LatestContact(gs, rs, k, id, j) && !rs[j].Leave?
    ensures id !in gs[k + 1].members <==> rs[k].now - rs[j].now > if rs[i].timeoutMs <= 0 then 45000 else rs[i].timeoutMs
  {
    hide Run, LatestJoin, LatestContact, SignOfLife;
    RunLength(gs, rs);
    MembersHaveSessions(gs, rs, k, id);
    MembersHaveSessions(gs, rs, k + 1, id);
    i, j := SessionFrom(gs, rs, k, id);
  }

  lemma {:induction false} RunLength(gs: seq<Group>, rs: seq<Request>)
    requires Run(gs, rs)
    ensures |gs| == |rs| + 1
  {
  }

  // ---- Answers ---------------------------------------------------------------------------------------

  /** A join response carries the member's own id, and whoever is told to lead gets exactly the members
      with a session, each with the metadata of its latest join. */
  lemma {:induction false} LeaderIsTold(gs: seq<Group>, rs: seq<Request>, k: nat)
    requires Run(gs, rs) && k < |rs| && rs[k].Join?
    ensures var reply := JoinReply(gs[k + 1], rs[k].id);
            && reply.id == rs[k].id && SessionOf(gs, rs, k + 1, reply.leader).Some?
            && (reply.members.Some? <==> reply.leader == rs[k].id)
            && (reply.members.Some? ==>
                  forall m :: (m in reply.members.value <==> SessionOf(gs, rs, k + 1, m).Some?)
                              && (m in reply.members.value ==> reply.members.value[m] == SessionOf(gs, rs, k + 1, m).value.metadata))
  {
    hide After, Possible, SessionOf;
    RunOk(gs, rs, k + 1);
    JoinedIsMember(gs[k], rs[k]);
    MembersHaveSessions(gs, rs, k + 1, gs[k + 1].leader);
    var n, g := k + 1, gs[k + 1];
    forall m ensures SessionIn(g, m) == SessionOf(gs, rs, n, m) {
      MembersHaveSessions(gs, rs, n, m);
    }
  }

  /** What a heartbeat's answer means: the member's generation is over, it has no session, a rebalance is
      under way, or the group is stable in its generation. */
  lemma {:induction false} HeartbeatMeans(gs: seq<Group>, rs: seq<Request>, k: nat)
    requires Run(gs, rs) && k < |rs| && rs[k].Heartbeat?
    ensures var e := HeartbeatError(gs[k], rs[k].id, rs[k].generation);
            var known := SessionOf(gs, rs, k, rs[k].id).Some?;
            && (e == IllegalGeneration <==> rs[k].generation != gs[k].generation)
            && (e == UnknownMember <==> rs[k].generation == gs[k].generation && !known)
            && (e == RebalanceInProgress <==> rs[k].generation == gs[k].generation && known && gs[k].status == Preparing)
            && (e == NoError <==> rs[k].generation == gs[k].generation && known && gs[k].status == Stable)
  {
    hide After, Possible, SessionOf;
    RunOk(gs, rs, k);
    MembersHaveSessions(gs, rs, k, rs[k].id);
  }

  /** And a sync's. */
  lemma {:induction false} SyncMeans(gs: seq<Group>, rs: seq<Request>, k: nat)
    requires Run(gs, rs) && k < |rs| && rs[k].Sync?
    ensures var e := SyncError(gs[k], rs[k].id, rs[k].generation);
            var known := SessionOf(gs, rs, k, rs[k].id).Some?;
            && (e == IllegalGeneration <==> rs[k].generation != gs[k].generation)
            && (e == UnknownMember <==> rs[k].generation == gs[k].generation && !known)
            && (e == NoError <==> rs[k].generation == gs[k].generation && known)
  {
    hide After, Possible, SessionOf;
    MembersHaveSessions(gs, rs, k, rs[k].id);
  }

  /** A new generation starts exactly when somebody joins a group that is not rebalancing already, or
      somebody goes and somebody stays. */
  lemma {:induction false} GenerationMovesIff(gs: seq<Group>, rs: seq<Request>, k: nat)
    requires Run(gs, rs) && k < |rs|
    ensures gs[k + 1].generation != gs[k].generation <==>
              || (rs[k].Join? && gs[k].status != Preparing)
              || (gs[k + 1].members != map[] && exists m :: m in gs[k].members && m !in gs[k + 1].members)
  {
    hide Expired, Shared, Ok;
    RunOk(gs, rs, k);
    var g, r := gs[k], rs[k];
    GenerationDropsIff(g, r);
    match r
    case Sync(m, generation, shares, now) =>
      if m in g.members {
        SharedKeys(g.members[m := g.members[m].(lastHeartbeat := now)], shares);
      }
    case Timeouts(now, pick) =>
      if ExpiredMembers(g, now) != {} {
        HasName(ExpiredMembers(g, now));
      }
    case _ =>
  }
}
