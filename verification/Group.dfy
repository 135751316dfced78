/** A consumer group's generations (internal/coordinator/group.go), on values: each request as a
    function of the group, and what holds over every run of requests. */
module GroupSpec {
  import opened Bytes
  import opened Names

  datatype Status = Empty | Preparing | Stable

  /** An assignment that was cleared is the empty byte string. */
  datatype Member = Member(sessionTimeoutMs: int, lastHeartbeat: int, metadata: seq<byte>, assignment: seq<byte>)

  datatype Group = Group(status: Status, generation: int32, leader: Name, members: map<Name, Member>)

  const NoGroup: Group := Group(Empty, 0, [], map[])

  datatype Share = Share(member: Name, assignment: seq<byte>)

  datatype GroupError = NoError | IllegalGeneration | UnknownMember | RebalanceInProgress

  // ---- Requests --------------------------------------------------------------------------------------

  function Cleared(members: map<Name, Member>): map<Name, Member> {
    map m | m in members :: members[m].(assignment := [])
  }

  /** transitionToRebalanceLocked; ranging over the map picks some member as leader. */
  function Rebalanced(g: Group, pick: Name): Group {
    Group(Preparing, Wrap32(g.generation + 1), if g.members == map[] then [] else pick, Cleared(g.members))
  }

  function Entered(g: Group, id: Name, timeoutMs: int, metadata: seq<byte>, now: int): Group {
    g.(members := g.members[id :=
      if id in g.members then g.members[id].(sessionTimeoutMs := timeoutMs, lastHeartbeat := now, metadata := metadata)
      else Member(timeoutMs, now, metadata, [])])
  }

  /** JoinGroup, for a member whose id has been settled. */
  function Joined(g: Group, id: Name, timeoutMs: int, metadata: seq<byte>, now: int, pick: Name): Group {
    var h := Entered(g, id, timeoutMs, metadata, now);
    var h' := if h.status != Preparing then Rebalanced(h, pick) else h;
    if h'.leader == [] then h'.(leader := id) else h'
  }

  /** What the member is told; the leader also gets every member's metadata. */
  datatype JoinResponse = JoinResponse(generation: int32, leader: Name, id: Name, members: Option<map<Name, seq<byte>>>)

  function JoinReply(g: Group, id: Name): JoinResponse {
    JoinResponse(g.generation, g.leader, id, if id == g.leader then Some(map m | m in g.members :: g.members[m].metadata) else None)
  }

  function Shared(members: map<Name, Member>, shares: seq<Share>): map<Name, Member> {
    if shares == [] then members
    else
      var before := Shared(members, shares[..|shares| - 1]);
      var s := shares[|shares| - 1];
      if s.member in before then before[s.member := before[s.member].(assignment := s.assignment)] else before
  }

  function SyncError(g: Group, id: Name, generation: int): GroupError {
    if generation != g.generation then IllegalGeneration
    else if id !in g.members then UnknownMember
    else NoError
  }

  /** SyncGroup: the leader's shares reach the members still there, and the group is stable. */
  function Synced(g: Group, id: Name, generation: int, shares: seq<Share>, now: int): Group {
    if SyncError(g, id, generation) != NoError then g
    else
      var h := g.(members := g.members[id := g.members[id].(lastHeartbeat := now)]);
      if id == g.leader && shares != [] then h.(members := Shared(h.members, shares), status := Stable) else h
  }

  function HeartbeatError(g: Group, id: Name, generation: int): GroupError {
    if SyncError(g, id, generation) != NoError then SyncError(g, id, generation)
    else if g.status == Preparing then RebalanceInProgress
    else NoError
  }

  function Beaten(g: Group, id: Name, generation: int, now: int): Group {
    if HeartbeatError(g, id, generation) != NoError then g
    else g.(members := g.members[id := g.members[id].(lastHeartbeat := now)])
  }

  /** The group once some members are gone. */
  function Shrunk(g: Group, gone: set<Name>, pick: Name): Group {
    var members := g.members - gone;
    if members == map[] then g.(members := members, status := Empty, leader := [])
    else Rebalanced(g.(members := members), pick)
  }

  function Left(g: Group, id: Name, pick: Name): Group {
    if id !in g.members then g else Shrunk(g, {id}, pick)
  }

  predicate Expired(m: Member, now: int) {
    now - m.lastHeartbeat > if m.sessionTimeoutMs <= 0 then 45000 else m.sessionTimeoutMs
  }

  function ExpiredMembers(g: Group, now: int): set<Name> {
    set m | m in g.members && Expired(g.members[m], now)
  }

  /** checkSessionTimeouts on one group. */
  function TimedOut(g: Group, now: int, pick: Name): Group {
    if ExpiredMembers(g, now) == {} then g else Shrunk(g, ExpiredMembers(g, now), pick)
  }

  // ---- Steps -----------------------------------------------------------------------------------------

  datatype Request =
    | Join(id: Name, timeoutMs: int, metadata: seq<byte>, now: int, pick: Name)
    | Sync(id: Name, generation: int, shares: seq<Share>, now: int)
    | Heartbeat(id: Name, generation: int, now: int)
    | Leave(id: Name, pick: Name)
    | Timeouts(now: int, pick: Name)

  function After(g: Group, r: Request): Group {
    match r
    case Join(id, timeoutMs, metadata, now, pick) => Joined(g, id, timeoutMs, metadata, now, pick)
    case Sync(id, generation, shares, now) => Synced(g, id, generation, shares, now)
    case Heartbeat(id, generation, now) => Beaten(g, id, generation, now)
    case Leave(id, pick) => Left(g, id, pick)
    case Timeouts(now, pick) => TimedOut(g, now, pick)
  }

  /** Member ids are never empty, and a leader is picked among the members that remain. */
  predicate Possible(g: Group, r: Request) {
    match r
    case Join(id, timeoutMs, metadata, now, pick) => id != [] && (pick == id || pick in g.members)
    case Leave(id, pick) => g.members - {id} == map[] || pick in g.members - {id}
    case Timeouts(now, pick) => g.members - ExpiredMembers(g, now) == map[] || pick in g.members - ExpiredMembers(g, now)
    case _ => true
  }

  /** A group is empty exactly when it has no members, and otherwise its leader is one of them;
      during a rebalance nobody holds an assignment. */
  ghost predicate Ok(g: Group) {
    && (g.status == Empty <==> g.members == map[])
    && (if g.members == map[] then g.leader == [] else g.leader in g.members)
    && [] !in g.members
    && (g.status == Preparing ==> forall m :: m in g.members ==> g.members[m].assignment == [])
  }

  lemma {:induction false} SharedKeys(members: map<Name, Member>, shares: seq<Share>)
    ensures Shared(members, shares).Keys == members.Keys
    decreases |shares|
  {
    if shares != [] {
      SharedKeys(members, shares[..|shares| - 1]);
    }
  }

  lemma {:induction false} NonEmptyMap(members: map<Name, Member>, m: Name)
    requires m in members
    ensures members != map[]
  {
  }

  /** Every request keeps the group in order. */
  lemma {:induction false} AfterOk(g: Group, r: Request)
    requires Ok(g) && Possible(g, r)
    ensures Ok(After(g, r))
  {
    hide Expired;
    match r
    case Join(id, timeoutMs, metadata, now, pick) =>
      var h := Entered(g, id, timeoutMs, metadata, now);
      NonEmptyMap(h.members, id);
      NonEmptyMap(Cleared(h.members), id);
    case Sync(id, generation, shares, now) =>
      if SyncError(g, id, generation) == NoError {
        var h := g.members[id := g.members[id].(lastHeartbeat := now)];
        SharedKeys(h, shares);
        NonEmptyMap(h, id);
        assert id in Shared(h, shares);
        NonEmptyMap(Shared(h, shares), id);
      }
    case Heartbeat(id, generation, now) =>
      if HeartbeatError(g, id, generation) == NoError {
        NonEmptyMap(After(g, r).members, id);
      }
    case Leave(id, pick) => ShrunkOk(g, {id}, pick);
    case Timeouts(now, pick) => ShrunkOk(g, ExpiredMembers(g, now), pick);
  }

  lemma {:induction false} ShrunkOk(g: Group, gone: set<Name>, pick: Name)
    requires Ok(g) && (g.members - gone == map[] || pick in g.members - gone)
    ensures Ok(Shrunk(g, gone, pick))
  {
    if g.members - gone != map[] {
      NonEmptyMap(Cleared(g.members - gone), pick);
    }
  }

  // ---- Generations -----------------------------------------------------------------------------------

  /** What one request does within a generation, and between two. */
  lemma {:induction false} AfterGeneration(g: Group, r: Request)
    requires Ok(g) && Possible(g, r)
    ensures var h := After(g, r);
            && (h.generation == g.generation && h.members != map[] ==>
                  g.members != map[] && h.leader == g.leader && g.members.Keys <= h.members.Keys)
            && (h.generation == g.generation && h.members != map[] && g.status == Stable ==>
                  h.status == Stable && h.members.Keys == g.members.Keys)
            && (h.generation != g.generation ==>
                  h.status == Preparing && forall m :: m in h.members ==> h.members[m].assignment == [])
  {
    hide Expired, Shared;
    match r
    case Join(id, timeoutMs, metadata, now, pick) =>
    case Sync(id, generation, shares, now) =>
      if SyncError(g, id, generation) == NoError {
        SharedKeys(g.members[id := g.members[id].(lastHeartbeat := now)], shares);
        NonEmptyMap(g.members, id);
      }
    case Heartbeat(id, generation, now) =>
    case Leave(id, pick) =>
    case Timeouts(now, pick) =>
  }

  /** The request starts a new generation. */
  predicate Rebalances(g: Group, r: Request) {
    match r
    case Join(_, _, _, _, _) => g.status != Preparing
    case Leave(id, _) => id in g.members && g.members - {id} != map[]
    case Timeouts(now, _) => ExpiredMembers(g, now) != {} && g.members - ExpiredMembers(g, now) != map[]
    case _ => false
  }

  /** The generation goes up by one with every rebalance and with nothing else, and goes down
      exactly when a rebalance meets the largest int32. */
  lemma {:induction false} GenerationDropsIff(g: Group, r: Request)
    ensures After(g, r).generation == if Rebalances(g, r) then Wrap32(g.generation + 1) else g.generation
    ensures After(g, r).generation < g.generation <==> Rebalances(g, r) && g.generation == MAX_INT32
  {
    hide Expired, Shared;
  }

  // ---- Runs ------------------------------------------------------------------------------------------

  ghost predicate Run(gs: seq<Group>, rs: seq<Request>) {
    && |gs| == |rs| + 1 && gs[0] == NoGroup
    && forall k :: 0 <= k < |rs| ==> Possible(gs[k], rs[k]) && gs[k + 1] == After(gs[k], rs[k])
  }

  /** Over every run: empty exactly when without members, otherwise led by a member. */
  lemma {:induction false} RunOk(gs: seq<Group>, rs: seq<Request>, k: nat)
    requires Run(gs, rs) && k < |gs|
    ensures Ok(gs[k])
  {
    hide Ok, After, Possible;
    if k == 0 {
      NoGroupOk();
    } else {
      RunOk(gs, rs, k - 1);
      AfterOk(gs[k - 1], rs[k - 1]);
    }
  }

  lemma {:induction false} NoGroupOk()
    ensures Ok(NoGroup)
  {
  }

  /** The rebalances among requests i up to j. */
  ghost function Rebalancings(gs: seq<Group>, rs: seq<Request>, i: nat, j: nat): nat
    requires i <= j <= |rs| <= |gs|
  {
    if i == j then 0 else Rebalancings(gs, rs, i, j - 1) + if Rebalances(gs[j - 1], rs[j - 1]) then 1 else 0
  }

  /** The generation counts the rebalances, modulo 2^32. */
  lemma {:induction false} GenerationCounts(gs: seq<Group>, rs: seq<Request>, i: nat, j: nat)
    requires Run(gs, rs) && i <= j < |gs|
    ensures gs[j].generation == Wrap32(gs[i].generation + Rebalancings(gs, rs, i, j))
  {
    hide After, Possible, Rebalances, Wrap32;
    if i < j {
      GenerationCounts(gs, rs, i, j - 1);
      GenerationDropsIff(gs[j - 1], rs[j - 1]);
      WrapNext(gs[i].generation + Rebalancings(gs, rs, i, j - 1));
    } else {
      WrapNothing(gs[i].generation);
    }
  }

  lemma {:induction false} WrapNext(x: int)
    ensures Wrap32(Wrap32(x) + 1) == Wrap32(x + 1)
  {
  }

  lemma {:induction false} WrapNothing(g: int32)
    ensures Wrap32(g) == g
  {
  }

  /** None of the requests i up to j makes the counter wrap. */
  ghost predicate NoWrap(gs: seq<Group>, rs: seq<Request>, i: nat, j: nat)
    requires i <= j <= |rs| <= |gs|
  {
    forall l :: i <= l < j ==> !(Rebalances(gs[l], rs[l]) && gs[l].generation == MAX_INT32)
  }

  /** Generations never decrease over a stretch of a run exactly when the counter does not wrap there. */
  lemma {:induction false} GenerationsGrowIff(gs: seq<Group>, rs: seq<Request>, i: nat, j: nat)
    requires Run(gs, rs) && i <= j < |gs|
    ensures (forall k, l :: i <= k <= l <= j ==> gs[k].generation <= gs[l].generation) <==> NoWrap(gs, rs, i, j)
  {
    hide After, Possible, Rebalances;
    forall l | i <= l < j
      ensures gs[l + 1].generation < gs[l].generation <==> Rebalances(gs[l], rs[l]) && gs[l].generation == MAX_INT32
    {
      GenerationDropsIff(gs[l], rs[l]);
    }
    if NoWrap(gs, rs, i, j) {
      forall k, l | i <= k <= l <= j ensures gs[k].generation <= gs[l].generation {
        GrowFrom(gs, k, l);
      }
    } else {
      var l :| i <= l < j && Rebalances(gs[l], rs[l]) && gs[l].generation == MAX_INT32;
      assert gs[l + 1].generation < gs[l].generation;
    }
  }

  lemma {:induction false} GrowFrom(gs: seq<Group>, k: nat, l: nat)
    requires k <= l < |gs| && forall m :: k <= m < l ==> gs[m].generation <= gs[m + 1].generation
    ensures gs[k].generation <= gs[l].generation
  {
    if k < l {
      GrowFrom(gs, k, l - 1);
      assert gs[l - 1].generation <= gs[l - 1 + 1].generation;
    }
  }

  /** Where the counter does not wrap it counts the rebalances, so there are fewer than 2^32. */
  lemma {:induction false} NoWrapCounts(gs: seq<Group>, rs: seq<Request>, i: nat, j: nat)
    requires Run(gs, rs) && i <= j < |gs| && NoWrap(gs, rs, i, j)
    ensures gs[j].generation == gs[i].generation + Rebalancings(gs, rs, i, j)
    ensures Rebalancings(gs, rs, i, j) < TWO_32
    decreases j
  {
    hide After, Possible, Rebalances;
    if i < j {
      NoWrapCounts(gs, rs, i, j - 1);
      assert Rebalancings(gs, rs, j - 1, j - 1) == 0;
      GenerationCounts(gs, rs, j - 1, j);
    }
  }

  /** Fewer than 2^32 rebalances apart, the same number means the same generation. */
  lemma {:induction false} SameNumberSameGeneration(gs: seq<Group>, rs: seq<Request>, i: nat, j: nat)
    requires Run(gs, rs) && i <= j < |gs| && gs[i].generation == gs[j].generation
    requires Rebalancings(gs, rs, i, j) < TWO_32
    ensures Rebalancings(gs, rs, i, j) == 0
  {
    hide After, Possible, Rebalances, Rebalancings;
    GenerationCounts(gs, rs, i, j);
    WrapTurns(gs[i].generation, Rebalancings(gs, rs, i, j));
  }

  lemma {:induction false} WrapTurns(g: int32, n: nat)
    requires Wrap32(g + n) == g && n < TWO_32
    ensures n == 0
  {
  }

  /** Within a generation: one leader, no member disappears unless the group becomes empty, and once
      the group is stable its member set is frozen. An int32 tells generations apart for 2^32
      rebalances. */
  lemma {:induction false} WithinGeneration(gs: seq<Group>, rs: seq<Request>, i: nat, j: nat)
    requires Run(gs, rs) && i <= j < |gs| && gs[i].generation == gs[j].generation
    requires Rebalancings(gs, rs, i, j) < TWO_32 && gs[j].members != map[]
    ensures gs[i].members != map[] && gs[i].leader == gs[j].leader && gs[i].members.Keys <= gs[j].members.Keys
    ensures gs[i].status == Stable ==> gs[j].status == Stable && gs[i].members.Keys == gs[j].members.Keys
    decreases j
  {
    hide Ok, After, Possible, Rebalances;
    if i < j {
      Before(gs, rs, i, j);
      RunOk(gs, rs, j - 1);
      AfterGeneration(gs[j - 1], rs[j - 1]);
      WithinGeneration(gs, rs, i, j - 1);
    }
  }

  /** A stretch within one generation, one request shorter. */
  lemma {:induction false} Before(gs: seq<Group>, rs: seq<Request>, i: nat, j: nat)
    requires Run(gs, rs) && i < j < |gs| && gs[i].generation == gs[j].generation
    requires Rebalancings(gs, rs, i, j) < TWO_32
    ensures Rebalancings(gs, rs, i, j - 1) == 0 && Rebalancings(gs, rs, j - 1, j) == 0
    ensures gs[j - 1].generation == gs[j].generation
  {
    hide After, Possible, Rebalances;
    SameNumberSameGeneration(gs, rs, i, j);
    GenerationDropsIff(gs[j - 1], rs[j - 1]);
    assert Rebalancings(gs, rs, j - 1, j - 1) == 0;
  }

  /** Two join responses of one generation name the same leader. */
  lemma {:induction false} JoinsAgree(gs: seq<Group>, rs: seq<Request>, i: nat, j: nat)
    requires Run(gs, rs) && i < j < |rs| && rs[i].Join? && rs[j].Join?
    requires JoinReply(gs[i + 1], rs[i].id).generation == JoinReply(gs[j + 1], rs[j].id).generation
    requires Rebalancings(gs, rs, i + 1, j + 1) < TWO_32
    ensures JoinReply(gs[i + 1], rs[i].id).leader == JoinReply(gs[j + 1], rs[j].id).leader
  {
    hide Ok, After, Possible, Rebalances, Rebalancings;
    JoinedIsMember(gs[j], rs[j]);
    WithinGeneration(gs, rs, i + 1, j + 1);
  }

  lemma {:induction false} JoinedIsMember(g: Group, r: Request)
    requires r.Join?
    ensures r.id in After(g, r).members && After(g, r).members != map[]
  {
  }

  /** The counter does wrap: after the largest int32 comes the smallest. */
  lemma {:induction false} GenerationWraps(id: Name)
    ensures var g := Group(Empty, MAX_INT32, [], map[]);
            After(g, Join(id, 0, [], 0, id)).generation == -0x8000_0000
  {
  }
}
