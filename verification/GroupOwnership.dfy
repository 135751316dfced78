/** Exclusive ownership: the coordinator's generations and an assignor together
    (internal/coordinator/group.go, internal/coordinator/assignor.go). */
module GroupOwnership {
  import opened Bytes
  import opened Names
  import opened Assignors
  import opened AssignmentCodec
  import opened GroupSpec

  /** What a member decodes from the bytes it holds. */
  function HeldBy(m: Member): seq<PartitionAssignment> {
    var d := Decoded(m.assignment);
    if d.Parsed? then d.value else []
  }

  function Held(g: Group): map<Name, seq<PartitionAssignment>> {
    map m | m in g.members :: HeldBy(g.members[m])
  }

  /** The shares carry the assignment a, encoded, to every member it names, in any order. */
  ghost predicate Carries(shares: seq<Share>, a: map<Name, seq<PartitionAssignment>>) {
    && (forall m :: m in a ==> AllFit(a[m]))
    && (forall k :: 0 <= k < |shares| ==> shares[k].member in a && shares[k].assignment == Encoded(a[shares[k].member]))
    && (forall m :: m in a ==> exists k :: 0 <= k < |shares| && shares[k].member == m)
  }

  /** After the shares, a member holds its share if it has one, and what it held otherwise. */
  lemma {:induction false} SharedHolds(members: map<Name, Member>, shares: seq<Share>, a: map<Name, seq<PartitionAssignment>>, m: Name)
    requires m in members && (forall x :: x in a ==> AllFit(a[x]))
    requires forall k :: 0 <= k < |shares| ==> shares[k].member in a && shares[k].assignment == Encoded(a[shares[k].member])
    ensures m in Shared(members, shares)
    ensures (exists k :: 0 <= k < |shares| && shares[k].member == m) ==>
              m in a && Shared(members, shares)[m].assignment == Encoded(a[m])
    ensures !(exists k :: 0 <= k < |shares| && shares[k].member == m) ==> Shared(members, shares)[m] == members[m]
    decreases |shares|
  {
    hide Encoded, AllFit;
    if shares != [] {
      var front := shares[..|shares| - 1];
      SharedHolds(members, front, a, m);
      if k :| 0 <= k < |shares| && shares[k].member == m {
        assert k < |front| ==> front[k].member == m;
      }
    }
  }

  /** Spectators without partitions leave a cover exact. */
  lemma {:induction false} CoverWithSpectators(a: map<Name, seq<PartitionAssignment>>, b: map<Name, seq<PartitionAssignment>>, counts: map<Name, int>)
    requires ExactCover(a, counts) && (forall m :: m in a ==> m in b && b[m] == a[m])
    requires forall m :: m in b && m !in a ==> b[m] == []
    ensures ExactCover(b, counts)
  {
    forall t, p ensures if t in counts && 0 <= p < counts[t] then OwnedOnce(b, Tp(t, p)) else NotOwned(b, Tp(t, p)) {
      var x := Tp(t, p);
      NoTimes(x);
      if t in counts && 0 <= p < counts[t] {
        assert OwnedOnce(a, x);
        var m :| m in a && Times(a[m], x) == 1 && forall m' :: m' in a && m' != m ==> Times(a[m'], x) == 0;
        assert m in b && Times(b[m], x) == 1;
      } else {
        assert NotOwned(a, x);
      }
    }
  }

  /** The member list of a join response, if it has one. */
  function MemberList(r: JoinResponse): Option<set<Name>> {
    if r.members.Some? then Some(r.members.value.Keys) else None
  }

  /** The request is a sync by the leader, in the current generation, with shares. */
  predicate LeaderSyncs(g: Group, r: Request) {
    r.Sync? && SyncError(g, r.id, r.generation) == NoError && r.id == g.leader && r.shares != []
  }

  /** A first leader sync on an orderly group that still has every member of a. */
  lemma {:induction false} SyncInstalls(g: Group, r: Request, a: map<Name, seq<PartitionAssignment>>, counts: map<Name, int>)
    requires Ok(g) && g.status == Preparing && LeaderSyncs(g, r) && Carries(r.shares, a)
    requires a.Keys <= g.members.Keys && ExactCover(a, counts)
    ensures ExactCover(Held(After(g, r)), counts) && After(g, r).status == Stable
    ensures After(g, r).generation == g.generation && After(g, r).members.Keys == g.members.Keys
  {
    hide ExactCover, AllFit, Encoded, Decoded;
    var h := g.members[r.id := g.members[r.id].(lastHeartbeat := r.now)];
    SharedKeys(h, r.shares);
    var b := Held(After(g, r));
    forall m | m in b ensures m in a ==> b[m] == a[m]
      ensures m !in a ==> b[m] == []
    {
      SharedHolds(h, r.shares, a, m);
      if m in a {
        RoundTrip(a[m]);
      } else {
        NothingDecoded();
      }
    }
    CoverWithSpectators(a, b, counts);
  }

  lemma {:induction false} NothingDecoded()
    ensures Decoded([]) == Parsed([], [])
  {
  }

  /** Exclusive ownership. The leader of a generation joined at step i and was told the member list;
      at step j it syncs, the first to do so in that generation, with any exact assignment over that
      list. Whoever else joined in between, the decoded assignments the members then hold give every
      topic-partition to exactly one of them, and still do at step k, as long as the generation
      lasts and the leader does not sync again. */
  lemma {:induction false} ExclusiveOwnership(gs: seq<Group>, rs: seq<Request>, i: nat, j: nat, k: nat,
                                              a: map<Name, seq<PartitionAssignment>>, counts: map<Name, int>)
    requires Run(gs, rs) && i < j < k < |gs| && Rebalancings(gs, rs, i + 1, k) < TWO_32
    requires rs[i].Join? && MemberList(JoinReply(gs[i + 1], rs[i].id)) == Some(a.Keys) && ExactCover(a, counts)
    requires LeaderSyncs(gs[j], rs[j]) && Carries(rs[j].shares, a)
    requires rs[j].id == rs[i].id && rs[j].generation == JoinReply(gs[i + 1], rs[i].id).generation
    requires gs[k].generation == gs[j].generation && gs[k].members != map[]
    requires forall l :: i < l < k && l != j ==> !LeaderSyncs(gs[l], rs[l])
    ensures ExactCover(Held(gs[k]), counts)
    decreases k
  {
    hide Ok, After, Possible, ExactCover, Carries, LeaderSyncs, Held, Rebalances;
    if k == j + 1 {
      LaterQuiet(gs, rs, i + 1, j, k);
      FirstSync(gs, rs, i, j, a, counts);
    } else {
      LeaderSyncedIn(gs[j], rs[j]);
      Before(gs, rs, i + 1, k);
      WithinGeneration(gs, rs, k - 1, k);
      ExclusiveOwnership(gs, rs, i, j, k - 1, a, counts);
      LaterQuiet(gs, rs, i + 1, j, k - 1);
      StableAfterSync(gs, rs, j, k - 1);
      RunOk(gs, rs, k - 1);
      HeldStays(gs[k - 1], rs[k - 1]);
    }
  }

  lemma {:induction false} FirstSync(gs: seq<Group>, rs: seq<Request>, i: nat, j: nat,
                                     a: map<Name, seq<PartitionAssignment>>, counts: map<Name, int>)
    requires Run(gs, rs) && i < j < |rs| && Rebalancings(gs, rs, i + 1, j) < TWO_32
    requires rs[i].Join? && MemberList(JoinReply(gs[i + 1], rs[i].id)) == Some(a.Keys) && ExactCover(a, counts)
    requires LeaderSyncs(gs[j], rs[j]) && Carries(rs[j].shares, a)
    requires rs[j].generation == JoinReply(gs[i + 1], rs[i].id).generation
    requires forall l :: i < l < j ==> !LeaderSyncs(gs[l], rs[l])
    ensures ExactCover(Held(gs[j + 1]), counts)
  {
    hide Ok, After, Possible, ExactCover, Carries;
    RunOk(gs, rs, j);
    NonEmptyMap(gs[j].members, rs[j].id);
    WithinGeneration(gs, rs, i + 1, j);
    StillPreparing(gs, rs, i, j);
    SyncInstalls(gs[j], rs[j], a, counts);
  }

  lemma {:induction false} LeaderSyncedIn(g: Group, r: Request)
    requires LeaderSyncs(g, r)
    ensures g.generation == r.generation
  {
  }

  /** The end of a stretch has no more rebalances than the whole. */
  lemma {:induction false} LaterQuiet(gs: seq<Group>, rs: seq<Request>, i: nat, j: nat, k: nat)
    requires i <= j < k <= |rs| <= |gs|
    ensures Rebalancings(gs, rs, i, j) <= Rebalancings(gs, rs, i, k)
    ensures Rebalancings(gs, rs, j + 1, k) <= Rebalancings(gs, rs, i, k)
    decreases k
  {
    hide Rebalances;
    if j + 1 < k {
      LaterQuiet(gs, rs, i, j, k - 1);
    }
  }

  /** A join leaves the group rebalancing, and so it stays until its leader syncs. */
  lemma {:induction false} StillPreparing(gs: seq<Group>, rs: seq<Request>, i: nat, j: nat)
    requires Run(gs, rs) && i < j < |gs| && rs[i].Join? && Rebalancings(gs, rs, i + 1, j) < TWO_32
    requires gs[j].generation == gs[i + 1].generation && gs[j].members != map[]
    requires forall l :: i < l < j ==> !LeaderSyncs(gs[l], rs[l])
    ensures gs[j].status == Preparing
    decreases j
  {
    hide Ok, After, Possible;
    if i + 1 == j {
      JoinPrepares(gs[i], rs[i]);
    } else {
      Before(gs, rs, i + 1, j);
      WithinGeneration(gs, rs, j - 1, j);
      StillPreparing(gs, rs, i, j - 1);
      PreparingStays(gs[j - 1], rs[j - 1]);
    }
  }

  lemma {:induction false} JoinPrepares(g: Group, r: Request)
    requires r.Join?
    ensures After(g, r).status == Preparing
  {
  }

  lemma {:induction false} PreparingStays(g: Group, r: Request)
    requires g.status == Preparing && !LeaderSyncs(g, r)
    requires After(g, r).members != map[]
    ensures After(g, r).status == Preparing
  {
    hide Shared, Expired;
  }

  lemma {:induction false} StableAfterSync(gs: seq<Group>, rs: seq<Request>, j: nat, k: nat)
    requires Run(gs, rs) && j < k < |gs| && LeaderSyncs(gs[j], rs[j]) && Rebalancings(gs, rs, j + 1, k) < TWO_32
    requires gs[k].generation == gs[j].generation && gs[k].members != map[]
    ensures gs[k].status == Stable
  {
    hide Ok, Possible, Shared;
    assert gs[j + 1].status == Stable && gs[j + 1].generation == gs[j].generation;
    WithinGeneration(gs, rs, j + 1, k);
  }

  /** Within a stable generation, nothing but the leader's sync changes what members hold. */
  lemma {:induction false} HeldStays(g: Group, r: Request)
    requires Ok(g) && Possible(g, r) && g.status == Stable && !LeaderSyncs(g, r)
    requires After(g, r).generation == g.generation && After(g, r).members != map[]
    ensures Held(After(g, r)) == Held(g)
  {
    hide Decoded, Expired;
    GenerationDropsIff(g, r);
  }

  /** The two strategies meet the condition on the assignment. */
  lemma {:induction false} BothStrategiesServe(list: seq<Name>, topics: seq<Name>, counts: map<Name, int>)
    requires list != [] && Lists(topics, counts.Keys) && (forall t :: t in topics ==> t in counts)
    ensures ExactCover(RangeAssignment(list, topics, counts), counts)
    ensures ExactCover(RoundRobinAssignment(list, topics, counts), counts)
    ensures RangeAssignment(list, topics, counts).Keys == (set m | m in list) == RoundRobinAssignment(list, topics, counts).Keys
  {
    hide ExactCover, RangeAssignment, RoundRobinAssignment;
    RangeIsExact(list, topics, counts);
    RoundRobinIsExact(list, topics, counts);
  }
}
