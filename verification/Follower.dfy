/** Replication from a partition's leader to one follower (internal/broker/broker_replication.go):
    fetch, append, adopt the watermark, with fetches lost and appends cut short. */
module Followers {
  import opened Bytes
  import opened Records
  import opened IndexAccounting
  import opened SegmentReads
  import opened Segments
  import opened LogSpec
  import opened LogMaintenance
  import opened LogRangeReads

  datatype Response = Response(records: seq<Record>, hw: int)

  /** The follower's side: its log, its watermark, and the fetch offset it remembers. */
  datatype Local = Local(log: LogState, hw: int, remembered: int)

  /** The leader's log and watermark, the follower, and the response on its way, if any. The follower
      has one fetch loop, so there is at most one. */
  datatype Pair = Pair(leader: LogState, leaderHw: int, local: Local, inFlight: Option<Response>)

  datatype Configs = Configs(leader: Config, follower: Config)

  datatype Action =
    | Lead(recs: seq<Option<Record>>, nows: seq<int>)
    | RaiseHw(hw: int)
    | Serve(maxBytes: int32, hw: int)
    | Lose
    | Deliver(nows: seq<int>)

  /** The offset the follower asks for: its own log end, unless it remembers a later one. */
  function NextFetch(f: Local): int
    requires f.log.segs != []
  {
    Max(f.remembered, Abs(f.log.segs).Leo())
  }

  function FetchOffset(p: Pair): int
    requires p.local.log.segs != []
  {
    NextFetch(p.local)
  }

  function Given(recs: seq<Record>): (out: seq<Option<Record>>)
    ensures |out| == |recs| && forall i :: 0 <= i < |recs| ==> out[i] == Some(recs[i])
  {
    seq(|recs|, i requires 0 <= i < |recs| => Some(recs[i]))
  }

  /** What followerFetchOnce does with a response: append what was sent; if that fails part-way, stop
      there; otherwise remember the fetch offset and adopt the watermark, capped at the local end. */
  function Applied(f: Local, r: Response, nows: seq<int>, c: Config): Local
    requires |nows| == |r.records| && WellFormed(f.log.segs, c) && Usable(c)
    requires MIN_INT64 <= Abs(f.log.segs).Leo() && Abs(f.log.segs).Leo() + |r.records| <= MAX_INT64
  {
    AppendAllRefines(f.log, Given(r.records), nows, c);
    var o := AppendAll(f.log, Given(r.records), nows, c);
    if o.error.Some? then f.(log := o.st)
    else
      var end := Abs(o.st.segs).Leo();
      Local(o.st, Max(f.hw, Min(r.hw, end)), if r.records != [] then end else NextFetch(f))
  }

  function Delivered(p: Pair, nows: seq<int>, c: Configs): Pair
    requires p.inFlight.Some? && |nows| == |p.inFlight.value.records|
    requires WellFormed(p.local.log.segs, c.follower) && Usable(c.follower)
    requires MIN_INT64 <= Abs(p.local.log.segs).Leo() && Abs(p.local.log.segs).Leo() + |p.inFlight.value.records| <= MAX_INT64
  {
    p.(local := Applied(p.local, p.inFlight.value, nows, c.follower), inFlight := None)
  }

  /** One step. A leader's read may also fail, and a request or a response may get lost: both are Lose. */
  ghost predicate Next(p: Pair, a: Action, p': Pair, c: Configs)
    requires Matched(p, c)
  {
    match a
    case Lead(recs, nows) =>
      && |nows| == |recs| && Abs(p.leader.segs).Leo() + |recs| <= MAX_INT64
      && p' == p.(leader := AppendAll(p.leader, recs, nows, c.leader).st)
    case RaiseHw(hw) => p.leaderHw <= hw <= Abs(p.leader.segs).Leo() && p' == p.(leaderHw := hw)
    case Serve(maxBytes, hw) =>
      && p.inFlight.None? && hw <= Abs(p.leader.segs).Leo()
      && var r := ReadLog(p.leader.segs, FetchOffset(p), maxBytes);
         r.error.None? && p' == p.(inFlight := Some(Response(r.recs, hw)))
    case Lose => p' == p.(inFlight := None)
    case Deliver(nows) =>
      && p.inFlight.Some? && |nows| == |p.inFlight.value.records|
      && Abs(p.local.log.segs).Leo() + |p.inFlight.value.records| <= MAX_INT64
      && p' == Delivered(p, nows, c)
  }

  /** Log matching: the follower's log is a prefix of the leader's, its watermark does not pass its
      own end, it will fetch from its own end, and what is on its way continues its log. */
  ghost predicate Matched(p: Pair, c: Configs) {
    && Usable(c.leader) && Usable(c.follower)
    && WellFormed(p.leader.segs, c.leader) && WellFormed(p.local.log.segs, c.follower)
    && Abs(p.leader.segs).start == 0 && Abs(p.local.log.segs).start == 0
    && Abs(p.local.log.segs).recs <= Abs(p.leader.segs).recs
    && p.local.remembered <= Abs(p.local.log.segs).Leo()
    && p.local.hw <= Abs(p.local.log.segs).Leo() && p.leaderHw <= Abs(p.leader.segs).Leo()
    && (p.inFlight.Some? ==> Abs(p.local.log.segs).recs + p.inFlight.value.records <= Abs(p.leader.segs).recs)
  }

  // ---- Steps ----------------------------------------------------------------------------------------

  /** What the follower stores of records that continue its log is those records. */
  lemma {:induction false} AppendsAsSent(records: seq<Record>, m: nat, from: int)
    requires m <= |records| && Dense(records, from) && MIN_INT64 <= from && from + |records| <= MAX_INT64
    ensures Stamped(Given(records)[..m], from) == records[..m]
  {
  }

  lemma {:induction false} ContinuesAsSent(f: seq<Record>, l: seq<Record>, rs: seq<Record>, m: nat)
    requires f + rs <= l && m <= |rs| && |l| <= MAX_INT64 && forall k :: 0 <= k < |l| ==> l[k].offset == k
    ensures f + Stamped(Given(rs)[..m], |f|) == f + rs[..m] <= l
  {
    hide Stamped;
    forall k | 0 <= k < |rs| ensures rs[k].offset == |f| + k {
      assert rs[k] == (f + rs)[|f| + k] == l[|f| + k];
    }
    AppendsAsSent(rs, m, |f|);
    assert f + rs[..m] == (f + rs)[..|f| + m] == l[..|f| + m];
  }

  lemma {:induction false} DeliverKeeps(p: Pair, nows: seq<int>, c: Configs)
    requires Matched(p, c) && p.inFlight.Some? && |nows| == |p.inFlight.value.records|
    requires Abs(p.local.log.segs).Leo() + |p.inFlight.value.records| <= MAX_INT64
    ensures Matched(Delivered(p, nows, c), c)
    ensures p.local.hw <= Delivered(p, nows, c).local.hw && FetchOffset(Delivered(p, nows, c)) == Abs(Delivered(p, nows, c).local.log.segs).Leo()
  {
    hide SegOk, Concat, AppendAll, Stamped, LogSpec.Live, Encodable;
    var rs := p.inFlight.value.records;
    AppendAllRefines(p.local.log, Given(rs), nows, c.follower);
    var o := AppendAll(p.local.log, Given(rs), nows, c.follower);
    LeaderDense(p, c);
    LeoInRange(p, c);
    ContinuesAsSent(Abs(p.local.log.segs).recs, Abs(p.leader.segs).recs, rs, o.appended);
  }

  lemma {:induction false} LeoInRange(p: Pair, c: Configs)
    requires Matched(p, c)
    ensures |Abs(p.leader.segs).recs| <= MAX_INT64
  {
    hide LogSpec.Live, Concat, EntriesOf, Size, EncodedSize;
    LeoIsActiveNext(p.leader.segs, c.leader);
    EndInRange(p.leader.segs[|p.leader.segs| - 1], c.leader);
  }

  lemma {:induction false} LeaderDense(p: Pair, c: Configs)
    requires Matched(p, c)
    ensures forall k :: 0 <= k < |Abs(p.leader.segs).recs| ==> Abs(p.leader.segs).recs[k].offset == k
  {
    hide SegOk, LogSpec.Live, Concat;
    StoredDense(p.leader.segs, |p.leader.segs|, c.leader);
    assert p.leader.segs[..|p.leader.segs|] == p.leader.segs;
  }

  lemma {:induction false} ServeKeeps(p: Pair, maxBytes: int32, hw: int, p': Pair, c: Configs)
    requires Matched(p, c) && Next(p, Serve(maxBytes, hw), p', c)
    requires Contiguous(p'.inFlight.value.records, FetchOffset(p))
    ensures Matched(p', c)
  {
    hide SegOk, LogSpec.Live, ReadRange, Contiguous, Concat;
    var f, l := Abs(p.local.log.segs), Abs(p.leader.segs);
    ContiguousReadIsStretch(p.leader.segs, FetchOffset(p), maxBytes, c.leader);
    var rs := p'.inFlight.value.records;
    assert rs <= l.recs[|f.recs|..];
    assert l.recs == l.recs[..|f.recs|] + l.recs[|f.recs|..];
    assert f.recs == l.recs[..|f.recs|];
  }

  lemma {:induction false} LeadKeeps(p: Pair, recs: seq<Option<Record>>, nows: seq<int>, c: Configs)
    requires Matched(p, c) && |nows| == |recs| && Abs(p.leader.segs).Leo() + |recs| <= MAX_INT64
    ensures Matched(p.(leader := AppendAll(p.leader, recs, nows, c.leader).st), c)
    ensures Abs(p.leader.segs).recs <= Abs(AppendAll(p.leader, recs, nows, c.leader).st.segs).recs
  {
    hide SegOk, Concat, AppendAll, Stamped, LogSpec.Live, Encodable;
    AppendAllRefines(p.leader, recs, nows, c.leader);
  }

  /** Every step keeps the logs matched, as long as the leader's reads are contiguous; and no
      watermark or log end goes back. */
  lemma {:induction false} NextKeeps(p: Pair, a: Action, p': Pair, c: Configs)
    requires Matched(p, c) && Next(p, a, p', c)
    requires a.Serve? ==> Contiguous(p'.inFlight.value.records, FetchOffset(p))
    ensures Matched(p', c) && FetchOffset(p') == Abs(p'.local.log.segs).Leo()
    ensures p.local.hw <= p'.local.hw && p.leaderHw <= p'.leaderHw
    ensures Abs(p.leader.segs).recs <= Abs(p'.leader.segs).recs && Abs(p.local.log.segs).recs <= Abs(p'.local.log.segs).recs
  {
    hide WellFormed, AppendAll, ReadLog, Contiguous, Delivered;
    match a
    case Lead(recs, nows) => LeadKeeps(p, recs, nows, c);
    case RaiseHw(hw) =>
    case Serve(maxBytes, hw) => ServeKeeps(p, maxBytes, hw, p', c);
    case Lose =>
    case Deliver(nows) =>
      DeliverKeeps(p, nows, c);
      DeliverGrows(p, nows, c);
  }

  lemma {:induction false} DeliverGrows(p: Pair, nows: seq<int>, c: Configs)
    requires Matched(p, c) && p.inFlight.Some? && |nows| == |p.inFlight.value.records|
    requires Abs(p.local.log.segs).Leo() + |p.inFlight.value.records| <= MAX_INT64
    ensures var p' := Delivered(p, nows, c);
            && p'.leader == p.leader && p'.leaderHw == p.leaderHw && p'.local.log.segs != []
            && Abs(p.local.log.segs).recs <= Abs(p'.local.log.segs).recs
  {
    hide SegOk, Concat, AppendAll, Stamped, LogSpec.Live, Encodable;
    AppendAllRefines(p.local.log, Given(p.inFlight.value.records), nows, c.follower);
  }

  /** What taking in a response does, unless the follower's own segments can outgrow 4 GiB: the follower
      has everything it was sent, and its watermark is the leader's, as far as its own log reaches and
      unless it was higher already. */
  lemma {:induction false} DeliveredInFull(p: Pair, nows: seq<int>, c: Configs)
    requires Matched(p, c) && p.inFlight.Some? && |nows| == |p.inFlight.value.records|
    requires Abs(p.local.log.segs).Leo() + |p.inFlight.value.records| <= MAX_INT64 && c.follower.segmentBytes <= MAX_UINT32
    ensures var p' := Delivered(p, nows, c);
            var r := p.inFlight.value;
            && p'.inFlight.None? && p'.local.log.segs != []
            && Abs(p'.local.log.segs).recs == Abs(p.local.log.segs).recs + r.records
            && var end := Abs(p'.local.log.segs).Leo();
               && p'.local.hw >= (if r.hw < end then r.hw else end)
               && (p'.local.hw == p.local.hw || p'.local.hw == r.hw || p'.local.hw == end)
               && p'.local.hw <= Max(p.local.hw, r.hw)
  {
    hide SegOk, Concat, AppendAll, Stamped, LogSpec.Live, Encodable;
    var rs := p.inFlight.value.records;
    AppendAllRefines(p.local.log, Given(rs), nows, c.follower);
    LeaderDense(p, c);
    LeoInRange(p, c);
    SentEncodable(p, c);
    ContinuesAsSent(Abs(p.local.log.segs).recs, Abs(p.leader.segs).recs, rs, |rs|);
    assert rs[..|rs|] == rs && Given(rs)[..|rs|] == Given(rs);
  }

  lemma {:induction false} SentEncodable(p: Pair, c: Configs)
    requires Matched(p, c) && p.inFlight.Some?
    ensures forall i :: 0 <= i < |p.inFlight.value.records| ==> Admissible(Given(p.inFlight.value.records)[i])
  {
    hide SegOk, LogSpec.Live, Concat, EncodedSize;
    StoredEncodable(p.leader.segs, c.leader);
    var f, rs, l := Abs(p.local.log.segs).recs, p.inFlight.value.records, Abs(p.leader.segs).recs;
    forall i | 0 <= i < |rs| ensures Encodable(rs[i]) {
      assert (f + rs)[|f| + i] == rs[i] && l[|f| + i] == rs[i];
    }
  }

  /** So as long as reads make no jump, every fetch that gets through brings a follower that is behind
      closer to its leader. */
  lemma {:induction false} FetchBringsCloser(p: Pair, maxBytes: int32, hw: int, p': Pair, nows: seq<int>, c: Configs)
    requires Matched(p, c) && Next(p, Serve(maxBytes, hw), p', c) && maxBytes > 0
    requires ReadsOn(p.leader.segs, FetchOffset(p), maxBytes) && c.follower.segmentBytes <= MAX_UINT32
    requires |Abs(p.local.log.segs).recs| < |Abs(p.leader.segs).recs| && |nows| == |p'.inFlight.value.records|
    ensures Matched(p', c) && Abs(p'.local.log.segs).Leo() + |p'.inFlight.value.records| <= MAX_INT64
    ensures var after := Delivered(p', nows, c);
            && after.local.log.segs != []
            && |Abs(p.local.log.segs).recs| < |Abs(after.local.log.segs).recs| <= |Abs(p.leader.segs).recs|
  {
    hide SegOk, LogSpec.Live, Concat, ReadLog, ReadsOn, Contiguous, Delivered, AppendAll;
    SmoothServe(p, Serve(maxBytes, hw), p', c);
    ServeKeeps(p, maxBytes, hw, p', c);
    LeoInRange(p, c);
    ReadsSomething(p.leader.segs, FetchOffset(p), maxBytes, c.leader);
    DeliveredInFull(p', nows, c);
  }

  // ---- Runs -----------------------------------------------------------------------------------------

  /** A run in which every step from a matched state is a step of the pair. */
  ghost predicate Run(ps: seq<Pair>, actions: seq<Action>, c: Configs) {
    && |ps| == |actions| + 1 && Matched(ps[0], c)
    && forall k :: 0 <= k < |actions| && Matched(ps[k], c) ==> Next(ps[k], actions[k], ps[k + 1], c)
  }

  /** No read the leader serves jumps over the end of a segment. */
  ghost predicate Smooth(ps: seq<Pair>, actions: seq<Action>, c: Configs) {
    && |ps| == |actions| + 1
    && forall k :: 0 <= k < |actions| && actions[k].Serve? && Matched(ps[k], c) ==>
         ReadsOn(ps[k].leader.segs, FetchOffset(ps[k]), actions[k].maxBytes)
  }

  /** Log matching over every run in which no read the leader serves makes a jump: the leader rotates,
      fetches are lost and appends cut short at any point, and still the follower fetches from its own
      end, its log is a prefix of the leader's, and on both sides watermarks and logs only grow,
      watermark within log. */
  lemma {:induction false} LogMatching(ps: seq<Pair>, actions: seq<Action>, c: Configs, m: nat, k: nat)
    requires Run(ps, actions, c) && Smooth(ps, actions, c) && m <= k < |ps|
    ensures Matched(ps[m], c) && Matched(ps[k], c) && FetchOffset(ps[k]) == Abs(ps[k].local.log.segs).Leo()
    ensures ps[m].local.hw <= ps[k].local.hw && ps[m].leaderHw <= ps[k].leaderHw
    ensures Abs(ps[m].leader.segs).recs <= Abs(ps[k].leader.segs).recs
    ensures Abs(ps[m].local.log.segs).recs <= Abs(ps[k].local.log.segs).recs
    decreases k, k - m
  {
    hide SegOk, LogSpec.Live, Next, Concat, ReadLog, Contiguous, AppendAll, ReadsOn;
    if k > 0 {
      LogMatching(ps, actions, c, k - 1, k - 1);
      SmoothServe(ps[k - 1], actions[k - 1], ps[k], c);
      NextKeeps(ps[k - 1], actions[k - 1], ps[k], c);
      if m < k {
        LogMatching(ps, actions, c, m, k - 1);
      }
    }
  }

  lemma {:induction false} SmoothServe(p: Pair, a: Action, p': Pair, c: Configs)
    requires Matched(p, c) && Next(p, a, p', c) && (a.Serve? ==> ReadsOn(p.leader.segs, FetchOffset(p), a.maxBytes))
    ensures a.Serve? ==> p'.inFlight.Some? && Contiguous(p'.inFlight.value.records, FetchOffset(p))
  {
    hide SegOk, LogSpec.Live, ReadLog, Contiguous, ReadsOn;
    if a.Serve? {
      ReadContiguousIff(p.leader.segs, FetchOffset(p), a.maxBytes, c.leader);
    }
  }

  /** A leader whose log is one segment, or was just recovered, whenever it serves a read satisfies
      that condition with any budget. */
  lemma {:induction false} NothingToJumpIsSmooth(ps: seq<Pair>, actions: seq<Action>, c: Configs)
    requires |ps| == |actions| + 1
    requires forall k :: 0 <= k < |actions| && actions[k].Serve? ==> JustRecovered(ps[k].leader.segs)
    ensures Smooth(ps, actions, c)
  {
    hide SegOk, LogSpec.Live, Concat, JustRecovered, ReadsOn;
    forall k | 0 <= k < |actions| && actions[k].Serve? && Matched(ps[k], c)
      ensures ReadsOn(ps[k].leader.segs, FetchOffset(ps[k]), actions[k].maxBytes)
    {
      QuietLeader(ps[k], actions[k].maxBytes, c);
    }
  }

  lemma {:induction false} QuietLeader(p: Pair, maxBytes: int32, c: Configs)
    requires Matched(p, c) && JustRecovered(p.leader.segs)
    ensures ReadsOn(p.leader.segs, FetchOffset(p), maxBytes)
  {
    hide SegOk, LogSpec.Live, JustRecovered, ReadsOn;
    NothingToJump(p.leader.segs, FetchOffset(p), maxBytes, c.leader);
  }

  // ---- When the leader has rotated ------------------------------------------------------------------

  /** No two stored records carry the same contents. */
  ghost predicate DistinctPayloads(l: seq<Record>) {
    forall i, j :: 0 <= i < j < |l| ==> Stamp(l[i], 0) != Stamp(l[j], 0)
  }

  /** Appending what a contiguous read returned keeps the follower's log a prefix of the leader's. */
  lemma {:induction false} ContiguousMatches(f: seq<Record>, l: seq<Record>, rs: seq<Record>)
    requires f <= l && |l| <= MAX_INT64 && |f| + |rs| <= MAX_INT64 && forall k :: 0 <= k < |l| ==> l[k].offset == k
    requires Contiguous(rs, |f|) && forall r :: r in rs ==> r in l
    ensures f + Stamped(Given(rs), |f|) <= l
  {
    forall k | 0 <= k < |rs| ensures StandsAt(l, |f|, rs, k) {
      assert rs[k] in l;
    }
    StretchOf(l, |f|, rs);
    assert Stamped(Given(rs), |f|) == rs;
    assert l == f + l[|f|..];
  }

  /** If the leader's records have distinct contents, it does so exactly when the read was contiguous. */
  lemma {:induction false} MatchesIffContiguous(f: seq<Record>, l: seq<Record>, rs: seq<Record>)
    requires f <= l && |l| <= MAX_INT64 && |f| + |rs| <= MAX_INT64 && forall k :: 0 <= k < |l| ==> l[k].offset == k
    requires DistinctPayloads(l) && forall r :: r in rs ==> r in l
    ensures f + Stamped(Given(rs), |f|) <= l <==> Contiguous(rs, |f|)
  {
    var st := Stamped(Given(rs), |f|);
    if f + st <= l {
      forall k | 0 <= k < |rs| ensures rs[k].offset == |f| + k {
        assert l[|f| + k] == (f + st)[|f| + k] == Stamp(rs[k], |f| + k);
        assert rs[k] in l;
        var j :| 0 <= j < |l| && l[j] == rs[k];
        SamePayload(l, j, |f| + k);
      }
    }
    if Contiguous(rs, |f|) {
      ContiguousMatches(f, l, rs);
    }
  }

  lemma {:induction false} StoredEncodable(segs: seq<Seg>, c: Config)
    requires forall i :: 0 <= i < |segs| ==> SegOk(segs[i], c)
    ensures forall r :: r in Concat(segs) ==> Encodable(r)
    decreases |segs|
  {
    hide EntriesOf, LogSpec.Live, Size, EncodedSize;
    if segs != [] {
      assert SegOk(segs[|segs| - 1], c);
      StoredEncodable(segs[..|segs| - 1], c);
    }
  }

  lemma {:induction false} SamePayload(l: seq<Record>, i: nat, j: nat)
    requires DistinctPayloads(l) && i < |l| && j < |l| && Stamp(l[i], 0) == Stamp(l[j], 0)
    ensures i == j
  {
  }

  /** So once the leader has rotated, whether one fetch keeps the logs matched depends on whether the
      byte budget makes the leader's read jump over the end of a segment: without a jump they stay
      matched, and with one they do not unless the leader has stored the same contents twice. */
  lemma {:induction false} FetchMatchesIffNoJump(p: Pair, maxBytes: int32, nows: seq<int>, c: Configs)
    requires Matched(p, c) && c.follower.segmentBytes <= MAX_UINT32
    requires var rs := ReadLog(p.leader.segs, FetchOffset(p), maxBytes).recs;
             |nows| == |rs| && |Abs(p.local.log.segs).recs| + |rs| <= MAX_INT64
    ensures var rs := ReadLog(p.leader.segs, FetchOffset(p), maxBytes).recs;
            var after := AppendAll(p.local.log, Given(rs), nows, c.follower).st.segs;
            && after != []
            && (ReadsOn(p.leader.segs, FetchOffset(p), maxBytes) ==> Abs(after).recs <= Abs(p.leader.segs).recs)
            && (DistinctPayloads(Abs(p.leader.segs).recs) && Abs(after).recs <= Abs(p.leader.segs).recs ==>
                  ReadsOn(p.leader.segs, FetchOffset(p), maxBytes))
  {
    hide SegOk, LogSpec.Live, Concat, AppendAll, Stamped, ReadRange, ReadsOn, Contiguous, DistinctPayloads, EncodedSize;
    var segs := p.leader.segs;
    var rs := ReadLog(segs, FetchOffset(p), maxBytes).recs;
    var f, l := Abs(p.local.log.segs).recs, Abs(segs).recs;
    ReadContiguousIff(segs, FetchOffset(p), maxBytes, c.leader);
    ReadIsStored(segs, 0, FetchOffset(p), maxBytes, 0);
    StoredEncodable(segs, c.leader);
    LeaderDense(p, c);
    LeoInRange(p, c);
    AppendAllRefines(p.local.log, Given(rs), nows, c.follower);
    assert Given(rs)[..|rs|] == Given(rs);
    if DistinctPayloads(l) {
      MatchesIffContiguous(f, l, rs);
    }
    if Contiguous(rs, |f|) {
      ContiguousMatches(f, l, rs);
    }
  }
}
