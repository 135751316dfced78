/** The loops of the two Assign methods (internal/coordinator/assignor.go), against the hand-out
    lists of Assignors. */
module AssignorLoops {
  import opened Bytes
  import opened Names
  import opened Assignors

  /** memberAssignmentsMap. */
  type Table = map<Name, map<Name, seq<int>>>

  function Get(row: map<Name, seq<int>>, t: Name): seq<int> { if t in row then row[t] else [] }

  /** The table after the hand-outs es. */
  ghost predicate Tabulates(table: Table, es: seq<Event>, ms: seq<Name>) {
    && (forall m :: m in table <==> m in ms)
    && (forall m, t :: m in table ==> Get(table[m], t) == PartsOf(es, m, t))
  }

  function Give(table: Table, m: Name, t: Name, p: int): Table
    requires m in table
  {
    table[m := table[m][t := Get(table[m], t) + [p]]]
  }

  lemma {:induction false} GiveTabulates(table: Table, es: seq<Event>, ms: seq<Name>, m: Name, t: Name, p: int)
    requires Tabulates(table, es, ms) && m in ms
    ensures Tabulates(Give(table, m, t, p), es + [Event(m, Tp(t, p))], ms)
  {
    var e := Event(m, Tp(t, p));
    assert (es + [e])[..|es|] == es;
    forall m', t' | m' in table ensures Get(Give(table, m, t, p)[m'], t') == PartsOf(es + [e], m', t') {
      assert Get(table[m'], t') == PartsOf(es, m', t');
      assert PartsOf(es, m', t') + [] == PartsOf(es, m', t');
    }
  }

  /** Ranging over the map's keys, then sorting them. */
  method SortedTopics(counts: map<Name, int>) returns (topics: seq<Name>)
    ensures Lists(topics, counts.Keys) && forall t :: t in topics ==> t in counts
  {
    var todo: set<Name> := counts.Keys;
    var names: seq<Name> := [];
    while todo != {}
      invariant multiset(names) + multiset(todo) == multiset(counts.Keys)
      decreases |todo|
    {
      HasName(todo);
      var t :| t in todo;
      names := names + [t];
      todo := todo - {t};
    }
    topics := SortNames(names);
    ListedOnce(topics, counts.Keys);
  }

  method EmptyTable(ms: seq<Name>) returns (table: Table)
    ensures Tabulates(table, [], ms)
  {
    table := map[];
    for i := 0 to |ms|
      invariant forall m :: m in table <==> m in ms[..i]
      invariant forall m :: m in table ==> table[m] == map[]
    {
      table := table[ms[i] := map[]];
    }
    assert ms[..|ms|] == ms;
  }

  /** The last loop of both strategies: per member, the topics it has partitions of. */
  method Build(table: Table, ms: seq<Name>, topics: seq<Name>, ghost es: seq<Event>)
    returns (result: map<Name, seq<PartitionAssignment>>)
    requires Tabulates(table, es, ms)
    ensures result == Assignment(es, ms, topics)
  {
    hide TopicsOf, PartsOf;
    result := map[];
    for i := 0 to |ms|
      invariant forall m :: m in result <==> m in ms[..i]
      invariant forall m :: m in result ==> result[m] == TopicsOf(es, m, topics, |topics|)
    {
      var paList := BuildRow(table[ms[i]], topics, es, ms[i]);
      result := result[ms[i] := paList];
    }
    assert ms[..|ms|] == ms;
  }

  method BuildRow(row: map<Name, seq<int>>, topics: seq<Name>, ghost es: seq<Event>, ghost m: Name)
    returns (paList: seq<PartitionAssignment>)
    requires forall t :: Get(row, t) == PartsOf(es, m, t)
    ensures paList == TopicsOf(es, m, topics, |topics|)
  {
    hide PartsOf;
    paList := [];
    for k := 0 to |topics|
      invariant paList == TopicsOf(es, m, topics, k)
    {
      assert Get(row, topics[k]) == PartsOf(es, m, topics[k]);
      assert paList + [] == paList;
      if topics[k] in row && |row[topics[k]]| > 0 {
        paList := paList + [PartitionAssignment(topics[k], row[topics[k]])];
      }
    }
  }

  /** The assignment a strategy makes over the sorted topics of the map. */
  ghost predicate MadeBy(strategy: (seq<Name>, seq<Name>, map<Name, int>) --> map<Name, seq<PartitionAssignment>>,
                         members: seq<Name>, counts: map<Name, int>, result: map<Name, seq<PartitionAssignment>>)
  {
    exists topics: seq<Name> ::
      Lists(topics, counts.Keys) && strategy.requires(members, topics, counts) && result == strategy(members, topics, counts)
  }

  /** RangeAssignor.Assign. */
  method AssignRange(members: seq<Name>, counts: map<Name, int>) returns (result: map<Name, seq<PartitionAssignment>>)
    ensures MadeBy(RangeAssignment, members, counts, result)
    ensures members != [] ==> ExactCover(result, counts)
  {
    hide Tabulates, TopicEvents, Assignment, ExactCover;
    var topics := SortedTopics(counts);
    var ms := SortNames(members);
    if |ms| == 0 {
      SortedMembers(members);
      result := map[];
      assert result == RangeAssignment(members, topics, counts);
      return;
    }
    var table := EmptyTable(ms);
    ghost var es: seq<Event> := [];
    for k := 0 to |topics|
      invariant es == RangeEvents(ms, topics, counts, k) && Tabulates(table, es, ms)
    {
      table, es := RangeTopic(table, es, ms, topics[k], Max(counts[topics[k]], 0));
    }
    result := Build(table, ms, topics, es);
    assert result == RangeAssignment(members, topics, counts);
    RangeIsExact(members, topics, counts);
  }

  /** The inner loops for one topic; a topic without partitions is skipped. */
  method RangeTopic(before: Table, ghost es0: seq<Event>, ms: seq<Name>, topic: Name, count: nat)
    returns (table: Table, ghost es: seq<Event>)
    requires ms != [] && Tabulates(before, es0, ms)
    ensures es == es0 + TopicEvents(ms, topic, count, |ms|) && Tabulates(table, es, ms)
  {
    hide Tabulates, Start;
    table, es := before, es0;
    if count == 0 {
      NoPartitions(ms, topic, |ms|);
      assert es0 + [] == es0;
      return;
    }
    var per, extra := count / |ms|, count % |ms|;
    for i := 0 to |ms|
      invariant es == es0 + TopicEvents(ms, topic, count, i) && Tabulates(table, es, ms)
    {
      ghost var es1 := es;
      var start := per * i + Min(i, extra);
      StartIs(count, |ms|, i);
      BlockBounds(count, |ms|, i);
      Quotient(count, |ms|);
      var length := if i < extra then per + 1 else per;
      for p := start to start + length
        invariant es == es1 + Block(ms[i], topic, start, p) && Tabulates(table, es, ms)
      {
        GiveTabulates(table, es, ms, ms[i], topic, p);
        HasRow(table, es, ms, ms[i]);
        BlockSnoc(ms[i], topic, start, p);
        assert es1 + (Block(ms[i], topic, start, p) + [Event(ms[i], Tp(topic, p))]) == es + [Event(ms[i], Tp(topic, p))];
        table := Give(table, ms[i], topic, p);
        es := es + [Event(ms[i], Tp(topic, p))];
      }
      assert es0 + (TopicEvents(ms, topic, count, i) + Block(ms[i], topic, start, start + length)) == es;
    }
  }

  lemma {:induction false} StartIs(count: nat, n: nat, i: nat)
    requires n > 0
    ensures Start(count, n, i) == count / n * i + Min(i, count % n)
  {
  }

  lemma {:induction false} HasRow(table: Table, es: seq<Event>, ms: seq<Name>, m: Name)
    requires Tabulates(table, es, ms) && m in ms
    ensures m in table
  {
  }

  lemma {:induction false} BlockSnoc(m: Name, t: Name, from: int, p: int)
    requires from <= p
    ensures Block(m, t, from, p + 1) == Block(m, t, from, p) + [Event(m, Tp(t, p))]
  {
  }

  lemma {:induction false} NoPartitions(ms: seq<Name>, topic: Name, i: nat)
    requires i <= |ms| && ms != []
    ensures TopicEvents(ms, topic, 0, i) == []
  {
    TopicHandsOut(ms, topic, 0, i);
    if i > 0 {
      NoPartitions(ms, topic, i - 1);
    }
  }

  /** RoundRobinAssignor.Assign. */
  method AssignRoundRobin(members: seq<Name>, counts: map<Name, int>) returns (result: map<Name, seq<PartitionAssignment>>)
    ensures MadeBy(RoundRobinAssignment, members, counts, result)
    ensures members != [] ==> ExactCover(result, counts)
  {
    hide Tabulates, Assignment, AllTps, ExactCover;
    var topics := SortedTopics(counts);
    var ms := SortNames(members);
    if |ms| == 0 {
      SortedMembers(members);
      result := map[];
      assert result == RoundRobinAssignment(members, topics, counts);
      return;
    }
    var tps := ListTps(topics, counts);
    var table := DealOut(ms, tps);
    result := Build(table, ms, topics, RoundRobinEvents(ms, tps));
    assert result == RoundRobinAssignment(members, topics, counts);
    RoundRobinIsExact(members, topics, counts);
  }

  /** Topic-partition k goes to member k modulo the number of members. */
  method DealOut(ms: seq<Name>, tps: seq<Tp>) returns (table: Table)
    requires ms != []
    ensures Tabulates(table, RoundRobinEvents(ms, tps), ms)
  {
    hide Tabulates;
    table := EmptyTable(ms);
    ghost var es := RoundRobinEvents(ms, tps);
    for k := 0 to |tps|
      invariant Tabulates(table, es[..k], ms)
    {
      GiveTabulates(table, es[..k], ms, ms[k % |ms|], tps[k].topic, tps[k].p);
      HasRow(table, es[..k], ms, ms[k % |ms|]);
      assert es[..k + 1] == es[..k] + [Event(ms[k % |ms|], Tp(tps[k].topic, tps[k].p))];
      table := Give(table, ms[k % |ms|], tps[k].topic, tps[k].p);
    }
    assert es[..|tps|] == es;
  }

  method ListTps(topics: seq<Name>, counts: map<Name, int>) returns (tps: seq<Tp>)
    requires forall t :: t in topics ==> t in counts
    ensures tps == AllTps(topics, counts, |topics|)
  {
    tps := [];
    for k := 0 to |topics|
      invariant tps == AllTps(topics, counts, k)
    {
      ghost var before := tps;
      var p := 0;
      while p < counts[topics[k]]
        invariant 0 <= p <= Max(counts[topics[k]], 0)
        invariant tps == before + TpsOf(topics[k], counts[topics[k]])[..p]
      {
        tps := tps + [Tp(topics[k], p)];
        p := p + 1;
      }
      assert tps == before + TpsOf(topics[k], counts[topics[k]]);
    }
  }
}
