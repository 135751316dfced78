/** The partition assignors (internal/coordinator/assignor.go). Both hand out topic-partitions one
    by one; a strategy is the list of hand-outs it makes, and every property is a property of
    that list. */
module Assignors {
  import opened Bytes
  import opened Names

  datatype Tp = Tp(topic: Name, p: int)

  /** One hand-out: partition p of the topic goes to the member. */
  datatype Event = Event(member: Name, tp: Tp)

  datatype PartitionAssignment = PartitionAssignment(topic: Name, partitions: seq<int>)

  /** topics lists the keys of a map in sorted order. */
  ghost predicate Lists(topics: seq<Name>, keys: set<Name>) {
    IsSorted(topics) && multiset(topics) == multiset(keys)
  }

  lemma {:induction false} ListedOnce(topics: seq<Name>, keys: set<Name>)
    requires Lists(topics, keys)
    ensures forall t :: t in topics <==> t in keys
    ensures forall i, j :: 0 <= i < j < |topics| ==> topics[i] != topics[j]
  {
    forall t ensures t in topics <==> t in keys {
      assert t in topics <==> t in multiset(topics);
    }
    forall i, j | 0 <= i < j < |topics| ensures topics[i] != topics[j] {
      if topics[i] == topics[j] {
        CountedTwice(topics, i, j);
        assert false;
      }
    }
  }

  lemma {:induction false} CountedTwice(s: seq<Name>, i: nat, j: nat)
    requires i < j < |s| && s[i] == s[j]
    ensures multiset(s)[s[i]] >= 2
  {
    assert s == s[..i] + [s[i]] + s[i + 1..j] + [s[j]] + s[j + 1..];
  }

  // ---- All topic-partitions --------------------------------------------------------------------------

  /** The partitions of one topic, from 0 up. */
  function TpsOf(topic: Name, count: int): (tps: seq<Tp>)
    ensures |tps| == Max(count, 0) && forall p :: 0 <= p < |tps| ==> tps[p] == Tp(topic, p)
  {
    seq(Max(count, 0), p => Tp(topic, p))
  }

  /** The partitions of the first k topics. */
  function AllTps(topics: seq<Name>, counts: map<Name, int>, k: nat): seq<Tp>
    requires k <= |topics| && forall t :: t in topics ==> t in counts
  {
    if k == 0 then [] else AllTps(topics, counts, k - 1) + TpsOf(topics[k - 1], counts[topics[k - 1]])
  }

  predicate Distinct<T(==)>(s: seq<T>) {
    forall i, j :: 0 <= i < j < |s| ==> s[i] != s[j]
  }

  /** Every partition of every listed topic occurs exactly once. */
  lemma {:induction false} AllTpsExactly(topics: seq<Name>, counts: map<Name, int>, k: nat)
    requires k <= |topics| && Distinct(topics) && forall t :: t in topics ==> t in counts
    ensures Distinct(AllTps(topics, counts, k))
    ensures forall t, p :: Tp(t, p) in AllTps(topics, counts, k) <==> t in topics[..k] && 0 <= p < counts[t]
  {
    if k > 0 {
      AllTpsExactly(topics, counts, k - 1);
      var front, last := AllTps(topics, counts, k - 1), TpsOf(topics[k - 1], counts[topics[k - 1]]);
      assert topics[..k] == topics[..k - 1] + [topics[k - 1]];
      assert topics[k - 1] !in topics[..k - 1];
      forall t, p ensures Tp(t, p) in front + last <==> t in topics[..k] && 0 <= p < counts[t] {
        assert t == topics[k - 1] && 0 <= p < counts[t] ==> last[p] == Tp(t, p);
      }
      forall i, j | 0 <= i < j < |front + last| ensures (front + last)[i] != (front + last)[j] {
        if i < |front| <= j {
          assert front[i] in front;
        }
      }
    }
  }

  // ---- Range -----------------------------------------------------------------------------------------

  /** Where member i's block of a topic with `count` partitions starts. */
  function Start(count: nat, n: nat, i: nat): int
    requires n > 0
  {
    count / n * i + Min(i, count % n)
  }

  /** Partitions from..to of a topic, all to one member. */
  function Block(member: Name, topic: Name, from: int, to: int): (es: seq<Event>)
    ensures |es| == Max(to - from, 0) && forall j :: 0 <= j < |es| ==> es[j] == Event(member, Tp(topic, from + j))
  {
    seq(Max(to - from, 0), j => Event(member, Tp(topic, from + j)))
  }

  /** The blocks of the first i members. */
  function TopicEvents(ms: seq<Name>, topic: Name, count: nat, i: nat): seq<Event>
    requires i <= |ms| && ms != []
  {
    if i == 0 then []
    else TopicEvents(ms, topic, count, i - 1) + Block(ms[i - 1], topic, Start(count, |ms|, i - 1), Start(count, |ms|, i))
  }

  function RangeEvents(ms: seq<Name>, topics: seq<Name>, counts: map<Name, int>, k: nat): seq<Event>
    requires k <= |topics| && ms != [] && forall t :: t in topics ==> t in counts
  {
    if k == 0 then []
    else
      RangeEvents(ms, topics, counts, k - 1) + TopicEvents(ms, topics[k - 1], Max(counts[topics[k - 1]], 0), |ms|)
  }

  /** Blocks are count / n long, the first count % n of them one longer, and together they end at
      count. */
  lemma {:induction false} BlockBounds(count: nat, n: nat, i: nat)
    requires n > 0
    ensures Start(count, n, 0) == 0 && Start(count, n, n) == count
    ensures Start(count, n, i + 1) - Start(count, n, i) == count / n + (if i < count % n then 1 else 0)
  {
    assert count / n * (i + 1) == count / n * i + count / n;
    assert count == count / n * n + count % n;
  }

  lemma {:induction false} BlocksInOrder(count: nat, n: nat, i: nat)
    requires n > 0
    ensures Start(count, n, i) <= Start(count, n, i + 1)
  {
    BlockBounds(count, n, i);
    Quotient(count, n);
  }

  function Handed(es: seq<Event>): (tps: seq<Tp>)
    ensures |tps| == |es| && forall i :: 0 <= i < |es| ==> tps[i] == es[i].tp
  {
    seq(|es|, i requires 0 <= i < |es| => es[i].tp)
  }

  /** For one topic, the blocks hand out 0, 1, 2, ... up to where the next block would start. */
  lemma {:induction false} TopicHandsOut(ms: seq<Name>, topic: Name, count: nat, i: nat)
    requires i <= |ms| && ms != []
    ensures 0 <= Start(count, |ms|, i) && Handed(TopicEvents(ms, topic, count, i)) == TpsOf(topic, Start(count, |ms|, i))
  {
    hide Start;
    BlockBounds(count, |ms|, 0);
    if i > 0 {
      TopicHandsOut(ms, topic, count, i - 1);
      BlocksInOrder(count, |ms|, i - 1);
    }
  }

  lemma {:induction false} Quotient(a: nat, b: nat)
    requires b > 0
    ensures a / b >= 0
  {
  }

  /** Range hands out every topic-partition once, in order. */
  lemma {:induction false} RangeHandsOut(ms: seq<Name>, topics: seq<Name>, counts: map<Name, int>, k: nat)
    requires k <= |topics| && ms != [] && forall t :: t in topics ==> t in counts
    ensures Handed(RangeEvents(ms, topics, counts, k)) == AllTps(topics, counts, k)
  {
    hide TopicEvents, Start;
    if k > 0 {
      RangeHandsOut(ms, topics, counts, k - 1);
      var t := topics[k - 1];
      TopicHandsOut(ms, t, Max(counts[t], 0), |ms|);
      BlockBounds(Max(counts[t], 0), |ms|, 0);
    }
  }

  // ---- Round robin -------------------------------------------------------------------------------------

  function RoundRobinEvents(ms: seq<Name>, tps: seq<Tp>): (es: seq<Event>)
    requires ms != []
    ensures |es| == |tps| && Handed(es) == tps
    ensures forall k :: 0 <= k < |tps| ==> es[k] == Event(ms[k % |ms|], tps[k])
  {
    seq(|tps|, k requires 0 <= k < |tps| => Event(ms[k % |ms|], tps[k]))
  }

  // ---- From hand-outs to assignments -------------------------------------------------------------------

  /** A member's partitions of a topic, in the order they were handed out. */
  function PartsOf(es: seq<Event>, m: Name, t: Name): seq<int> {
    if es == [] then []
    else
      var e := es[|es| - 1];
      PartsOf(es[..|es| - 1], m, t) + (if e.member == m && e.tp.topic == t then [e.tp.p] else [])
  }

  /** A member's assignment over the first k topics: the topics it has partitions of. */
  function TopicsOf(es: seq<Event>, m: Name, topics: seq<Name>, k: nat): seq<PartitionAssignment>
    requires k <= |topics|
  {
    if k == 0 then []
    else
      var parts := PartsOf(es, m, topics[k - 1]);
      TopicsOf(es, m, topics, k - 1) + (if parts == [] then [] else [PartitionAssignment(topics[k - 1], parts)])
  }

  function Assignment(es: seq<Event>, ms: seq<Name>, topics: seq<Name>): map<Name, seq<PartitionAssignment>> {
    map m | m in ms :: TopicsOf(es, m, topics, |topics|)
  }

  /** RangeAssignor.Assign, given the sorted topics. */
  function RangeAssignment(members: seq<Name>, topics: seq<Name>, counts: map<Name, int>): map<Name, seq<PartitionAssignment>>
    requires forall t :: t in topics ==> t in counts
  {
    var ms := SortNames(members);
    if ms == [] then map[] else Assignment(RangeEvents(ms, topics, counts, |topics|), ms, topics)
  }

  /** RoundRobinAssignor.Assign, given the sorted topics. */
  function RoundRobinAssignment(members: seq<Name>, topics: seq<Name>, counts: map<Name, int>): map<Name, seq<PartitionAssignment>>
    requires forall t :: t in topics ==> t in counts
  {
    var ms := SortNames(members);
    if ms == [] then map[] else Assignment(RoundRobinEvents(ms, AllTps(topics, counts, |topics|)), ms, topics)
  }

  // ---- Exactly one owner ---------------------------------------------------------------------------------

  function Count<T(==)>(s: seq<T>, x: T): nat {
    if s == [] then 0 else Count(s[..|s| - 1], x) + (if s[|s| - 1] == x then 1 else 0)
  }

  lemma {:induction false} CountSnoc<T>(s: seq<T>, y: T, x: T)
    ensures Count(s + [y], x) == Count(s, x) + if y == x then 1 else 0
  {
    assert (s + [y])[..|s|] == s;
  }

  lemma {:induction false} CountMember<T>(s: seq<T>, x: T)
    ensures Count(s, x) > 0 <==> x in s
    decreases |s|
  {
    if s != [] {
      CountMember(s[..|s| - 1], x);
      assert s == s[..|s| - 1] + [s[|s| - 1]];
    }
  }

  lemma {:induction false} CountDistinct<T>(s: seq<T>, x: T)
    requires Distinct(s)
    ensures Count(s, x) <= 1
    decreases |s|
  {
    if s != [] {
      CountDistinct(s[..|s| - 1], x);
      CountMember(s[..|s| - 1], x);
    }
  }

  /** How often an assignment lists a topic-partition. */
  function Times(pas: seq<PartitionAssignment>, x: Tp): nat {
    if pas == [] then 0
    else
      var last := pas[|pas| - 1];
      Times(pas[..|pas| - 1], x) + (if last.topic == x.topic then Count(last.partitions, x.p) else 0)
  }

  lemma {:induction false} CountParts(es: seq<Event>, m: Name, t: Name, p: int)
    ensures Count(PartsOf(es, m, t), p) == Count(es, Event(m, Tp(t, p)))
    decreases |es|
  {
    if es != [] {
      var e := es[|es| - 1];
      CountParts(es[..|es| - 1], m, t, p);
      var front := PartsOf(es[..|es| - 1], m, t);
      CountSnoc(front, e.tp.p, p);
      assert front + [] == front;
    }
  }

  /** A member's assignment lists a topic-partition as often as it was handed to that member. */
  lemma {:induction false} CountListed(es: seq<Event>, m: Name, topics: seq<Name>, k: nat, x: Tp)
    requires k <= |topics| && Distinct(topics)
    ensures Times(TopicsOf(es, m, topics, k), x) == if x.topic in topics[..k] then Count(es, Event(m, x)) else 0
  {
    hide Count, Times, PartsOf;
    if k > 0 {
      CountListed(es, m, topics, k - 1, x);
      var t := topics[k - 1];
      var parts := PartsOf(es, m, t);
      var front := TopicsOf(es, m, topics, k - 1);
      assert topics[..k] == topics[..k - 1] + [t];
      CountParts(es, m, x.topic, x.p);
      if parts != [] {
        TimesSnoc(front, PartitionAssignment(t, parts), x);
      } else {
        CountMember(parts, x.p);
        assert front + [] == front;
      }
    } else {
      NoTimes(x);
    }
  }

  lemma {:induction false} TimesSnoc(pas: seq<PartitionAssignment>, pa: PartitionAssignment, x: Tp)
    ensures Times(pas + [pa], x) == Times(pas, x) + if pa.topic == x.topic then Count(pa.partitions, x.p) else 0
  {
    hide Count;
    assert (pas + [pa])[..|pas|] == pas;
  }

  lemma {:induction false} NoTimes(x: Tp)
    ensures Times([], x) == 0
  {
  }

  /** x is in exactly one member's assignment, once. */
  ghost predicate OwnedOnce(a: map<Name, seq<PartitionAssignment>>, x: Tp) {
    exists m :: m in a && Times(a[m], x) == 1 && forall m' :: m' in a && m' != m ==> Times(a[m'], x) == 0
  }

  ghost predicate NotOwned(a: map<Name, seq<PartitionAssignment>>, x: Tp) {
    forall m :: m in a ==> Times(a[m], x) == 0
  }

  /** Every topic-partition that exists has exactly one owner, and nothing else is assigned. */
  ghost predicate ExactCover(a: map<Name, seq<PartitionAssignment>>, counts: map<Name, int>) {
    forall t, p :: if t in counts && 0 <= p < counts[t] then OwnedOnce(a, Tp(t, p)) else NotOwned(a, Tp(t, p))
  }

  /** Handing out every topic-partition once makes an exact cover. */
  lemma {:induction false} HandOutCovers(es: seq<Event>, ms: seq<Name>, topics: seq<Name>, counts: map<Name, int>)
    requires Lists(topics, counts.Keys) && (forall t :: t in topics ==> t in counts)
    requires Handed(es) == AllTps(topics, counts, |topics|)
    requires forall i :: 0 <= i < |es| ==> es[i].member in ms
    ensures ExactCover(Assignment(es, ms, topics), counts)
  {
    hide Times, TopicsOf, Count;
    ListedOnce(topics, counts.Keys);
    AllTpsExactly(topics, counts, |topics|);
    assert topics[..|topics|] == topics;
    var a := Assignment(es, ms, topics);
    forall t, p
      ensures if t in counts && 0 <= p < counts[t] then OwnedOnce(a, Tp(t, p)) else NotOwned(a, Tp(t, p))
    {
      forall m ensures m in a ==> Times(a[m], Tp(t, p)) == if t in topics then Count(es, Event(m, Tp(t, p))) else 0 {
        CountListed(es, m, topics, |topics|, Tp(t, p));
      }
      if t in counts && 0 <= p < counts[t] {
        var i := OneHandOut(es, Tp(t, p));
        assert es[i].member in a;
      } else if t in counts {
        forall m ensures Count(es, Event(m, Tp(t, p))) == 0 {
          NoHandOut(es, m, Tp(t, p));
        }
      }
    }
  }

  lemma {:induction false} OneHandOut(es: seq<Event>, x: Tp) returns (i: nat)
    requires Distinct(Handed(es)) && x in Handed(es)
    ensures i < |es| && es[i].tp == x && Count(es, Event(es[i].member, x)) == 1
    ensures forall m :: m != es[i].member ==> Count(es, Event(m, x)) == 0
  {
    hide Count;
    i :| 0 <= i < |es| && Handed(es)[i] == x;
    assert es[i] == Event(es[i].member, x);
    CountMember(es, es[i]);
    forall j, k | 0 <= j < k < |es| ensures es[j] != es[k] {
      assert Handed(es)[j] != Handed(es)[k];
    }
    CountDistinct(es, es[i]);
    forall m | m != es[i].member ensures Count(es, Event(m, x)) == 0 {
      CountMember(es, Event(m, x));
      OnlyOne(es, i, m, x);
    }
  }

  lemma {:induction false} OnlyOne(es: seq<Event>, i: nat, m: Name, x: Tp)
    requires Distinct(Handed(es)) && i < |es| && es[i].tp == x && m != es[i].member
    ensures Event(m, x) !in es
  {
    forall j | 0 <= j < |es| ensures es[j] != Event(m, x) {
      assert j != i ==> Handed(es)[j] != Handed(es)[i];
    }
  }

  lemma {:induction false} NoHandOut(es: seq<Event>, m: Name, x: Tp)
    requires x !in Handed(es)
    ensures Count(es, Event(m, x)) == 0
  {
    hide Count;
    CountMember(es, Event(m, x));
    forall j | 0 <= j < |es| ensures es[j] != Event(m, x) {
      assert Handed(es)[j] != x;
    }
  }

  lemma {:induction false} RangeMembers(ms: seq<Name>, topics: seq<Name>, counts: map<Name, int>, k: nat)
    requires k <= |topics| && ms != [] && forall t :: t in topics ==> t in counts
    ensures forall e :: e in RangeEvents(ms, topics, counts, k) ==> e.member in ms
  {
    hide TopicEvents, Start;
    if k > 0 {
      RangeMembers(ms, topics, counts, k - 1);
      TopicMembers(ms, topics[k - 1], Max(counts[topics[k - 1]], 0), |ms|);
    }
  }

  lemma {:induction false} TopicMembers(ms: seq<Name>, topic: Name, count: nat, i: nat)
    requires i <= |ms| && ms != []
    ensures forall e :: e in TopicEvents(ms, topic, count, i) ==> e.member in ms
  {
    hide Start;
    if i > 0 {
      TopicMembers(ms, topic, count, i - 1);
    }
  }

  /** Range gives every partition to exactly one member. */
  lemma {:induction false} RangeIsExact(members: seq<Name>, topics: seq<Name>, counts: map<Name, int>)
    requires members != [] && Lists(topics, counts.Keys) && (forall t :: t in topics ==> t in counts)
    ensures ExactCover(RangeAssignment(members, topics, counts), counts)
    ensures forall m :: m in RangeAssignment(members, topics, counts) <==> m in members
  {
    hide RangeEvents, Assignment, AllTps, ExactCover;
    var ms := SortNames(members);
    SortedMembers(members);
    var es := RangeEvents(ms, topics, counts, |topics|);
    RangeHandsOut(ms, topics, counts, |topics|);
    RangeMembers(ms, topics, counts, |topics|);
    HandOutCovers(es, ms, topics, counts);
    AssignmentKeys(es, ms, topics);
  }

  /** So does round robin. */
  lemma {:induction false} RoundRobinIsExact(members: seq<Name>, topics: seq<Name>, counts: map<Name, int>)
    requires members != [] && Lists(topics, counts.Keys) && (forall t :: t in topics ==> t in counts)
    ensures ExactCover(RoundRobinAssignment(members, topics, counts), counts)
    ensures forall m :: m in RoundRobinAssignment(members, topics, counts) <==> m in members
  {
    hide Assignment, AllTps, ExactCover;
    var ms := SortNames(members);
    SortedMembers(members);
    var es := RoundRobinEvents(ms, AllTps(topics, counts, |topics|));
    HandOutCovers(es, ms, topics, counts);
    AssignmentKeys(es, ms, topics);
  }

  lemma {:induction false} SortedMembers(members: seq<Name>)
    ensures |SortNames(members)| == |members|
    ensures forall m :: m in SortNames(members) <==> m in members
  {
    var ms := SortNames(members);
    assert |multiset(ms)| == |multiset(members)|;
    forall m ensures m in ms <==> m in members {
      assert m in ms <==> m in multiset(ms);
    }
  }

  lemma {:induction false} AssignmentKeys(es: seq<Event>, ms: seq<Name>, topics: seq<Name>)
    ensures forall m :: m in Assignment(es, ms, topics) <==> m in ms
  {
  }

  /** Neither depends on the order the members, or the map's topics, come in. */
  lemma {:induction false} OrderIndependent(xs: seq<Name>, ys: seq<Name>, ts: seq<Name>, us: seq<Name>, counts: map<Name, int>)
    requires multiset(xs) == multiset(ys) && Lists(ts, counts.Keys) && Lists(us, counts.Keys)
    requires (forall t :: t in ts ==> t in counts) && (forall t :: t in us ==> t in counts)
    ensures RangeAssignment(xs, ts, counts) == RangeAssignment(ys, us, counts)
    ensures RoundRobinAssignment(xs, ts, counts) == RoundRobinAssignment(ys, us, counts)
  {
    hide Assignment, RangeEvents, RoundRobinEvents, AllTps;
    SortedUnique(SortNames(xs), SortNames(ys));
    SortedUnique(ts, us);
  }

  // ---- Balance -------------------------------------------------------------------------------------------

  lemma {:induction false} PartsConcat(a: seq<Event>, b: seq<Event>, m: Name, t: Name)
    ensures PartsOf(a + b, m, t) == PartsOf(a, m, t) + PartsOf(b, m, t)
    decreases |b|
  {
    if b == [] {
      assert a + b == a;
    } else {
      var front := b[..|b| - 1];
      PartsConcat(a, front, m, t);
      assert (a + b)[..|a + b| - 1] == a + front;
    }
  }

  /** Events of other members, or of other topics, contribute nothing. */
  lemma {:induction false} PartsOfNone(es: seq<Event>, m: Name, t: Name)
    requires forall i :: 0 <= i < |es| ==> es[i].member != m || es[i].tp.topic != t
    ensures PartsOf(es, m, t) == []
    decreases |es|
  {
    if es != [] {
      PartsOfNone(es[..|es| - 1], m, t);
    }
  }

  function Between(from: int, to: int): (ps: seq<int>)
    ensures |ps| == Max(to - from, 0) && forall j :: 0 <= j < |ps| ==> ps[j] == from + j
  {
    seq(Max(to - from, 0), j => from + j)
  }

  lemma {:induction false} PartsOfBlock(m: Name, t: Name, from: int, n: nat)
    ensures PartsOf(Block(m, t, from, from + n), m, t) == Between(from, from + n)
  {
    if n == 0 {
      PartsOfNone(Block(m, t, from, from + n), m, t);
    } else {
      var last := from + n - 1;
      PartsOfBlock(m, t, from, n - 1);
      PartsConcat(Block(m, t, from, last), [Event(m, Tp(t, last))], m, t);
      PartsOfOne(Event(m, Tp(t, last)));
      assert Block(m, t, from, from + n) == Block(m, t, from, last) + [Event(m, Tp(t, last))];
      assert Between(from, from + n) == Between(from, last) + [last];
    }
  }

  lemma {:induction false} PartsOfOne(e: Event)
    ensures PartsOf([e], e.member, e.tp.topic) == [e.tp.p]
  {
    assert [e][..0] == [];
  }

  /** Within one topic, the member at place i has exactly its block. */
  lemma {:induction false} PartsOfTopic(ms: seq<Name>, topic: Name, count: nat, k: nat, i: nat)
    requires k <= |ms| && ms != [] && i < |ms| && Distinct(ms)
    ensures PartsOf(TopicEvents(ms, topic, count, k), ms[i], topic)
            == if i < k then Between(Start(count, |ms|, i), Start(count, |ms|, i + 1)) else []
  {
    hide Start, PartsOf;
    if k == 0 {
      PartsOfNone([], ms[i], topic);
    } else {
      PartsOfTopic(ms, topic, count, k - 1, i);
      var block := Block(ms[k - 1], topic, Start(count, |ms|, k - 1), Start(count, |ms|, k));
      PartsConcat(TopicEvents(ms, topic, count, k - 1), block, ms[i], topic);
      if i == k - 1 {
        BlocksInOrder(count, |ms|, i);
        PartsOfBlock(ms[i], topic, Start(count, |ms|, i), Start(count, |ms|, k) - Start(count, |ms|, i));
      } else {
        PartsOfNone(block, ms[i], topic);
      }
    }
  }

  lemma {:induction false} TopicOnly(ms: seq<Name>, topic: Name, count: nat, i: nat)
    requires i <= |ms| && ms != []
    ensures forall e :: e in TopicEvents(ms, topic, count, i) ==> e.tp.topic == topic
  {
    hide Start;
    if i > 0 {
      TopicOnly(ms, topic, count, i - 1);
    }
  }

  /** Range gives the member at place i of the sorted list its block of each topic, and no more. */
  lemma {:induction false} RangeParts(ms: seq<Name>, topics: seq<Name>, counts: map<Name, int>, k: nat, i: nat, j: nat)
    requires k <= |topics| && ms != [] && Distinct(ms) && Distinct(topics) && (forall t :: t in topics ==> t in counts)
    requires i < |ms| && j < |topics|
    ensures var count := Max(counts[topics[j]], 0);
            PartsOf(RangeEvents(ms, topics, counts, k), ms[i], topics[j])
            == if j < k then Between(Start(count, |ms|, i), Start(count, |ms|, i + 1)) else []
  {
    hide Start, PartsOf, TopicEvents;
    if k == 0 {
      PartsOfNone([], ms[i], topics[j]);
    } else {
      RangeParts(ms, topics, counts, k - 1, i, j);
      var t := topics[k - 1];
      var count := Max(counts[t], 0);
      PartsConcat(RangeEvents(ms, topics, counts, k - 1), TopicEvents(ms, t, count, |ms|), ms[i], topics[j]);
      if j == k - 1 {
        PartsOfTopic(ms, t, count, |ms|, i);
      } else {
        TopicOnly(ms, t, count, |ms|);
        PartsOfNone(TopicEvents(ms, t, count, |ms|), ms[i], topics[j]);
      }
    }
  }

  /** The partitions of a topic that an assignment lists. */
  function Listed(pas: seq<PartitionAssignment>, t: Name): seq<int> {
    if pas == [] then []
    else
      var last := pas[|pas| - 1];
      Listed(pas[..|pas| - 1], t) + if last.topic == t then last.partitions else []
  }

  lemma {:induction false} ListedIsHanded(es: seq<Event>, m: Name, topics: seq<Name>, k: nat, t: Name)
    requires k <= |topics| && Distinct(topics)
    ensures Listed(TopicsOf(es, m, topics, k), t) == if t in topics[..k] then PartsOf(es, m, t) else []
  {
    hide PartsOf;
    if k > 0 {
      ListedIsHanded(es, m, topics, k - 1, t);
      var parts := PartsOf(es, m, topics[k - 1]);
      var front := TopicsOf(es, m, topics, k - 1);
      assert topics[..k] == topics[..k - 1] + [topics[k - 1]];
      assert topics[k - 1] !in topics[..k - 1];
      if parts != [] {
        assert (front + [PartitionAssignment(topics[k - 1], parts)])[..|front|] == front;
      } else {
        assert front + [] == front;
      }
    }
  }

  /** So in the assignment Range returns, the i-th member by name has one contiguous block of each
      topic, the blocks come in the members' order, and their lengths differ by at most one. */
  lemma {:induction false} RangeBlocks(members: seq<Name>, topics: seq<Name>, counts: map<Name, int>, i: nat, t: Name)
    requires Distinct(members) && Lists(topics, counts.Keys) && (forall t :: t in topics ==> t in counts)
    requires i < |members| && t in counts
    ensures var a := RangeAssignment(members, topics, counts);
            var m := SortNames(members)[i];
            var count, n := Max(counts[t], 0), |members|;
            && m in a && |Listed(a[m], t)| == Share(count, n, i)
            && forall k :: 0 <= k < |Listed(a[m], t)| ==> Listed(a[m], t)[k] == Start(count, n, i) + k
  {
    hide Start, PartsOf, RangeEvents, Listed, TopicsOf, SortNames, Lists;
    var ms := SortNames(members);
    SortedMembers(members);
    SortedDistinct(members);
    ListedOnce(topics, counts.Keys);
    assert t in topics && topics[..|topics|] == topics;
    ListedIsHanded(RangeEvents(ms, topics, counts, |topics|), ms[i], topics, |topics|, t);
    var j := PlaceOf(topics, t);
    RangeParts(ms, topics, counts, |topics|, i, j);
    BlockBounds(Max(counts[t], 0), |ms|, i);
    Quotient(Max(counts[t], 0), |ms|);
  }

  lemma {:induction false} PlaceOf(names: seq<Name>, x: Name) returns (i: nat)
    requires x in names
    ensures i < |names| && names[i] == x
  {
    i :| 0 <= i < |names| && names[i] == x;
  }

  /** How many hand-outs a member gets. */
  function Total(es: seq<Event>, m: Name): nat {
    if es == [] then 0 else Total(es[..|es| - 1], m) + (if es[|es| - 1].member == m then 1 else 0)
  }

  /** The i-th of n equal shares of N things, the first N % n shares one larger. */
  function Share(N: nat, n: nat, i: nat): nat
    requires n > 0
  {
    Quotient(N, n);
    N / n + if i < N % n then 1 else 0
  }

  lemma {:induction false} ShareStep(k: nat, n: nat, i: nat)
    requires i < n
    ensures Share(k + 1, n, i) == Share(k, n, i) + if k % n == i then 1 else 0
  {
    NextTurn(k, n);
  }

  lemma {:induction false} ShareNothing(n: nat, i: nat)
    requires i < n
    ensures Share(0, n, i) == 0
  {
    DivideUnique(0, n, 0, 0);
  }

  /** In round robin the member at place i gets its share of all the topic-partitions. */
  lemma {:induction false} RoundRobinTotals(ms: seq<Name>, tps: seq<Tp>, i: nat)
    requires ms != [] && Distinct(ms) && i < |ms|
    ensures Total(RoundRobinEvents(ms, tps), ms[i]) == Share(|tps|, |ms|, i)
    decreases |tps|
  {
    hide Share;
    if tps == [] {
      ShareNothing(|ms|, i);
    } else {
      var k := |tps| - 1;
      RoundRobinTotals(ms, tps[..k], i);
      assert RoundRobinEvents(ms, tps)[..k] == RoundRobinEvents(ms, tps[..k]);
      assert ms[k % |ms|] == ms[i] <==> k % |ms| == i;
      ShareStep(k, |ms|, i);
    }
  }

  lemma {:induction false} NextTurn(k: nat, n: nat)
    requires n > 0
    ensures k % n == n - 1 ==> (k + 1) / n == k / n + 1 && (k + 1) % n == 0
    ensures k % n < n - 1 ==> (k + 1) / n == k / n && (k + 1) % n == k % n + 1
  {
    var q, r := k / n, k % n;
    assert k == q * n + r;
    if r == n - 1 {
      DivideUnique(k + 1, n, q + 1, 0);
    } else {
      DivideUnique(k + 1, n, q, r + 1);
    }
  }

  lemma {:induction false} Scaled(x: int, y: int, n: int)
    requires x <= y && n >= 0
    ensures x * n <= y * n
  {
  }

  lemma {:induction false} DivideUnique(a: int, n: nat, q: int, r: nat)
    requires n > 0 && a == q * n + r && r < n
    ensures a / n == q && a % n == r
  {
    var d := a / n - q;
    assert d * n == r - a % n;
    if d >= 1 {
      Scaled(1, d, n);
      assert false;
    } else if d <= -1 {
      Scaled(d, -1, n);
      assert false;
    }
  }

  /** How many partitions an assignment lists. */
  function Load(pas: seq<PartitionAssignment>): nat {
    if pas == [] then 0 else Load(pas[..|pas| - 1]) + |pas[|pas| - 1].partitions|
  }

  /** How many hand-outs of the first k topics a member gets. */
  function TotalOf(es: seq<Event>, m: Name, topics: seq<Name>, k: nat): nat
    requires k <= |topics|
  {
    if k == 0 then 0 else TotalOf(es, m, topics, k - 1) + |PartsOf(es, m, topics[k - 1])|
  }

  /** A member's assignment lists as many partitions as it was handed. */
  lemma {:induction false} LoadIsTotal(es: seq<Event>, m: Name, topics: seq<Name>)
    requires Distinct(topics) && forall i :: 0 <= i < |es| ==> es[i].tp.topic in topics
    ensures Load(TopicsOf(es, m, topics, |topics|)) == Total(es, m)
  {
    LoadByTopic(es, m, topics, |topics|);
    TotalByTopic(es, m, topics);
  }

  lemma {:induction false} LoadByTopic(es: seq<Event>, m: Name, topics: seq<Name>, k: nat)
    requires k <= |topics|
    ensures Load(TopicsOf(es, m, topics, k)) == TotalOf(es, m, topics, k)
  {
    hide PartsOf;
    if k > 0 {
      LoadByTopic(es, m, topics, k - 1);
      var parts := PartsOf(es, m, topics[k - 1]);
      var front := TopicsOf(es, m, topics, k - 1);
      if parts != [] {
        assert (front + [PartitionAssignment(topics[k - 1], parts)])[..|front|] == front;
      } else {
        assert front + [] == front;
      }
    }
  }

  lemma {:induction false} TotalByTopic(es: seq<Event>, m: Name, topics: seq<Name>)
    requires Distinct(topics) && forall i :: 0 <= i < |es| ==> es[i].tp.topic in topics
    ensures TotalOf(es, m, topics, |topics|) == Total(es, m)
    decreases |es|
  {
    if es == [] {
      NothingTotal(m, topics, |topics|);
    } else {
      var e := es[|es| - 1];
      TotalByTopic(es[..|es| - 1], m, topics);
      OneMore(es, m, topics, |topics|);
      assert topics[..|topics|] == topics;
    }
  }

  lemma {:induction false} NothingTotal(m: Name, topics: seq<Name>, k: nat)
    requires k <= |topics|
    ensures TotalOf([], m, topics, k) == 0
  {
    if k > 0 {
      NothingTotal(m, topics, k - 1);
    }
  }

  lemma {:induction false} OneMore(es: seq<Event>, m: Name, topics: seq<Name>, k: nat)
    requires es != [] && Distinct(topics) && k <= |topics|
    ensures var e := es[|es| - 1];
            TotalOf(es, m, topics, k)
            == TotalOf(es[..|es| - 1], m, topics, k) + if e.member == m && e.tp.topic in topics[..k] then 1 else 0
  {
    if k > 0 {
      OneMore(es, m, topics, k - 1);
      assert topics[..k] == topics[..k - 1] + [topics[k - 1]];
      assert topics[k - 1] !in topics[..k - 1];
    }
  }

  /** In the assignment round robin returns, the i-th member by name has its share of all the
      topic-partitions. */
  lemma {:induction false} RoundRobinBalanced(members: seq<Name>, topics: seq<Name>, counts: map<Name, int>, i: nat)
    requires Distinct(members) && Lists(topics, counts.Keys) && (forall t :: t in topics ==> t in counts) && i < |members|
    ensures var a := RoundRobinAssignment(members, topics, counts);
            var m := SortNames(members)[i];
            m in a && Load(a[m]) == Share(|AllTps(topics, counts, |topics|)|, |members|, i)
  {
    hide TopicsOf, Load, Total, AllTps, Share, SortNames, Lists, RoundRobinEvents;
    var ms := SortNames(members);
    SortedMembers(members);
    SortedDistinct(members);
    var tps := AllTps(topics, counts, |topics|);
    ListedOnce(topics, counts.Keys);
    OfTheTopics(ms, topics, counts, tps);
    LoadIsTotal(RoundRobinEvents(ms, tps), ms[i], topics);
    RoundRobinTotals(ms, tps, i);
  }

  lemma {:induction false} OfTheTopics(ms: seq<Name>, topics: seq<Name>, counts: map<Name, int>, tps: seq<Tp>)
    requires ms != [] && Distinct(topics) && (forall t :: t in topics ==> t in counts) && tps == AllTps(topics, counts, |topics|)
    ensures var es := RoundRobinEvents(ms, tps);
            forall k :: 0 <= k < |es| ==> es[k].tp.topic in topics
  {
    hide AllTps;
    var es := RoundRobinEvents(ms, tps);
    AllTpsExactly(topics, counts, |topics|);
    assert topics[..|topics|] == topics;
    forall k | 0 <= k < |es| ensures es[k].tp.topic in topics {
      assert Handed(es)[k] == Tp(es[k].tp.topic, es[k].tp.p);
    }
  }

  /** So no two members' round-robin loads differ by more than one. */
  lemma {:induction false} RoundRobinLoads(members: seq<Name>, topics: seq<Name>, counts: map<Name, int>, x: Name, y: Name)
    requires Distinct(members) && Lists(topics, counts.Keys) && (forall t :: t in topics ==> t in counts)
    requires x in members && y in members
    ensures var a := RoundRobinAssignment(members, topics, counts);
            x in a && y in a && Load(a[x]) <= Load(a[y]) + 1
  {
    hide TopicsOf, Load, Total, AllTps, RoundRobinAssignment, SortNames, Lists;
    SortedMembers(members);
    var i := PlaceOf(SortNames(members), x);
    var j := PlaceOf(SortNames(members), y);
    RoundRobinBalanced(members, topics, counts, i);
    RoundRobinBalanced(members, topics, counts, j);
  }

  lemma {:induction false} SortedDistinct(members: seq<Name>)
    requires Distinct(members)
    ensures Distinct(SortNames(members))
  {
    var ms := SortNames(members);
    forall i, j | 0 <= i < j < |ms| ensures ms[i] != ms[j] {
      if ms[i] == ms[j] {
        CountedTwice(ms, i, j);
        CountedOnce(members, ms[i]);
        assert false;
      }
    }
  }

  lemma {:induction false} CountedOnce(s: seq<Name>, x: Name)
    requires Distinct(s)
    ensures multiset(s)[x] <= 1
    decreases |s|
  {
    if s != [] {
      var front := s[..|s| - 1];
      CountedOnce(front, x);
      assert s == front + [s[|s| - 1]];
      assert s[|s| - 1] !in front;
    }
  }
}
