/** The wire form of an assignment (internal/coordinator/assignor.go over internal/protocol/codec.go). */
module AssignmentCodec {
  import opened Bytes
  import opened Names
  import opened Assignors

  /** A decoder's outcome: a value and the unread bytes, an error, or a run-time panic (a negative
      count handed to make). */
  datatype Parse<+T> = Parsed(value: T, rest: seq<byte>) | Failed | Panics

  predicate IsInt32(x: int) { -0x8000_0000 <= x <= MAX_INT32 }

  /** What fits the wire: names up to 32767 bytes, counts and ids in int32. */
  predicate Fits(pa: PartitionAssignment) {
    |pa.topic| <= MAX_INT16 && |pa.partitions| <= MAX_INT32 && forall i :: 0 <= i < |pa.partitions| ==> IsInt32(pa.partitions[i])
  }

  predicate AllFit(pas: seq<PartitionAssignment>) {
    |pas| <= MAX_INT32 && forall i :: 0 <= i < |pas| ==> Fits(pas[i])
  }

  // ---- Encoding --------------------------------------------------------------------------------------

  function PutInts(ps: seq<int>): seq<byte>
    requires forall i :: 0 <= i < |ps| ==> IsInt32(ps[i])
  {
    if ps == [] then []
    else
      assert IsInt32(ps[|ps| - 1]);
      PutInts(ps[..|ps| - 1]) + PutI32(ps[|ps| - 1])
  }

  function PutTopic(pa: PartitionAssignment): seq<byte>
    requires Fits(pa)
  {
    PutU16(|pa.topic|) + pa.topic + PutI32(|pa.partitions|) + PutInts(pa.partitions)
  }

  function PutTopics(pas: seq<PartitionAssignment>): seq<byte>
    requires forall i :: 0 <= i < |pas| ==> Fits(pas[i])
  {
    if pas == [] then [] else PutTopics(pas[..|pas| - 1]) + PutTopic(pas[|pas| - 1])
  }

  function Encoded(pas: seq<PartitionAssignment>): (b: seq<byte>)
    requires AllFit(pas)
    ensures b != []
  {
    PutI32(|pas|) + PutTopics(pas)
  }

  /** EncodeAssignment fails exactly on names or counts that do not fit. Partition ids are int32. */
  method EncodeAssignment(pas: seq<PartitionAssignment>) returns (r: Option<seq<byte>>)
    requires forall k, i :: 0 <= k < |pas| && 0 <= i < |pas[k].partitions| ==> IsInt32(pas[k].partitions[i])
    ensures r == if AllFit(pas) then Some(Encoded(pas)) else None
  {
    hide PutI32, PutU16, PutTopic;
    if |pas| > MAX_INT32 {
      return None;
    }
    var buf := PutI32(|pas|);
    for k := 0 to |pas|
      invariant forall i :: 0 <= i < k ==> Fits(pas[i])
      invariant buf == PutI32(|pas|) + PutTopics(pas[..k])
    {
      assert pas[..k + 1][..k] == pas[..k];
      var t := EncodeTopic(pas[k]);
      if t.None? {
        assert !Fits(pas[k]);
        return None;
      }
      assert PutI32(|pas|) + (PutTopics(pas[..k]) + t.value) == buf + t.value;
      buf := buf + t.value;
    }
    assert pas[..|pas|] == pas;
    r := Some(buf);
  }

  method EncodeTopic(pa: PartitionAssignment) returns (r: Option<seq<byte>>)
    requires forall i :: 0 <= i < |pa.partitions| ==> IsInt32(pa.partitions[i])
    ensures r == if Fits(pa) then Some(PutTopic(pa)) else None
  {
    hide PutI32, PutU16;
    if |pa.topic| > MAX_INT16 {
      return None;
    }
    if |pa.partitions| > MAX_INT32 {
      return None;
    }
    var head := PutU16(|pa.topic|) + pa.topic + PutI32(|pa.partitions|);
    var buf := head;
    for i := 0 to |pa.partitions|
      invariant buf == head + PutInts(pa.partitions[..i])
    {
      assert pa.partitions[..i + 1][..i] == pa.partitions[..i];
      assert head + (PutInts(pa.partitions[..i]) + PutI32(pa.partitions[i])) == buf + PutI32(pa.partitions[i]);
      buf := buf + PutI32(pa.partitions[i]);
    }
    assert pa.partitions[..|pa.partitions|] == pa.partitions;
    r := Some(buf);
  }

  // ---- Decoding --------------------------------------------------------------------------------------

  function TakeInt32(data: seq<byte>): (r: Parse<int>)
    ensures r.Parsed? ==> IsInt32(r.value)
  {
    if |data| < 4 then Failed else Parsed(GetI32(data[..4]) as int, data[4..])
  }

  /** String: a negative length reads as the empty string. */
  function TakeString(data: seq<byte>): Parse<Name> {
    if |data| < 2 then Failed
    else
      var length := GetU16(data[..2]);
      var rest := data[2..];
      if length as int > MAX_INT16 then Parsed([], rest)
      else if |rest| < length as int then Failed
      else Parsed(rest[..length], rest[length..])
  }

  function TakeInts(data: seq<byte>, n: nat): Parse<seq<int>>
    decreases n
  {
    if n == 0 then Parsed([], data)
    else
      match TakeInt32(data)
      case Parsed(p, rest) =>
        (match TakeInts(rest, n - 1)
         case Parsed(ps, rest') => Parsed([p] + ps, rest')
         case Failed => Failed
         case Panics => Panics)
      case Failed => Failed
      case Panics => Panics
  }

  function TakeTopic(data: seq<byte>): Parse<PartitionAssignment> {
    match TakeString(data)
    case Failed => Failed
    case Panics => Panics
    case Parsed(name, rest) =>
      match TakeInt32(rest)
      case Failed => Failed
      case Panics => Panics
      case Parsed(count, rest') =>
        if count < 0 then Panics
        else
          match TakeInts(rest', count)
          case Failed => Failed
          case Panics => Panics
          case Parsed(ps, rest'') => Parsed(PartitionAssignment(name, ps), rest'')
  }

  function TakeTopics(data: seq<byte>, n: nat): Parse<seq<PartitionAssignment>>
    decreases n
  {
    if n == 0 then Parsed([], data)
    else
      match TakeTopic(data)
      case Failed => Failed
      case Panics => Panics
      case Parsed(pa, rest) =>
        match TakeTopics(rest, n - 1)
        case Failed => Failed
        case Panics => Panics
        case Parsed(pas, rest') => Parsed([pa] + pas, rest')
  }

  /** DecodeAssignment: no bytes and a null array both read as no topics. */
  function Decoded(data: seq<byte>): Parse<seq<PartitionAssignment>> {
    if data == [] then Parsed([], [])
    else
      match TakeInt32(data)
      case Failed => Failed
      case Panics => Panics
      case Parsed(count, rest) => if count < 0 then Parsed([], rest) else TakeTopics(rest, count)
  }

  method DecodeAssignment(data: seq<byte>) returns (r: Parse<seq<PartitionAssignment>>)
    ensures r == Decoded(data)
  {
    hide TakeInt32, TakeTopic;
    if |data| == 0 {
      return Parsed([], []);
    }
    var head := TakeInt32(data);
    if !head.Parsed? {
      return if head.Failed? then Failed else Panics;
    }
    if head.value < 0 {
      return Parsed([], head.rest);
    }
    var topics: seq<PartitionAssignment> := [];
    var rd := head.rest;
    PrependNothing(TakeTopics(rd, head.value));
    for i := 0 to head.value
      invariant Decoded(data) == Prepend(topics, TakeTopics(rd, head.value - i))
    {
      var t := DecodeTopic(rd);
      if !t.Parsed? {
        return if t.Failed? then Failed else Panics;
      }
      PrependStep(topics, t.value, TakeTopics(t.rest, head.value - i - 1));
      topics := topics + [t.value];
      rd := t.rest;
    }
    assert topics + [] == topics;
    r := Parsed(topics, rd);
  }

  method DecodeTopic(data: seq<byte>) returns (r: Parse<PartitionAssignment>)
    ensures r == TakeTopic(data)
  {
    hide TakeInt32, TakeString;
    var name := TakeString(data);
    if !name.Parsed? {
      return if name.Failed? then Failed else Panics;
    }
    var count := TakeInt32(name.rest);
    if !count.Parsed? {
      return if count.Failed? then Failed else Panics;
    }
    if count.value < 0 {
      return Panics;
    }
    var partitions: seq<int> := [];
    var rd := count.rest;
    PrependNothing(TakeInts(rd, count.value));
    for j := 0 to count.value
      invariant TakeInts(count.rest, count.value) == Prepend(partitions, TakeInts(rd, count.value - j))
    {
      var p := TakeInt32(rd);
      if !p.Parsed? {
        return if p.Failed? then Failed else Panics;
      }
      PrependStep(partitions, p.value, TakeInts(p.rest, count.value - j - 1));
      partitions := partitions + [p.value];
      rd := p.rest;
    }
    assert partitions + [] == partitions;
    r := Parsed(PartitionAssignment(name.value, partitions), rd);
  }

  function Prepend<T>(done: seq<T>, p: Parse<seq<T>>): Parse<seq<T>> {
    match p
    case Parsed(v, rest) => Parsed(done + v, rest)
    case Failed => Failed
    case Panics => Panics
  }

  lemma {:induction false} PrependStep<T>(done: seq<T>, x: T, p: Parse<seq<T>>)
    ensures p.Parsed? ==> Prepend(done, Parsed([x] + p.value, p.rest)) == Prepend(done + [x], p)
  {
    if p.Parsed? {
      assert done + ([x] + p.value) == (done + [x]) + p.value;
    }
  }

  lemma {:induction false} PrependNothing<T>(p: Parse<seq<T>>)
    ensures Prepend([], p) == p
  {
    if p.Parsed? {
      assert [] + p.value == p.value;
    }
  }

  // ---- Round trip ------------------------------------------------------------------------------------

  lemma {:induction false} TakePutInt32(x: int, rest: seq<byte>)
    requires IsInt32(x)
    ensures TakeInt32(PutI32(x) + rest) == Parsed(x, rest)
  {
    var data := PutI32(x) + rest;
    assert data[..4] == PutI32(x) && data[4..] == rest;
    I32RoundTrip(x);
  }

  lemma {:induction false} TakePutString(s: Name, rest: seq<byte>)
    requires |s| <= MAX_INT16
    ensures TakeString(PutU16(|s|) + s + rest) == Parsed(s, rest)
  {
    var data := PutU16(|s|) + s + rest;
    assert data[..2] == PutU16(|s|) && data[2..] == s + rest;
    assert (s + rest)[..|s|] == s && (s + rest)[|s|..] == rest;
  }

  lemma {:induction false} PutIntsBack(ps: seq<int>)
    requires ps != [] && forall i :: 0 <= i < |ps| ==> IsInt32(ps[i])
    ensures PutInts(ps) == PutInts(ps[..|ps| - 1]) + PutI32(ps[|ps| - 1])
  {
  }

  lemma {:induction false} PutIntsNone()
    ensures PutInts([]) == []
  {
  }

  lemma {:induction false} Associate(a: seq<byte>, b: seq<byte>, d: seq<byte>)
    ensures (a + b) + d == a + (b + d)
  {
  }

  lemma {:induction false} PutIntsFront(ps: seq<int>)
    requires ps != [] && forall i :: 0 <= i < |ps| ==> IsInt32(ps[i])
    ensures PutInts(ps) == PutI32(ps[0]) + PutInts(ps[1..])
    decreases |ps|
  {
    hide PutI32, PutInts;
    if |ps| == 1 {
      PutIntsBack(ps);
      PutIntsNone();
      assert ps[..0] == [] && ps[1..] == [];
    } else {
      var front, rest := ps[..|ps| - 1], ps[1..];
      PutIntsFront(front);
      assert front[1..] == rest[..|rest| - 1] && rest[|rest| - 1] == ps[|ps| - 1];
      PutIntsBack(ps);
      PutIntsBack(rest);
      Associate(PutI32(ps[0]), PutInts(front[1..]), PutI32(ps[|ps| - 1]));
    }
  }

  lemma {:induction false} TakePutInts(ps: seq<int>, rest: seq<byte>)
    requires forall i :: 0 <= i < |ps| ==> IsInt32(ps[i])
    ensures TakeInts(PutInts(ps) + rest, |ps|) == Parsed(ps, rest)
    decreases |ps|
  {
    hide PutI32, TakeInt32;
    if ps == [] {
      assert PutInts(ps) + rest == rest;
    } else {
      PutIntsFront(ps);
      assert PutI32(ps[0]) + PutInts(ps[1..]) + rest == PutI32(ps[0]) + (PutInts(ps[1..]) + rest);
      TakePutInt32(ps[0], PutInts(ps[1..]) + rest);
      TakePutInts(ps[1..], rest);
      assert [ps[0]] + ps[1..] == ps;
    }
  }

  lemma {:induction false} TakePutTopic(pa: PartitionAssignment, rest: seq<byte>)
    requires Fits(pa)
    ensures TakeTopic(PutTopic(pa) + rest) == Parsed(pa, rest)
  {
    hide PutI32, PutU16, TakeInt32, TakeString, TakeInts, PutInts;
    var tail := PutInts(pa.partitions) + rest;
    var counted := PutI32(|pa.partitions|) + tail;
    assert PutTopic(pa) + rest == PutU16(|pa.topic|) + pa.topic + counted;
    TakePutString(pa.topic, counted);
    TakePutInt32(|pa.partitions|, tail);
    TakePutInts(pa.partitions, rest);
  }

  lemma {:induction false} PutTopicsFront(pas: seq<PartitionAssignment>)
    requires pas != [] && forall i :: 0 <= i < |pas| ==> Fits(pas[i])
    ensures PutTopics(pas) == PutTopic(pas[0]) + PutTopics(pas[1..])
    decreases |pas|
  {
    hide PutTopic, Fits;
    if |pas| == 1 {
      assert pas[..0] == [] && pas[1..] == [];
    } else {
      var front := pas[..|pas| - 1];
      PutTopicsFront(front);
      assert front[1..] == pas[1..][..|pas| - 2];
    }
  }

  lemma {:induction false} TakePutTopics(pas: seq<PartitionAssignment>, rest: seq<byte>)
    requires forall i :: 0 <= i < |pas| ==> Fits(pas[i])
    ensures TakeTopics(PutTopics(pas) + rest, |pas|) == Parsed(pas, rest)
    decreases |pas|
  {
    hide PutTopic, TakeTopic, Fits;
    if pas == [] {
      assert PutTopics(pas) + rest == rest;
    } else {
      PutTopicsFront(pas);
      assert PutTopic(pas[0]) + PutTopics(pas[1..]) + rest == PutTopic(pas[0]) + (PutTopics(pas[1..]) + rest);
      TakePutTopic(pas[0], PutTopics(pas[1..]) + rest);
      TakePutTopics(pas[1..], rest);
      assert [pas[0]] + pas[1..] == pas;
    }
  }

  /** Decoding an encoded assignment gives it back. */
  lemma {:induction false} RoundTrip(pas: seq<PartitionAssignment>)
    requires AllFit(pas)
    ensures Decoded(Encoded(pas)) == Parsed(pas, [])
  {
    hide PutI32, TakeInt32, PutTopics, TakeTopics, Fits;
    TakePutInt32(|pas|, PutTopics(pas));
    TakePutTopics(pas, []);
    assert PutTopics(pas) + [] == PutTopics(pas);
  }
}
