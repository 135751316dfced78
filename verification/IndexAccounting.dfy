/** How a segment's write path keeps its sparse index: which records get an entry, and what
    that promises a reader. The same bookkeeping is done record by record when appending
    (internal/storage/segment.go) and when rebuilding (internal/storage/log.go). */
module IndexAccounting {
  import opened Bytes
  import opened Records
  import opened OffsetIndex

  /** Records of one segment carry consecutive offsets from its base. */
  predicate Dense(recs: seq<Record>, base: int) {
    forall i :: 0 <= i < |recs| ==> recs[i].offset == base + i
  }

  /** Every record starts at a position the index can store. */
  predicate Addressable(recs: seq<Record>) {
    recs != [] ==> Size(recs[..|recs| - 1]) <= MAX_UINT32
  }

  /** What a segment knows about its own log file: bytes, bytes since the last index entry, the
      index entries, and the next offset. */
  datatype Account = Account(bytes: nat, since: nat, entries: seq<Entry>, next: int)

  /** Account for one more frame. The indexed record's own bytes do not count towards the
      next interval. */
  function Step(a: Account, f: Frame, base: int, interval: int): Account {
    var since := a.since + f.n;
    if a.entries == [] || since >= interval then
      Account(a.bytes + f.n, 0, a.entries + [Entry(ToUint32(f.rec.offset - base), ToUint32(a.bytes))], f.rec.offset + 1)
    else
      Account(a.bytes + f.n, since, a.entries, f.rec.offset + 1)
  }

  /** The account after a list of frames, starting from an empty segment. */
  function Fold(fs: seq<Frame>, base: int, interval: int): Account {
    if fs == [] then Account(0, 0, [], base)
    else Step(Fold(fs[..|fs| - 1], base, interval), fs[|fs| - 1], base, interval)
  }

  function Book(recs: seq<Record>, base: int, interval: int): Account {
    Fold(FramesOf(recs), base, interval)
  }

  lemma {:induction false} BookStep(recs: seq<Record>, r: Record, base: int, interval: int)
    ensures Book(recs + [r], base, interval) == Step(Book(recs, base, interval), FrameOf(r), base, interval)
  {
    hide Step, EncodedSize;
    assert FramesOf(recs + [r])[..|recs|] == FramesOf(recs);
  }

  lemma {:induction false} DropLast(recs: seq<Record>)
    requires recs != []
    ensures recs[..|recs| - 1] + [recs[|recs| - 1]] == recs
  {
  }

  // ---- What the entries point at -------------------------------------------------------------

  /** Entry e marks the start of record number e.rel. */
  predicate Marks(e: Entry, recs: seq<Record>) {
    e.rel < |recs| && e.pos == Size(recs[..e.rel])
  }

  ghost predicate Faithful(es: seq<Entry>, recs: seq<Record>) {
    && Sorted(es)
    && (forall j :: 0 <= j < |es| ==> Marks(es[j], recs))
    && (recs != [] ==> es != [] && es[0].rel == 0)
  }

  /** The account of dense, addressable records: the totals are right, every entry marks the
      start of its record, and fewer than `interval` bytes follow the last indexed record. */
  ghost predicate Sound(a: Account, recs: seq<Record>, base: int, interval: int) {
    && a.bytes == Size(recs)
    && a.next == base + |recs|
    && Faithful(a.entries, recs)
    && (recs == [] ==> a.entries == [] && a.since == 0)
    && (recs != [] ==>
          var last := a.entries[|a.entries| - 1];
          && a.since < interval
          && a.since + EncodedSize(recs[last.rel]) + last.pos == Size(recs))
    && (a.entries != [] ==> (|a.entries| - 1) * interval + a.since <= a.bytes)
  }

  lemma {:induction false} MarksExtend(es: seq<Entry>, recs: seq<Record>, r: Record)
    requires forall j :: 0 <= j < |es| ==> Marks(es[j], recs)
    ensures forall j :: 0 <= j < |es| ==> Marks(es[j], recs + [r])
  {
    hide Size;
    forall j | 0 <= j < |es| ensures Marks(es[j], recs + [r]) {
      assert Marks(es[j], recs);
      assert (recs + [r])[..es[j].rel] == recs[..es[j].rel];
    }
  }

  lemma {:induction false} StepSound(a: Account, recs: seq<Record>, r: Record, base: int, interval: int)
    requires Sound(a, recs, base, interval) && r.offset == base + |recs|
    requires interval > 0 && Size(recs) <= MAX_UINT32
    ensures Sound(Step(a, FrameOf(r), base, interval), recs + [r], base, interval)
  {
    hide Size, EncodedSize;
    var grown := recs + [r];
    var a' := Step(a, FrameOf(r), base, interval);
    SizeSnoc(recs, r);
    SizeBound(recs);
    MarksExtend(a.entries, recs, r);
    assert grown[..|recs|] == recs;
    if a'.entries != a.entries {
      var e := a'.entries[|a.entries|];
      assert Marks(e, grown);
      EntryCount(a, interval);
    }
  }

  lemma {:induction false} EntryCount(a: Account, interval: int)
    ensures (|a.entries| - 1) * interval + interval == |a.entries| * interval
  {
  }

  lemma {:induction false} SizeSnoc(recs: seq<Record>, r: Record)
    ensures Size(recs + [r]) == Size(recs) + EncodedSize(r)
  {
    assert (recs + [r])[..|recs|] == recs;
  }

  /** A record takes at least 33 bytes, so relative offsets fit wherever positions do. */
  lemma {:induction false} SizeBound(recs: seq<Record>)
    ensures 33 * |recs| <= Size(recs)
  {
    SizeMonotone(recs, 0, |recs|);
    assert recs[..0] == [] && recs[..|recs|] == recs;
  }

  lemma {:induction false} BookSound(recs: seq<Record>, base: int, interval: int)
    requires Dense(recs, base) && Addressable(recs) && interval > 0
    ensures Sound(Book(recs, base, interval), recs, base, interval)
  {
    hide Step, EncodedSize;
    if recs == [] {
      assert FramesOf(recs) == [];
    } else {
      var front := recs[..|recs| - 1];
      SizeFrontAddressable(recs);
      BookSound(front, base, interval);
      DropLast(recs);
      BookStep(front, recs[|recs| - 1], base, interval);
      StepSound(Book(front, base, interval), front, recs[|recs| - 1], base, interval);
    }
  }

  lemma {:induction false} SizeFrontAddressable(recs: seq<Record>)
    requires recs != [] && Addressable(recs)
    ensures Addressable(recs[..|recs| - 1])
  {
    var front := recs[..|recs| - 1];
    if front != [] {
      SizeMonotone(recs, |front| - 1, |front|);
      assert front[..|front| - 1] == recs[..|front| - 1];
    }
  }

  // ---- What that promises a reader ------------------------------------------------------------

  /** Adding records after i does not move the entry a lookup of i lands on. */
  lemma {:induction false} NearestStable(es: seq<Entry>, e: Entry, i: uint32)
    requires Sorted(es + [e]) && i < e.rel
    ensures Nearest(es + [e], i) == Nearest(es, i)
  {
    assert (es + [e])[..|es|] == es;
    assert Below(es + [e], i) == Below(es, i);
  }

  /** The scan-distance bound: from where the index sends a reader to the start of the record it
      wants there are fewer bytes than the interval plus one record, the one indexed. */
  ghost predicate ScanShort(es: seq<Entry>, recs: seq<Record>, i: nat, interval: int)
    requires i < |recs| && i <= MAX_UINT32
  {
    var f := Nearest(es, i);
    f.position == Size(recs[..i])
    || exists k :: 0 <= k < i && f.position == Size(recs[..k])
                   && Size(recs[..i]) - f.position < interval + EncodedSize(recs[k])
  }

  /** Records already there keep their short scans when one more record arrives. */
  lemma {:induction false} ScanShortKept(es: seq<Entry>, es': seq<Entry>, recs: seq<Record>, r: Record, i: nat, interval: int)
    requires i < |recs| <= MAX_UINT32 && Sorted(es')
    requires es' == es || exists e: Entry :: e.rel == |recs| && es' == es + [e]
    requires ScanShort(es, recs, i, interval)
    ensures ScanShort(es', recs + [r], i, interval)
  {
    hide Size, EncodedSize, Nearest;
    var grown := recs + [r];
    if es' != es {
      var e: Entry :| e.rel == |recs| && es' == es + [e];
      NearestStable(es, e, i);
    }
    var f := Nearest(es', i);
    assert grown[..i] == recs[..i];
    if f.position != Size(recs[..i]) {
      var k :| 0 <= k < i && f.position == Size(recs[..k])
               && Size(recs[..i]) - f.position < interval + EncodedSize(recs[k]);
      assert grown[..k] == recs[..k] && grown[k] == recs[k];
    }
  }

  /** The newest record's scan: exact when it was indexed, else from the last entry. */
  lemma {:induction false} ScanShortNewest(a: Account, recs: seq<Record>, r: Record, base: int, interval: int)
    requires interval > 0 && Size(recs) <= MAX_UINT32 && |recs| <= MAX_UINT32 && r.offset == base + |recs|
    requires Sound(a, recs, base, interval)
    requires Sound(Step(a, FrameOf(r), base, interval), recs + [r], base, interval)
    ensures ScanShort(Step(a, FrameOf(r), base, interval).entries, recs + [r], |recs|, interval)
  {
    hide Size, EncodedSize, Nearest, Below;
    var grown := recs + [r];
    var es' := Step(a, FrameOf(r), base, interval).entries;
    assert grown[..|recs|] == recs;
    var last := es'[|es'| - 1];
    assert Marks(last, grown);
    NearestLast(es', |recs|);
    if es' == a.entries {
      var k := last.rel;
      assert Marks(last, recs);
      assert grown[..k] == recs[..k] && grown[k] == recs[k];
    }
  }

  /** A target at or past the last entry's finds that entry. */
  lemma {:induction false} NearestLast(es: seq<Entry>, target: uint32)
    requires Sorted(es) && es != [] && es[|es| - 1].rel <= target
    ensures Nearest(es, target).position == es[|es| - 1].pos
  {
    var n := |es|;
    BelowUnique(es, target, if es[n - 1].rel == target then n - 1 else n);
  }

  lemma {:induction false} ScanDistanceStep(a: Account, recs: seq<Record>, r: Record, base: int, interval: int, i: nat)
    requires interval > 0 && Size(recs) <= MAX_UINT32 && r.offset == base + |recs|
    requires Sound(a, recs, base, interval)
    requires i <= |recs| <= MAX_UINT32
    requires i < |recs| ==> ScanShort(a.entries, recs, i, interval)
    ensures ScanShort(Step(a, FrameOf(r), base, interval).entries, recs + [r], i, interval)
  {
    StepSound(a, recs, r, base, interval);
    if i < |recs| {
      hide Size, EncodedSize, ScanShort;
      var es' := Step(a, FrameOf(r), base, interval).entries;
      if es' != a.entries {
        var e := es'[|a.entries|];
        assert e.rel == |recs| && es' == a.entries + [e];
      }
      ScanShortKept(a.entries, es', recs, r, i, interval);
    } else {
      hide Size, EncodedSize, ScanShort, Step;
      ScanShortNewest(a, recs, r, base, interval);
    }
  }

  lemma {:induction false} ScanDistance(recs: seq<Record>, base: int, interval: int, i: nat)
    requires Dense(recs, base) && Addressable(recs) && interval > 0
    requires i < |recs|
    ensures i <= MAX_UINT32
    ensures ScanShort(Book(recs, base, interval).entries, recs, i, interval)
  {
    hide Step, EncodedSize, Size, ScanShort;
    var front := recs[..|recs| - 1];
    var r := recs[|recs| - 1];
    SizeFrontAddressable(recs);
    SizeBound(front);
    if i < |front| {
      ScanDistance(front, base, interval, i);
    }
    BookSound(front, base, interval);
    DropLast(recs);
    BookStep(front, r, base, interval);
    ScanDistanceStep(Book(front, base, interval), front, r, base, interval, i);
  }

  // ---- Prefixes --------------------------------------------------------------------------------

  /** A shorter log never needs more index entries: rebuilding a prefix fits wherever the whole
      did. */
  lemma {:induction false} EntriesOfPrefix(recs: seq<Record>, k: nat, base: int, interval: int)
    requires k <= |recs|
    ensures Book(recs[..k], base, interval).entries <= Book(recs, base, interval).entries
    decreases |recs|
  {
    hide EncodedSize;
    if k == |recs| {
      assert recs[..k] == recs;
    } else {
      var front := recs[..|recs| - 1];
      EntriesOfPrefix(front, k, base, interval);
      assert front[..k] == recs[..k];
      DropLast(recs);
      BookStep(front, recs[|recs| - 1], base, interval);
    }
  }
}
