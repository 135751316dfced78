/** Log.ReadFrom (internal/storage/log.go): range reads across segments, what they return, and
    exactly when the result is contiguous. */
module LogRangeReads {
  import opened Bytes
  import opened Records
  import opened IndexAccounting
  import opened SegmentReads
  import opened Segments
  import opened LogSpec

  /** A segment's records from an offset on. */
  function From(s: Seg, offset: int): seq<Record> {
    if s.base <= offset < End(s) then s.recs[offset - s.base..] else []
  }

  /** The running byte count over a list of records, in int32. */
  function Accumulate(recs: seq<Record>, acc: int32): int32 {
    if recs == [] then acc else Accumulate(recs[1..], Wrap32(acc + Wrap32(EncodedSize(recs[0]))))
  }

  /** What one segment contributes under the remaining budget. */
  function Taken(s: Seg, offset: int, remaining: int32): seq<Record> {
    if remaining <= 0 then [] else TakeRun(From(s, offset), remaining)
  }

  /** The loop is past this segment, on it, or at the end. */
  predicate Skips(segs: seq<Seg>, i: nat, offset: int) {
    i + 1 < |segs| && segs[i + 1].base >= 0 && offset >= segs[i + 1].base
  }

  /** The loop of Log.ReadFrom from segment i on. */
  function ReadRange(segs: seq<Seg>, i: nat, offset: int, maxBytes: int32, acc: int32): seq<Record>
    decreases |segs| - i
  {
    if i >= |segs| then []
    else if Skips(segs, i, offset) then ReadRange(segs, i + 1, offset, maxBytes, acc)
    else if offset < segs[i].base then []
    else
      var taken := Taken(segs[i], offset, Wrap32(maxBytes - acc));
      var total := Accumulate(taken, acc);
      if total >= maxBytes || segs[i].next <= offset then taken
      else taken + ReadRange(segs, i + 1, segs[i].next, maxBytes, total)
  }

  /** Log.ReadFrom on an open log. */
  function ReadLog(segs: seq<Seg>, offset: int, maxBytes: int32): RangeResult
    requires segs != []
  {
    if maxBytes <= 0 then Range([], None)
    else if offset < segs[0].base then Range([], Some(OutOfRange))
    else Range(ReadRange(segs, 0, offset, maxBytes, 0), None)
  }

  /** Consecutive offsets from `offset` on. */
  predicate Contiguous(recs: seq<Record>, offset: int) {
    Dense(recs, offset)
  }

  // ---- Reaching the covering segment -----------------------------------------------------------------

  lemma {:induction false} SkipToCovering(segs: seq<Seg>, j: nat, i: nat, offset: int, maxBytes: int32, acc: int32, c: Config)
    requires WellFormed(segs, c) && segs[0].base >= 0 && Covers(segs, i, offset) && j <= i
    ensures ReadRange(segs, j, offset, maxBytes, acc) == ReadRange(segs, i, offset, maxBytes, acc)
    decreases i - j
  {
    hide SegOk, Taken, Accumulate;
    if j < i {
      BasesIncrease(segs, 0, j + 1, c);
      if j + 1 < i {
        BasesIncrease(segs, j + 1, i, c);
      }
      SkipToCovering(segs, j + 1, i, offset, maxBytes, acc, c);
    }
  }

  // ---- A log that was just recovered -------------------------------------------------------------------

  /** All sealed segments came back from disk; only the active one has live counters. */
  ghost predicate JustRecovered(segs: seq<Seg>) {
    forall i :: 0 <= i < |segs| - 1 ==> Stale(segs[i])
  }

  /** On a just-recovered log a range read is the budgeted run of one segment: always contiguous
      from the offset, and never empty below the end offset. */
  lemma {:induction false} RecoveredReadIsOneRun(segs: seq<Seg>, i: nat, offset: int, maxBytes: int32, c: Config)
    requires WellFormed(segs, c) && segs[0].base >= 0 && JustRecovered(segs) && maxBytes > 0
    requires Covers(segs, i, offset)
    ensures ReadLog(segs, offset, maxBytes) == Range(TakeRun(From(segs[i], offset), maxBytes), None)
    ensures Contiguous(ReadLog(segs, offset, maxBytes).recs, offset)
    ensures offset < Abs(segs).Leo() ==> ReadLog(segs, offset, maxBytes).recs != []
  {
    hide SegOk, ReadRange, TakeRun, Concat, LogSpec.Live, Contiguous;
    if i > 0 {
      BasesIncrease(segs, 0, i, c);
    }
    SkipToCovering(segs, 0, i, offset, maxBytes, 0, c);
    LastTurn(segs, i, offset, maxBytes);
    assert SegOk(segs[i], c);
    TakenContiguous(segs[i], offset, maxBytes, c);
    LeoIsActiveNext(segs, c);
  }

  /** A turn that nothing follows. */
  lemma {:induction false} LastTurn(segs: seq<Seg>, i: nat, offset: int, maxBytes: int32)
    requires Covers(segs, i, offset) && (segs[i].next <= offset || i == |segs| - 1)
    ensures ReadRange(segs, i, offset, maxBytes, 0) == Taken(segs[i], offset, maxBytes)
  {
    hide Taken, Accumulate;
    assert Wrap32(maxBytes - 0) == maxBytes;
    var taken := Taken(segs[i], offset, maxBytes);
    if i == |segs| - 1 {
      assert ReadRange(segs, i + 1, segs[i].next, maxBytes, Accumulate(taken, 0)) == [];
      assert taken + [] == taken;
    }
  }

  lemma {:induction false} TakenContiguous(s: Seg, offset: int, remaining: int32, c: Config)
    requires SegOk(s, c) && s.base <= offset
    ensures Taken(s, offset, remaining) <= From(s, offset)
    ensures Contiguous(Taken(s, offset, remaining), offset)
    ensures AllEncodable(From(s, offset))
    ensures remaining > 0 && offset < End(s) ==> Taken(s, offset, remaining) != []
  {
    hide RunLength;
  }

  // ---- Budgets that stay inside int32 --------------------------------------------------------------------

  lemma {:induction false} AccumulateSmall(recs: seq<Record>, acc: int32)
    requires AllEncodable(recs) && 0 <= acc && acc + Size(recs) <= MAX_INT32
    ensures Accumulate(recs, acc) == acc + Size(recs)
    decreases |recs|
  {
    hide Size, EncodedSize, Wrap32;
    if recs == [] {
      SizeEmpty();
    } else {
      SizeFront(recs);
      SumSmall(recs, 0);
      WrapKeeps(EncodedSize(recs[0]));
      WrapKeeps(acc + EncodedSize(recs[0]));
      AccumulateSmall(recs[1..], acc + EncodedSize(recs[0]));
    }
  }

  /** A budget a megabyte below the int32 maximum: totals never leave int32. */
  predicate Safe(maxBytes: int32) { 0 < maxBytes <= MAX_INT32 - MAX_RECORD_SIZE }

  lemma {:induction false} TakenFits(s: Seg, offset: int, maxBytes: int32, acc: int32, c: Config)
    requires SegOk(s, c) && s.base <= offset && Safe(maxBytes) && 0 <= acc < maxBytes
    ensures var taken := Taken(s, offset, Wrap32(maxBytes - acc));
            && taken == From(s, offset)[..LongestRun(From(s, offset), maxBytes - acc)]
            && acc + Size(taken) <= MAX_INT32
            && Accumulate(taken, acc) == acc + Size(taken)
  {
    hide SegOk, Size, EncodedSize, LongestRun, RunLength, Wrap32, Accumulate;
    WrapKeeps(maxBytes - acc);
    TakenContiguous(s, offset, maxBytes - acc, c);
    var avail := From(s, offset);
    SafeBudget(avail, maxBytes - acc);
    var r := LongestRun(avail, maxBytes - acc);
    if r == 0 {
      SizeEmpty();
    } else if r == 1 {
      SumSmall(avail, 0);
      assert avail[..0] == [];
      SizeEmpty();
    }
    AccumulateSmall(avail[..r], acc);
  }

  // ---- When is a cross-segment read contiguous? ------------------------------------------------------------

  /** What is left of the budget is not positive, so no segment will contribute anything. A total
      that wrapped to a large negative number has this effect. */
  predicate Spent(maxBytes: int32, acc: int32) { Wrap32(maxBytes - acc) <= 0 }

  /** How many of the records in front of it a turn takes. */
  function TurnLength(avail: seq<Record>, maxBytes: int32, acc: int32): (r: nat)
    ensures r <= |avail|
  {
    if Spent(maxBytes, acc) then 0 else RunLength(avail, Wrap32(maxBytes - acc), 0)
  }

  /** No turn of the loop leaves records of a segment behind and then moves on, with budget left, to a
      segment that has some: the budget test inside a segment does not stop the loop outside it. */
  predicate NoJump(segs: seq<Seg>, i: nat, offset: int, maxBytes: int32, acc: int32)
    requires i < |segs|
    decreases |segs| - i
  {
    var avail := From(segs[i], offset);
    var r := TurnLength(avail, maxBytes, acc);
    var total := Accumulate(avail[..r], acc);
    || total >= maxBytes
    || segs[i].next <= offset
    || i + 1 == |segs|
    || ((r == |avail| || segs[i + 1].recs == [] || Spent(maxBytes, total)) && NoJump(segs, i + 1, segs[i].next, maxBytes, total))
  }

  /** Once the budget is spent nothing more is read. */
  lemma {:induction false} SpentReadsNothing(segs: seq<Seg>, i: nat, offset: int, maxBytes: int32, acc: int32)
    requires i <= |segs| && Spent(maxBytes, acc)
    ensures ReadRange(segs, i, offset, maxBytes, acc) == []
    ensures i < |segs| ==> NoJump(segs, i, offset, maxBytes, acc)
    decreases |segs| - i
  {
    hide RunLength, From, Wrap32;
    if i < |segs| {
      SpentReadsNothing(segs, i + 1, offset, maxBytes, acc);
      SpentReadsNothing(segs, i + 1, segs[i].next, maxBytes, acc);
      assert From(segs[i], offset)[..0] == [];
    }
  }

  lemma {:induction false} EmptyLastReadsNothing(segs: seq<Seg>, offset: int, maxBytes: int32, acc: int32, c: Config)
    requires WellFormed(segs, c)
    requires segs[|segs| - 1].recs == []
    ensures ReadRange(segs, |segs| - 1, offset, maxBytes, acc) == []
  {
    hide SegOk, Accumulate;
    var n := |segs| - 1;
    if segs[n].base <= offset {
      assert From(segs[n], offset) == [];
      assert TakeRun([], Wrap32(maxBytes - acc)) == [];
    }
  }

  /** The first record a turn at segment i returns is the one at the offset, if there is any. */
  lemma {:induction false} TurnStartsAt(segs: seq<Seg>, i: nat, offset: int, maxBytes: int32, acc: int32, c: Config)
    requires WellFormed(segs, c) && i < |segs| && !Spent(maxBytes, acc)
    requires segs[i].base == offset && segs[i].recs != []
    requires !Skips(segs, i, offset)
    ensures ReadRange(segs, i, offset, maxBytes, acc) != []
    ensures ReadRange(segs, i, offset, maxBytes, acc)[0].offset == offset
  {
    hide SegOk, Accumulate, RunLength, Wrap32;
    assert SegOk(segs[i], c);
    TakenContiguous(segs[i], offset, Wrap32(maxBytes - acc), c);
    ReadRangeStartsWithTaken(segs, i, offset, maxBytes, acc);
  }

  lemma {:induction false} ReadRangeStartsWithTaken(segs: seq<Seg>, i: nat, offset: int, maxBytes: int32, acc: int32)
    requires i < |segs| && !Skips(segs, i, offset) && segs[i].base <= offset
    ensures Taken(segs[i], offset, Wrap32(maxBytes - acc)) <= ReadRange(segs, i, offset, maxBytes, acc)
  {
    hide Taken, Accumulate;
  }

  lemma {:induction false} JoinContiguous(a: seq<Record>, b: seq<Record>, offset: int)
    requires Contiguous(a, offset)
    ensures Contiguous(a + b, offset) <==> Contiguous(b, offset + |a|)
  {
    if Contiguous(a + b, offset) {
      forall k | 0 <= k < |b| ensures b[k].offset == offset + |a| + k {
        assert (a + b)[|a| + k] == b[k];
      }
    }
  }

  /** A range read is contiguous exactly when no turn jumps, whichever segments are live or stale and
      whatever the budget. */
  lemma {:induction false} ContiguousIff(segs: seq<Seg>, i: nat, offset: int, maxBytes: int32, acc: int32, c: Config)
    requires WellFormed(segs, c) && segs[0].base >= 0 && Covers(segs, i, offset)
    ensures Contiguous(ReadRange(segs, i, offset, maxBytes, acc), offset) <==> NoJump(segs, i, offset, maxBytes, acc)
    decreases |segs| - i
  {
    hide SegOk, Accumulate, RunLength, Wrap32, Contiguous, ReadRange;
    var s := segs[i];
    assert SegOk(s, c);
    TakenContiguous(s, offset, Wrap32(maxBytes - acc), c);
    var taken := Taken(s, offset, Wrap32(maxBytes - acc));
    TurnTakes(s, offset, maxBytes, acc);
    var total := Accumulate(taken, acc);
    ReadTurn(segs, i, offset, maxBytes, acc);
    if total < maxBytes && s.next > offset && i + 1 < |segs| {
      NextLive(segs, i, offset, c);
      NextCovers(segs, i, c);
      RestDecides(segs, i, offset, taken, maxBytes, total, c);
      if segs[i + 1].recs == [] {
        LastNoJump(segs, i + 1, s.next, maxBytes, total);
      } else if Spent(maxBytes, total) {
        SpentReadsNothing(segs, i + 1, s.next, maxBytes, total);
      } else {
        ContiguousIff(segs, i + 1, s.next, maxBytes, total, c);
      }
    }
  }

  lemma {:induction false} TurnTakes(s: Seg, offset: int, maxBytes: int32, acc: int32)
    ensures Taken(s, offset, Wrap32(maxBytes - acc)) == From(s, offset)[..TurnLength(From(s, offset), maxBytes, acc)]
  {
    hide RunLength, From, Wrap32;
  }

  /** After a turn that goes on, the whole is contiguous exactly when the rest is, unless the turn left
      records behind: then exactly when the rest is empty. */
  lemma {:induction false} RestDecides(segs: seq<Seg>, i: nat, offset: int, taken: seq<Record>, maxBytes: int32, total: int32, c: Config)
    requires WellFormed(segs, c) && i + 1 < |segs| && segs[i].base <= offset < segs[i].next
    requires taken <= From(segs[i], offset) && Contiguous(taken, offset)
    ensures var next := segs[i].next;
            var rest := ReadRange(segs, i + 1, next, maxBytes, total);
            var whole := Contiguous(taken + rest, offset);
            if segs[i + 1].recs == [] || Spent(maxBytes, total) then whole
            else if |taken| == |From(segs[i], offset)| then whole <==> Contiguous(rest, next)
            else !whole
  {
    hide SegOk, Contiguous, ReadRange, LogSpec.Live, Wrap32;
    var next := segs[i].next;
    var rest := ReadRange(segs, i + 1, next, maxBytes, total);
    NextLive(segs, i, offset, c);
    NextCovers(segs, i, c);
    JoinContiguous(taken, rest, offset);
    ContiguousNothing(offset + |taken|);
    if segs[i + 1].recs == [] {
      EmptyLastReadsNothing(segs, next, maxBytes, total, c);
    } else if Spent(maxBytes, total) {
      SpentReadsNothing(segs, i + 1, next, maxBytes, total);
    } else {
      TurnStartsAt(segs, i + 1, next, maxBytes, total, c);
      StartDecides(rest, next, offset + |taken|);
    }
  }

  /** The read from an offset on makes no jump. */
  ghost predicate ReadsOn(segs: seq<Seg>, offset: int, maxBytes: int32) {
    maxBytes <= 0 || (exists i :: Covers(segs, i, offset) && NoJump(segs, i, offset, maxBytes, 0))
  }

  /** Log.ReadFrom, from any stored offset and with any budget, is contiguous exactly when it makes no jump. */
  lemma {:induction false} ReadContiguousIff(segs: seq<Seg>, offset: int, maxBytes: int32, c: Config)
    requires WellFormed(segs, c) && 0 <= segs[0].base <= offset
    ensures Contiguous(ReadLog(segs, offset, maxBytes).recs, offset) <==> ReadsOn(segs, offset, maxBytes)
  {
    hide SegOk, LogSpec.Live, Contiguous, ReadRange, NoJump;
    ContiguousNothing(offset);
    if maxBytes > 0 {
      var i := FindCovering(segs, offset, |segs| - 1, c);
      SkipToCovering(segs, 0, i, offset, maxBytes, 0, c);
      ContiguousIff(segs, i, offset, maxBytes, 0, c);
      forall j | Covers(segs, j, offset) ensures j == i {
        OneCovers(segs, i, j, offset, c);
      }
    }
  }

  lemma {:induction false} OneCovers(segs: seq<Seg>, i: nat, j: nat, offset: int, c: Config)
    requires WellFormed(segs, c) && Covers(segs, i, offset) && Covers(segs, j, offset)
    ensures i == j
  {
    hide SegOk, LogSpec.Live;
    if i + 1 < j { BasesIncrease(segs, i + 1, j, c); }
    if j + 1 < i { BasesIncrease(segs, j + 1, i, c); }
  }

  /** A read below the end returns something, and first the record asked for. */
  lemma {:induction false} ReadsSomething(segs: seq<Seg>, offset: int, maxBytes: int32, c: Config)
    requires WellFormed(segs, c) && 0 <= segs[0].base <= offset < Abs(segs).Leo() && maxBytes > 0
    ensures ReadLog(segs, offset, maxBytes).recs != [] && ReadLog(segs, offset, maxBytes).recs[0].offset == offset
  {
    hide SegOk, LogSpec.Live, ReadRange, Concat, RunLength, Accumulate;
    var i := FindCovering(segs, offset, |segs| - 1, c);
    SkipToCovering(segs, 0, i, offset, maxBytes, 0, c);
    LeoIsActiveNext(segs, c);
    assert SegOk(segs[i], c);
    assert Wrap32(maxBytes - 0) == maxBytes;
    TakenContiguous(segs[i], offset, maxBytes, c);
    ReadRangeStartsWithTaken(segs, i, offset, maxBytes, 0);
  }

  /** Logs of one segment, and logs just recovered, are read without a jump whatever the budget. */
  lemma {:induction false} NothingToJump(segs: seq<Seg>, offset: int, maxBytes: int32, c: Config)
    requires WellFormed(segs, c) && segs[0].base <= offset && JustRecovered(segs)
    ensures ReadsOn(segs, offset, maxBytes)
  {
    hide SegOk, LogSpec.Live;
    var i := FindCovering(segs, offset, |segs| - 1, c);
    assert NoJump(segs, i, offset, maxBytes, 0);
  }

  lemma {:induction false} ContiguousNothing(offset: int)
    ensures Contiguous([], offset)
  {
  }

  lemma {:induction false} LastNoJump(segs: seq<Seg>, i: nat, offset: int, maxBytes: int32, acc: int32)
    requires i + 1 == |segs|
    ensures NoJump(segs, i, offset, maxBytes, acc)
  {
  }

  /** A non-empty run that starts at one offset is not contiguous from another. */
  lemma {:induction false} StartDecides(recs: seq<Record>, start: int, offset: int)
    requires recs != [] && recs[0].offset == start
    ensures start != offset ==> !Contiguous(recs, offset)
  {
  }

  lemma {:induction false} NextLive(segs: seq<Seg>, i: nat, offset: int, c: Config)
    requires WellFormed(segs, c) && i < |segs| && segs[i].base <= offset < segs[i].next
    ensures segs[i].next == End(segs[i]) && |From(segs[i], offset)| == End(segs[i]) - offset
    ensures i + 1 < |segs| ==> segs[i + 1].base == segs[i].next
  {
    assert SegOk(segs[i], c);
  }

  lemma {:induction false} NextCovers(segs: seq<Seg>, i: nat, c: Config)
    requires WellFormed(segs, c) && i + 1 < |segs| && segs[i].next == End(segs[i])
    ensures Covers(segs, i + 1, segs[i].next)
    ensures !Skips(segs, i + 1, segs[i].next)
  {
    hide SegOk;
    if i + 2 < |segs| {
      BasesIncrease(segs, i + 1, i + 2, c);
    }
  }

  /** Two records in a live sealed segment and a budget one byte over the first: the read skips the
      second record and returns one from the next segment. */
  lemma {:induction false} BudgetJump(a: Seg, b: Seg, maxBytes: int32, c: Config)
    requires WellFormed([a, b], c) && Live(a, c) && a.base >= 0 && |a.recs| == 2 && b.recs != []
    requires maxBytes == EncodedSize(a.recs[0]) + 1
    ensures !Contiguous(ReadLog([a, b], a.base, maxBytes).recs, a.base)
  {
    hide SegOk, Contiguous, ReadRange, EntriesOf, NoJump, Concat, LogSpec.Live;
    var segs := [a, b];
    assert SegOk(a, c);
    assert Covers(segs, 0, a.base) by { BasesIncrease(segs, 0, 1, c); }
    BudgetIsSafe(a, c);
    JumpsOver(a, b, maxBytes, c);
    ContiguousIff(segs, 0, a.base, maxBytes, 0, c);
  }

  lemma {:induction false} BudgetIsSafe(a: Seg, c: Config)
    requires SegOk(a, c) && a.recs != []
    ensures 0 < EncodedSize(a.recs[0]) && EncodedSize(a.recs[0]) + 1 <= MAX_INT32 - MAX_RECORD_SIZE
  {
    hide EntriesOf, Size, LogSpec.Live;
    SumSmall(a.recs, 0);
  }

  lemma {:induction false} JumpsOver(a: Seg, b: Seg, maxBytes: int32, c: Config)
    requires SegOk(a, c) && LogSpec.Live(a, c) && |a.recs| == 2 && b.recs != []
    requires Safe(maxBytes) && maxBytes == EncodedSize(a.recs[0]) + 1
    ensures !NoJump([a, b], 0, a.base, maxBytes, 0)
  {
    hide EntriesOf, EncodedSize, LongestRun, NoJump, Size, AllEncodable, Dense, Addressable;
    var recs := a.recs;
    assert From(a, a.base) == recs;
    TwoSizes(recs);
    OneRun(recs, maxBytes);
    JumpTurn(a, b, maxBytes, c);
  }

  lemma {:induction false} TwoSizes(recs: seq<Record>)
    requires AllEncodable(recs) && |recs| == 2
    ensures 0 < Size(recs[..1]) == EncodedSize(recs[0]) && Size(recs[..2]) > EncodedSize(recs[0]) + 1
  {
    hide EncodedSize, Size;
    SumSmall(recs, 0);
    SumSmall(recs, 1);
    SizeEmpty();
    assert recs[..0] == [];
    EncodedSizePositive(recs[1]);
  }

  lemma {:induction false} OneRun(recs: seq<Record>, maxBytes: int32)
    requires |recs| == 2 && Size(recs[..2]) > maxBytes
    ensures LongestRun(recs, maxBytes) == 1
  {
    hide LongestRun, Size;
  }

  lemma {:induction false} JumpTurn(a: Seg, b: Seg, maxBytes: int32, c: Config)
    requires SegOk(a, c) && Safe(maxBytes)
    requires From(a, a.base) == a.recs && |a.recs| == 2 && LongestRun(a.recs, maxBytes) == 1
    requires 0 < Size(a.recs[..1]) < maxBytes && a.next > a.base && b.recs != []
    ensures !NoJump([a, b], 0, a.base, maxBytes, 0)
  {
    hide LongestRun, Size, From, SegOk, RunLength, Accumulate, Wrap32, Taken;
    TakenFits(a, a.base, maxBytes, 0, c);
    TurnTakes(a, a.base, maxBytes, 0);
    var total := Size(a.recs[..1]);
    WrapKeeps(maxBytes - total);
    assert !Spent(maxBytes, total);
  }

  // ---- How much a read returns ---------------------------------------------------------------------------

  /** At most the budget, or no more than the budget before its last record. */
  ghost predicate WithinBudget(recs: seq<Record>, maxBytes: int) {
    Size(recs) <= maxBytes || (recs != [] && Size(recs[..|recs| - 1]) < maxBytes)
  }

  lemma {:induction false} BudgetJoins(taken: seq<Record>, rest: seq<Record>, maxBytes: int)
    requires Size(taken) < maxBytes && WithinBudget(rest, maxBytes - Size(taken))
    ensures WithinBudget(taken + rest, maxBytes)
  {
    hide Size;
    SizeConcat(taken, rest);
    if rest != [] {
      assert (taken + rest)[..|taken + rest| - 1] == taken + rest[..|rest| - 1];
      SizeConcat(taken, rest[..|rest| - 1]);
    }
  }

  lemma {:induction false} TurnWithinBudget(avail: seq<Record>, maxBytes: int)
    requires maxBytes > 0
    ensures WithinBudget(avail[..LongestRun(avail, maxBytes)], maxBytes)
  {
    hide LongestRun, Size;
    var r := LongestRun(avail, maxBytes);
    SizeEmpty();
    if r == 1 {
      assert avail[..1][..0] == [];
    }
  }

  lemma {:induction false} RangeWithinBudget(segs: seq<Seg>, i: nat, offset: int, maxBytes: int32, acc: int32, c: Config)
    requires WellFormed(segs, c) && i <= |segs| && Safe(maxBytes) && 0 <= acc < maxBytes
    ensures WithinBudget(ReadRange(segs, i, offset, maxBytes, acc), maxBytes - acc)
    decreases |segs| - i
  {
    hide SegOk, LogSpec.Live, Size, Accumulate, Taken, LongestRun, Wrap32, WithinBudget, From;
    NothingWithin(maxBytes - acc);
    if i < |segs| {
      if Skips(segs, i, offset) {
        RangeWithinBudget(segs, i + 1, offset, maxBytes, acc, c);
      } else if segs[i].base <= offset {
        assert SegOk(segs[i], c);
        TakenFits(segs[i], offset, maxBytes, acc, c);
        TurnWithinBudget(From(segs[i], offset), maxBytes - acc);
        var taken := Taken(segs[i], offset, Wrap32(maxBytes - acc));
        var total := acc + Size(taken);
        if total < maxBytes && segs[i].next > offset {
          RangeWithinBudget(segs, i + 1, segs[i].next, maxBytes, total, c);
          BudgetJoins(taken, ReadRange(segs, i + 1, segs[i].next, maxBytes, total), maxBytes - acc);
        }
      }
    }
  }

  lemma {:induction false} NothingWithin(maxBytes: int)
    requires maxBytes > 0
    ensures WithinBudget([], maxBytes)
  {
  }

  /** A range read across any number of segments returns at most its budget, or one record more than was
      below it. */
  lemma {:induction false} ReadWithinBudget(segs: seq<Seg>, offset: int, maxBytes: int32, c: Config)
    requires WellFormed(segs, c) && Safe(maxBytes)
    ensures WithinBudget(ReadLog(segs, offset, maxBytes).recs, maxBytes)
  {
    hide SegOk, LogSpec.Live, ReadRange, WithinBudget;
    NothingWithin(maxBytes);
    RangeWithinBudget(segs, 0, offset, maxBytes, 0, c);
  }

  // ---- A budget that covers everything -----------------------------------------------------------------------

  ghost predicate AllLive(segs: seq<Seg>, c: Config) {
    forall i :: 0 <= i < |segs| ==> Live(segs[i], c)
  }

  /** The records from an offset in segment i to the end of the log. */
  function SuffixFrom(segs: seq<Seg>, i: nat, offset: int): seq<Record>
    requires i < |segs|
  {
    From(segs[i], offset) + Concat(segs[i + 1..])
  }

  lemma {:induction false} SuffixUnfold(segs: seq<Seg>, i: nat, offset: int)
    requires i + 1 < |segs| && segs[i + 1].base == segs[i].next
    ensures SuffixFrom(segs, i, offset) == From(segs[i], offset) + SuffixFrom(segs, i + 1, segs[i].next)
  {
    var next := segs[i + 1];
    assert segs[i + 1..] == [next] + segs[i + 2..];
    ConcatSplit([next], segs[i + 2..]);
    ConcatOne(next);
    assert From(next, segs[i].next) == next.recs;
  }

  lemma {:induction false} WholeSegmentFits(avail: seq<Record>, maxBytes: int32, acc: int32)
    requires AllEncodable(avail) && 0 <= acc < maxBytes && acc + Size(avail) <= maxBytes
    ensures TakeRun(avail, maxBytes - acc) == avail
    ensures Accumulate(avail, acc) == acc + Size(avail)
  {
    hide Size, RunLength, LongestRun, Accumulate;
    SafeBudget(avail, maxBytes - acc);
    var r := LongestRun(avail, maxBytes - acc);
    if r < |avail| {
      SizeMonotone(avail, r + 1, |avail|);
    }
    assert avail[..|avail|] == avail;
    AccumulateSmall(avail, acc);
  }

  /** One turn at a live segment whose remaining records fit. */
  lemma {:induction false} FittingTurn(segs: seq<Seg>, i: nat, offset: int, maxBytes: int32, acc: int32, c: Config)
    requires WellFormed(segs, c) && segs[0].base >= 0 && Covers(segs, i, offset) && Live(segs[i], c)
    requires 0 <= acc < maxBytes && acc + Size(From(segs[i], offset)) <= maxBytes
    ensures var avail := From(segs[i], offset);
            var total := acc + Size(avail);
            ReadRange(segs, i, offset, maxBytes, acc) ==
            if total >= maxBytes || i + 1 == |segs| || segs[i].next <= offset then avail
            else avail + ReadRange(segs, i + 1, segs[i].next, maxBytes, total)
  {
    hide SegOk, Size, RunLength, Accumulate, Wrap32, Concat, TakeRun, Live, ReadRange, From;
    var avail := From(segs[i], offset);
    assert SegOk(segs[i], c);
    TakenContiguous(segs[i], offset, maxBytes - acc, c);
    WrapKeeps(maxBytes - acc);
    WholeSegmentFits(avail, maxBytes, acc);
    ReadTurn(segs, i, offset, maxBytes, acc);
  }

  /** One turn of the loop on the segment it settles on. */
  lemma {:induction false} ReadTurn(segs: seq<Seg>, i: nat, offset: int, maxBytes: int32, acc: int32)
    requires i < |segs| && !Skips(segs, i, offset) && segs[i].base <= offset
    ensures var taken := Taken(segs[i], offset, Wrap32(maxBytes - acc));
            var total := Accumulate(taken, acc);
            ReadRange(segs, i, offset, maxBytes, acc) ==
            if total >= maxBytes || i + 1 == |segs| || segs[i].next <= offset then taken
            else taken + ReadRange(segs, i + 1, segs[i].next, maxBytes, total)
  {
    hide Taken, Accumulate, Wrap32;
    var taken := Taken(segs[i], offset, Wrap32(maxBytes - acc));
    if i + 1 == |segs| {
      assert taken + [] == taken;
    }
  }

  lemma {:induction false} ReadToEnd(segs: seq<Seg>, i: nat, offset: int, maxBytes: int32, acc: int32, c: Config)
    requires WellFormed(segs, c) && segs[0].base >= 0 && Covers(segs, i, offset) && AllLive(segs, c)
    requires 0 <= acc < maxBytes && acc + Size(SuffixFrom(segs, i, offset)) <= maxBytes
    ensures ReadRange(segs, i, offset, maxBytes, acc) == SuffixFrom(segs, i, offset)
    decreases |segs| - i
  {
    hide SegOk, Size, ReadRange, Concat, SuffixFrom, From;
    var avail := From(segs[i], offset);
    SuffixSize(segs, i, offset);
    FittingTurn(segs, i, offset, maxBytes, acc, c);
    if i + 1 < |segs| {
      NextCovers(segs, i, c);
      SuffixUnfold(segs, i, offset);
      var rest := SuffixFrom(segs, i + 1, segs[i].next);
      SizeConcat(avail, rest);
      if acc + Size(avail) >= maxBytes {
        SizeBound(rest);
        assert avail + [] == avail;
      } else {
        ReadToEnd(segs, i + 1, segs[i].next, maxBytes, acc + Size(avail), c);
      }
    }
  }

  lemma {:induction false} SuffixSize(segs: seq<Seg>, i: nat, offset: int)
    requires i < |segs|
    ensures Size(From(segs[i], offset)) <= Size(SuffixFrom(segs, i, offset))
    ensures i + 1 == |segs| ==> SuffixFrom(segs, i, offset) == From(segs[i], offset)
  {
    hide Size;
    SizeConcat(From(segs[i], offset), Concat(segs[i + 1..]));
  }

  /** On a log that was never reopened, a budget that covers the rest of the log reads exactly the
      rest of the log. */
  lemma {:induction false} ReadsWholeSuffix(segs: seq<Seg>, i: nat, offset: int, maxBytes: int32, c: Config)
    requires WellFormed(segs, c) && segs[0].base >= 0 && Covers(segs, i, offset) && AllLive(segs, c)
    requires maxBytes > 0 && Abs(segs).start <= offset <= Abs(segs).Leo()
    requires Size(Abs(segs).recs[offset - Abs(segs).start..]) <= maxBytes
    ensures ReadLog(segs, offset, maxBytes) == Range(Abs(segs).recs[offset - Abs(segs).start..], None)
  {
    hide SegOk, Size, ReadRange, Concat;
    SegmentPlace(segs, i, c);
    if i > 0 {
      BasesIncrease(segs, 0, i, c);
    }
    EndBeforeNext(segs, i, c);
    var before := Concat(segs[..i]);
    var after := Concat(segs[i + 1..]);
    assert Concat(segs)[offset - segs[0].base..] == SuffixFrom(segs, i, offset);
    SkipToCovering(segs, 0, i, offset, maxBytes, 0, c);
    ReadToEnd(segs, i, offset, maxBytes, 0, c);
  }

  lemma {:induction false} EndBeforeNext(segs: seq<Seg>, i: nat, c: Config)
    requires WellFormed(segs, c) && i < |segs|
    ensures i + 1 < |segs| ==> End(segs[i]) == segs[i + 1].base
    ensures i + 1 == |segs| ==> End(segs[i]) == Abs(segs).Leo() && Concat(segs[i + 1..]) == []
  {
    hide SegOk;
    LeoIsActiveNext(segs, c);
  }

  // ---- What a read returns is stored -----------------------------------------------------------------------

  /** The stored records are dense. */
  lemma {:induction false} StoredDense(segs: seq<Seg>, n: nat, c: Config)
    requires WellFormed(segs, c) && n <= |segs|
    ensures forall k :: 0 <= k < |Concat(segs[..n])| ==> Concat(segs[..n])[k].offset == segs[0].base + k
  {
    hide EntriesOf, LogSpec.Live, EncodedSize, Size;
    if n > 0 {
      StoredDense(segs, n - 1, c);
      PrefixLength(segs, n - 1, c);
      assert segs[..n][..n - 1] == segs[..n - 1];
      assert SegOk(segs[n - 1], c);
    }
  }

  /** Every record a range read returns is stored. */
  lemma {:induction false} ReadIsStored(segs: seq<Seg>, i: nat, offset: int, maxBytes: int32, acc: int32)
    requires i <= |segs|
    ensures forall r :: r in ReadRange(segs, i, offset, maxBytes, acc) ==> r in Concat(segs)
    decreases |segs| - i
  {
    hide Accumulate, Wrap32, Taken, Concat;
    if i < |segs| {
      var taken := Taken(segs[i], offset, Wrap32(maxBytes - acc));
      TakenStored(segs, i, offset, Wrap32(maxBytes - acc));
      ReadIsStored(segs, i + 1, offset, maxBytes, acc);
      ReadIsStored(segs, i + 1, segs[i].next, maxBytes, Accumulate(taken, acc));
    }
  }

  lemma {:induction false} TakenStored(segs: seq<Seg>, i: nat, offset: int, remaining: int32)
    requires i < |segs|
    ensures forall r :: r in Taken(segs[i], offset, remaining) ==> r in Concat(segs)
  {
    hide RunLength, Concat;
    forall r | r in Taken(segs[i], offset, remaining) ensures r in Concat(segs) {
      assert r in segs[i].recs;
      SegmentIn(segs, i, r);
    }
  }

  lemma {:induction false} SegmentIn(segs: seq<Seg>, i: nat, r: Record)
    requires i < |segs| && r in segs[i].recs
    ensures r in Concat(segs)
    decreases |segs|
  {
    if i < |segs| - 1 {
      SegmentIn(segs[..|segs| - 1], i, r);
    }
  }

  /** A contiguous read is a stretch of the stored records. */
  lemma {:induction false} ContiguousReadIsStretch(segs: seq<Seg>, offset: int, maxBytes: int32, c: Config)
    requires WellFormed(segs, c) && segs[0].base <= offset <= Abs(segs).Leo()
    requires ReadLog(segs, offset, maxBytes).error.None? && Contiguous(ReadLog(segs, offset, maxBytes).recs, offset)
    ensures ReadLog(segs, offset, maxBytes).recs <= Abs(segs).recs[offset - segs[0].base..]
  {
    hide SegOk, LogSpec.Live, ReadRange;
    var rs := ReadLog(segs, offset, maxBytes).recs;
    var all := Concat(segs);
    StoredDense(segs, |segs|, c);
    assert segs[..|segs|] == segs;
    ReadIsStored(segs, 0, offset, maxBytes, 0);
    var at := offset - segs[0].base;
    forall k | 0 <= k < |rs| ensures StandsAt(all, at, rs, k) {
      assert rs[k] in all;
      FoundAtOffset(all, segs[0].base, at, rs, k);
    }
    StretchOf(all, at, rs);
  }

  lemma {:induction false} FoundAtOffset(all: seq<Record>, base: int, at: int, rs: seq<Record>, k: nat)
    requires Dense(all, base) && k < |rs| && rs[k] in all && rs[k].offset == base + at + k
    ensures StandsAt(all, at, rs, k)
  {
    var j :| 0 <= j < |all| && all[j] == rs[k];
  }

  predicate StandsAt(all: seq<Record>, at: int, rs: seq<Record>, k: nat)
    requires k < |rs|
  {
    0 <= at + k < |all| && rs[k] == all[at + k]
  }

  lemma {:induction false} StretchOf(all: seq<Record>, at: nat, rs: seq<Record>)
    requires at <= |all| && forall k :: 0 <= k < |rs| ==> StandsAt(all, at, rs, k)
    ensures rs <= all[at..]
  {
    if |rs| > 0 {
      assert StandsAt(all, at, rs, |rs| - 1);
    }
    assert forall k | 0 <= k < |rs| :: StandsAt(all, at, rs, k) && all[at..][k] == rs[k];
  }
}
