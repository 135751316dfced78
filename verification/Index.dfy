/** The sparse offset index of internal/storage/index.go: a memory-mapped array of
    (relative offset, position) pairs, searched by bisection. */
module OffsetIndex {
  import opened Bytes

  const ENTRY_SIZE: int := 8

  datatype Entry = Entry(rel: uint32, pos: uint32)

  predicate Sorted(es: seq<Entry>) {
    forall i, j :: 0 <= i < j < |es| ==> es[i].rel < es[j].rel
  }

  // ---- What the bytes mean -----------------------------------------------------------------

  function EntryAt(data: seq<byte>, i: nat): Entry
    requires 8 * i + 8 <= |data|
  {
    Entry(GetU32(data[8 * i..8 * i + 4]), GetU32(data[8 * i + 4..8 * i + 8]))
  }

  function EntriesIn(data: seq<byte>, n: nat): (es: seq<Entry>)
    requires 8 * n <= |data|
    ensures |es| == n && forall i :: 0 <= i < n ==> es[i] == EntryAt(data, i)
  {
    seq(n, i requires 0 <= i < n => EntryAt(data, i))
  }

  /** Entries depend on their own bytes only. */
  lemma {:induction false} SameEntries(a: seq<byte>, b: seq<byte>, n: nat)
    requires 8 * n <= |a| && 8 * n <= |b| && a[..8 * n] == b[..8 * n]
    ensures EntriesIn(a, n) == EntriesIn(b, n)
  {
    hide GetU32;
    forall i | 0 <= i < n ensures EntryAt(a, i) == EntryAt(b, i) {
      assert a[8 * i..8 * i + 4] == a[..8 * n][8 * i..8 * i + 4] == b[8 * i..8 * i + 4];
      assert a[8 * i + 4..8 * i + 8] == a[..8 * n][8 * i + 4..8 * i + 8] == b[8 * i + 4..8 * i + 8];
    }
  }

  /** Writing one entry image after n entries appends that entry. */
  lemma {:induction false} EntryWritten(before: seq<byte>, after: seq<byte>, n: nat, e: Entry)
    requires 8 * n + 8 <= |after| && 8 * n <= |before| && after[..8 * n] == before[..8 * n]
    requires after[8 * n..8 * n + 4] == PutU32(e.rel) && after[8 * n + 4..8 * n + 8] == PutU32(e.pos)
    ensures EntriesIn(after, n + 1) == EntriesIn(before, n) + [e]
  {
    hide GetU32, PutU32;
    SameEntries(before, after, n);
    assert EntriesIn(after, n + 1)[..n] == EntriesIn(after, n);
    U32RoundTrip(e.rel);
    U32RoundTrip(e.pos);
    assert EntryAt(after, n) == e;
  }

  /** A file holds entries when it starts with them and is zero from there on: what a close, a
      seal, or a crash with the preallocated tail still in place leaves behind. */
  predicate Holds(file: seq<byte>, es: seq<Entry>) {
    && 8 * |es| <= |file|
    && EntriesIn(file, |es|) == es
    && forall j :: 8 * |es| <= j < |file| ==> file[j] == 0
  }

  /** The file truncated or zero-extended to `max` bytes, as preallocation leaves it. */
  function Resized(file: seq<byte>, max: nat): (data: seq<byte>)
    ensures |data| == max
  {
    if max <= |file| then file[..max] else file + seq(max - |file|, _ => 0)
  }

  /** Trailing all-zero entries were never written; the first entry is always kept. */
  function LiveEntries(data: seq<byte>, n: nat): (m: nat)
    requires 8 * n <= |data|
    ensures m <= n
  {
    if n > 1 && EntryAt(data, n - 1) == Entry(0, 0) then LiveEntries(data, n - 1) else n
  }

  function RecoveredEntries(file: seq<byte>, max: nat): seq<Entry> {
    var data := Resized(file, max);
    EntriesIn(data, LiveEntries(data, Min(|file|, max) / 8))
  }

  /** Reopening recovers exactly the entries of a non-empty index, whatever zero tail a crash
      left behind it. */
  lemma {:induction false} RecoverHeld(file: seq<byte>, es: seq<Entry>, max: nat)
    requires Holds(file, es) && es != [] && Sorted(es)
    requires 8 * |es| <= max
    ensures RecoveredEntries(file, max) == es
  {
    hide GetU32;
    var data := Resized(file, max);
    var n := Min(|file|, max) / 8;
    SameEntries(data, file, |es|);
    forall i | 0 <= i < |es| ensures EntryAt(data, i) == es[i] {
      assert EntriesIn(data, |es|)[i] == es[i];
    }
    assert forall j :: 8 * |es| <= j < |data| ==> data[j] == 0;
    StripsToHeld(data, es, n);
    assert EntriesIn(data, |es|) == es;
  }

  lemma {:induction false} ZeroEntry(data: seq<byte>, i: nat)
    requires 8 * i + 8 <= |data|
    requires forall j :: 8 * i <= j < 8 * i + 8 ==> data[j] == 0
    ensures EntryAt(data, i) == Entry(0, 0)
  {
    var lo := data[8 * i..8 * i + 4];
    var hi := data[8 * i + 4..8 * i + 8];
    assert lo == [0, 0, 0, 0] && hi == [0, 0, 0, 0];
    assert lo[..2] == [0, 0] && lo[2..] == [0, 0] && hi[..2] == [0, 0] && hi[2..] == [0, 0];
  }

  lemma {:induction false} StripsToHeld(data: seq<byte>, es: seq<Entry>, n: nat)
    requires es != [] && Sorted(es) && |es| <= n && 8 * n <= |data|
    requires forall i :: 0 <= i < |es| ==> EntryAt(data, i) == es[i]
    requires forall j :: 8 * |es| <= j < |data| ==> data[j] == 0
    ensures LiveEntries(data, n) == |es|
  {
    hide GetU32;
    if n > |es| {
      ZeroEntry(data, n - 1);
      StripsToHeld(data, es, n - 1);
    } else if n > 1 {
      assert EntryAt(data, n - 1) == es[n - 1] && es[0].rel < es[n - 1].rel;
    }
  }

  // ---- Lookup --------------------------------------------------------------------------------

  datatype Found = Found(position: uint32, exact: bool)

  /** How many leading entries lie strictly below the target, counted by a linear walk. */
  function Below(es: seq<Entry>, target: uint32): (k: nat)
    ensures k <= |es|
    ensures k > 0 ==> es[k - 1].rel < target
    ensures forall j :: k <= j < |es| ==> es[j].rel >= target
  {
    if es == [] then 0
    else if es[|es| - 1].rel < target then |es|
    else Below(es[..|es| - 1], target)
  }

  /** The exact entry if there is one, else the nearest lower one, else the start of the file. */
  function Nearest(es: seq<Entry>, target: uint32): Found {
    var k := Below(es, target);
    if k < |es| && es[k].rel == target then Found(es[k].pos, true)
    else if k > 0 then Found(es[k - 1].pos, false)
    else Found(0, false)
  }

  lemma {:induction false} BelowUnique(es: seq<Entry>, target: uint32, k: nat)
    requires Sorted(es) && k <= |es|
    requires k > 0 ==> es[k - 1].rel < target
    requires k < |es| ==> es[k].rel >= target
    ensures Below(es, target) == k
  {
  }

  datatype IndexError = IndexFull | NotMapped

  /** The index object. `mmap` is the mapped region, `size` the bytes in use. */
  class Index {
    var mmap: array?<byte>
    var size: nat
    var maxSize: nat

    ghost predicate Valid()
      reads this
    {
      && size % 8 == 0 && maxSize % 8 == 0 && size <= maxSize
      && (if mmap == null then maxSize == 0 else mmap.Length == maxSize)
    }

    ghost function Contents(): seq<byte>
      reads this, mmap
    {
      if mmap == null then [] else mmap[..]
    }

    ghost function Entries(): (es: seq<Entry>)
      requires Valid()
      reads this, mmap
      ensures |es| == size / 8
    {
      EntriesIn(Contents(), size / 8)
    }

    ghost function Repr(): set<object>
      reads this
    {
      if mmap == null then {this} else {this, mmap}
    }

    /** The state NewIndex builds over a file of `max` bytes with `n` live entries. */
    constructor Map(data: seq<byte>, n: nat)
      requires 8 * n <= |data| && |data| % 8 == 0 && data != []
      ensures Valid() && fresh(Repr()) && mmap != null
      ensures maxSize == |data| && size == 8 * n && Contents() == data
    {
      var region := new byte[|data|](i requires 0 <= i < |data| => data[i]);
      mmap := region;
      size := 8 * n;
      maxSize := |data|;
      new;
      assert mmap[..] == data;
    }

    /** The health check for crash recovery: walk back over all-zero entries. */
    static method DropZeroTail(data: seq<byte>, count: nat) returns (n: nat)
      requires 8 * count <= |data|
      ensures n == LiveEntries(data, count)
    {
      hide GetU32;
      n := count;
      while n > 1
        invariant n <= count
        invariant LiveEntries(data, count) == LiveEntries(data, n)
      {
        var off := (n - 1) * ENTRY_SIZE;
        var rel := GetU32(data[off..off + 4]);
        var pos := GetU32(data[off + 4..off + 8]);
        if rel == 0 && pos == 0 {
          n := n - 1;
        } else {
          break;
        }
      }
    }

    static method NewIndex(file: seq<byte>, maxBytes: int) returns (r: Option<Index>)
      ensures r.None? <==> maxBytes < 8
      ensures r.Some? ==>
                var ix := r.value;
                && ix.Valid() && fresh(ix.Repr()) && ix.mmap != null
                && ix.maxSize == maxBytes - maxBytes % 8
                && ix.Entries() == RecoveredEntries(file, ix.maxSize)
    {
      if maxBytes < 0 {
        return None;
      }
      var max := maxBytes - maxBytes % ENTRY_SIZE;
      if max == 0 {
        return None;
      }
      var logical: nat := |file|;
      logical := logical - logical % ENTRY_SIZE;
      if logical > max {
        logical := max;
      }
      var data := Resized(file, max);
      assert logical / 8 == Min(|file|, max) / 8;
      if logical > 0 {
        var n := DropZeroTail(data, logical / ENTRY_SIZE);
        logical := n * ENTRY_SIZE;
      }
      hide GetU32, LiveEntries, Resized;
      var ix := new Index.Map(data, logical / 8);
      r := Some(ix);
    }

    method Append(rel: uint32, pos: uint32) returns (err: Option<IndexError>)
      requires Valid()
      modifies this`size, mmap
      ensures Valid() && mmap == old(mmap) && maxSize == old(maxSize)
      ensures err == if old(size) + 8 > maxSize then Some(IndexFull) else None
      ensures err.Some? ==> size == old(size) && Entries() == old(Entries())
      ensures err.None? ==> size == old(size) + 8 && Entries() == old(Entries()) + [Entry(rel, pos)]
    {
      if size + ENTRY_SIZE > maxSize {
        return Some(IndexFull);
      }
      if mmap == null {
        return Some(NotMapped);
      }
      hide EntriesIn, PutU32;
      ghost var before := mmap[..];
      var off := size;
      var image := PutU32(rel) + PutU32(pos);
      forall k | 0 <= k < 8 {
        mmap[off + k] := image[k];
      }
      size := size + ENTRY_SIZE;
      assert mmap[..][..off] == before[..off];
      assert mmap[..][off..off + 4] == image[..4] == PutU32(rel);
      assert mmap[..][off + 4..off + 8] == image[4..] == PutU32(pos);
      EntryWritten(before, mmap[..], off / 8, Entry(rel, pos));
      err := None;
    }

    /** sort.Search: the least position whose entry reaches the target. */
    method Search(target: uint32) returns (lo: nat)
      requires Valid() && mmap != null && Sorted(Entries())
      ensures lo == Below(Entries(), target)
    {
      hide EntriesIn, EntryAt;
      ghost var es := Entries();
      var hi := size / ENTRY_SIZE;
      lo := 0;
      while lo < hi
        invariant lo <= hi <= |es|
        invariant lo > 0 ==> es[lo - 1].rel < target
        invariant hi < |es| ==> es[hi].rel >= target
      {
        var mid := (lo + hi) / 2;
        var e := EntryFrom(mid);
        if e.rel >= target {
          hi := mid;
        } else {
          lo := mid + 1;
        }
      }
      BelowUnique(es, target, lo);
    }

    /** Bisection finds what a linear walk over the entries finds. */
    method Lookup(target: uint32) returns (r: Option<Found>)
      requires Valid() && Sorted(Entries())
      ensures r == if mmap == null then None else Some(Nearest(Entries(), target))
    {
      hide EntriesIn, EntryAt, Below, Sorted;
      if mmap == null {
        return None;
      }
      var n := size / ENTRY_SIZE;
      if n == 0 {
        return Some(Found(0, false));
      }
      var idx := Search(target);
      if idx < n {
        var e := EntryFrom(idx);
        if e.rel == target {
          return Some(Found(e.pos, true));
        }
      }
      if idx > 0 {
        var e := EntryFrom(idx - 1);
        return Some(Found(e.pos, false));
      }
      r := Some(Found(0, false));
    }

    method EntryFrom(i: nat) returns (e: Entry)
      requires Valid() && mmap != null && i < size / 8
      ensures e == Entries()[i]
    {
      hide GetU32;
      var off := i * ENTRY_SIZE;
      e := Entry(GetU32(mmap[off..off + 4]), GetU32(mmap[off + 4..off + 8]));
      assert mmap[off..off + 4] == mmap[..][8 * i..8 * i + 4];
      assert mmap[off + 4..off + 8] == mmap[..][8 * i + 4..8 * i + 8];
    }

    /** Sealing gives the slack back: same entries, no room for another. */
    method Seal()
      requires Valid()
      modifies this
      ensures Valid() && fresh(Repr() - {this})
      ensures Entries() == old(Entries()) && size == old(size) && maxSize == size
      ensures mmap == null <==> size == 0
    {
      if size == 0 {
        mmap := null;
        maxSize := 0;
        return;
      }
      hide EntriesIn;
      var data := mmap[..size];
      ghost var before := mmap[..];
      var region := new byte[size](i requires 0 <= i < |data| => data[i]);
      mmap := region;
      maxSize := size;
      assert mmap[..] == data == before[..size];
      SameEntries(mmap[..], before, size / 8);
    }

    /** The file a close leaves: truncated to the bytes in use. */
    method Close() returns (file: seq<byte>)
      requires Valid()
      ensures |file| == size && Holds(file, Entries())
    {
      if mmap == null {
        return [];
      }
      hide EntriesIn;
      file := mmap[..size];
      SameEntries(file, mmap[..], size / 8);
    }
  }
}
