/** Go strings as byte sequences, in the order sort.Strings puts them. */
module Names {
  import opened Bytes

  type Name = seq<byte>

  /** Byte-wise lexicographic order. */
  predicate Leq(a: Name, b: Name) {
    if a == [] then true
    else if b == [] then false
    else if a[0] != b[0] then a[0] < b[0]
    else Leq(a[1..], b[1..])
  }

  /** One name comes before another when it is a prefix of it, or smaller at the first byte in which they
      differ. */
  lemma {:induction false} LeqMeans(a: Name, b: Name)
    ensures Leq(a, b) <==> a <= b || exists i :: Differ(a, b, i) && a[i] < b[i]
  {
    if a != [] && b != [] && a[0] == b[0] {
      LeqMeans(a[1..], b[1..]);
      assert a <= b <==> a[1..] <= b[1..];
      if i :| Differ(a[1..], b[1..], i) && a[1..][i] < b[1..][i] {
        assert Differ(a, b, i + 1) && a[i + 1] < b[i + 1];
      }
      if i :| Differ(a, b, i) && a[i] < b[i] {
        assert Differ(a[1..], b[1..], i - 1) && a[1..][i - 1] < b[1..][i - 1];
      }
    } else if a != [] && b != [] {
      assert Differ(a, b, 0);
    }
  }

  /** The names agree up to place i and differ there. */
  ghost predicate Differ(a: Name, b: Name, i: int) {
    0 <= i < |a| && i < |b| && a[i] != b[i] && forall j :: 0 <= j < i ==> a[j] == b[j]
  }

  lemma {:induction false} LeqTotal(a: Name, b: Name)
    ensures Leq(a, b) || Leq(b, a)
    ensures Leq(a, a)
    decreases |a|
  {
    if a != [] {
      LeqTotal(a[1..], a[1..]);
      if b != [] && a[0] == b[0] {
        LeqTotal(a[1..], b[1..]);
      }
    }
  }

  lemma {:induction false} LeqAntisymmetric(a: Name, b: Name)
    requires Leq(a, b) && Leq(b, a)
    ensures a == b
  {
    if a != [] && b != [] {
      LeqAntisymmetric(a[1..], b[1..]);
      assert a == [a[0]] + a[1..] && b == [b[0]] + b[1..];
    }
  }

  lemma {:induction false} LeqTransitive(a: Name, b: Name, c: Name)
    requires Leq(a, b) && Leq(b, c)
    ensures Leq(a, c)
  {
    if a != [] && b != [] && c != [] && a[0] == b[0] == c[0] {
      LeqTransitive(a[1..], b[1..], c[1..]);
    }
  }

  predicate IsSorted(s: seq<Name>) {
    forall i, j :: 0 <= i < j < |s| ==> Leq(s[i], s[j])
  }

  function Inserted(x: Name, s: seq<Name>): (r: seq<Name>)
    requires IsSorted(s)
    ensures multiset(r) == multiset{x} + multiset(s) && |r| == |s| + 1 && IsSorted(r)
  {
    if s == [] then [x]
    else if Leq(x, s[0]) then
      LeqAll(x, s);
      [x] + s
    else
      LeqTotal(x, s[0]);
      var r := Inserted(x, s[1..]);
      assert s == [s[0]] + s[1..];
      LeqMembers(s[0], r, multiset{x} + multiset(s[1..]));
      [s[0]] + r
  }

  lemma {:induction false} LeqAll(x: Name, s: seq<Name>)
    requires IsSorted(s) && s != [] && Leq(x, s[0])
    ensures forall i :: 0 <= i < |s| ==> Leq(x, s[i])
  {
    forall i | 0 <= i < |s| ensures Leq(x, s[i]) {
      if i > 0 {
        LeqTransitive(x, s[0], s[i]);
      }
    }
  }

  lemma {:induction false} LeqMembers(x: Name, r: seq<Name>, m: multiset<Name>)
    requires multiset(r) == m && forall y :: y in m ==> Leq(x, y)
    ensures forall i :: 0 <= i < |r| ==> Leq(x, r[i])
  {
    forall i | 0 <= i < |r| ensures Leq(x, r[i]) {
      assert r[i] in multiset(r);
    }
  }

  /** sort.Strings. */
  function SortNames(s: seq<Name>): (r: seq<Name>)
    ensures multiset(r) == multiset(s) && |r| == |s| && IsSorted(r)
  {
    if s == [] then []
    else
      assert s == [s[0]] + s[1..];
      Inserted(s[0], SortNames(s[1..]))
  }

  /** Sorting forgets the order it was given. */
  lemma {:induction false} SortedUnique(a: seq<Name>, b: seq<Name>)
    requires IsSorted(a) && IsSorted(b) && multiset(a) == multiset(b)
    ensures a == b
    decreases |a|
  {
    assert |a| == |multiset(a)| == |multiset(b)| == |b|;
    if a != [] {
      FirstIsLeast(a, b[0]);
      FirstIsLeast(b, a[0]);
      LeqAntisymmetric(a[0], b[0]);
      TailOf(a);
      TailOf(b);
      SortedUnique(a[1..], b[1..]);
    }
  }

  lemma {:induction false} TailOf(s: seq<Name>)
    requires s != []
    ensures s == [s[0]] + s[1..] && multiset(s[1..]) == multiset(s) - multiset{s[0]}
  {
    assert s == [s[0]] + s[1..];
  }

  lemma {:induction false} FirstIsLeast(a: seq<Name>, x: Name)
    requires IsSorted(a) && x in multiset(a)
    ensures a != [] && Leq(a[0], x)
  {
    assert x in a;
    var i :| 0 <= i < |a| && a[i] == x;
    LeqTotal(x, x);
  }

  lemma {:induction false} HasName(s: set<Name>)
    requires s != {}
    ensures exists x :: x in s
  {
    if !(exists x :: x in s) {
      NoName(s);
      assert false;
    }
  }

  lemma {:induction false} NoName(s: set<Name>)
    requires forall x :: x !in s
    ensures s == {}
  {
    assert forall x | x in s :: false;
  }
}
