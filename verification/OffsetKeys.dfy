/** The cache keys of the offset store (internal/coordinator/offsets.go): group, topic and partition
    joined by colons. */
module OffsetKeys {
  import opened Bytes
  import opened Names

  const COLON: byte := 58
  const MINUS: byte := 45

  /** %d of a non-negative number. */
  function Digits(n: nat): (s: seq<byte>)
    ensures s != [] && forall i :: 0 <= i < |s| ==> 48 <= s[i] <= 57
  {
    if n < 10 then [48 + n] else Digits(n / 10) + [48 + n % 10]
  }

  function Decimal(x: int): (s: seq<byte>)
    ensures COLON !in s
  {
    if x < 0 then [MINUS] + Digits(-x) else Digits(x)
  }

  function Value(s: seq<byte>): int {
    if s == [] then 0 else Value(s[..|s| - 1]) * 10 + (s[|s| - 1] as int - 48)
  }

  lemma {:induction false} DigitsRead(n: nat)
    ensures Value(Digits(n)) == n
  {
    if n >= 10 {
      DigitsRead(n / 10);
      assert (Digits(n / 10) + [48 + n % 10])[..|Digits(n / 10)|] == Digits(n / 10);
    } else {
      assert [48 + n][..0] == [];
    }
  }

  function ReadDecimal(s: seq<byte>): int {
    if s != [] && s[0] == MINUS then -Value(s[1..]) else Value(s)
  }

  /** A printed number reads back, so different numbers print differently. */
  lemma {:induction false} DecimalReads(x: int)
    ensures ReadDecimal(Decimal(x)) == x
  {
    hide Value, Digits;
    if x < 0 {
      assert ([MINUS] + Digits(-x))[1..] == Digits(-x);
      DigitsRead(-x);
    } else {
      DigitsRead(x);
    }
  }

  function Key(group: Name, topic: Name, partition: int): (k: Name)
    ensures k != []
  {
    group + [COLON] + topic + [COLON] + Decimal(partition)
  }

  /** What follows the last colon. */
  function AfterLast(s: Name): Name {
    if s == [] || s[|s| - 1] == COLON then [] else AfterLast(s[..|s| - 1]) + [s[|s| - 1]]
  }

  lemma {:induction false} AfterLastOf(a: Name, b: Name)
    requires COLON !in b
    ensures AfterLast(a + [COLON] + b) == b
    decreases |b|
  {
    var s := a + [COLON] + b;
    if b == [] {
      assert s[|s| - 1] == COLON;
    } else {
      var front := b[..|b| - 1];
      AfterLastOf(a, front);
      assert s[|s| - 1] == b[|b| - 1] && s[..|s| - 1] == a + [COLON] + front;
    }
  }

  lemma {:induction false} LastColon(a: Name, b: Name, a': Name, b': Name)
    requires a + [COLON] + b == a' + [COLON] + b' && COLON !in b && COLON !in b'
    ensures a == a' && b == b'
  {
    var s := a + [COLON] + b;
    AfterLastOf(a, b);
    AfterLastOf(a', b');
    assert |a| == |a'|;
    assert s[..|a|] == a && s[..|a|] == a';
  }

  /** With colon-free topics a key determines its group, topic and partition. */
  lemma {:induction false} KeyInjective(g: Name, t: Name, p: int, g': Name, t': Name, p': int)
    requires Key(g, t, p) == Key(g', t', p') && COLON !in t && COLON !in t'
    ensures g == g' && t == t' && p == p'
  {
    hide Decimal;
    LastColon(g + [COLON] + t, Decimal(p), g' + [COLON] + t', Decimal(p'));
    LastColon(g, t, g', t');
    DecimalReads(p);
    DecimalReads(p');
  }

  /** Without that, two groups can share a key. */
  lemma {:induction false} KeyCollision(a: Name, b: Name, c: Name, p: int)
    ensures Key(a, b + [COLON] + c, p) == Key(a + [COLON] + b, c, p)
  {
  }
}
