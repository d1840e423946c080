/** Keys and the comparators that order them (src/comparator.c). */
module Comparator {
  type byte = x: int | 0 <= x < 256

  /** A key is an opaque byte string; only the comparator gives it an order. */
  type Key = seq<byte>

  /** A comparator in the style of strcmp: only the sign of the result matters. */
  type Cmp = (Key, Key) -> int

  predicate Lt(cmp: Cmp, a: Key, b: Key) {
    cmp(a, b) < 0
  }

  /** What the tree expects of a comparator: a strict total order whose result
      is 0 on equal keys only. */
  ghost predicate Order(cmp: Cmp) {
    && (forall a, b :: cmp(a, b) == 0 <==> a == b)
    && (forall a, b {:trigger Lt(cmp, a, b)} :: Lt(cmp, a, b) <==> cmp(b, a) > 0)
    && (forall a, b, c {:trigger Lt(cmp, a, b), Lt(cmp, b, c)} :: Lt(cmp, a, b) && Lt(cmp, b, c) ==> Lt(cmp, a, c))
  }

  /** Byte-by-byte difference at the first of `n` positions where `a` and `b` differ. */
  function MemCmp(a: Key, b: Key, n: nat): int
    requires n <= |a| && n <= |b|
  {
    if n == 0 then 0
    else if a[0] != b[0] then a[0] - b[0]
    else MemCmp(a[1..], b[1..], n - 1)
  }

  function CompareDefault(a: Key, b: Key): int {
    var minLen := if |a| < |b| then |a| else |b|;
    var c := MemCmp(a, b, minLen);
    if c != 0 then c
    else if |a| < |b| then -1
    else if |a| > |b| then 1
    else 0
  }

  /** `CompareDefault` peels off one common leading byte at a time. */
  lemma CompareDefaultStep(a: Key, b: Key)
    requires a != [] && b != []
    ensures CompareDefault(a, b) == if a[0] != b[0] then a[0] - b[0] else CompareDefault(a[1..], b[1..])
  {
  }

  lemma {:induction false} CompareDefaultZero(a: Key, b: Key)
    ensures CompareDefault(a, b) == 0 <==> a == b
  {
    if a != [] && b != [] {
      CompareDefaultStep(a, b);
      CompareDefaultZero(a[1..], b[1..]);
      assert a == [a[0]] + a[1..] && b == [b[0]] + b[1..];
    }
  }

  lemma {:induction false} CompareDefaultFlip(a: Key, b: Key)
    ensures CompareDefault(a, b) < 0 <==> CompareDefault(b, a) > 0
  {
    if a != [] && b != [] {
      CompareDefaultStep(a, b);
      CompareDefaultStep(b, a);
      CompareDefaultFlip(a[1..], b[1..]);
    }
  }

  lemma {:induction false} CompareDefaultTransitive(a: Key, b: Key, c: Key)
    requires CompareDefault(a, b) < 0 && CompareDefault(b, c) < 0
    ensures CompareDefault(a, c) < 0
  {
    if a != [] && b != [] && c != [] {
      CompareDefaultStep(a, b);
      CompareDefaultStep(b, c);
      CompareDefaultStep(a, c);
      if a[0] == b[0] == c[0] {
        CompareDefaultTransitive(a[1..], b[1..], c[1..]);
      }
    }
  }

  /** Keys that agree on their first `n` bytes, after which `a` ends or has the lesser byte. */
  predicate LessAfter(a: Key, b: Key, n: nat) {
    n <= |a| && n < |b| && a[..n] == b[..n] && (n == |a| || a[n] < b[n])
  }

  lemma {:induction false} LessFound(a: Key, b: Key) returns (n: nat)
    requires CompareDefault(a, b) < 0
    ensures LessAfter(a, b, n)
  {
    if a == [] || b == [] || a[0] != b[0] {
      n := 0;
    } else {
      CompareDefaultStep(a, b);
      n := LessFound(a[1..], b[1..]);
      n := n + 1;
      assert a == [a[0]] + a[1..] && b == [b[0]] + b[1..];
    }
  }

  lemma {:induction false} LessDecides(a: Key, b: Key, n: nat)
    requires LessAfter(a, b, n)
    ensures CompareDefault(a, b) < 0
  {
    if n > 0 {
      assert a[0] == a[..n][0] == b[..n][0] == b[0];
      assert a[1..][..n - 1] == a[..n][1..] && b[1..][..n - 1] == b[..n][1..];
      LessDecides(a[1..], b[1..], n - 1);
      CompareDefaultStep(a, b);
    } else if a != [] {
      CompareDefaultStep(a, b);
    }
  }

  /** The order is lexicographic: a key is less exactly if it is a proper prefix, or has the
      lesser byte at the first place where the two differ. */
  lemma Lexicographic(a: Key, b: Key)
    ensures CompareDefault(a, b) < 0 <==>
      exists n :: 0 <= n <= |a| && n < |b| && a[..n] == b[..n] && (n == |a| || a[n] < b[n])
    ensures |a| < |b| && b[..|a|] == a ==> CompareDefault(a, b) < 0
  {
    if CompareDefault(a, b) < 0 {
      var n := LessFound(a, b);
    }
    forall n | 0 <= n <= |a| && n < |b| && a[..n] == b[..n] && (n == |a| || a[n] < b[n])
      ensures CompareDefault(a, b) < 0
    {
      LessDecides(a, b, n);
    }
    if |a| < |b| && b[..|a|] == a {
      assert a[..|a|] == a;
      LessDecides(a, b, |a|);
    }
  }

  /** The comparator every caller in the repository passes is a strict total order. */
  lemma CompareDefaultIsOrder()
    ensures Order(CompareDefault)
  {
    forall a: Key, b: Key
      ensures CompareDefault(a, b) == 0 <==> a == b
      ensures Lt(CompareDefault, a, b) <==> CompareDefault(b, a) > 0
    {
      CompareDefaultZero(a, b);
      CompareDefaultFlip(a, b);
    }
    forall a: Key, b: Key, c: Key | Lt(CompareDefault, a, b) && Lt(CompareDefault, b, c)
      ensures Lt(CompareDefault, a, c)
    {
      CompareDefaultTransitive(a, b, c);
    }
  }
}
