/** Key order: the byte-array comparator and what a tree needs of any comparator. */
module Order {

  type Byte = x: int | 0 <= x < 256
  type Key = seq<Byte>
  type Value = seq<Byte>

  /** std::strong_ordering */
  datatype Ordering = Less | Equal | Greater

  /** memcmp over the first n bytes: the difference of the first two bytes that differ, or 0. */
  function Memcmp(a: Key, b: Key, n: nat): int
    requires n <= |a| && n <= |b|
  {
    if n == 0 then 0
    else if a[0] != b[0] then a[0] - b[0]
    else Memcmp(a[1..], b[1..], n - 1)
  }

  /** ByteArrayCompFunc */
  function ByteArrayCompare(a: Key, b: Key): Ordering {
    var n := if |a| < |b| then |a| else |b|;
    var res := Memcmp(a, b, n);
    if res == 0 && |a| == |b| then Equal
    else
      var res := if res == 0 then |a| - |b| else res;
      if res < 0 then Less else Greater
  }

  /** a and b agree below i, and there a ends or has the smaller byte. */
  ghost predicate BelowAt(a: Key, b: Key, i: nat) {
    && i <= |a| && i < |b|
    && (forall j :: 0 <= j < i ==> a[j] == b[j])
    && (i == |a| || a[i] < b[i])
  }

  /** Lexicographic order, defined without reference to memcmp. */
  ghost predicate Lexicographic(a: Key, b: Key) {
    exists i: nat :: BelowAt(a, b, i)
  }

  /** What the tree requires of the configured comparator. */
  ghost predicate IsTotalOrder(cmp: (Key, Key) -> Ordering) {
    && (forall a, b :: cmp(a, b) == Equal <==> a == b)
    && (forall a, b :: cmp(a, b) == Less <==> cmp(b, a) == Greater)
    && (forall a, b, c :: cmp(a, b) == Less && cmp(b, c) == Less ==> cmp(a, c) == Less)
  }

  lemma {:induction false} MemcmpFirstDifference(a: Key, b: Key, n: nat) returns (i: nat)
    requires n <= |a| && n <= |b|
    ensures i <= n
    ensures forall j :: 0 <= j < i ==> a[j] == b[j]
    ensures if i == n then Memcmp(a, b, n) == 0 else a[i] != b[i] && Memcmp(a, b, n) == (a[i] as int) - (b[i] as int)
  {
    if n == 0 || a[0] != b[0] {
      i := 0;
    } else {
      var k := MemcmpFirstDifference(a[1..], b[1..], n - 1);
      i := k + 1;
      forall j | 0 <= j < i ensures a[j] == b[j] {
        if j > 0 { assert a[1..][j - 1] == b[1..][j - 1]; }
      }
    }
  }

  /** The comparator computes the lexicographic order, and says Equal on equal keys only. */
  lemma CompareIsLexicographic(a: Key, b: Key)
    ensures ByteArrayCompare(a, b) == Less <==> Lexicographic(a, b)
    ensures ByteArrayCompare(a, b) == Greater <==> Lexicographic(b, a)
    ensures ByteArrayCompare(a, b) == Equal <==> a == b
  {
    var n := if |a| < |b| then |a| else |b|;
    var i := MemcmpFirstDifference(a, b, n);
    if i < n {
      assert if a[i] < b[i] then BelowAt(a, b, i) else BelowAt(b, a, i);
    } else if |a| != |b| {
      assert if |a| < |b| then BelowAt(a, b, i) else BelowAt(b, a, i);
    }
    assert forall k: nat :: BelowAt(a, b, k) ==> k == i;
    assert forall k: nat :: BelowAt(b, a, k) ==> k == i;
  }

  lemma LexicographicTransitive(a: Key, b: Key, c: Key)
    requires Lexicographic(a, b) && Lexicographic(b, c)
    ensures Lexicographic(a, c)
  {
    var i: nat :| BelowAt(a, b, i);
    var j: nat :| BelowAt(b, c, j);
    assert BelowAt(a, c, if i < j then i else j);
  }

  /** The default comparator is a total order on byte strings. */
  lemma ByteArrayCompareIsTotalOrder()
    ensures IsTotalOrder(ByteArrayCompare)
  {
    forall a, b ensures ByteArrayCompare(a, b) == Equal <==> a == b { CompareIsLexicographic(a, b); }
    forall a, b ensures ByteArrayCompare(a, b) == Less <==> ByteArrayCompare(b, a) == Greater {
      CompareIsLexicographic(a, b);
      CompareIsLexicographic(b, a);
    }
    forall a, b, c | ByteArrayCompare(a, b) == Less && ByteArrayCompare(b, c) == Less
      ensures ByteArrayCompare(a, c) == Less
    {
      CompareIsLexicographic(a, b);
      CompareIsLexicographic(b, c);
      CompareIsLexicographic(a, c);
      LexicographicTransitive(a, b, c);
    }
  }

  function DefaultComparator(): (cmp: (Key, Key) -> Ordering)
    ensures IsTotalOrder(cmp)
  {
    ByteArrayCompareIsTotalOrder();
    ByteArrayCompare
  }

  type Comparator = cmp: (Key, Key) -> Ordering | IsTotalOrder(cmp) witness DefaultComparator()

  /** The comparator in Options: every result about trees holds for every total order. */
  const COMPARATOR: Comparator

  predicate Lt(a: Key, b: Key) { COMPARATOR(a, b) == Less }

  predicate Le(a: Key, b: Key) { COMPARATOR(a, b) != Greater }
}
