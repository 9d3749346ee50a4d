/** Page intervals as multisets of page ids, so that conservation is an equation. */
module FreeSpace {
  import opened Nodes

  /** The pages freed by one transaction. */
  datatype Pending = Pending(tx: TxId, pairs: seq<PagePair>)

  predicate Within(lo: nat, x: nat, hi: nat) { lo <= x < hi }

  /** The ids from lo up to but not including hi, once each. */
  function Interval(lo: nat, hi: nat): multiset<PageId> {
    multiset(set x: PageId | lo <= x < hi && Within(lo, x, hi))
  }

  function Span(p: PagePair): multiset<PageId> { Interval(p.id, p.id + p.count) }

  function SpanBag(s: seq<PagePair>): multiset<PageId> {
    if s == [] then multiset{} else SpanBag(s[..|s| - 1]) + Span(s[|s| - 1])
  }

  function PendBag(s: seq<Pending>): multiset<PageId> {
    if s == [] then multiset{} else PendBag(s[..|s| - 1]) + SpanBag(s[|s| - 1].pairs)
  }

  /** No page id occurs twice. */
  ghost predicate Once(m: multiset<PageId>) { forall x :: m[x] <= 1 }

  /** All page ids of a file of n pages but the two meta pages, once each. */
  function FileBag(n: nat): multiset<PageId> { Interval(2, n) }

  /** A std::map<PageId, PageCount>: ascending first ids, positive counts. */
  ghost predicate SortedPairs(s: seq<PagePair>) {
    && (forall i :: 0 <= i < |s| ==> s[i].count > 0)
    && forall i, j :: 0 <= i < j < |s| ==> s[i].id < s[j].id
  }

  /** A std::map<TxId, ...>: ascending keys. */
  ghost predicate SortedPending(s: seq<Pending>) {
    forall i, j :: 0 <= i < j < |s| ==> s[i].tx < s[j].tx
  }

  ghost predicate PositivePending(s: seq<Pending>) {
    forall i, j :: 0 <= i < |s| && 0 <= j < |s[i].pairs| ==> s[i].pairs[j].count > 0
  }

  ghost predicate PositivePairs(s: seq<PagePair>) {
    forall i :: 0 <= i < |s| ==> s[i].count > 0
  }

  ghost predicate OlderThan(s: seq<Pending>, tx: TxId) {
    forall i :: 0 <= i < |s| ==> s[i].tx < tx
  }

  /** s is base, or base and then the pages freed by tx. */
  ghost predicate ExtendsBy(s: seq<Pending>, base: seq<Pending>, tx: TxId) {
    s == base || (|s| == |base| + 1 && s[..|base|] == base && s[|base|].tx == tx)
  }

  /** Where std::map::lower_bound(k) points among keys in order. */
  function LowerKey(keys: seq<nat>, k: nat): (i: nat)
    ensures i <= |keys|
    ensures i > 0 ==> keys[i - 1] < k
    ensures i < |keys| ==> keys[i] >= k
  {
    if keys == [] then 0
    else if keys[|keys| - 1] < k then |keys|
    else
      var i := LowerKey(keys[..|keys| - 1], k);
      i
  }

  function LowerPair(s: seq<PagePair>, id: PageId): (i: nat)
    ensures i <= |s|
    ensures i > 0 ==> s[i - 1].id < id
    ensures i < |s| ==> s[i].id >= id
  {
    LowerKey(seq(|s|, j requires 0 <= j < |s| => s[j].id), id)
  }

  /** Where std::map::find(tx) or insert({tx, ...}) goes. */
  function LowerPending(s: seq<Pending>, tx: TxId): (i: nat)
    ensures i <= |s|
    ensures i > 0 ==> s[i - 1].tx < tx
    ensures i < |s| ==> s[i].tx >= tx
  {
    LowerKey(seq(|s|, j requires 0 <= j < |s| => s[j].tx), tx)
  }

  lemma {:induction false} SpanBagConcat(a: seq<PagePair>, b: seq<PagePair>)
    ensures SpanBag(a + b) == SpanBag(a) + SpanBag(b)
  {
    hide Interval, Span;
    if b == [] {
      assert a + b == a;
    } else {
      SpanBagConcat(a, b[..|b| - 1]);
      assert (a + b)[..|a + b| - 1] == a + b[..|b| - 1];
    }
  }

  lemma {:induction false} SpanBagOne(p: PagePair)
    ensures SpanBag([p]) == Span(p)
  {
    assert [p][..0] == [];
  }

  lemma {:induction false} SpanBagEmpty()
    ensures SpanBag([]) == multiset{}
  {}

  lemma {:induction false} PendBagEmpty()
    ensures PendBag([]) == multiset{}
  {}

  lemma {:induction false} SpanUnit(id: PageId)
    ensures Span(PagePair(id, 1)) == multiset{id}
  {}

  lemma {:induction false} FileBagOnce(n: nat)
    ensures Once(FileBag(n))
  {}

  lemma {:induction false} OncePart(a: multiset<PageId>, b: multiset<PageId>)
    requires Once(a + b)
    ensures Once(a) && Once(b) && a !! b
  {
    forall x ensures a[x] <= 1 && b[x] <= 1 && (x !in a || x !in b) {
      assert (a + b)[x] <= 1;
    }
  }

  lemma {:induction false} OlderSuffix(s: seq<Pending>, n: nat, tx: TxId)
    requires OlderThan(s, tx) && n <= |s|
    ensures OlderThan(s[n..], tx)
  {}

  lemma {:induction false} LowerPendingUnique(s: seq<Pending>, tx: TxId, i: nat)
    requires SortedPending(s) && i <= |s|
    requires i > 0 ==> s[i - 1].tx < tx
    requires i < |s| ==> s[i].tx >= tx
    ensures i == LowerPending(s, tx)
  {}

  lemma {:induction false} PendBagConcat(a: seq<Pending>, b: seq<Pending>)
    ensures PendBag(a + b) == PendBag(a) + PendBag(b)
  {
    hide Interval, Span, SpanBag;
    if b == [] {
      assert a + b == a;
    } else {
      PendBagConcat(a, b[..|b| - 1]);
      assert (a + b)[..|a + b| - 1] == a + b[..|b| - 1];
    }
  }

  lemma {:induction false} PendBagOne(p: Pending)
    ensures PendBag([p]) == SpanBag(p.pairs)
  {
    assert [p][..0] == [];
  }

  /** An interval is its two parts. */
  lemma {:induction false} SpanSplit(id: PageId, m: nat, n: nat)
    ensures Span(PagePair(id, m + n)) == Span(PagePair(id, m)) + Span(PagePair(id + m, n))
  {}

  lemma {:induction false} FileBagGrow(n: nat, count: nat)
    requires 2 <= n
    ensures FileBag(n + count) == FileBag(n) + Span(PagePair(n, count))
  {}

  lemma {:induction false} SpanBagAt(s: seq<PagePair>, i: nat)
    requires i < |s|
    ensures SpanBag(s) == SpanBag(s[..i]) + Span(s[i]) + SpanBag(s[i + 1..])
  {
    assert s == s[..i] + [s[i]] + s[i + 1..];
    SpanBagConcat(s[..i] + [s[i]], s[i + 1..]);
    SpanBagConcat(s[..i], [s[i]]);
    SpanBagOne(s[i]);
  }

  lemma {:induction false} PendBagAt(s: seq<Pending>, i: nat)
    requires i < |s|
    ensures PendBag(s) == PendBag(s[..i]) + SpanBag(s[i].pairs) + PendBag(s[i + 1..])
  {
    assert s == s[..i] + [s[i]] + s[i + 1..];
    PendBagConcat(s[..i] + [s[i]], s[i + 1..]);
    PendBagConcat(s[..i], [s[i]]);
    PendBagOne(s[i]);
  }

  /** When no page is free twice, free intervals are pairwise disjoint. */
  lemma {:induction false} OnceIsDisjoint(s: seq<PagePair>, i: nat, j: nat)
    requires i < j < |s|
    requires Once(SpanBag(s))
    ensures Span(s[i]) !! Span(s[j])
  {
    SpanBagAt(s, i);
    SpanBagAt(s[i + 1..], j - i - 1);
    assert s[i + 1..][j - i - 1] == s[j];
    forall x ensures !(x in Span(s[i]) && x in Span(s[j])) {
      assert SpanBag(s)[x] <= 1;
    }
  }

  // ----- sizes

  lemma {:induction false} PartSize(a: multiset<PageId>, b: multiset<PageId>)
    requires a <= b
    ensures |a| <= |b|
  {
    assert b == a + (b - a);
  }

  lemma {:induction false} IntervalSize(lo: nat, hi: nat)
    requires lo <= hi
    ensures |Interval(lo, hi)| == hi - lo
    decreases hi
  {
    if lo == hi {
      assert Interval(lo, hi) == multiset{};
    } else {
      IntervalSize(lo, hi - 1);
      assert Interval(lo, hi) == Interval(lo, hi - 1) + multiset{hi - 1};
    }
  }

  /** Positive intervals: no more of them than pages. */
  lemma {:induction false} SpanBagSize(s: seq<PagePair>)
    requires forall i :: 0 <= i < |s| ==> s[i].count > 0
    ensures |s| <= |SpanBag(s)|
  {
    if s != [] {
      var p := s[|s| - 1];
      SpanBagSize(s[..|s| - 1]);
      IntervalSize(p.id, p.id + p.count);
    }
  }

  // ----- the two map updates of the allocator

  /** The free map after taking count pages off the front of interval i. */
  function TakeFrom(s: seq<PagePair>, i: nat, count: nat): seq<PagePair>
    requires i < |s| && count <= s[i].count
  {
    s[..i] + (if count < s[i].count then [PagePair(s[i].id + count, s[i].count - count)] else []) + s[i + 1..]
  }

  lemma {:induction false} TakeFromBag(s: seq<PagePair>, i: nat, count: nat)
    requires i < |s| && count <= s[i].count
    ensures SpanBag(TakeFrom(s, i, count)) + Span(PagePair(s[i].id, count)) == SpanBag(s)
  {
    hide Interval, SpanBag;
    assert SpanBag([]) == multiset{} by { SpanBagEmpty(); }
    var rest := PagePair(s[i].id + count, s[i].count - count);
    var mid := if count < s[i].count then [rest] else [];
    SpanBagAt(s, i);
    SpanBagConcat(s[..i] + mid, s[i + 1..]);
    SpanBagConcat(s[..i], mid);
    if count < s[i].count {
      SpanBagOne(rest);
      SpanSplit(s[i].id, count, s[i].count - count);
    }
  }

  /** Intervals that share no page have ends in the order of their starts. */
  lemma {:induction false} SortedEnds(s: seq<PagePair>, i: nat, j: nat)
    requires SortedPairs(s) && i < j < |s|
    requires Once(SpanBag(s))
    ensures s[i].id + s[i].count <= s[j].id
  {
    OnceIsDisjoint(s, i, j);
    assert s[j].id in Span(s[j]);
    assert s[j].id !in Span(s[i]);
  }

  lemma {:induction false} TakeFromSorted(s: seq<PagePair>, i: nat, count: nat)
    requires SortedPairs(s) && i < |s| && 0 < count <= s[i].count
    requires Once(SpanBag(s))
    ensures SortedPairs(TakeFrom(s, i, count))
  {
    forall j | i < j < |s| ensures s[i].id + s[i].count <= s[j].id {
      SortedEnds(s, i, j);
    }
  }

  /** The pending map after one more free by transaction tx. */
  function AddPending(s: seq<Pending>, tx: TxId, p: PagePair): seq<Pending> {
    var i := LowerPending(s, tx);
    if i < |s| && s[i].tx == tx then s[i := Pending(tx, s[i].pairs + [p])]
    else s[..i] + [Pending(tx, [p])] + s[i..]
  }

  lemma {:induction false} AddPendingBag(s: seq<Pending>, tx: TxId, p: PagePair)
    ensures PendBag(AddPending(s, tx, p)) == PendBag(s) + Span(p)
  {
    hide Interval, PendBag, SpanBag;
    var i := LowerPending(s, tx);
    SpanBagOne(p);
    if i < |s| && s[i].tx == tx {
      var s' := s[i := Pending(tx, s[i].pairs + [p])];
      PendBagAt(s, i);
      PendBagAt(s', i);
      assert s'[..i] == s[..i] && s'[i + 1..] == s[i + 1..];
      SpanBagConcat(s[i].pairs, [p]);
    } else {
      PendBagConcat(s[..i] + [Pending(tx, [p])], s[i..]);
      PendBagConcat(s[..i], [Pending(tx, [p])]);
      PendBagOne(Pending(tx, [p]));
      PendBagConcat(s[..i], s[i..]);
      assert s[..i] + s[i..] == s;
    }
  }

  /** The transaction that frees is the newest: its entry is the last one, and older entries stay. */
  lemma {:induction false} AddPendingLast(s: seq<Pending>, base: seq<Pending>, tx: TxId, p: PagePair)
    requires SortedPending(s) && PositivePending(s) && p.count > 0
    requires ExtendsBy(s, base, tx) && OlderThan(base, tx) && OlderThan(s, tx + 1)
    ensures var s' := AddPending(s, tx, p);
            SortedPending(s') && PositivePending(s') && ExtendsBy(s', base, tx) && OlderThan(s', tx + 1)
  {
    var k, i := |base|, LowerPending(s, tx);
    LowerPendingUnique(s, tx, k);
    var s' := AddPending(s, tx, p);
    assert s' == base + [s'[k]];
    assert s'[k].pairs == (if k < |s| then s[k].pairs else []) + [p];
  }

  lemma {:induction false} InsertPairBag(s: seq<PagePair>, i: nat, p: PagePair)
    requires i <= |s|
    ensures SpanBag(InsertAt(s, i, p)) == SpanBag(s) + Span(p)
  {
    hide Interval, SpanBag;
    SpanBagConcat(s[..i] + [p], s[i..]);
    SpanBagConcat(s[..i], [p]);
    SpanBagOne(p);
    assert s[..i] + s[i..] == s;
    SpanBagConcat(s[..i], s[i..]);
  }

  /** The free map with one more interval entered at its place. */
  lemma {:induction false} InsertPair(s: seq<PagePair>, p: PagePair)
    requires SortedPairs(s) && p.count > 0
    requires Once(SpanBag(s) + Span(p))
    ensures var s' := InsertAt(s, LowerPair(s, p.id), p);
            SortedPairs(s') && SpanBag(s') == SpanBag(s) + Span(p)
  {
    hide SpanBag;
    var i := LowerPair(s, p.id);
    InsertPairBag(s, i, p);
    if i < |s| {
      OncePart(SpanBag(s), Span(p));
      SpanBagAt(s, i);
      assert p.id in Span(p) && s[i].id in Span(s[i]);
    }
    hide *;
    InsertPairSorted(s, i, p);
  }

  lemma {:induction false} InsertPairSorted(s: seq<PagePair>, i: nat, p: PagePair)
    requires SortedPairs(s) && p.count > 0 && i <= |s|
    requires i > 0 ==> s[i - 1].id < p.id
    requires i < |s| ==> p.id < s[i].id
    ensures SortedPairs(InsertAt(s, i, p))
  {
    var s' := InsertAt(s, i, p);
    forall a | 0 <= a < i ensures s[a].id < p.id { assert a == i - 1 || s[a].id < s[i - 1].id; }
    forall a | i <= a < |s| ensures p.id < s[a].id { assert a == i || s[i].id < s[a].id; }
    forall a | 0 <= a < |s'|
      ensures s'[a] == (if a < i then s[a] else if a == i then p else s[a - 1]) && s'[a].count > 0 {}
    forall a, b | 0 <= a < b < |s'| ensures s'[a].id < s'[b].id {
      assert a < i && b > i ==> s[a].id < p.id < s[b - 1].id;
    }
  }

  /** Growing an interval at its end by the interval that follows it. */
  lemma {:induction false} ExtendPair(s: seq<PagePair>, i: nat, count: nat)
    requires SortedPairs(s) && i < |s|
    ensures var s' := s[i := PagePair(s[i].id, s[i].count + count)];
            SortedPairs(s') && SpanBag(s') == SpanBag(s) + Span(PagePair(s[i].id + s[i].count, count))
  {
    hide Interval, SpanBag;
    var s' := s[i := PagePair(s[i].id, s[i].count + count)];
    SpanBagAt(s, i);
    SpanBagAt(s', i);
    assert s'[..i] == s[..i] && s'[i + 1..] == s[i + 1..];
    SpanSplit(s[i].id, s[i].count, count);
  }

  lemma {:induction false} RemovePair(s: seq<PagePair>, i: nat)
    requires SortedPairs(s) && i < |s|
    ensures SortedPairs(RemoveAt(s, i)) && SpanBag(RemoveAt(s, i)) + Span(s[i]) == SpanBag(s)
  {
    hide Interval, SpanBag;
    SpanBagAt(s, i);
    SpanBagConcat(s[..i], s[i + 1..]);
  }

  // ----- intervals within one free interval

  ghost predicate Inside(p: PagePair, q: PagePair) { q.id <= p.id && p.id + p.count <= q.id + q.count }

  /** All pages of p are in one interval, so that a run of as many pages can be taken from it. */
  ghost predicate InOne(s: seq<PagePair>, p: PagePair) { exists i :: 0 <= i < |s| && Inside(p, s[i]) }

  /** Each interval with pages, on its own. */
  ghost predicate AllInOne(ps: seq<PagePair>, s: seq<PagePair>) {
    forall j :: 0 <= j < |ps| && ps[j].count > 0 ==> InOne(s, ps[j])
  }

  lemma {:induction false} AllInOneSelf(s: seq<PagePair>)
    ensures AllInOne(s, s) && AllInOne([], s)
  {
    forall j | 0 <= j < |s| ensures InOne(s, s[j]) { assert Inside(s[j], s[j]); }
  }

  lemma {:induction false} AllInOneThen(a: seq<PagePair>, b: seq<PagePair>, c: seq<PagePair>)
    requires AllInOne(a, b) && AllInOne(b, c)
    ensures AllInOne(a, c)
  {
    forall j | 0 <= j < |a| && a[j].count > 0 ensures InOne(c, a[j]) {
      var i :| 0 <= i < |b| && Inside(a[j], b[i]);
      assert b[i].count > 0;
      var k :| 0 <= k < |c| && Inside(b[i], c[k]);
      assert Inside(a[j], c[k]);
    }
  }

  lemma {:induction false} AllInOneMore(ps: seq<PagePair>, p: PagePair, s: seq<PagePair>)
    requires AllInOne(ps, s) && (p.count > 0 ==> InOne(s, p))
    ensures AllInOne(ps + [p], s)
  {}

  lemma {:induction false} AllInOneConcat(a: seq<PagePair>, b: seq<PagePair>, s: seq<PagePair>)
    requires AllInOne(a, s) && AllInOne(b, s)
    ensures AllInOne(a + b, s)
  {}

  /** The preceding interval grown over the freed one covers it, and what followed directly. */
  lemma {:induction false} ExtendCovers(s: seq<PagePair>, i: nat, pgid: PageId, count: nat, s1: seq<PagePair>, t: nat,
                                        s2: seq<PagePair>)
    requires i <= |s| && t < |s1| && s1[t].id + s1[t].count == pgid
    requires s1 == if i < |s| && s[i].id == pgid + count then RemoveAt(s, i) else s
    requires var more := count + if i < |s| && s[i].id == pgid + count then s[i].count else 0;
      s2 == s1[t := PagePair(s1[t].id, s1[t].count + more)]
    ensures AllInOne(s, s2) && InOne(s2, PagePair(pgid, count))
  {
    var joined := i < |s| && s[i].id == pgid + count;
    assert Inside(PagePair(pgid, count), s2[t]);
    forall a | 0 <= a < |s1| ensures Inside(s1[a], s2[a]) {}
    forall j | 0 <= j < |s| ensures InOne(s2, s[j]) {
      if joined && j == i {
        assert Inside(s[j], s2[t]);
      } else {
        var a := if joined && j > i then j - 1 else j;
        assert s1[a] == s[j] && Inside(s1[a], s2[a]);
      }
    }
  }

  /** The freed interval entered on its own covers what followed directly. */
  lemma {:induction false} EnterCovers(s: seq<PagePair>, i: nat, pgid: PageId, count: nat, s1: seq<PagePair>, k: nat,
                                       s2: seq<PagePair>)
    requires i <= |s| && k <= |s1|
    requires s1 == if i < |s| && s[i].id == pgid + count then RemoveAt(s, i) else s
    requires var more := count + if i < |s| && s[i].id == pgid + count then s[i].count else 0;
      s2 == InsertAt(s1, k, PagePair(pgid, more))
    ensures AllInOne(s, s2) && InOne(s2, PagePair(pgid, count))
  {
    var joined := i < |s| && s[i].id == pgid + count;
    assert Inside(PagePair(pgid, count), s2[k]);
    forall j | 0 <= j < |s| ensures InOne(s2, s[j]) {
      if joined && j == i {
        assert Inside(s[j], s2[k]);
      } else {
        var a := if joined && j > i then j - 1 else j;
        assert Inside(s[j], s2[if a < k then a else a + 1]);
      }
    }
  }

  // ----- neighbours of a freed interval

  /** No interval starts at x. */
  ghost predicate NoStart(s: seq<PagePair>, x: nat) { forall j :: 0 <= j < |s| ==> s[j].id != x }

  /** No interval ends at x. */
  ghost predicate NoEnd(s: seq<PagePair>, x: nat) { forall j :: 0 <= j < |s| ==> s[j].id + s[j].count != x }

  /** The interval lies between s[i - 1] and s[i], and only these can touch it. */
  ghost predicate Between(s: seq<PagePair>, i: nat, pgid: PageId, count: nat) {
    && i <= |s|
    && (forall j :: i <= j < |s| ==> s[j].id >= pgid + count && (j > i ==> s[j].id > pgid + count))
    && (forall j :: 0 <= j < i ==> s[j].id + s[j].count <= pgid && (j < i - 1 ==> s[j].id + s[j].count < pgid))
  }

  /** The preceding interval is grown over the freed one, the following one is gone if it touched. */
  lemma {:induction false} FreedExtends(s: seq<PagePair>, i: nat, pgid: PageId, count: nat, s1: seq<PagePair>,
                                        more: nat)
    requires Between(s, i, pgid, count) && 0 < i && count > 0 && more > 0
    requires s1 == if i < |s| && s[i].id == pgid + count then RemoveAt(s, i) else s
    requires s[i - 1].id + s[i - 1].count == pgid
    ensures var s2 := s1[i - 1 := PagePair(s[i - 1].id, s[i - 1].count + more)];
      NoStart(s2, pgid + count) && NoEnd(s2, pgid)
  {
    forall j | 0 <= j < |s1| ensures s1[j] == s[if |s1| == |s| || j < i then j else j + 1] {}
  }

  /** What is left of the neighbours once a following interval that touched is gone. */
  lemma {:induction false} NeighboursLeft(s: seq<PagePair>, i: nat, pgid: PageId, count: nat, s1: seq<PagePair>)
    requires Between(s, i, pgid, count) && count > 0
    requires s1 == if i < |s| && s[i].id == pgid + count then RemoveAt(s, i) else s
    ensures NoStart(s1, pgid + count)
    ensures i == 0 || s[i - 1].id + s[i - 1].count != pgid ==> NoEnd(s1, pgid)
  {
    forall j | 0 <= j < |s1| ensures s1[j] == s[if |s1| == |s| || j < i then j else j + 1] {}
  }

  /** The freed interval is entered on its own, the following one is gone if it touched. */
  lemma {:induction false} FreedEnters(s: seq<PagePair>, i: nat, pgid: PageId, count: nat, s1: seq<PagePair>, k: nat,
                                       more: nat)
    requires Between(s, i, pgid, count) && count > 0 && more > 0 && k <= |s1|
    requires s1 == if i < |s| && s[i].id == pgid + count then RemoveAt(s, i) else s
    ensures NoStart(InsertAt(s1, k, PagePair(pgid, more)), pgid + count)
    ensures i == 0 || s[i - 1].id + s[i - 1].count != pgid ==> NoEnd(InsertAt(s1, k, PagePair(pgid, more)), pgid)
  {
    NeighboursLeft(s, i, pgid, count, s1);
    hide Between, NoStart, NoEnd, InsertAt, RemoveAt;
    NoneInserted(s1, k, PagePair(pgid, more), pgid + count, pgid);
  }

  lemma {:induction false} NoneInserted(s: seq<PagePair>, k: nat, p: PagePair, x: nat, y: nat)
    requires k <= |s|
    ensures NoStart(s, x) && p.id != x ==> NoStart(InsertAt(s, k, p), x)
    ensures NoEnd(s, y) && p.id + p.count != y ==> NoEnd(InsertAt(s, k, p), y)
  {
    var r := InsertAt(s, k, p);
    forall j | 0 <= j < |r| ensures r[j] == if j < k then s[j] else if j == k then p else s[j - 1] {}
  }

  /** A freed interval lies between its neighbours in the free map. */
  lemma {:induction false} FreedBetween(s: seq<PagePair>, pgid: PageId, count: nat)
    requires SortedPairs(s) && count > 0 && Once(SpanBag(s) + Span(PagePair(pgid, count)))
    ensures Between(s, LowerPair(s, pgid), pgid, count)
  {
    hide SpanBag, Interval, LowerPair;
    var i, p := LowerPair(s, pgid), PagePair(pgid, count);
    OncePart(SpanBag(s), Span(p));
    if i < |s| {
      SpanBagAt(s, i);
      PairsApart(s[i], p, SpanBag(s));
    }
    if i > 0 {
      SpanBagAt(s, i - 1);
      PairsApart(s[i - 1], p, SpanBag(s));
      forall j | 0 <= j < i - 1 ensures s[j].id + s[j].count < pgid { SortedEnds(s, j, i - 1); }
    }
  }

  lemma {:induction false} PairsApart(a: PagePair, p: PagePair, all: multiset<PageId>)
    requires a.count > 0 && p.count > 0 && Span(a) <= all && all !! Span(p)
    ensures a.id + a.count <= p.id || p.id + p.count <= a.id
  {
    if a.id <= p.id {
      assert p.id in Span(p) && p.id !in Span(a);
    } else {
      assert a.id in Span(a) && a.id !in Span(p);
    }
  }
}
