/** The leaf's part of insertion and deletion, on trees. */
module Leaves {
  import opened Order
  import opened Nodes
  import opened Trees
  import opened Tokens
  import opened FreeSpace
  import opened Steps
  import opened Shrinks
  import opened Balance
  import opened Searching

  /** Writing a leaf of the transaction in place. */
  lemma {:induction false} LeafWrite(w: World, fs: seq<Frame>, n: Tree, n': Tree, rest: multiset<PageId>)
    requires Weak(w, fs, n, 0, rest) && n.Leaf? && n'.Leaf? && n'.id == n.id && n'.tx == n.tx && LeafFits(n'.recs)
    requires Once(w.held)
    ensures Weak(w.(pages := w.pages[n.id := PageOf(n')]), fs, n', 0, rest)
  {
    hide PathWf, Plug, PathBag, InStore, LeafFits, Once;
    var w' := w.(pages := w.pages[n.id := PageOf(n')]);
    WriteApart(w.pages, w'.pages, w.held, n.id, rest + PathBag(fs));
    SameOnPart(w.pages, w'.pages, rest + PathBag(fs), PathBag(fs));
    StoreNode(w, w', fs, n, n', 0);
  }

  lemma {:induction false} WeakLeaf(w: World, fs: seq<Frame>, n: Tree, rest: multiset<PageId>)
    requires Weak(w, fs, n, 0, rest) && n.Leaf?
    ensures LeafFits(n.recs)
  {
    hide PathWf, Plug, PathBag, InStore, LeafFits;
  }

  /** A leaf has room for the record: the insertion ends here. */
  lemma {:induction false} LeafInsertFits(recs: seq<Rec>, i: nat, r: Rec)
    requires LeafFits(recs) && RecOk(r) && i <= |recs| && LeafUsed(recs) + RecCost(r) <= MAX_SPACE
    ensures LeafFits(InsertAt(recs, i, r))
  {
    LeafUsedInsert(recs, i, r);
  }

  lemma {:induction false} LeafReplaceFits(recs: seq<Rec>, i: nat, r: Rec)
    requires LeafFits(recs) && RecOk(r) && i < |recs|
    requires LeafUsed(recs) - RecCost(recs[i]) + RecCost(r) <= MAX_SPACE
    ensures LeafFits(recs[i := r])
  {
    LeafUsedRemove(recs, i);
    LeafUsedInsert(RemoveAt(recs, i), i, r);
    assert InsertAt(RemoveAt(recs, i), i, r) == recs[i := r];
  }

  /** The halves of a split leaf: the left one in place, the right one on a new page, the key between rising. */
  lemma {:induction false} LeafSplit(w: World, fs: seq<Frame>, n: Tree, l: Tree, r: Tree, rest: multiset<PageId>)
    requires Weak(w, fs, n, 0, rest) && n.Leaf? && Once(w.held)
    requires l.Leaf? && r.Leaf? && l.id == n.id && l.tx == r.tx == w.cur && r.id !in w.held
    requires l.recs != [] && r.recs != [] && LeafFits(l.recs) && LeafFits(r.recs)
    ensures Rising(w.(pages := w.pages[l.id := PageOf(l)][r.id := PageOf(r)], held := w.held + multiset{r.id}),
                   fs, l, r.recs[0].key, r, 0, rest)
  {
    hide PathWf, Plug, PathBag, Once, Inline, ShortKey;
    var w' := w.(pages := w.pages[l.id := PageOf(l)][r.id := PageOf(r)], held := w.held + multiset{r.id});
    BagHasId(n);
    WriteApart(w.pages, w'.pages, w.held, n.id, rest + PathBag(fs));
    SameOnPart(w.pages, w'.pages, rest + PathBag(fs), PathBag(fs));
    StoreNode(w, w', fs, n, l, 0);
    assert RecOk(r.recs[0]);
  }

  /** Moving one record between two leaves of which the receiver has less than 40%. */
  lemma {:induction false} LeafLend(a: Tree, key: Key, c: Tree, cur: TxId, left: bool, a': Tree, c': Tree)
    requires a.Leaf? && c.Leaf? && WeakNode(a, 0, cur) && WeakNode(c, 0, cur)
    requires var node, sib := if left then c.recs else a.recs, if left then a.recs else c.recs;
      !FillAtLeast40(LeafUsed(node)) && |sib| >= 2
    requires if left then
               a' == Leaf(a.id, cur, RemoveAt(a.recs, |a.recs| - 1)) &&
               c' == Leaf(c.id, cur, InsertAt(c.recs, 0, a.recs[|a.recs| - 1]))
             else
               a' == Leaf(a.id, cur, InsertAt(a.recs, |a.recs|, c.recs[0])) &&
               c' == Leaf(c.id, cur, RemoveAt(c.recs, 0))
    ensures c'.recs != [] && Shared(a, key, c, a', c'.recs[0].key, c') && ShortKey(c'.recs[0].key)
    ensures Wf(a', 0, cur) && Wf(c', 0, cur)
    ensures a'.recs + c'.recs == a.recs + c.recs
  {
    hide LeafUsed, ShortKey, Inline;
    if left {
      TreeLeafBorrowFits(c.recs, 0, a.recs[|a.recs| - 1]);
      LeafRemoveFits(a.recs, |a.recs| - 1);
    } else {
      TreeLeafBorrowFits(a.recs, |a.recs|, c.recs[0]);
      LeafRemoveFits(c.recs, 0);
    }
    assert RecOk(c'.recs[0]);
  }

  /** Merging two leaves: the append loop never fails and the result is well-formed. */
  lemma {:induction false} MergeLeavesWf(a: Tree, key: Key, c: Tree, cur: TxId, left: bool)
    requires a.Leaf? && c.Leaf? && WeakNode(a, 0, cur) && WeakNode(c, 0, cur)
    requires var node, sib := if left then c.recs else a.recs, if left then a.recs else c.recs;
      !FillAtLeast40(LeafUsed(node)) && !CanLend(LeafUsed(sib), |sib|) && sib != []
    ensures LeafUsed(a.recs) + LeafUsed(c.recs) <= MAX_SPACE
    ensures var m := Leaf(a.id, cur, a.recs + c.recs); MergeOf(a, key, c, m) && Wf(m, 0, cur)
  {
    hide LeafUsed, LeafFits;
    TreeLeafMergeFits(a.recs, c.recs, if left then c.recs else a.recs, if left then a.recs else c.recs);
  }

  /** Records move between two leaves and the key follows: same map, still ordered. */
  lemma {:induction false} LendFlat(fs: seq<Frame>, g: Frame, a: Tree, key: Key, c: Tree, a': Tree, c': Tree)
    requires PathOk(fs) && FrameOk(g) && a.Leaf? && c.Leaf? && a'.Leaf? && c'.Leaf?
    requires Ordered(PairFlat(fs, g, a, key, c))
    requires a'.recs != [] && c'.recs != [] && a'.recs + c'.recs == a.recs + c.recs
    ensures Ordered(PairFlat(fs, g, a', c'.recs[0].key, c'))
    ensures MapOf(PairFlat(fs, g, a', c'.recs[0].key, c')) == MapOf(PairFlat(fs, g, a, key, c))
  {
    hide Ordered, MapOf, Items, FramePre, FramePost, PathPre, PathPost;
    var p, q := PathPre(fs) + FramePre(g), FramePost(g) + PathPost(fs);
    Unseparate(p, a.recs, key, c.recs, q);
    Separate(p, a'.recs, c'.recs, q);
  }

  /** Two leaves become one and the key between them goes: same map, still ordered. */
  lemma {:induction false} MergeFlat(fs: seq<Frame>, g: Frame, a: Tree, key: Key, c: Tree, m: Tree)
    requires PathOk(fs) && FrameOk(g) && a.Leaf? && c.Leaf? && m.Leaf? && m.recs == a.recs + c.recs
    requires Ordered(PairFlat(fs, g, a, key, c))
    ensures Ordered(PathPre(fs) + Flat(SetKid(g.t, g.i, m)) + PathPost(fs))
    ensures MapOf(PathPre(fs) + Flat(SetKid(g.t, g.i, m)) + PathPost(fs)) == MapOf(PairFlat(fs, g, a, key, c))
  {
    hide Ordered, MapOf, Items, FramePre, FramePost, PathPre, PathPost, SetKid;
    var p, q := PathPre(fs) + FramePre(g), FramePost(g) + PathPost(fs);
    Unseparate(p, a.recs, key, c.recs, q);
    FlatSetKid(g, m);
    Regroup(PathPre(fs), FramePre(g), Flat(m), FramePost(g), PathPost(fs));
  }

  /** The record is removed from the leaf: from the order, and from the map. */
  lemma {:induction false} RemoveFlat(fs: seq<Frame>, n: Tree, i: nat, n': Tree)
    requires PathOk(fs) && n.Leaf? && n'.Leaf? && i < |n.recs| && n'.recs == RemoveAt(n.recs, i)
    requires Ordered(PathPre(fs) + Flat(n) + PathPost(fs))
    ensures Ordered(PathPre(fs) + Flat(n') + PathPost(fs))
    ensures MapOf(PathPre(fs) + Flat(n') + PathPost(fs))
         == MapOf(PathPre(fs) + Flat(n) + PathPost(fs)) - {n.recs[i].key}
  {
    hide Ordered, MapOf, Items, PathPre, PathPost;
    RemoveFromRun(PathPre(fs), n.recs, i, PathPost(fs));
  }

  /** The leaf is split: the halves and the key between read as the leaf with its new record. */
  lemma {:induction false} SplitLeafFlat(fs: seq<Frame>, recs: seq<Rec>, l: Tree, r: Tree)
    requires PathOk(fs) && l.Leaf? && r.Leaf? && l.recs != [] && r.recs != [] && l.recs + r.recs == recs
    requires Ordered(PathPre(fs) + Items(recs) + PathPost(fs))
    ensures Ordered(RisingFlat(fs, l, r.recs[0].key, r))
    ensures MapOf(RisingFlat(fs, l, r.recs[0].key, r)) == MapOf(PathPre(fs) + Items(recs) + PathPost(fs))
  {
    hide Ordered, MapOf, Items, PathPre, PathPost;
    Separate(PathPre(fs), l.recs, r.recs, PathPost(fs));
  }

  /** The record is entered where it was searched: into the order, and into the map. */
  lemma {:induction false} InsertFlat(fs: seq<Frame>, recs: seq<Rec>, pos: nat, r: Rec)
    requires Around(fs, r.key) && LeafPos(recs, pos, r.key) && (pos == |recs| || recs[pos].key != r.key)
    requires Ordered(PathPre(fs) + Items(recs) + PathPost(fs))
    ensures Ordered(PathPre(fs) + Items(InsertAt(recs, pos, r)) + PathPost(fs))
    ensures r.key !in MapOf(PathPre(fs) + Items(recs) + PathPost(fs))
    ensures MapOf(PathPre(fs) + Items(InsertAt(recs, pos, r)) + PathPost(fs))
         == MapOf(PathPre(fs) + Items(recs) + PathPost(fs))[r.key := r.value]
  {
    hide Ordered, MapOf, Items, PathPre, PathPost, AllBelow, AllAbove;
    AroundRecord(fs, recs, pos, r.key);
    FoundIsInMap(fs, recs, pos, r.key);
    InsertIntoRun(PathPre(fs), recs, pos, r, PathPost(fs));
  }

  /** The record is replaced where it was found: its value in the map is replaced. */
  lemma {:induction false} ReplaceFlat(fs: seq<Frame>, recs: seq<Rec>, pos: nat, r: Rec)
    requires Around(fs, r.key) && LeafPos(recs, pos, r.key) && pos < |recs| && recs[pos].key == r.key
    requires Ordered(PathPre(fs) + Items(recs) + PathPost(fs))
    ensures Ordered(PathPre(fs) + Items(recs[pos := r]) + PathPost(fs))
    ensures r.key in MapOf(PathPre(fs) + Items(recs) + PathPost(fs))
    ensures MapOf(PathPre(fs) + Items(recs) + PathPost(fs))[r.key] == recs[pos].value
    ensures MapOf(PathPre(fs) + Items(recs[pos := r]) + PathPost(fs))
         == MapOf(PathPre(fs) + Items(recs) + PathPost(fs))[r.key := r.value]
  {
    hide Ordered, MapOf, Items, PathPre, PathPost, AllBelow, AllAbove;
    FoundIsInMap(fs, recs, pos, r.key);
    ReplaceInRun(PathPre(fs), recs, pos, r, PathPost(fs));
  }

  /** Two halves of a leaf with its new record hold records that are allowed in a leaf. */
  lemma {:induction false} HalvesFit(recs: seq<Rec>, pos: nat, r: Rec, left: seq<Rec>, right: seq<Rec>)
    requires LeafFits(recs) && RecOk(r) && pos <= |recs| && left + right == InsertAt(recs, pos, r)
    requires LeafUsed(left) <= MAX_SPACE && LeafUsed(right) <= MAX_SPACE
    ensures LeafFits(left) && LeafFits(right)
  {
    hide LeafUsed, RecOk;
    var all := InsertAt(recs, pos, r);
    forall i | 0 <= i < |all| ensures RecOk(all[i]) {
      assert all[i] == if i < pos then recs[i] else if i == pos then r else recs[i - 1];
    }
    forall i | 0 <= i < |left| ensures RecOk(left[i]) { assert left[i] == all[i]; }
    forall i | 0 <= i < |right| ensures RecOk(right[i]) { assert right[i] == all[|left| + i]; }
  }

  /** Three one-byte keys in the order of the comparator. */
  lemma {:induction false} ThreeKeys() returns (a: Key, b: Key, c: Key)
    ensures |a| == |b| == |c| == 1 && Lt(a, b) && Lt(b, c)
  {
    var x: Key, y: Key, z: Key := [0], [1], [2];
    assert x[0] != y[0] && y[0] != z[0] && x[0] != z[0];
    if Lt(y, x) { x, y := y, x; }
    LtTransitive(x, y, x);
    if Lt(y, z) {
      a, b, c := x, y, z;
    } else if Lt(x, z) {
      LtTransitive(y, z, y);
      a, b, c := x, z, y;
    } else {
      LtTransitive(x, z, x);
      a, b, c := z, x, y;
    }
  }

  /** A full leaf of three records, the last one without a value. */
  lemma {:induction false} FullLeaf(a: Key, b: Key, c: Key) returns (recs: seq<Rec>)
    requires |a| == |b| == |c| == 1
    ensures |recs| == 3 && recs[0].key == a && recs[1].key == b && recs[2] == Rec(c, [])
    ensures LeafFits(recs) && LeafUsed(recs) == MAX_SPACE
  {
    var half := MAX_SPACE / 2;
    var x, y, z := Rec(a, seq(half - SLOT_SIZE - 1, _ => 0)), Rec(b, seq(half - 2 * SLOT_SIZE - 2, _ => 0)), Rec(c, []);
    recs := [x, y, z];
    LeafUsedOfThree(x, y, z);
    hide LeafUsed;
    assert RecCost(x) == half && RecCost(y) == half - SLOT_SIZE - 1 && RecCost(z) == SLOT_SIZE + 1;
  }

  lemma {:induction false} LeafUsedOfNone()
    ensures LeafUsed([]) == 0
  {}

  lemma {:induction false} LeafUsedOfThree(x: Rec, y: Rec, z: Rec)
    ensures LeafUsed([x, y, z]) == RecCost(x) + RecCost(y) + RecCost(z)
  {
    LeafUsedInsert([], 0, x);
    LeafUsedInsert([x], 1, y);
    LeafUsedInsert([x, y], 2, z);
    hide LeafUsed;
    assert InsertAt([], 0, x) == [x] && InsertAt([x], 1, y) == [x, y] && InsertAt([x, y], 2, z) == [x, y, z];
    assert LeafUsed([]) == 0 by { LeafUsedOfNone(); }
  }

  lemma {:induction false} ThreeOrdered(recs: seq<Rec>)
    requires |recs| == 3 && Lt(recs[0].key, recs[1].key) && Lt(recs[1].key, recs[2].key)
    ensures Ordered(Items(recs)) && LeafPos(recs, 2, recs[2].key)
  {
    LtTransitive(recs[0].key, recs[1].key, recs[2].key);
    LtTransitive(recs[2].key, recs[2].key, recs[2].key);
  }
}
