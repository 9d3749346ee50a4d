/** Descent: where a key belongs in a node and in a tree. */
module Searching {
  import opened Order
  import opened Nodes
  import opened Trees
  import opened Tokens

  function LeafKeys(recs: seq<Rec>): (ks: seq<Key>)
    ensures |ks| == |recs|
  {
    seq(|recs|, i requires 0 <= i < |recs| => recs[i].key)
  }

  ghost predicate SortedKeys(ks: seq<Key>) { forall i, j :: 0 <= i < j < |ks| ==> Lt(ks[i], ks[j]) }

  /** What comparing one key says of the others. */
  lemma {:induction false} MiddleKey(ks: seq<Key>, mid: nat, key: Key)
    requires SortedKeys(ks) && mid < |ks|
    ensures COMPARATOR(ks[mid], key) == Equal <==> ks[mid] == key
    ensures if Lt(ks[mid], key) then forall j :: 0 <= j <= mid ==> Lt(ks[j], key)
            else forall j :: mid <= j < |ks| ==> Le(key, ks[j]) && (j > mid ==> ks[j] != key)
  {
    LtTransitive(key, ks[mid], key);
    LtTransitive(key, key, key);
    forall j | 0 <= j < mid ensures Lt(ks[mid], key) ==> Lt(ks[j], key) { LtTransitive(ks[j], ks[mid], key); }
    forall j | mid < j < |ks| ensures !Lt(ks[mid], key) ==> Le(key, ks[j]) && ks[j] != key {
      LtTransitive(key, ks[mid], ks[j]);
      LtTransitive(key, ks[j], key);
    }
  }

  /** Node::LowerBound: std::lower_bound over the slots, noting whether an equal key was compared. */
  method LowerBoundOf(ks: seq<Key>, key: Key) returns (pos: nat, eq: bool)
    requires SortedKeys(ks)
    ensures pos <= |ks|
    ensures forall j :: 0 <= j < pos ==> Lt(ks[j], key)
    ensures forall j :: pos <= j < |ks| ==> Le(key, ks[j])
    ensures eq <==> pos < |ks| && ks[pos] == key
  {
    eq := false;
    var first, count := 0, |ks|;
    while count > 0
      invariant 0 <= first && 0 <= count && first + count <= |ks|
      invariant forall j :: 0 <= j < first ==> Lt(ks[j], key)
      invariant forall j :: first + count <= j < |ks| ==> Le(key, ks[j])
      invariant eq <==> first + count < |ks| && ks[first + count] == key
      decreases count
    {
      var step := count / 2;
      var mid := first + step;
      var res := COMPARATOR(ks[mid], key);
      if res == Equal { eq := true; }
      MiddleKey(ks, mid, key);
      if res == Less {
        first, count := mid + 1, count - step - 1;
      } else {
        count := step;
      }
    }
    pos := first;
  }

  // ----- sorted nodes

  lemma {:induction false} LeafSorted(p: seq<Tok>, recs: seq<Rec>, q: seq<Tok>)
    requires Ordered(p + Items(recs) + q)
    ensures SortedKeys(LeafKeys(recs))
  {
    OrderedCut(p + Items(recs), q);
    OrderedCut(p, Items(recs));
    forall i, j | 0 <= i < j < |recs| ensures Lt(recs[i].key, recs[j].key) {
      assert TokLt(Items(recs)[i], Items(recs)[j]);
    }
  }

  /** Slots i and j as tokens among the tokens of the slots before k. */
  lemma {:induction false} SlotToken(s: seq<Slot<Tree>>, i: nat, k: nat) returns (pos: nat)
    requires i < k <= |s|
    ensures pos < |FlatSlots(s[..k])| && FlatSlots(s[..k])[pos] == Sep(s[i].key)
    ensures i + 1 == k ==> pos == |FlatSlots(s[..k])| - 1
  {
    assert s[..k] == s[..i + 1] + s[i + 1..k];
    FlatSlotsConcat(s[..i + 1], s[i + 1..k]);
    assert s[..i + 1][..i] == s[..i];
    pos := |FlatSlots(s[..i + 1])| - 1;
  }

  lemma {:induction false} BranchSorted(p: seq<Tok>, b: Branch<Tree>, q: seq<Tok>)
    requires Ordered(p + FlatBranch(b) + q)
    ensures SortedKeys(b.Keys())
  {
    OrderedCut(p + FlatBranch(b), q);
    OrderedCut(p, FlatBranch(b));
    OrderedCut(FlatSlots(b.slots), Flat(b.tail));
    assert b.slots[..|b.slots|] == b.slots;
    forall i, j | 0 <= i < j < |b.slots| ensures Lt(b.slots[i].key, b.slots[j].key) {
      SlotsSorted(b.slots, i, j);
    }
  }

  lemma {:induction false} SlotsSorted(s: seq<Slot<Tree>>, i: nat, j: nat)
    requires Ordered(FlatSlots(s)) && i < j < |s|
    ensures Lt(s[i].key, s[j].key)
  {
    assert s == s[..j + 1] + s[j + 1..];
    FlatSlotsConcat(s[..j + 1], s[j + 1..]);
    OrderedCut(FlatSlots(s[..j + 1]), FlatSlots(s[j + 1..]));
    var x := SlotToken(s, i, j + 1);
    assert s[..j + 1][..j] == s[..j];
    var y := SlotToken(s, j, j + 1);
    var z := SlotToken(s, i, j);
    assert FlatSlots(s[..j + 1])[z] == Sep(s[i].key);
    assert TokLt(FlatSlots(s[..j + 1])[z], FlatSlots(s[..j + 1])[y]);
  }

  // ----- where the key belongs

  /** Everything left of the subtree at the end of the path is below k, everything right of it above. */
  ghost predicate Around(fs: seq<Frame>, k: Key) {
    PathOk(fs) && AllBelow(PathPre(fs), k) && AllAbove(PathPost(fs), k)
  }

  /** The child index a branch search ends with: keys before it are at most k, keys from it on greater. */
  ghost predicate ChildFor(b: Branch<Tree>, i: nat, k: Key) {
    && i <= |b.slots|
    && (forall j :: 0 <= j < i ==> Le(b.slots[j].key, k))
    && (forall j :: i <= j < |b.slots| ==> Lt(k, b.slots[j].key))
  }

  /** The slot a leaf search ends with. */
  ghost predicate LeafPos(recs: seq<Rec>, pos: nat, k: Key) {
    && pos <= |recs|
    && (forall j :: 0 <= j < pos ==> Lt(recs[j].key, k))
    && (forall j :: pos <= j < |recs| ==> Le(k, recs[j].key))
  }

  lemma {:induction false} BelowLast(s: seq<Tok>, k: Key)
    requires Ordered(s) && s != [] && Below(s[|s| - 1], k)
    ensures AllBelow(s, k)
  {
    BelowDown(s, |s| - 1, k);
    assert s[..|s|] == s;
  }

  lemma {:induction false} AboveFirst(s: seq<Tok>, k: Key)
    requires Ordered(s) && s != [] && Above(s[0], k)
    ensures AllAbove(s, k)
  {
    AboveUp(s, 0, k);
    assert s[0..] == s;
  }

  /** Descending keeps the key between what is left and what is right. */
  lemma {:induction false} AroundChild(fs: seq<Frame>, f: Frame, k: Key)
    requires Around(fs, k) && FrameOk(f) && ChildFor(f.t.b, f.i, k)
    requires Ordered(PathPre(fs) + Flat(f.t) + PathPost(fs))
    ensures Around(fs + [f], k)
  {
    var p, q, s := PathPre(fs), PathPost(fs), f.t.b.slots;
    assert (fs + [f])[..|fs|] == fs;
    FlatSetKid(f, f.t.b.Child(f.i));
    SetKidSame(f.t, f.i);
    var x, c, y := FramePre(f), Flat(f.t.b.Child(f.i)), FramePost(f);
    Regroup(p, x, c, y, q);
    hide Flat;
    OrderedCut(p + x + c, y + q);
    OrderedCut(p + x, c);
    if f.i > 0 {
      var z := SlotToken(s, f.i - 1, f.i);
      assert (p + x)[|p + x| - 1] == Sep(s[f.i - 1].key);
      BelowLast(p + x, k);
    } else {
      assert s[..0] == [] && p + x == p;
    }
    if f.i < |s| {
      assert (y + q)[0] == Sep(s[f.i].key);
      AboveFirst(y + q, k);
    } else {
      assert y + q == q;
    }
  }

  /** At a leaf, the position splits all the rest of the tree around the key, but for an equal record. */
  lemma {:induction false} AroundRecord(fs: seq<Frame>, recs: seq<Rec>, pos: nat, k: Key)
    requires Around(fs, k) && LeafPos(recs, pos, k)
    requires pos == |recs| || recs[pos].key != k
    requires Ordered(PathPre(fs) + Items(recs) + PathPost(fs))
    ensures AllBelow(PathPre(fs) + Items(recs[..pos]), k) && AllAbove(Items(recs[pos..]) + PathPost(fs), k)
  {
    OrderedCut(PathPre(fs) + Items(recs), PathPost(fs));
    OrderedCut(PathPre(fs), Items(recs));
    forall j | pos <= j < |recs| ensures Lt(k, recs[j].key) {
      LtTransitive(k, recs[j].key, k);
      LtTransitive(k, recs[pos].key, recs[j].key);
      LtTransitive(k, recs[pos].key, k);
      if j > pos { assert TokLt(Items(recs)[pos], Items(recs)[j]); }
    }
  }

  /** The records of a leaf as tokens, with one singled out. */
  lemma {:induction false} ItemsAt(recs: seq<Rec>, pos: nat)
    requires pos < |recs|
    ensures Items(recs) == Items(recs[..pos]) + [Item(recs[pos])] + Items(recs[pos + 1..])
  {}

  lemma {:induction false} BelowRecord(fs: seq<Frame>, recs: seq<Rec>, pos: nat, k: Key)
    requires Around(fs, k) && LeafPos(recs, pos, k)
    ensures AllBelow(PathPre(fs) + Items(recs[..pos]), k)
  {
    var p, s := PathPre(fs), PathPre(fs) + Items(recs[..pos]);
    hide PathPre;
    forall i | 0 <= i < |s| ensures Below(s[i], k) {
      if i < |p| { assert Below(p[i], k); }
    }
  }

  /** The map holds exactly what the search finds. */
  lemma {:induction false} FoundIsInMap(fs: seq<Frame>, recs: seq<Rec>, pos: nat, k: Key)
    requires Around(fs, k) && LeafPos(recs, pos, k)
    requires Ordered(PathPre(fs) + Items(recs) + PathPost(fs))
    ensures var m := MapOf(PathPre(fs) + Items(recs) + PathPost(fs));
      && (k in m <==> pos < |recs| && recs[pos].key == k)
      && (k in m ==> m[k] == recs[pos].value)
  {
    if pos < |recs| && recs[pos].key == k {
      hide Items, Ordered, MapOf, PathPre, PathPost, LeafPos, AllBelow, AllAbove;
      var l, x, r := Items(recs[..pos]), [Item(recs[pos])], Items(recs[pos + 1..]);
      ItemsAt(recs, pos);
      RegroupOne(PathPre(fs), l, x, r, PathPost(fs));
      MapOfAt(PathPre(fs) + l, recs[pos], r + PathPost(fs));
    } else {
      hide Items, Ordered, MapOf, PathPre, PathPost, AllBelow, AllAbove;
      AroundRecord(fs, recs, pos, k);
      ItemsConcat(recs[..pos], recs[pos..]);
      assert recs[..pos] + recs[pos..] == recs;
      RegroupRun(PathPre(fs), Items(recs[..pos]), Items(recs[pos..]), PathPost(fs));
      MapOfAbsent(PathPre(fs) + Items(recs[..pos]), k, Items(recs[pos..]) + PathPost(fs));
    }
  }

  /** k is the least of the map's keys that are not below the bound. */
  ghost predicate IsLeast(m: map<Key, Value>, bound: Key, k: Key) {
    k in m && Le(bound, k) && forall k' :: k' in m && Le(bound, k') ==> Le(k, k')
  }

  /** What stands before a record is below the key, and the record is not: it is the least such one. */
  lemma {:induction false} LeastAt(a: seq<Tok>, r: Rec, b: seq<Tok>, k: Key)
    requires Ordered(a + [Item(r)] + b) && AllBelow(a, k) && Le(k, r.key)
    ensures IsLeast(MapOf(a + [Item(r)] + b), k, r.key)
  {
    var s := a + [Item(r)] + b;
    hide Ordered, MapOf;
    MapOfAt(a, r, b);
    forall i | 0 <= i < |a| && s[i].Item? ensures Lt(s[i].rec.key, k) && !Le(k, s[i].rec.key) {
      assert Below(a[i], k);
      LtTransitive(s[i].rec.key, k, k);
    }
    forall k' | k' in MapOf(s) && Le(k, k') ensures Le(r.key, k') {
      var i := TokenOfKey(s, k');
      LtTransitive(r.key, k', k');
      if |a| < i { TokensApart(s, |a|, i); }
    }
  }

  /** The record at the lower bound of the leaf is the least of the whole map that is not below the key. */
  lemma {:induction false} LeastInMap(fs: seq<Frame>, recs: seq<Rec>, pos: nat, k: Key)
    requires Around(fs, k) && LeafPos(recs, pos, k) && pos < |recs|
    requires Ordered(PathPre(fs) + Items(recs) + PathPost(fs))
    ensures IsLeast(MapOf(PathPre(fs) + Items(recs) + PathPost(fs)), k, recs[pos].key)
  {
    assert Le(k, recs[pos].key);
    hide Items, Ordered, MapOf, PathPre, PathPost, LeafPos, Around, AllBelow, AllAbove, IsLeast;
    var p, l, x, r := PathPre(fs), Items(recs[..pos]), [Item(recs[pos])], Items(recs[pos + 1..]);
    ItemsAt(recs, pos);
    BelowRecord(fs, recs, pos, k);
    RegroupOne(p, l, x, r, PathPost(fs));
    LeastAt(p + l, recs[pos], r + PathPost(fs), k);
  }

  lemma {:induction false} TokensApart(s: seq<Tok>, i: nat, j: nat)
    requires Ordered(s) && i < j < |s|
    ensures TokLt(s[i], s[j])
  {}

  // ----- the path of a descent

  /** The node at depth j of a descent that ends at n. */
  function NodeAt(fs: seq<Frame>, n: Tree, j: nat): Tree
    requires j <= |fs|
  {
    if j < |fs| then fs[j].t else n
  }

  /** Node j + 1 is the child frame j goes through. */
  ghost predicate LinkAt(fs: seq<Frame>, n: Tree, j: nat)
    requires j < |fs|
  {
    FrameOk(fs[j]) && fs[j].t.b.Child(fs[j].i) == NodeAt(fs, n, j + 1)
  }

  /** A descent from t that ends at n. */
  ghost predicate Linked(t: Tree, fs: seq<Frame>, n: Tree) {
    NodeAt(fs, n, 0) == t && forall j :: 0 <= j < |fs| ==> LinkAt(fs, n, j)
  }

  lemma {:induction false} LinkedPlug(t: Tree, fs: seq<Frame>, n: Tree)
    requires Linked(t, fs, n)
    ensures PathOk(fs) && Plug(fs, n) == t
  {
    if fs != [] {
      var k := |fs| - 1;
      assert LinkAt(fs, n, k);
      SetKidSame(fs[k].t, fs[k].i);
      LinkedUp(t, fs, n);
      LinkedPlug(t, fs[..k], fs[k].t);
    }
  }

  lemma {:induction false} LinkedUp(t: Tree, fs: seq<Frame>, n: Tree)
    requires Linked(t, fs, n) && fs != []
    ensures Linked(t, fs[..|fs| - 1], fs[|fs| - 1].t)
  {
    var k := |fs| - 1;
    forall j | 0 <= j < k ensures LinkAt(fs[..k], fs[k].t, j) {
      assert LinkAt(fs, n, j);
    }
  }

  lemma {:induction false} LinkedDown(t: Tree, fs: seq<Frame>, n: Tree, i: nat)
    requires Linked(t, fs, n) && n.Inner? && i <= |n.b.slots|
    ensures Linked(t, fs + [Frame(n, i)], n.b.Child(i))
  {
    var fs' := fs + [Frame(n, i)];
    forall j | 0 <= j <= |fs| ensures LinkAt(fs', n.b.Child(i), j) {
      if j < |fs| { assert LinkAt(fs, n, j); }
    }
  }

  lemma {:induction false} WfChild(p: Tree, i: nat, h: nat, cap: TxId)
    requires WfRoot(p, h, cap) && p.Inner? && i <= |p.b.slots|
    ensures h > 0 && Wf(p.b.Child(i), h - 1, cap) && p.b.Child(i).tx <= p.tx
  {
    WfWeaken(p.b.Child(i), h - 1, p.tx, cap);
  }

  /** Node j of a descent in a well-formed tree of height h is well-formed at height h - j. */
  lemma {:induction false} LinkedWf(t: Tree, fs: seq<Frame>, n: Tree, h: nat, cap: TxId, j: nat)
    requires Linked(t, fs, n) && WfRoot(t, h, cap) && j <= |fs|
    ensures j <= h && WfRoot(NodeAt(fs, n, j), h - j, cap)
    ensures fs != [] ==> Wf(NodeAt(fs, n, j), h - j, cap)
  {
    hide Wf;
    if fs != [] {
      assert LinkAt(fs, n, 0);
    }
    if j > 0 {
      LinkedWf(t, fs, n, h, cap, j - 1);
      assert LinkAt(fs, n, j - 1);
      WfChild(fs[j - 1].t, fs[j - 1].i, h - j + 1, cap);
    }
  }

  lemma {:induction false} WfLeaf(t: Tree, h: nat, cap: TxId)
    requires WfRoot(t, h, cap)
    ensures t.Leaf? <==> h == 0
    ensures t.Inner? ==> t.b.slots != [] && BranchFits(t.b.slots)
    ensures t.Leaf? ==> LeafFits(t.recs)
    ensures t.tx <= cap
  {
    if t.Leaf? && t.recs == [] { assert LeafFits([]); }
  }

  /** One step of the descent keeps the key between what is left and right of the path. */
  lemma {:induction false} DescendChild(t: Tree, fs: seq<Frame>, n: Tree, i: nat, k: Key)
    requires Linked(t, fs, n) && n.Inner? && ChildFor(n.b, i, k) && Around(fs, k) && Ordered(Flat(t))
    ensures Linked(t, fs + [Frame(n, i)], n.b.Child(i)) && Around(fs + [Frame(n, i)], k)
  {
    hide Flat, Ordered, Plug, Around, FlatBranch;
    LinkedDown(t, fs, n, i);
    LinkedPlug(t, fs, n);
    FlatPlug(fs, n);
    AroundChild(fs, Frame(n, i), k);
  }

  lemma {:induction false} LinkedFlat(t: Tree, fs: seq<Frame>, n: Tree)
    requires Linked(t, fs, n)
    ensures PathOk(fs) && Flat(t) == PathPre(fs) + Flat(n) + PathPost(fs)
  {
    LinkedPlug(t, fs, n);
    FlatPlug(fs, n);
  }

  /** The nodes of an ordered tree are sorted. */
  lemma {:induction false} NodeSorted(t: Tree, fs: seq<Frame>, n: Tree)
    requires Linked(t, fs, n) && Ordered(Flat(t))
    ensures n.Leaf? ==> SortedKeys(LeafKeys(n.recs))
    ensures n.Inner? ==> SortedKeys(n.b.Keys())
  {
    LinkedFlat(t, fs, n);
    if n.Leaf? {
      LeafSorted(PathPre(fs), n.recs, PathPost(fs));
    } else {
      BranchSorted(PathPre(fs), n.b, PathPost(fs));
    }
  }

  /** The page of a node of the descent. */
  lemma {:induction false} NodeStored(pages: map<PageId, Page>, t: Tree, fs: seq<Frame>, n: Tree)
    requires Linked(t, fs, n) && InStore(pages, t)
    ensures InStore(pages, n)
  {
    LinkedPlug(t, fs, n);
    InStoreFocus(pages, fs, n);
  }

  lemma {:induction false} RootAround(t: Tree, k: Key)
    ensures Linked(t, [], t) && Around([], k)
  {}

  lemma {:induction false} NodeAtPage(pages: map<PageId, Page>, t: Tree, fs: seq<Frame>, n: Tree)
    requires Linked(t, fs, n) && InStore(pages, t)
    ensures n.id in pages && pages[n.id] == PageOf(n)
    ensures pages[n.id].LeafPage? <==> n.Leaf?
    ensures pages[n.id].BranchPage? <==> n.Inner?
    ensures n.Inner? ==> pages[n.id].b == Ids(n.b)
  {
    NodeStored(pages, t, fs, n);
  }

  /** The child the page points to is the child of the tree. */
  lemma {:induction false} NodeChild(n: Tree, i: nat, k: Key)
    requires n.Inner? && ChildFor(n.b, i, k)
    ensures i <= |n.b.slots| == |Ids(n.b).slots| && Ids(n.b).Child(i) == n.b.Child(i).id
  {}

  /** An equal key sends the search to the child right of it. */
  lemma {:induction false} ChildForKeys(b: Branch<Tree>, ks: seq<Key>, pos: nat, eq: bool, k: Key)
    requires ks == b.Keys() && SortedKeys(ks) && pos <= |ks|
    requires forall j :: 0 <= j < pos ==> Lt(ks[j], k)
    requires forall j :: pos <= j < |ks| ==> Le(k, ks[j])
    requires eq <==> pos < |ks| && ks[pos] == k
    ensures ChildFor(b, if eq then pos + 1 else pos, k)
  {
    forall j | 0 <= j < |ks| ensures b.slots[j].key == ks[j] && (Lt(ks[j], k) ==> Le(ks[j], k)) && Le(k, k) {
      LtTransitive(ks[j], k, k);
      LtTransitive(k, k, k);
    }
    forall j | pos <= j < |ks| && ks[j] != k ensures Lt(k, ks[j]) { LtTransitive(k, ks[j], k); }
    forall j | pos < j < |ks| ensures ks[j] != k {
      LtTransitive(k, ks[pos], ks[j]);
      LtTransitive(k, k, k);
    }
  }

  // ----- the leaf a key belongs to

  /** How many of the first keys are at most k. */
  function ChildIndex<C>(slots: seq<Slot<C>>, k: Key): (i: nat)
    ensures i <= |slots|
  {
    if slots == [] then 0
    else if Le(slots[|slots| - 1].key, k) then |slots|
    else ChildIndex(slots[..|slots| - 1], k)
  }

  /** The only leaf of t that may hold k. */
  function LeafFor(t: Tree, k: Key): (n: Tree)
    ensures n.Leaf?
  {
    match t
    case Leaf(_, _, _) => t
    case Inner(_, _, b) => LeafFor(b.Child(ChildIndex(b.slots, k)), k)
  }

  lemma {:induction false} ChildIndexUnique<C>(slots: seq<Slot<C>>, i: nat, k: Key)
    requires i <= |slots| && (forall j :: 0 <= j < i ==> Le(slots[j].key, k))
    requires forall j :: i <= j < |slots| ==> Lt(k, slots[j].key)
    ensures i == ChildIndex(slots, k)
  {
    if slots != [] {
      LtTransitive(k, slots[|slots| - 1].key, k);
      if i < |slots| { ChildIndexUnique(slots[..|slots| - 1], i, k); }
    }
  }

  lemma {:induction false} LeafForChild(n: Tree, i: nat, k: Key)
    requires n.Inner? && ChildFor(n.b, i, k)
    ensures LeafFor(n.b.Child(i), k) == LeafFor(n, k)
  {
    ChildIndexUnique(n.b.slots, i, k);
  }
}
