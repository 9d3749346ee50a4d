/** Branch edits seen on trees: what they do to children, order, pages and space. */
module Zipper {
  import opened Order
  import opened Nodes
  import opened Trees

  // ----- page ids of an edited branch

  lemma {:induction false} IdsInsert(b: Branch<Tree>, i: nat, key: Key, c: Tree, isRightChild: bool)
    requires i <= |b.slots|
    ensures Ids(b.Insert(i, key, c, isRightChild)) == Ids(b).Insert(i, key, c.id, isRightChild)
  {
    assert Ids(b.Insert(i, key, c, isRightChild)).slots == Ids(b).Insert(i, key, c.id, isRightChild).slots;
  }

  lemma {:induction false} IdsDelete(b: Branch<Tree>, i: nat, rightChild: bool)
    requires i < |b.slots|
    ensures Ids(b.Delete(i, rightChild)) == Ids(b).Delete(i, rightChild)
  {
    assert Ids(b.Delete(i, rightChild)).slots == Ids(b).Delete(i, rightChild).slots;
  }

  lemma {:induction false} IdsSetKey(b: Branch<Tree>, i: nat, key: Key)
    requires i < |b.slots|
    ensures Ids(b.SetKey(i, key)) == Ids(b).SetKey(i, key)
  {
    assert Ids(b.SetKey(i, key)).slots == Ids(b).SetKey(i, key).slots;
  }

  lemma {:induction false} IdsJoin(l: Branch<Tree>, key: Key, r: Branch<Tree>)
    ensures Ids(Join(l, key, r)) == Join(Ids(l), key, Ids(r))
  {
    assert Ids(Join(l, key, r)).slots == Join(Ids(l), key, Ids(r)).slots;
  }

  lemma {:induction false} IdsUsed(b: Branch<Tree>)
    ensures BranchUsed(Ids(b).slots) == BranchUsed(b.slots)
    ensures ShortKeys(Ids(b).slots) <==> ShortKeys(b.slots)
    ensures BranchFits(Ids(b).slots) <==> BranchFits(b.slots)
  {
    BranchUsedByKeys(Ids(b).slots, b.slots);
    assert forall i :: 0 <= i < |b.slots| ==> Ids(b).slots[i].key == b.slots[i].key;
  }

  // ----- two branches and the key between them

  lemma {:induction false} FlatJoin(l: Branch<Tree>, key: Key, r: Branch<Tree>)
    ensures FlatBranch(Join(l, key, r)) == FlatBranch(l) + [Sep(key)] + FlatBranch(r)
  {
    hide FlatSlots;
    FlatSlotsConcat(l.slots + [Slot(l.tail, key)], r.slots);
    FlatSlotsConcat(l.slots, [Slot(l.tail, key)]);
    FlatSlotsOne(Slot(l.tail, key));
    Regroup(FlatSlots(l.slots), Flat(l.tail), [Sep(key)], FlatSlots(r.slots), Flat(r.tail));
    Regroup(FlatSlots(l.slots), Flat(l.tail), [Sep(key)], [], FlatSlots(r.slots) + Flat(r.tail));
  }

  lemma {:induction false} BagJoin(l: Branch<Tree>, key: Key, r: Branch<Tree>)
    ensures BagBranch(Join(l, key, r)) == BagBranch(l) + BagBranch(r)
  {
    hide BagSlots;
    BagSlotsConcat(l.slots + [Slot(l.tail, key)], r.slots);
    BagSlotsConcat(l.slots, [Slot(l.tail, key)]);
    BagSlotsOne(Slot(l.tail, key));
  }

  /** The tree form of a cut made on page ids. */
  lemma {:induction false} CutLikeIds(w: Branch<Tree>, l: Branch<PageId>, key: Key, r: Branch<PageId>)
    returns (lb: Branch<Tree>, rb: Branch<Tree>)
    requires Join(l, key, r) == Ids(w)
    ensures Join(lb, key, rb) == w && Ids(lb) == l && Ids(rb) == r
  {
    var n := |l.slots|;
    assert |w.slots| == |Ids(w).slots| == n + 1 + |r.slots|;
    assert Ids(w).slots[n] == Slot(l.tail, key);
    lb := Branch(w.slots[..n], w.slots[n].left);
    rb := Branch(w.slots[n + 1..], w.tail);
    assert w.slots == w.slots[..n] + [w.slots[n]] + w.slots[n + 1..];
    assert Ids(lb).slots == Ids(w).slots[..n] == l.slots;
    assert Ids(rb).slots == Ids(w).slots[n + 1..] == r.slots;
  }

  // ----- a pair of neighbours below a branch

  /** The branch of g with a for the child on the path, and key and c right of it. */
  function Graft(g: Frame, a: Tree, key: Key, c: Tree): Tree
    requires FrameOk(g)
  {
    Inner(g.t.id, g.t.tx, g.t.b.SetChild(g.i, a).Insert(g.i, key, c, true))
  }

  /** Child ks and its right neighbour taken out: the frame they hang from. */
  function PairFrame(t: Tree, ks: nat): Frame
    requires t.Inner? && ks < |t.b.slots|
  {
    Frame(Inner(t.id, t.tx, t.b.Delete(ks, true)), ks)
  }

  lemma {:induction false} GraftChild(g: Frame, a: Tree, key: Key, c: Tree, j: nat)
    requires FrameOk(g) && j <= |g.t.b.slots| + 1
    ensures |Graft(g, a, key, c).b.slots| == |g.t.b.slots| + 1
    ensures Graft(g, a, key, c).b.Child(j) ==
      if j < g.i then g.t.b.Child(j) else if j == g.i then a else if j == g.i + 1 then c else g.t.b.Child(j - 1)
  {}

  /** A graft on page ids, and its way back. */
  lemma {:induction false} GraftIds(g: Frame, a: Tree, key: Key, c: Tree)
    requires FrameOk(g)
    ensures var n := Graft(g, a, key, c).b;
            && g.i < |n.slots| && n.slots[g.i].key == key
            && Ids(n) == Ids(g.t.b).SetChild(g.i, a.id).Insert(g.i, key, c.id, true)
            && n.Delete(g.i, true) == g.t.b.SetChild(g.i, a)
            && Ids(n).Delete(g.i, true) == Ids(g.t.b.SetChild(g.i, a))
  {
    var n := Graft(g, a, key, c).b;
    IdsInsert(g.t.b.SetChild(g.i, a), g.i, key, c, true);
    IdsSetChild(g.t.b, g.i, a);
    DeleteInserted(g.t.b.SetChild(g.i, a), g.i, key, c);
    IdsDelete(n, g.i, true);
  }

  /** Replacing the key between two grafted neighbours. */
  lemma {:induction false} GraftSetKey(g: Frame, a: Tree, key: Key, c: Tree, key': Key)
    requires FrameOk(g)
    ensures g.i < |Graft(g, a, key, c).b.slots|
    ensures Graft(g, a, key', c).b == Graft(g, a, key, c).b.SetKey(g.i, key')
  {
    assert Graft(g, a, key', c).b.slots == Graft(g, a, key, c).b.SetKey(g.i, key').slots;
  }

  /** The parts of a graft left of and right of the key. */
  lemma {:induction false} GraftSides(g: Frame, a: Tree, key: Key, c: Tree)
    requires FrameOk(g)
    ensures var b := g.t.b;
      Graft(g, a, key, c).b ==
        Join(Branch(b.slots[..g.i], a), key,
             if g.i == |b.slots| then Branch([], c)
             else Branch([Slot(c, b.slots[g.i].key)] + b.slots[g.i + 1..], b.tail))
  {}

  lemma {:induction false} FlatGraft(g: Frame, a: Tree, key: Key, c: Tree)
    requires FrameOk(g)
    ensures Flat(Graft(g, a, key, c)) == FramePre(g) + Flat(a) + [Sep(key)] + (Flat(c) + FramePost(g))
  {
    hide FlatSlots;
    var b := g.t.b;
    GraftSides(g, a, key, c);
    var l := Branch(b.slots[..g.i], a);
    if g.i == |b.slots| {
      FlatSlotsEmpty();
      FlatJoin(l, key, Branch([], c));
    } else {
      var s := Slot(c, b.slots[g.i].key);
      var r := Branch([s] + b.slots[g.i + 1..], b.tail);
      FlatJoin(l, key, r);
      FlatSlotsConcat([s], b.slots[g.i + 1..]);
      FlatSlotsOne(s);
      assert FlatBranch(r) == Flat(c) + FramePost(g);
    }
  }

  lemma {:induction false} FlatSlotsEmpty()
    ensures FlatSlots([]) == []
  {}

  lemma {:induction false} BagGraft(g: Frame, a: Tree, key: Key, c: Tree)
    requires FrameOk(g)
    ensures Bag(Graft(g, a, key, c)) == FrameBag(g) + Bag(a) + Bag(c)
  {
    var b := g.t.b;
    GraftSides(g, a, key, c);
    var l := Branch(b.slots[..g.i], a);
    if g.i == |b.slots| {
      BagJoin(l, key, Branch([], c));
    } else {
      var s := Slot(c, b.slots[g.i].key);
      BagJoin(l, key, Branch([s] + b.slots[g.i + 1..], b.tail));
      BagSlotsConcat([s], b.slots[g.i + 1..]);
      BagSlotsOne(s);
    }
  }

  // ----- space and shape

  /** All children of a branch are well-formed at height h. */
  ghost predicate KidsWf(b: Branch<Tree>, h: nat, cap: TxId) {
    forall i :: 0 <= i <= |b.slots| ==> Wf(b.Child(i), h, cap)
  }

  ghost predicate KidsIn(pages: map<PageId, Page>, b: Branch<Tree>) {
    forall i :: 0 <= i <= |b.slots| ==> InStore(pages, b.Child(i))
  }

  lemma {:induction false} KidsJoin(l: Branch<Tree>, key: Key, r: Branch<Tree>, h: nat, cap: TxId,
                                    pages: map<PageId, Page>)
    ensures KidsWf(Join(l, key, r), h, cap) <==> KidsWf(l, h, cap) && KidsWf(r, h, cap)
    ensures KidsIn(pages, Join(l, key, r)) <==> KidsIn(pages, l) && KidsIn(pages, r)
  {
    var j := Join(l, key, r);
    assert forall i :: 0 <= i <= |l.slots| ==> j.Child(i) == l.Child(i);
    assert forall i :: 0 <= i <= |r.slots| ==> j.Child(|l.slots| + 1 + i) == r.Child(i);
    assert forall i :: |l.slots| < i <= |j.slots| ==> j.Child(i) == r.Child(i - |l.slots| - 1);
  }

  lemma {:induction false} ShortKeysJoin<C>(l: Branch<C>, key: Key, r: Branch<C>)
    ensures ShortKeys(Join(l, key, r).slots) <==> ShortKeys(l.slots) && ShortKey(key) && ShortKeys(r.slots)
  {
    var j := Join(l, key, r);
    assert forall i :: 0 <= i < |l.slots| ==> j.slots[i] == l.slots[i];
    assert j.slots[|l.slots|].key == key;
    assert forall i :: 0 <= i < |r.slots| ==> j.slots[|l.slots| + 1 + i] == r.slots[i];
  }

  lemma {:induction false} FitsJoin<C>(l: Branch<C>, key: Key, r: Branch<C>)
    ensures BranchFits(Join(l, key, r).slots) <==>
      ShortKeys(l.slots) && ShortKeys(r.slots) && ShortKey(key)
      && BranchUsed(l.slots) + KeyCost(key) + BranchUsed(r.slots) <= MAX_SPACE
  {
    BranchUsedJoin(l, key, r);
    ShortKeysJoin(l, key, r);
  }

  lemma {:induction false} FitsInsert<C>(b: Branch<C>, i: nat, key: Key, c: C, isRightChild: bool)
    requires i <= |b.slots| && ShortKeys(b.slots) && ShortKey(key)
    ensures ShortKeys(b.Insert(i, key, c, isRightChild).slots)
    ensures BranchUsed(b.Insert(i, key, c, isRightChild).slots) == BranchUsed(b.slots) + KeyCost(key)
  {
    BranchUsedInsert(b, i, key, c, isRightChild);
  }

  lemma {:induction false} FitsDelete<C>(b: Branch<C>, i: nat, rightChild: bool)
    requires i < |b.slots| && ShortKeys(b.slots)
    ensures ShortKeys(b.Delete(i, rightChild).slots)
    ensures BranchUsed(b.Delete(i, rightChild).slots) + KeyCost(b.slots[i].key) == BranchUsed(b.slots)
  {
    BranchUsedDelete(b, i, rightChild);
  }

  lemma {:induction false} FitsSetChild<C>(b: Branch<C>, i: nat, c: C)
    requires i <= |b.slots|
    ensures BranchUsed(b.SetChild(i, c).slots) == BranchUsed(b.slots)
    ensures ShortKeys(b.slots) <==> ShortKeys(b.SetChild(i, c).slots)
    ensures BranchFits(b.slots) <==> BranchFits(b.SetChild(i, c).slots)
  {
    BranchUsedSetChild(b, i, c);
    assert forall j :: 0 <= j < |b.slots| ==> b.SetChild(i, c).slots[j].key == b.slots[j].key;
  }

  /** g without its pair: a branch of the transaction whose other children are well-formed; it may have no key. */
  ghost predicate PairFrameWf(g: Frame, h: nat, cur: TxId) {
    && FrameOk(g) && h > 0 && g.t.tx == cur && BranchFits(g.t.b.slots)
    && forall i :: 0 <= i <= |g.t.b.slots| && i != g.i ==> Wf(g.t.b.Child(i), h - 1, cur)
  }

  lemma {:induction false} WfGraft(g: Frame, a: Tree, key: Key, c: Tree, h: nat, cur: TxId)
    requires PairFrameWf(g, h + 1, cur) && Wf(a, h, cur) && Wf(c, h, cur) && ShortKey(key)
    ensures KidsWf(Graft(g, a, key, c).b, h, cur) && ShortKeys(Graft(g, a, key, c).b.slots)
    ensures BranchUsed(Graft(g, a, key, c).b.slots) == BranchUsed(g.t.b.slots) + KeyCost(key)
    ensures BranchUsed(g.t.b.slots) + KeyCost(key) <= MAX_SPACE ==> Wf(Graft(g, a, key, c), h + 1, cur)
  {
    FitsSetChild(g.t.b, g.i, a);
    FitsInsert(g.t.b.SetChild(g.i, a), g.i, key, c, true);
    var n := Graft(g, a, key, c);
    forall j | 0 <= j <= |n.b.slots| ensures Wf(n.b.Child(j), h, cur) {
      GraftChild(g, a, key, c, j);
    }
  }

  /** The other children of a grafted branch stay stored when only foreign pages change. */
  lemma {:induction false} KidsInGraft(pages: map<PageId, Page>, pages': map<PageId, Page>,
                                       g: Frame, a0: Tree, key0: Key, c0: Tree, a: Tree, key: Key, c: Tree)
    requires FrameOk(g) && KidsIn(pages, Graft(g, a0, key0, c0).b)
    requires InStore(pages', a) && InStore(pages', c)
    requires SameOn(pages, pages', OtherBag(g))
    ensures KidsIn(pages', Graft(g, a, key, c).b)
  {
    var n, n0 := Graft(g, a, key, c), Graft(g, a0, key0, c0);
    forall j | 0 <= j <= |n.b.slots| ensures InStore(pages', n.b.Child(j)) {
      GraftChild(g, a, key, c, j);
      GraftChild(g, a0, key0, c0, j);
      if j != g.i && j != g.i + 1 {
        FrameBagOther(g, if j < g.i then j else j - 1);
        SameOnPart(pages, pages', OtherBag(g), Bag(n.b.Child(j)));
        assert InStore(pages, n0.b.Child(j));
        InStoreFrame(pages, pages', n.b.Child(j));
      }
    }
  }
}
