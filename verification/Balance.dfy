/** Why borrowing and merging always fit, and that they keep both neighbours well-formed. */
module Balance {
  import opened Order
  import opened Nodes
  import opened NodeMoves
  import opened Trees
  import opened Zipper
  import opened Steps
  import opened Shrinks

  /** The test that selects borrowing: sibling.GetFillRate() > 0.5 && sibling.count() >= 2. */
  predicate CanLend(used: nat, count: nat) { FillAbove50(used) && count >= 2 }

  // ----- space

  /** A leaf of inline records. */
  ghost predicate InlineLeaf(recs: seq<Rec>) {
    LeafUsed(recs) <= MAX_SPACE && forall i :: 0 <= i < |recs| ==> Inline(recs[i])
  }

  /** A branch of inline keys. */
  ghost predicate InlineBranch<C>(slots: seq<Slot<C>>) {
    BranchUsed(slots) <= MAX_SPACE && forall i :: 0 <= i < |slots| ==> InlineKey(slots[i].key)
  }

  lemma {:induction false} LeafUsedOfOne(recs: seq<Rec>)
    requires InlineLeaf(recs) && |recs| < 2
    ensures 2 * LeafUsed(recs) <= MAX_SPACE
  {
    if |recs| == 1 { assert recs[..0] == []; }
  }

  lemma {:induction false} BranchUsedOfOne<C>(slots: seq<Slot<C>>)
    requires InlineBranch(slots) && |slots| < 2
    ensures 2 * BranchUsed(slots) <= MAX_SPACE
  {
    if |slots| == 1 { assert slots[..0] == []; }
  }

  /** A leaf below 40% has room for any inline record. */
  lemma {:induction false} LeafBorrowFits(node: seq<Rec>, i: nat, r: Rec)
    requires InlineLeaf(node) && !FillAtLeast40(LeafUsed(node)) && Inline(r) && i <= |node|
    ensures InlineLeaf(InsertAt(node, i, r))
  {
    LeafUsedInsert(node, i, r);
  }

  /** A leaf below 40% and a sibling that cannot lend fit into one leaf, whatever inline records they hold. */
  lemma {:induction false} LeafMergeFits(l: seq<Rec>, r: seq<Rec>, node: seq<Rec>, sib: seq<Rec>)
    requires InlineLeaf(l) && InlineLeaf(r)
    requires (node == l && sib == r) || (node == r && sib == l)
    requires !FillAtLeast40(LeafUsed(node)) && !CanLend(LeafUsed(sib), |sib|)
    ensures LeafUsed(l) + LeafUsed(r) <= MAX_SPACE && InlineLeaf(l + r)
  {
    if |sib| < 2 { LeafUsedOfOne(sib); }
    LeafUsedConcat(l, r);
  }

  /** The same for the leaves of a tree, whose keys are also short. */
  lemma {:induction false} TreeLeafBorrowFits(node: seq<Rec>, i: nat, r: Rec)
    requires LeafFits(node) && !FillAtLeast40(LeafUsed(node)) && RecOk(r) && i <= |node|
    ensures LeafFits(InsertAt(node, i, r))
  {
    LeafBorrowFits(node, i, r);
  }

  lemma {:induction false} TreeLeafMergeFits(l: seq<Rec>, r: seq<Rec>, node: seq<Rec>, sib: seq<Rec>)
    requires LeafFits(l) && LeafFits(r)
    requires (node == l && sib == r) || (node == r && sib == l)
    requires !FillAtLeast40(LeafUsed(node)) && !CanLend(LeafUsed(sib), |sib|)
    ensures LeafUsed(l) + LeafUsed(r) <= MAX_SPACE && LeafFits(l + r)
  {
    LeafMergeFits(l, r, node, sib);
  }

  lemma {:induction false} LeafRemoveFits(recs: seq<Rec>, i: nat)
    requires LeafFits(recs) && i < |recs|
    ensures LeafFits(RemoveAt(recs, i))
  {
    LeafUsedRemove(recs, i);
  }

  /** The two neighbours are branches of inline keys, and the fill tests send them to a merge. */
  ghost predicate SelectedForMerge<C>(l: Branch<C>, r: Branch<C>) {
    && InlineBranch(l.slots) && InlineBranch(r.slots)
    && ((!FillAtLeast40(BranchUsed(l.slots)) && !CanLend(BranchUsed(r.slots), |r.slots|))
        || (!FillAtLeast40(BranchUsed(r.slots)) && !CanLend(BranchUsed(l.slots), |l.slots|)))
  }

  /** The merged branch, with the separator, fits a node. */
  predicate MergeHasRoom<C>(l: Branch<C>, key: Key, r: Branch<C>) {
    BranchUsed(l.slots) + KeyCost(key) + BranchUsed(r.slots) <= MAX_SPACE
  }

  lemma {:induction false} ShortKeyHasRoom<C>(l: Branch<C>, key: Key, r: Branch<C>)
    requires SelectedForMerge(l, r) && ShortKey(key)
    ensures MergeHasRoom(l, key, r)
  {
    if |l.slots| < 2 { BranchUsedOfOne(l.slots); }
    if |r.slots| < 2 { BranchUsedOfOne(r.slots); }
  }

  /** A key of a given size. */
  function KeyOf(n: nat): (k: Key)
    ensures |k| == n
  {
    seq(n, _ => 0)
  }

  /** For a longer separator there are neighbours sent to a merge that does not fit. */
  lemma {:induction false} LongKeyOverflows(key: Key) returns (l: Branch<PageId>, r: Branch<PageId>)
    requires !ShortKey(key)
    ensures SelectedForMerge(l, r) && !MergeHasRoom(l, key, r)
  {
    l := Branch([Slot(2, KeyOf((2 * MAX_SPACE - 1) / 5 - SLOT_SIZE))], 3);
    r := Branch([Slot(4, KeyOf(MAX_SPACE / 2 - SLOT_SIZE))], 5);
    OneSlotUsed(l.slots[0]);
    OneSlotUsed(r.slots[0]);
  }

  /** Every merge the tests select has room for its separator exactly if the separator is short. */
  lemma {:induction false} MergeFitsIffShortKey(key: Key)
    ensures (forall l: Branch<PageId>, r: Branch<PageId> | SelectedForMerge(l, r) :: MergeHasRoom(l, key, r))
        <==> ShortKey(key)
  {
    if ShortKey(key) {
      forall l: Branch<PageId>, r: Branch<PageId> | SelectedForMerge(l, r) ensures MergeHasRoom(l, key, r) {
        ShortKeyHasRoom(l, key, r);
      }
    } else {
      var l, r := LongKeyOverflows(key);
    }
  }

  /** A branch below 40%, a sibling that cannot lend, and the key between fit into one branch. */
  lemma {:induction false} BranchMergeFits<C>(l: Branch<C>, key: Key, r: Branch<C>, node: Branch<C>, sib: Branch<C>)
    requires BranchFits(l.slots) && BranchFits(r.slots) && ShortKey(key)
    requires (node == l && sib == r) || (node == r && sib == l)
    requires !FillAtLeast40(BranchUsed(node.slots)) && !CanLend(BranchUsed(sib.slots), |sib.slots|)
    ensures BranchUsed(l.slots) + KeyCost(key) + BranchUsed(r.slots) <= MAX_SPACE
    ensures BranchFits(Join(l, key, r).slots)
  {
    hide BranchUsed;
    assert InlineBranch(l.slots) && InlineBranch(r.slots) by {
      assert forall i :: 0 <= i < |l.slots| ==> ShortKey(l.slots[i].key);
      assert forall i :: 0 <= i < |r.slots| ==> ShortKey(r.slots[i].key);
    }
    ShortKeyHasRoom(l, key, r);
    FitsJoin(l, key, r);
  }

  // ----- branches

  /** The neighbours after the last slot of a has gone through the parent to c. */
  function LendRight(a: Tree, key: Key, c: Tree): (Tree, Key, Tree)
    requires a.Inner? && c.Inner? && a.b.slots != []
  {
    var last := |a.b.slots| - 1;
    (Inner(a.id, a.tx, a.b.Delete(last, true)), a.b.slots[last].key,
     Inner(c.id, c.tx, c.b.Insert(0, key, a.b.tail, false)))
  }

  /** The neighbours after the first slot of c has gone through the parent to a. */
  function LendLeft(a: Tree, key: Key, c: Tree): (Tree, Key, Tree)
    requires a.Inner? && c.Inner? && c.b.slots != []
  {
    (Inner(a.id, a.tx, a.b.Insert(|a.b.slots|, key, c.b.Child(0), true)), c.b.slots[0].key,
     Inner(c.id, c.tx, c.b.Delete(0, false)))
  }

  lemma {:induction false} LendShared(a: Tree, key: Key, c: Tree)
    requires a.Inner? && c.Inner?
    ensures a.b.slots != [] ==> var (a', key', c') := LendRight(a, key, c); Shared(a, key, c, a', key', c')
    ensures c.b.slots != [] ==> var (a', key', c') := LendLeft(a, key, c); Shared(a, key, c, a', key', c')
  {
    if a.b.slots != [] {
      var (a', key', c') := LendRight(a, key, c);
      assert Join(a'.b, key', c'.b).slots == Join(a.b, key, c.b).slots;
    }
    if c.b.slots != [] {
      var (a', key', c') := LendLeft(a, key, c);
      assert Join(a'.b, key', c'.b).slots == Join(a.b, key, c.b).slots;
    }
  }

  /** Sharing slots keeps children, keys and order; if both sides fit, both are well-formed. */
  lemma {:induction false} SharedWf(a: Tree, key: Key, c: Tree, a': Tree, key': Key, c': Tree, h: nat, cur: TxId)
    requires a.Inner? && Shared(a, key, c, a', key', c') && ShortKey(key) && h > 0
    requires WeakNode(a, h, cur) && WeakNode(c, h, cur) && a'.tx == cur && c'.tx == cur
    requires BranchUsed(a'.b.slots) <= MAX_SPACE && BranchUsed(c'.b.slots) <= MAX_SPACE
    requires a'.b.slots != [] && c'.b.slots != []
    ensures Wf(a', h, cur) && Wf(c', h, cur) && ShortKey(key')
    ensures Flat(a') + [Sep(key')] + Flat(c') == Flat(a) + [Sep(key)] + Flat(c)
  {
    hide ShortKeys, BranchUsed, FlatBranch, Join, KidsWf;
    ShortKeysJoin(a.b, key, c.b);
    ShortKeysJoin(a'.b, key', c'.b);
    KidsJoin(a.b, key, c.b, h - 1, cur, map[]);
    KidsJoin(a'.b, key', c'.b, h - 1, cur, map[]);
    FlatJoin(a.b, key, c.b);
    FlatJoin(a'.b, key', c'.b);
    KidsWfIsWf(a', h, cur);
    KidsWfIsWf(c', h, cur);
  }

  lemma {:induction false} KidsWfIsWf(t: Tree, h: nat, cur: TxId)
    requires t.Inner? && h > 0 && t.tx == cur && t.b.slots != [] && BranchFits(t.b.slots) && KidsWf(t.b, h - 1, cur)
    ensures Wf(t, h, cur)
  {}

  /** Borrowing from the left: the node had less than 40%, the sibling at least two slots. */
  lemma {:induction false} BorrowFromLeft(a: Tree, key: Key, c: Tree, h: nat, cur: TxId)
    requires a.Inner? && c.Inner? && h > 0 && ShortKey(key) && WeakNode(a, h, cur) && WeakNode(c, h, cur)
    requires !FillAtLeast40(BranchUsed(c.b.slots)) && |a.b.slots| >= 2
    ensures var (a', key', c') := LendRight(a, key, c);
      && Shared(a, key, c, a', key', c') && Wf(a', h, cur) && Wf(c', h, cur) && ShortKey(key')
      && Flat(a') + [Sep(key')] + Flat(c') == Flat(a) + [Sep(key)] + Flat(c)
      && BranchUsed(c.b.slots) + KeyCost(key) <= MAX_SPACE
  {
    hide BranchUsed, Flat, KidsWf, Wf, Shared, ShortKeys, Join;
    var (a', key', c') := LendRight(a, key, c);
    LendShared(a, key, c);
    BranchUsedDelete(a.b, |a.b.slots| - 1, true);
    BranchUsedInsert(c.b, 0, key, a.b.tail, false);
    SharedWf(a, key, c, a', key', c', h, cur);
  }

  lemma {:induction false} BorrowFromRight(a: Tree, key: Key, c: Tree, h: nat, cur: TxId)
    requires a.Inner? && c.Inner? && h > 0 && ShortKey(key) && WeakNode(a, h, cur) && WeakNode(c, h, cur)
    requires !FillAtLeast40(BranchUsed(a.b.slots)) && |c.b.slots| >= 2
    ensures var (a', key', c') := LendLeft(a, key, c);
      && Shared(a, key, c, a', key', c') && Wf(a', h, cur) && Wf(c', h, cur) && ShortKey(key')
      && Flat(a') + [Sep(key')] + Flat(c') == Flat(a) + [Sep(key)] + Flat(c)
      && BranchUsed(a.b.slots) + KeyCost(key) <= MAX_SPACE
  {
    hide BranchUsed, Flat, KidsWf, Wf, Shared, ShortKeys, Join;
    var (a', key', c') := LendLeft(a, key, c);
    LendShared(a, key, c);
    BranchUsedDelete(c.b, 0, false);
    BranchUsedInsert(a.b, |a.b.slots|, key, c.b.Child(0), true);
    SharedWf(a, key, c, a', key', c', h, cur);
  }

  /** The page ids of lent branches: what the code writes. */
  lemma {:induction false} LendIds(a: Tree, key: Key, c: Tree)
    requires a.Inner? && c.Inner?
    ensures |Ids(a.b).slots| == |a.b.slots| && |Ids(c.b).slots| == |c.b.slots|
    ensures a.b.slots != [] ==> var (a', key', c') := LendRight(a, key, c); var last := |a.b.slots| - 1;
      && Ids(a'.b) == Ids(a.b).Delete(last, true) && key' == Ids(a.b).slots[last].key
      && Ids(c'.b) == Ids(c.b).Insert(0, key, Ids(a.b).tail, false)
    ensures c.b.slots != [] ==> var (a', key', c') := LendLeft(a, key, c);
      && Ids(a'.b) == Ids(a.b).Insert(|a.b.slots|, key, Ids(c.b).Child(0), true) && key' == Ids(c.b).slots[0].key
      && Ids(c'.b) == Ids(c.b).Delete(0, false)
  {
    if a.b.slots != [] {
      IdsDelete(a.b, |a.b.slots| - 1, true);
      IdsInsert(c.b, 0, key, a.b.tail, false);
    }
    if c.b.slots != [] {
      IdsInsert(a.b, |a.b.slots|, key, c.b.Child(0), true);
      IdsDelete(c.b, 0, false);
    }
  }

  /** Merging two branches: all tests and the assert hold, and the result is well-formed. */
  lemma {:induction false} MergeBranchesWf(a: Tree, key: Key, c: Tree, h: nat, cur: TxId, left: bool)
    requires a.Inner? && c.Inner? && h > 0 && ShortKey(key) && WeakNode(a, h, cur) && WeakNode(c, h, cur)
    requires var node, sib := if left then c.b else a.b, if left then a.b else c.b;
      !FillAtLeast40(BranchUsed(node.slots)) && !CanLend(BranchUsed(sib.slots), |sib.slots|)
    ensures BranchUsed(a.b.slots) + KeyCost(key) + BranchUsed(c.b.slots) <= MAX_SPACE
    ensures var m := Inner(a.id, cur, Join(a.b, key, c.b));
      && MergeOf(a, key, c, m) && Wf(m, h, cur) && Flat(m) == Flat(a) + [Sep(key)] + Flat(c)
      && Ids(m.b) == Join(Ids(a.b), key, Ids(c.b))
  {
    var m := Inner(a.id, cur, Join(a.b, key, c.b));
    IdsJoin(a.b, key, c.b);
    FlatJoin(a.b, key, c.b);
    assert m.b.slots != [];
    hide BranchUsed, FlatBranch, Ids, Join, KidsWf, ShortKeys;
    BranchMergeFits(a.b, key, c.b, if left then c.b else a.b, if left then a.b else c.b);
    KidsJoin(a.b, key, c.b, h - 1, cur, map[]);
    KidsWfIsWf(m, h, cur);
  }
}
