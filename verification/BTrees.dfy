/** btree.cpp: insertion and deletion on a stored tree, driven by the path stack of an iterator. */
module BTrees {
  import opened Order
  import opened Nodes
  import opened NodeMoves
  import opened Trees
  import opened Tokens
  import opened FreeSpace
  import opened Zipper
  import opened Steps
  import opened Shrinks
  import opened Balance
  import opened Leaves
  import opened Searching
  import opened Heights
  import opened Paths
  import opened Shapes
  import opened Pagers

  /** An element of BTreeIterator::stack_. */
  datatype Entry = Entry(pgid: PageId, slot: nat)

  datatype Status = Invalid | Eq | Ne | Iter

  const STACK_SIZE: nat := 32  // detail::Stack<std::pair<PageId, SlotId>, 32>

  class BTreeIterator {
    var stack: seq<Entry>
    var status: Status

    constructor ()
      ensures stack == [] && status == Invalid
    {
      stack, status := [], Invalid;
    }
  }

  /** The stack holds the path, root first. */
  ghost predicate OnPath(stack: seq<Entry>, fs: seq<Frame>) {
    |stack| == |fs| && forall j :: 0 <= j < |fs| ==> stack[j] == Entry(fs[j].t.id, fs[j].i)
  }

  class BTree {
    const pager: Pager

    constructor (pager: Pager)
      ensures this.pager == pager
    {
      this.pager := pager;
    }

    /**
     * Put(Iterator*, Node&& left, Node&& right, key): enters key and right next to left, splitting
     * upward as far as needed. The tree reads as before with the key and right's content in place.
     */
    method PutUp(iter: BTreeIterator, left: PageId, right: PageId, key: Key, ghost fs: seq<Frame>,
                 ghost lt: Tree, ghost rt: Tree, ghost h: nat, ghost rest: multiset<PageId>)
      returns (ghost t: Tree, ghost h': nat)
      requires OnPath(iter.stack, fs) && left == lt.id && right == rt.id
      requires pager.InTx() && Rising(pager.TheWorld(), fs, lt, key, rt, h, rest)
      requires pager.meta.pageCount + |fs| < PAGE_MAX_COUNT
      modifies pager, iter
      ensures pager.InTx() && Rooted(pager.TheWorld(), t, h', rest)
      ensures Wrote(old(pager.TheSnap()), pager.TheSnap())
      ensures pager.meta.pageCount <= old(pager.meta.pageCount) + |fs| + 1
      ensures Flat(t) == RisingFlat(fs, lt, key, rt)
      ensures Risen(t, fs, lt, key, rt, pager.meta.txid)
      decreases |fs|
    {
      hide Rooted, Rising, Wrote, Flat, RisingFlat, Pager.InTx, Risen, CutInTwo, HasRoom, Plug, Graft;
      if iter.stack == [] {
        t := PutRoot(left, right, key, lt, rt, h, rest);
        return t, h + 1;
      }
      ghost var s := pager.TheSnap();
      var top := iter.stack[|iter.stack| - 1];
      var fits, rid, up;
      ghost var lt', rt';
      fits, rid, up, t, lt', rt' := PutIntoParent(top, right, key, fs, lt, rt, h, rest);
      if fits {
        RisenHere(t, fs, lt, key, rt, pager.meta.txid);
        return t, h + |fs|;
      }
      ghost var s1 := pager.TheSnap();
      iter.stack := iter.stack[..|iter.stack| - 1];
      t, h' := PutUp(iter, top.pgid, rid, up, fs[..|fs| - 1], lt', rt', h + 1, rest);
      pager.SameTx(s1);
      RisenAbove(t, fs, lt, key, rt, pager.meta.txid, lt', up, rt');
      WroteThen(s, s1, pager.TheSnap());
    }

    /** One level of Put(Iterator*, ...): the parent takes the key, or is split. */
    method PutIntoParent(top: Entry, right: PageId, key: Key, ghost fs: seq<Frame>,
                         ghost lt: Tree, ghost rt: Tree, ghost h: nat, ghost rest: multiset<PageId>)
      returns (fits: bool, rid: PageId, up: Key, ghost t: Tree, ghost lt': Tree, ghost rt': Tree)
      requires fs != [] && top == Entry(fs[|fs| - 1].t.id, fs[|fs| - 1].i) && right == rt.id
      requires pager.InTx() && Rising(pager.TheWorld(), fs, lt, key, rt, h, rest)
      requires pager.meta.pageCount < PAGE_MAX_COUNT
      modifies pager
      ensures pager.InTx() && Wrote(old(pager.TheSnap()), pager.TheSnap())
      ensures pager.meta.pageCount <= old(pager.meta.pageCount) + 1
      ensures fits ==> Rooted(pager.TheWorld(), t, h + |fs|, rest) && Flat(t) == RisingFlat(fs, lt, key, rt)
      ensures !fits ==>
        && lt'.id == top.pgid && rt'.id == rid && PathOk(fs) && PathOk(fs[..|fs| - 1])
        && Rising(pager.TheWorld(), fs[..|fs| - 1], lt', up, rt', h + 1, rest)
        && RisingFlat(fs[..|fs| - 1], lt', up, rt') == RisingFlat(fs, lt, key, rt)
      ensures FrameOk(fs[|fs| - 1]) && PathOk(fs) && PathOk(fs[..|fs| - 1])
      ensures fits == HasRoom(fs[|fs| - 1].t, key)
      ensures if fits then t == Plug(fs[..|fs| - 1], Graft(fs[|fs| - 1], lt, key, rt))
              else CutInTwo(fs[|fs| - 1], lt, key, rt, pager.meta.txid, lt', up, rt')
    {
      hide Rooted, Rising, RisingAt, Wrote, Flat, RisingFlat, BranchUsed, BranchFits, Plug, Graft, Join, Once,
           Pager.InTx, CutInTwo, BranchCut;
      ghost var w := pager.TheWorld();
      ghost var init, f := fs[..|fs| - 1], fs[|fs| - 1];
      pager.HeldOnce();
      RisingLast(w, fs, lt, key, rt, h, rest);
      RisingParent(w, init, f, lt, key, rt, h, rest);
      RisingFlatOf(w, fs, lt, key, rt, h, rest);
      var node := pager.pages[top.pgid].b;
      lt', rt', rid, up := lt, rt, right, key;
      fits := BranchUsed(node.slots) + KeyCost(key) <= MAX_SPACE;
      if fits {
        pager.SetPage(top.pgid, BranchPage(pager.meta.txid, node.Insert(top.slot, key, right, true)));
        t := RiseFits(w, init, f, lt, key, rt, h, rest);
      } else {
        t := lt;
        ShortKeysNeverFallBack(node.slots, top.slot, key);
        var l, r;
        l, up, r := SplitBranch(node, top.slot, key, right);
        rid := pager.SplitPage(top.pgid, BranchPage(pager.meta.txid, l), BranchPage(pager.meta.txid, r));
        lt', rt' := RiseSplit(w, init, f, lt, key, rt, h, rest, l, up, r, rid);
        HalvesAreParts(f, lt, key, rt, w.cur, lt', up, rt', node.slots);
      }
    }

    /** The part of Put(Iterator*, ...) for a split root: a new root over both halves. */
    method PutRoot(left: PageId, right: PageId, key: Key, ghost lt: Tree, ghost rt: Tree, ghost h: nat,
                   ghost rest: multiset<PageId>)
      returns (ghost t: Tree)
      requires left == lt.id && right == rt.id
      requires pager.InTx() && Rising(pager.TheWorld(), [], lt, key, rt, h, rest)
      requires pager.meta.pageCount < PAGE_MAX_COUNT
      modifies pager
      ensures pager.InTx() && Rooted(pager.TheWorld(), t, h + 1, rest)
      ensures Wrote(old(pager.TheSnap()), pager.TheSnap())
      ensures pager.meta.pageCount <= old(pager.meta.pageCount) + 1
      ensures Flat(t) == RisingFlat([], lt, key, rt)
      ensures Risen(t, [], lt, key, rt, pager.meta.txid)
    {
      hide Rooted, Rising, Wrote, Flat, RisingFlat, Pager.InTx, Pager.Valid;
      ghost var w, s := pager.TheWorld(), pager.TheSnap();
      var node := Branch([], left).Insert(0, key, right, true);
      assert node == Branch([Slot(left, key)], right);
      var id := pager.NewPage(BranchPage(pager.meta.txid, node));
      ghost var s1 := pager.TheSnap();
      pager.SetRoot(id);
      WroteThen(s, s1, pager.TheSnap());
      t := RiseRoot(w, lt, key, rt, h, rest, id);
    }

    /** GetSibling: the right sibling, or the left one for the last child; ks is the slot of the key between. */
    method GetSibling(iter: BTreeIterator, ghost fs: seq<Frame>, ghost n: Tree, ghost h: nat,
                      ghost rest: multiset<PageId>)
      returns (pid: PageId, ks: nat, sid: PageId, left: bool,
               ghost g: Frame, ghost a: Tree, ghost key: Key, ghost c: Tree)
      requires OnPath(iter.stack, fs) && fs != []
      requires pager.InTx() && Weak(pager.TheWorld(), fs, n, h, rest)
      modifies iter
      ensures iter.stack == old(iter.stack)[..|fs| - 1]
      ensures PathOk(fs) && PathOk(fs[..|fs| - 1]) && FrameOk(g) && pid == g.t.id && ks == g.i
      ensures Paired(pager.TheWorld(), fs[..|fs| - 1], g, a, key, c, h, rest)
      ensures if left then sid == a.id && c == n && Wf(a, h, pager.meta.txid)
              else sid == c.id && a == n && Wf(c, h, pager.meta.txid)
      ensures PairFlat(fs[..|fs| - 1], g, a, key, c) == PathPre(fs) + Flat(n) + PathPost(fs)
      ensures var f := fs[|fs| - 1];
        && f.t.b.slots != [] && g == PairFrame(f.t, PairSlot(f)) && key == f.t.b.slots[PairSlot(f)].key
        && left == LeftSibling(f) && (if left then a else c) == Sibling(f)
    {
      hide Paired, Flat, BranchUsed, BranchFits, Plug, Once, Pager.InTx, PairFlat, PathPre, PathPost, Wf, InStore,
           PathWf, WeakNode, PathBag, Ids;
      ghost var init := fs[..|fs| - 1];
      g, a, key, c := PairUp(pager.TheWorld(), fs, n, h, rest);
      PairUpFlat(fs, n, g, a, key, c);
      PairParent(pager.TheWorld(), init, g, a, key, c, h, rest);
      PairSlots(fs[|fs| - 1], a, key, c);
      var top := iter.stack[|iter.stack| - 1];
      var parent := pager.pages[top.pgid].b;
      pid, ks := top.pgid, top.slot;
      left := ks == |parent.slots|;
      sid := if left then parent.Child(ks - 1) else parent.Child(ks + 1);
      iter.stack := iter.stack[..|iter.stack| - 1];
      if left { ks := ks - 1; }
    }

    /** The copy of the sibling that both Deletes make next: it becomes a page of this transaction. */
    method OwnSibling(pid: PageId, ks: nat, sid: PageId, left: bool, ghost fs: seq<Frame>, ghost g: Frame,
                      ghost a: Tree, ghost key: Key, ghost c: Tree, ghost h: nat, ghost rest: multiset<PageId>)
      returns (id: PageId, ghost a': Tree, ghost c': Tree)
      requires pager.InTx() && Paired(pager.TheWorld(), fs, g, a, key, c, h, rest)
      requires pid == g.t.id && ks == g.i && sid == (if left then a else c).id
      requires Wf(if left then a else c, h, pager.meta.txid) && (if left then c else a).tx == pager.meta.txid
      requires pager.meta.pageCount < PAGE_MAX_COUNT
      modifies pager
      ensures pager.InTx() && Wrote(old(pager.TheSnap()), pager.TheSnap())
      ensures pager.meta.pageCount <= old(pager.meta.pageCount) + 1
      ensures PathOk(fs) && FrameOk(g) && Paired(pager.TheWorld(), fs, g, a', key, c', h, rest)
      ensures a'.tx == c'.tx == pager.meta.txid && a'.Leaf? == a.Leaf? && c'.Leaf? == c.Leaf?
      ensures if left then id == a'.id && c' == c && Wf(a', h, pager.meta.txid)
              else id == c'.id && a' == a && Wf(c', h, pager.meta.txid)
      ensures PairFlat(fs, g, a', key, c') == PairFlat(fs, g, a, key, c)
      ensures OwnCopy(if left then a else c, if left then a' else c', pager.meta.txid)
      ensures (if left then a else c).tx == pager.meta.txid ==>
        pager.TheWorld() == old(pager.TheWorld()) && pager.TheSnap() == old(pager.TheSnap())
    {
      hide Paired, Wrote, Flat, BranchUsed, BranchFits, Plug, Once, Pager.InTx, PathPre, PathPost, InStore,
           PathWf, WeakNode, PathBag, Ids, FramePre, FramePost;
      ghost var w := pager.TheWorld();
      PairParent(w, fs, g, a, key, c, h, rest);
      pager.HeldOnce();
      ghost var o := if left then a else c;
      id, a', c' := sid, a, c;
      WroteNothing(pager.TheSnap());
      if pager.pages[sid].tx < pager.meta.txid {
        PairIds(w, fs, g, a, key, c, h, rest);
        id := pager.CopyPageBelow(sid, pid, if left then ks else ks + 1);
        a' := if left then Retag(a, id, w.cur) else a;
        c' := if left then c else Retag(c, id, w.cur);
        RetagFacts(o, id, w.cur, h);
        GraftSetLeft(g, a, key, c, a');
        GraftSetRight(g, a, key, c, c');
        CopySibling(w, pager.TheWorld(), fs, g, a, key, c, h, rest, left, o, a', c');
      }
    }

    /**
     * The end of both borrows: the parent gets the new key. If it does not fit, the old key is deleted
     * and the new one inserted upward.
     */
    method SetSeparator(iter: BTreeIterator, pid: PageId, ks: nat, key': Key, left: PageId, right: PageId,
                        ghost fs: seq<Frame>, ghost g: Frame, ghost a: Tree, ghost key: Key, ghost c: Tree,
                        ghost h: nat, ghost rest: multiset<PageId>)
      returns (ghost t: Tree, ghost h': nat)
      requires OnPath(iter.stack, fs) && |fs| < STACK_SIZE
      requires pager.InTx() && Paired(pager.TheWorld(), fs, g, a, key, c, h, rest) && PathOk(fs) && FrameOk(g)
      requires pid == g.t.id && ks == g.i && left == a.id && right == c.id
      requires Wf(a, h, pager.meta.txid) && Wf(c, h, pager.meta.txid) && ShortKey(key')
      requires pager.meta.pageCount + |fs| + 1 < PAGE_MAX_COUNT
      modifies pager, iter
      ensures pager.InTx() && Rooted(pager.TheWorld(), t, h', rest)
      ensures Wrote(old(pager.TheSnap()), pager.TheSnap())
      ensures pager.meta.pageCount <= old(pager.meta.pageCount) + |fs| + 2
      ensures Flat(t) == PairFlat(fs, g, a, key', c)
      ensures Separated(t, fs, g, a, key', c, pager.meta.txid)
    {
      hide Rooted, Paired, Rising, Wrote, Flat, RisingFlat, PairFlat, Pager.InTx, Wf, BranchUsed, Graft, Ids, ShortKey,
           PathOk, PageOf, Plug, Once, Risen;
      ghost var w := pager.TheWorld();
      pager.HeldOnce();
      PairParent(w, fs, g, a, key, c, h, rest);
      SeparatorPages(w, fs, g, a, key, c, h, rest, key');
      var parent := pager.pages[pid].b;
      if BranchUsed(parent.slots) - KeyCost(parent.slots[ks].key) + KeyCost(key') <= MAX_SPACE {
        pager.SetPage(pid, BranchPage(pager.meta.txid, parent.SetKey(ks, key')));
        t := NewKeyFits(w, fs, g, a, key, c, h, rest, key');
        h' := h + 1 + |fs|;
      } else {
        NewKeyRises(w, fs, g, a, key, c, h, rest, key');
        t, h' := RaiseSeparator(iter, pid, ks, key', left, right, parent, fs, g, a, c, h, rest);
      }
    }

    /** Deletes key ks of the parent and inserts key' between left and right upward. */
    method RaiseSeparator(iter: BTreeIterator, pid: PageId, ks: nat, key': Key, left: PageId, right: PageId,
                          parent: Branch<PageId>, ghost fs: seq<Frame>, ghost g: Frame, ghost a: Tree, ghost c: Tree,
                          ghost h: nat, ghost rest: multiset<PageId>)
      returns (ghost t: Tree, ghost h': nat)
      requires OnPath(iter.stack, fs) && |fs| < STACK_SIZE
      requires pid == g.t.id && ks == g.i && left == a.id && right == c.id && ks < |parent.slots|
      requires pager.InTx() && pid in pager.pages && pager.pages[pid] == BranchPage(pager.meta.txid, parent)
      requires PathOk(fs + [g])
      requires Rising(pager.TheWorld().(
                        pages := pager.pages[pid := BranchPage(pager.meta.txid, parent.Delete(ks, true))]),
                      fs + [g], a, key', c, h, rest)
      requires pager.meta.pageCount + |fs| + 1 < PAGE_MAX_COUNT
      modifies pager, iter
      ensures pager.InTx() && Rooted(pager.TheWorld(), t, h', rest)
      ensures Wrote(old(pager.TheSnap()), pager.TheSnap())
      ensures pager.meta.pageCount <= old(pager.meta.pageCount) + |fs| + 2
      ensures Flat(t) == RisingFlat(fs + [g], a, key', c)
      ensures Risen(t, fs + [g], a, key', c, pager.meta.txid)
    {
      hide Rooted, Rising, Wrote, Flat, RisingFlat, Pager.InTx, PathOk, Risen;
      ghost var s := pager.TheSnap();
      pager.SetPage(pid, BranchPage(pager.meta.txid, parent.Delete(ks, true)));
      ghost var s1 := pager.TheSnap();
      iter.stack := iter.stack + [Entry(pid, ks)];
      t, h' := PutUp(iter, left, right, key', fs + [g], a, c, h, rest);
      WroteThen(s, s1, pager.TheSnap());
    }

    /** Borrowing between branches, up to the new separator. */
    method BorrowBranch(pid: PageId, ks: nat, nid: PageId, sid: PageId, left: bool, ghost fs: seq<Frame>,
                        ghost g: Frame,
                        ghost a: Tree, ghost key: Key, ghost c: Tree, ghost h: nat, ghost rest: multiset<PageId>)
      returns (key': Key, ghost a': Tree, ghost c': Tree)
      requires pager.InTx() && Paired(pager.TheWorld(), fs, g, a, key, c, h, rest) && PathOk(fs) && FrameOk(g)
      requires pid == g.t.id && ks == g.i && h > 0 && a.Inner? && c.Inner?
      requires a.tx == c.tx == pager.meta.txid
      requires if left then sid == a.id && nid == c.id else nid == a.id && sid == c.id
      requires !FillAtLeast40(BranchUsed((if left then c else a).b.slots))
      requires |(if left then a else c).b.slots| >= 2
      modifies pager
      ensures pager.InTx() && Wrote(old(pager.TheSnap()), pager.TheSnap()) && pager.meta == old(pager.meta)
      ensures Paired(pager.TheWorld(), fs, g, a', key, c', h, rest)
      ensures a'.id == a.id && c'.id == c.id && ShortKey(key')
      ensures Wf(a', h, pager.meta.txid) && Wf(c', h, pager.meta.txid)
      ensures PairFlat(fs, g, a', key', c') == PairFlat(fs, g, a, key, c)
      ensures (a', key', c') == Lent(left, a, key, c)
    {
      hide Paired, Wrote, Flat, PairFlat, Pager.InTx, Wf, BranchUsed, Graft, Ids, ShortKey, WeakNode, HalfWf,
           PathOk, Plug, Once, InStore;
      ghost var w := pager.TheWorld();
      pager.HeldOnce();
      PairParent(w, fs, g, a, key, c, h, rest);
      PairWeak(w, fs, g, a, key, c, h, rest);
      LendIds(a, key, c);
      var node, sibling := pager.pages[nid].b, pager.pages[sid].b;
      var down := pager.pages[pid].b.slots[ks].key;
      var txid := pager.meta.txid;
      if left {
        BorrowFromLeft(a, key, c, h, w.cur);
        ghost var l := LendRight(a, key, c);
        a', c' := l.0, l.2;
        var last := |sibling.slots| - 1;
        key' := sibling.slots[last].key;
        Borrow(w, fs, g, a, key, c, h, rest, a', key', c');
        PairFlatSame(fs, g, a, key, c, a', key', c');
        pager.SetTwoPages(sid, BranchPage(txid, sibling.Delete(last, true)),
                          nid, BranchPage(txid, node.Insert(0, down, sibling.tail, false)));
      } else {
        BorrowFromRight(a, key, c, h, w.cur);
        ghost var l := LendLeft(a, key, c);
        a', c' := l.0, l.2;
        key' := sibling.slots[0].key;
        Borrow(w, fs, g, a, key, c, h, rest, a', key', c');
        PairFlatSame(fs, g, a, key, c, a', key', c');
        pager.SetTwoPages(nid, BranchPage(txid, node.Insert(|node.slots|, down, sibling.Child(0), true)),
                          sid, BranchPage(txid, sibling.Delete(0, false)));
      }
    }

    /** Merge(BranchNode&&, ...): the right neighbour's content goes to the left one, its page is freed. */
    method MergeBranchPages(pid: PageId, ks: nat, nid: PageId, sid: PageId, left: bool, ghost fs: seq<Frame>,
                            ghost g: Frame,
                            ghost a: Tree, ghost key: Key, ghost c: Tree, ghost h: nat, ghost rest: multiset<PageId>)
      returns (ghost m: Tree)
      requires pager.InTx() && Paired(pager.TheWorld(), fs, g, a, key, c, h, rest) && PathOk(fs) && FrameOk(g)
      requires pid == g.t.id && ks == g.i && h > 0 && a.Inner? && c.Inner?
      requires a.tx == c.tx == pager.meta.txid
      requires if left then sid == a.id && nid == c.id else nid == a.id && sid == c.id
      requires !FillAtLeast40(BranchUsed((if left then c else a).b.slots))
      requires var sib := (if left then a else c).b.slots; !CanLend(BranchUsed(sib), |sib|)
      modifies pager
      ensures pager.InTx() && Wrote(old(pager.TheSnap()), pager.TheSnap()) && pager.meta == old(pager.meta)
      ensures Merged(pager.TheWorld(), fs, g, m, h, rest) && m == MergedNode(a, key, c)
      ensures Flat(m) == Flat(a) + [Sep(key)] + Flat(c)
    {
      hide Paired, Wrote, Flat, Pager.InTx, Wf, BranchUsed, Graft, Ids, ShortKey, WeakNode, HalfWf,
           PathOk, Plug, Once, InStore, Merged, Join;
      ghost var w := pager.TheWorld();
      pager.HeldOnce();
      PairParent(w, fs, g, a, key, c, h, rest);
      PairWeak(w, fs, g, a, key, c, h, rest);
      MergeBranchesWf(a, key, c, h, w.cur, left);
      IdsUsed(a.b);
      IdsUsed(c.b);
      m := Inner(a.id, w.cur, Join(a.b, key, c.b));
      MergePair(w, fs, g, a, key, c, h, rest, m);
      var l, r := if left then sid else nid, if left then nid else sid;
      var down := pager.pages[pid].b.slots[ks].key;
      var merged := MergeBranches(pager.pages[l].b, pager.pages[r].b, down, INVALID_PAGE);
      pager.SetAndFree(l, BranchPage(pager.meta.txid, merged), r);
    }

    /**
     * Delete(Iterator*, BranchNode&&, left_del_slot_id): the branch drops the key and the right one of
     * two merged children, and is itself borrowed for, merged or collapsed as needed.
     */
    method DeleteUp(iter: BTreeIterator, id: PageId, slot: nat, ghost fs: seq<Frame>, ghost g: Frame,
                    ghost m: Tree, ghost h: nat, ghost rest: multiset<PageId>)
      returns (ghost t: Tree, ghost h': nat)
      requires OnPath(iter.stack, fs) && |fs| < STACK_SIZE && PathOk(fs) && FrameOk(g)
      requires pager.InTx() && Merged(pager.TheWorld(), fs, g, m, h, rest) && id == g.t.id && slot == g.i
      requires pager.meta.pageCount + 2 * |fs| + 1 < PAGE_MAX_COUNT
      modifies pager, iter
      ensures pager.InTx() && Rooted(pager.TheWorld(), t, h', rest)
      ensures Wrote(old(pager.TheSnap()), pager.TheSnap())
      ensures pager.meta.pageCount <= old(pager.meta.pageCount) + 2 * |fs| + 1
      ensures Flat(t) == PathPre(fs) + Flat(SetKid(g.t, g.i, m)) + PathPost(fs)
      ensures Rebalanced(t, fs, SetKid(g.t, g.i, m), pager.meta.txid)
      decreases 3 * |fs| + 2
    {
      hide Rooted, Wrote, Flat, Pager.InTx, Wf, WeakNode, Merged, BranchUsed, PathOk, PathWf, Plug, InStore, PathBag,
           Bag, Rebalanced;
      ghost var s, w := pager.TheSnap(), pager.TheWorld();
      ghost var n := SetKid(g.t, g.i, m);
      DropKey(w, fs, g, m, h, rest);
      MergedPage(w, fs, g, m, h, rest);
      pager.SetPage(id, BranchPage(pager.meta.txid, pager.pages[id].b.Delete(slot, true)));
      ghost var s1 := pager.TheSnap();
      if iter.stack == [] {
        t, h' := CollapseRoot(id, n, h + 1, rest);
      } else {
        t, h' := RebalanceBranch(iter, id, fs, n, h + 1, rest);
      }
      WroteThen(s, s1, pager.TheSnap());
    }

    /** The root has lost a key: without keys it gives way to its only child. */
    method CollapseRoot(id: PageId, ghost n: Tree, ghost h: nat, ghost rest: multiset<PageId>)
      returns (ghost t: Tree, ghost h': nat)
      requires pager.InTx() && Weak(pager.TheWorld(), [], n, h, rest) && n.Inner? && id == n.id
      modifies pager
      ensures pager.InTx() && Rooted(pager.TheWorld(), t, h', rest)
      ensures Wrote(old(pager.TheSnap()), pager.TheSnap()) && pager.meta.pageCount == old(pager.meta.pageCount)
      ensures Flat(t) == PathPre([]) + Flat(n) + PathPost([])
      ensures Rebalanced(t, [], n, pager.meta.txid)
    {
      hide Rooted, Wrote, Flat, Pager.InTx, Wf, WeakNode, BranchUsed, InStore, Bag;
      ghost var w := pager.TheWorld();
      WeakPage(w, [], n, h, rest);
      WroteNothing(pager.TheSnap());
      var node := pager.pages[id].b;
      t, h' := n, h;
      if |node.slots| == 0 {
        Collapse(w, n, h, rest);
        pager.ReplaceRoot(node.tail, id);
        t, h' := n.b.tail, h - 1;
      } else {
        WeakDone(w, [], n, h, rest);
      }
    }

    /** The rest of Delete(Iterator*, BranchNode&&, ...) for a branch that is not the root. */
    method RebalanceBranch(iter: BTreeIterator, id: PageId, ghost fs: seq<Frame>, ghost n: Tree, ghost h: nat,
                           ghost rest: multiset<PageId>)
      returns (ghost t: Tree, ghost h': nat)
      requires OnPath(iter.stack, fs) && fs != [] && |fs| < STACK_SIZE && PathOk(fs)
      requires pager.InTx() && Weak(pager.TheWorld(), fs, n, h, rest) && n.Inner? && id == n.id
      requires pager.meta.pageCount + 2 * |fs| + 1 < PAGE_MAX_COUNT
      modifies pager, iter
      ensures pager.InTx() && Rooted(pager.TheWorld(), t, h', rest)
      ensures Wrote(old(pager.TheSnap()), pager.TheSnap())
      ensures pager.meta.pageCount <= old(pager.meta.pageCount) + 2 * |fs| + 1
      ensures Flat(t) == PathPre(fs) + Flat(n) + PathPost(fs)
      ensures Rebalanced(t, fs, n, pager.meta.txid)
      decreases 3 * |fs| + 1
    {
      hide Rooted, Wrote, Flat, Pager.InTx, Wf, WeakNode, BranchUsed, InStore, Bag, PathOk, PathWf, Plug, PathBag,
           Paired, PairFlat, Graft, PathPre, PathPost, Rebalanced, Settled, Sibling, PairFrame;
      ghost var s := pager.TheSnap();
      WeakPage(pager.TheWorld(), fs, n, h, rest);
      WroteNothing(s);
      if FillAtLeast40(BranchUsed(pager.pages[id].b.slots)) {
        WeakDone(pager.TheWorld(), fs, n, h, rest);
        StaysFilled(fs, n, pager.meta.txid);
        return Plug(fs, n), h + |fs|;
      }
      ghost var init := fs[..|fs| - 1];
      ghost var g, a, key, c;
      var pid, ks, sid, left;
      pid, ks, sid, left, g, a, key, c := GetSibling(iter, fs, n, h, rest);
      SameKind(pager.TheWorld(), init, g, a, key, c, h, rest);
      ghost var own;
      t, h', own := BorrowOrMergeBranch(iter, pid, ks, id, sid, left, init, g, a, key, c, h, rest);
      SettledPair(t, fs, n, g, a, key, c, left, own, pager.meta.txid);
    }

    method BorrowOrMergeBranch(iter: BTreeIterator, pid: PageId, ks: nat, nid: PageId, sid0: PageId, left: bool,
                               ghost fs: seq<Frame>, ghost g: Frame, ghost a0: Tree, ghost key: Key, ghost c0: Tree,
                               ghost h: nat, ghost rest: multiset<PageId>)
      returns (ghost t: Tree, ghost h': nat, ghost s: Tree)
      requires OnPath(iter.stack, fs) && |fs| + 1 < STACK_SIZE && PathOk(fs) && FrameOk(g)
      requires pager.InTx() && Paired(pager.TheWorld(), fs, g, a0, key, c0, h, rest) && h > 0
      requires pid == g.t.id && ks == g.i && a0.Inner? && c0.Inner?
      requires nid == (if left then c0 else a0).id && sid0 == (if left then a0 else c0).id
      requires (if left then c0 else a0).tx == pager.meta.txid && Wf(if left then a0 else c0, h, pager.meta.txid)
      requires !FillAtLeast40(BranchUsed((if left then c0 else a0).b.slots))
      requires pager.meta.pageCount + 2 * |fs| + 3 < PAGE_MAX_COUNT
      modifies pager, iter
      ensures pager.InTx() && Rooted(pager.TheWorld(), t, h', rest)
      ensures Wrote(old(pager.TheSnap()), pager.TheSnap())
      ensures pager.meta.pageCount <= old(pager.meta.pageCount) + 2 * |fs| + 3
      ensures Flat(t) == PairFlat(fs, g, a0, key, c0)
      ensures OwnCopy(if left then a0 else c0, s, pager.meta.txid) && s.Inner?
      ensures Settled(t, fs, g, if left then s else a0, key, if left then c0 else s, left, pager.meta.txid)
      decreases 3 * |fs| + 3
    {
      hide Rooted, Wrote, Flat, Pager.InTx, Wf, WeakNode, BranchUsed, InStore, Bag, PathOk, PathWf, Plug, PathBag,
           Paired, PairFlat, Graft, PathPre, PathPost, Merged, Settled, Rebalanced, Separated, Lent, MergedNode;
      ghost var s0 := pager.TheSnap();
      ghost var a, c;
      var sid;
      sid, a, c := OwnSibling(pid, ks, sid0, left, fs, g, a0, key, c0, h, rest);
      s := if left then a else c;
      ghost var s1, w := pager.TheSnap(), pager.TheWorld();
      WroteThen(s0, s1, s1);
      PairParent(w, fs, g, a, key, c, h, rest);
      IdsUsed((if left then a else c).b);
      var sibling := pager.pages[sid].b;
      if CanLend(BranchUsed(sibling.slots), |sibling.slots|) {
        var key';
        ghost var a', c';
        key', a', c' := BorrowBranch(pid, ks, nid, sid, left, fs, g, a, key, c, h, rest);
        ghost var s2 := pager.TheSnap();
        t, h' := SetSeparator(iter, pid, ks, key', if left then sid else nid, if left then nid else sid,
                              fs, g, a', key, c', h, rest);
        SettledIs(t, fs, g, a, key, c, left, pager.meta.txid);
        WroteThen(s1, s2, pager.TheSnap());
      } else {
        ghost var m := MergeBranchPages(pid, ks, nid, sid, left, fs, g, a, key, c, h, rest);
        ghost var s2 := pager.TheSnap();
        MergedFlat(fs, g, a, key, c, m);
        t, h' := DeleteUp(iter, pid, ks, fs, g, m, h, rest);
        SettledIs(t, fs, g, a, key, c, left, pager.meta.txid);
        WroteThen(s1, s2, pager.TheSnap());
      }
      WroteThen(s0, s1, pager.TheSnap());
      pager.SameTx(s1);
    }

    /** The record leaves the leaf's page: node.Delete(pos). */
    method DeleteRecord(id: PageId, pos: nat, ghost fs: seq<Frame>, ghost n: Tree, ghost rest: multiset<PageId>)
      returns (ghost n': Tree)
      requires pager.InTx() && Weak(pager.TheWorld(), fs, n, 0, rest) && n.Leaf? && id == n.id && pos < |n.recs|
      requires PathOk(fs) && Ordered(PathPre(fs) + Flat(n) + PathPost(fs))
      modifies pager
      ensures pager.InTx() && Wrote(old(pager.TheSnap()), pager.TheSnap()) && pager.meta == old(pager.meta)
      ensures Weak(pager.TheWorld(), fs, n', 0, rest) && n' == Leaf(n.id, n.tx, RemoveAt(n.recs, pos))
      ensures Ordered(PathPre(fs) + Flat(n') + PathPost(fs))
      ensures MapOf(PathPre(fs) + Flat(n') + PathPost(fs))
           == MapOf(PathPre(fs) + Flat(n) + PathPost(fs)) - {n.recs[pos].key}
    {
      hide Weak, Wrote, Flat, Pager.InTx, LeafUsed, InStore, Bag, PathOk, PathPre, PathPost, Ordered, MapOf, Once;
      ghost var w := pager.TheWorld();
      pager.HeldOnce();
      WeakPage(w, fs, n, 0, rest);
      WeakLeaf(w, fs, n, rest);
      n' := Leaf(n.id, n.tx, RemoveAt(n.recs, pos));
      LeafRemoveFits(n.recs, pos);
      LeafWrite(w, fs, n, n', rest);
      RemoveFlat(fs, n, pos, n');
      pager.SetPage(id, LeafPage(pager.meta.txid, RemoveAt(pager.pages[id].recs, pos)));
    }

    /** Delete(Iterator*): removes the record the iterator is at, and rebalances. */
    method DeleteAt(iter: BTreeIterator, ghost fs: seq<Frame>, ghost n: Tree, ghost rest: multiset<PageId>)
      returns (ghost t: Tree, ghost h': nat)
      requires |iter.stack| == |fs| + 1 && OnPath(iter.stack[..|fs|], fs) && |fs| < STACK_SIZE
      requires iter.stack[|fs|].pgid == n.id && n.Leaf? && iter.stack[|fs|].slot < |n.recs|
      requires pager.InTx() && Weak(pager.TheWorld(), fs, n, 0, rest)
      requires PathOk(fs) && Ordered(PathPre(fs) + Flat(n) + PathPost(fs))
      requires pager.meta.pageCount + 2 * |fs| + 1 < PAGE_MAX_COUNT
      modifies pager, iter
      ensures pager.InTx() && Rooted(pager.TheWorld(), t, h', rest)
      ensures Wrote(old(pager.TheSnap()), pager.TheSnap())
      ensures pager.meta.pageCount <= old(pager.meta.pageCount) + 2 * |fs| + 1
      ensures Ordered(Flat(t))
      ensures MapOf(Flat(t)) == MapOf(PathPre(fs) + Flat(n) + PathPost(fs)) - {n.recs[old(iter.stack)[|fs|].slot].key}
      ensures Rebalanced(t, fs, Leaf(n.id, n.tx, RemoveAt(n.recs, old(iter.stack)[|fs|].slot)), pager.meta.txid)
    {
      hide Weak, Rooted, Wrote, Flat, Pager.InTx, LeafUsed, InStore, Bag, PathOk, PathPre, PathPost, Ordered, MapOf,
           PathWf, Plug, Rebalanced, RemoveAt;
      ghost var s := pager.TheSnap();
      var front := iter.stack[|iter.stack| - 1];
      ghost var n' := DeleteRecord(front.pgid, front.slot, fs, n, rest);
      ghost var s1 := pager.TheSnap();
      WroteThen(s, s1, s1);
      WeakPage(pager.TheWorld(), fs, n', 0, rest);
      if FillAtLeast40(LeafUsed(pager.pages[front.pgid].recs)) {
        WeakDone(pager.TheWorld(), fs, n', 0, rest);
        StaysFilled(fs, n', pager.meta.txid);
        return Plug(fs, n'), |fs|;
      }
      iter.stack := iter.stack[..|iter.stack| - 1];
      if iter.stack == [] {
        WeakDone(pager.TheWorld(), fs, n', 0, rest);
        StaysFilled(fs, n', pager.meta.txid);
        return Plug(fs, n'), |fs|;
      }
      t, h' := RebalanceLeaf(iter, front.pgid, fs, n', rest);
      WroteThen(s, s1, pager.TheSnap());
    }

    /** The rest of Delete(Iterator*) for a leaf that is not the root. */
    method RebalanceLeaf(iter: BTreeIterator, nid: PageId, ghost fs: seq<Frame>, ghost n: Tree,
                         ghost rest: multiset<PageId>)
      returns (ghost t: Tree, ghost h': nat)
      requires OnPath(iter.stack, fs) && fs != [] && |fs| < STACK_SIZE && PathOk(fs)
      requires pager.InTx() && Weak(pager.TheWorld(), fs, n, 0, rest) && n.Leaf? && nid == n.id
      requires !FillAtLeast40(LeafUsed(n.recs)) && Ordered(PathPre(fs) + Flat(n) + PathPost(fs))
      requires pager.meta.pageCount + 2 * |fs| + 1 < PAGE_MAX_COUNT
      modifies pager, iter
      ensures pager.InTx() && Rooted(pager.TheWorld(), t, h', rest)
      ensures Wrote(old(pager.TheSnap()), pager.TheSnap())
      ensures pager.meta.pageCount <= old(pager.meta.pageCount) + 2 * |fs| + 1
      ensures Ordered(Flat(t)) && MapOf(Flat(t)) == MapOf(PathPre(fs) + Flat(n) + PathPost(fs))
      ensures Rebalanced(t, fs, n, pager.meta.txid)
    {
      hide Rooted, Wrote, Flat, Pager.InTx, Wf, WeakNode, LeafUsed, InStore, Bag, PathOk, PathWf, Plug, PathBag,
           Paired, PairFlat, Graft, PathPre, PathPost, Ordered, MapOf, Rebalanced, Settled, Sibling, PairFrame;
      ghost var s0 := pager.TheSnap();
      ghost var init := fs[..|fs| - 1];
      ghost var g, a0, key, c0;
      var pid, ks, sid0, left;
      WeakPage(pager.TheWorld(), fs, n, 0, rest);
      pid, ks, sid0, left, g, a0, key, c0 := GetSibling(iter, fs, n, 0, rest);
      SameKind(pager.TheWorld(), init, g, a0, key, c0, 0, rest);
      ghost var a, c;
      var sid;
      sid, a, c := OwnSibling(pid, ks, sid0, left, init, g, a0, key, c0, 0, rest);
      ghost var s1 := pager.TheSnap();
      t, h' := BorrowOrMergeLeaf(iter, pid, ks, nid, sid, left, init, g, a, key, c, rest);
      pager.SameTx(s1);
      SettledPair(t, fs, n, g, a0, key, c0, left, if left then a else c, pager.meta.txid);
      WroteThen(s0, s1, pager.TheSnap());
    }

    method BorrowOrMergeLeaf(iter: BTreeIterator, pid: PageId, ks: nat, nid: PageId, sid: PageId, left: bool,
                             ghost fs: seq<Frame>, ghost g: Frame, ghost a: Tree, ghost key: Key, ghost c: Tree,
                             ghost rest: multiset<PageId>)
      returns (ghost t: Tree, ghost h': nat)
      requires OnPath(iter.stack, fs) && |fs| + 1 < STACK_SIZE && PathOk(fs) && FrameOk(g)
      requires pager.InTx() && Paired(pager.TheWorld(), fs, g, a, key, c, 0, rest)
      requires pid == g.t.id && ks == g.i && a.Leaf? && c.Leaf? && a.tx == c.tx == pager.meta.txid
      requires nid == (if left then c else a).id && sid == (if left then a else c).id
      requires Wf(if left then a else c, 0, pager.meta.txid)
      requires !FillAtLeast40(LeafUsed((if left then c else a).recs)) && Ordered(PairFlat(fs, g, a, key, c))
      requires pager.meta.pageCount + 2 * |fs| + 2 < PAGE_MAX_COUNT
      modifies pager, iter
      ensures pager.InTx() && Rooted(pager.TheWorld(), t, h', rest)
      ensures Wrote(old(pager.TheSnap()), pager.TheSnap())
      ensures pager.meta.pageCount <= old(pager.meta.pageCount) + 2 * |fs| + 2
      ensures Ordered(Flat(t)) && MapOf(Flat(t)) == MapOf(PairFlat(fs, g, a, key, c))
      ensures Settled(t, fs, g, a, key, c, left, pager.meta.txid)
    {
      hide Rooted, Wrote, Flat, Pager.InTx, Wf, WeakNode, LeafUsed, InStore, Bag, PathOk, PathWf, Plug, PathBag,
           Paired, PairFlat, Graft, PathPre, PathPost, Ordered, MapOf, Merged, Settled, Rebalanced, Separated, Lent,
           MergedNode;
      ghost var s0, w := pager.TheSnap(), pager.TheWorld();
      PairParent(w, fs, g, a, key, c, 0, rest);
      var sibling := pager.pages[sid].recs;
      if CanLend(LeafUsed(sibling), |sibling|) {
        var key';
        ghost var a', c';
        key', a', c' := BorrowLeaf(pid, nid, sid, left, fs, g, a, key, c, rest);
        ghost var s1 := pager.TheSnap();
        t, h' := SetSeparator(iter, pid, ks, key', if left then sid else nid, if left then nid else sid,
                              fs, g, a', key, c', 0, rest);
        SettledIs(t, fs, g, a, key, c, left, pager.meta.txid);
        WroteThen(s0, s1, pager.TheSnap());
      } else {
        ghost var m := MergeLeafPages(nid, sid, left, fs, g, a, key, c, rest);
        ghost var s1 := pager.TheSnap();
        t, h' := DeleteUp(iter, pid, ks, fs, g, m, 0, rest);
        SettledIs(t, fs, g, a, key, c, left, pager.meta.txid);
        WroteThen(s0, s1, pager.TheSnap());
      }
    }

    /** Borrowing between leaves, up to the new separator. */
    method BorrowLeaf(pid: PageId, nid: PageId, sid: PageId, left: bool, ghost fs: seq<Frame>, ghost g: Frame,
                      ghost a: Tree, ghost key: Key, ghost c: Tree, ghost rest: multiset<PageId>)
      returns (key': Key, ghost a': Tree, ghost c': Tree)
      requires pager.InTx() && Paired(pager.TheWorld(), fs, g, a, key, c, 0, rest) && PathOk(fs) && FrameOk(g)
      requires a.Leaf? && c.Leaf? && a.tx == c.tx == pager.meta.txid
      requires nid == (if left then c else a).id && sid == (if left then a else c).id
      requires !FillAtLeast40(LeafUsed((if left then c else a).recs)) && |(if left then a else c).recs| >= 2
      requires Ordered(PairFlat(fs, g, a, key, c))
      modifies pager
      ensures pager.InTx() && Wrote(old(pager.TheSnap()), pager.TheSnap()) && pager.meta == old(pager.meta)
      ensures Paired(pager.TheWorld(), fs, g, a', key, c', 0, rest)
      ensures a'.id == a.id && c'.id == c.id && ShortKey(key')
      ensures Wf(a', 0, pager.meta.txid) && Wf(c', 0, pager.meta.txid)
      ensures Ordered(PairFlat(fs, g, a', key', c'))
      ensures MapOf(PairFlat(fs, g, a', key', c')) == MapOf(PairFlat(fs, g, a, key, c))
      ensures (a', key', c') == Lent(left, a, key, c)
    {
      hide Wrote, Flat, Pager.InTx, Wf, WeakNode, LeafUsed, InStore, Bag, PathOk, Plug, Paired, PairFlat, Graft,
           Ordered, MapOf, Once, ShortKey, HalfWf;
      ghost var w := pager.TheWorld();
      pager.HeldOnce();
      PairParent(w, fs, g, a, key, c, 0, rest);
      PairWeak(w, fs, g, a, key, c, 0, rest);
      var node, sibling := pager.pages[nid].recs, pager.pages[sid].recs;
      var txid := pager.meta.txid;
      var node', sibling';
      if left {
        var tail := |sibling| - 1;
        node', sibling' := InsertAt(node, 0, sibling[tail]), RemoveAt(sibling, tail);
        key' := node'[0].key;
        a', c' := Leaf(a.id, txid, sibling'), Leaf(c.id, txid, node');
      } else {
        node', sibling' := InsertAt(node, |node|, sibling[0]), RemoveAt(sibling, 0);
        key' := sibling'[0].key;
        a', c' := Leaf(a.id, txid, node'), Leaf(c.id, txid, sibling');
      }
      LeafLend(a, key, c, w.cur, left, a', c');
      Borrow(w, fs, g, a, key, c, 0, rest, a', key', c');
      LendFlat(fs, g, a, key, c, a', c');
      pager.SetTwoPages(if left then sid else nid, LeafPage(txid, if left then sibling' else node'),
                        if left then nid else sid, LeafPage(txid, if left then node' else sibling'));
    }

    /** Merge(LeafNode&&, LeafNode&&): the right leaf's records go to the left one, its page is freed. */
    method MergeLeafPages(nid: PageId, sid: PageId, left: bool, ghost fs: seq<Frame>, ghost g: Frame,
                          ghost a: Tree, ghost key: Key, ghost c: Tree, ghost rest: multiset<PageId>)
      returns (ghost m: Tree)
      requires pager.InTx() && Paired(pager.TheWorld(), fs, g, a, key, c, 0, rest) && PathOk(fs) && FrameOk(g)
      requires a.Leaf? && c.Leaf? && a.tx == c.tx == pager.meta.txid
      requires nid == (if left then c else a).id && sid == (if left then a else c).id
      requires Wf(if left then a else c, 0, pager.meta.txid)
      requires !FillAtLeast40(LeafUsed((if left then c else a).recs))
      requires var sib := (if left then a else c).recs; !CanLend(LeafUsed(sib), |sib|)
      requires Ordered(PairFlat(fs, g, a, key, c))
      modifies pager
      ensures pager.InTx() && Wrote(old(pager.TheSnap()), pager.TheSnap()) && pager.meta == old(pager.meta)
      ensures Merged(pager.TheWorld(), fs, g, m, 0, rest) && m == MergedNode(a, key, c)
      ensures Ordered(PathPre(fs) + Flat(SetKid(g.t, g.i, m)) + PathPost(fs))
      ensures MapOf(PathPre(fs) + Flat(SetKid(g.t, g.i, m)) + PathPost(fs)) == MapOf(PairFlat(fs, g, a, key, c))
    {
      hide Wrote, Flat, Pager.InTx, WeakNode, LeafUsed, InStore, Bag, PathOk, Plug, Paired, PairFlat, Graft,
           Ordered, MapOf, Once, ShortKey, HalfWf, Merged, PathPre, PathPost;
      ghost var w := pager.TheWorld();
      pager.HeldOnce();
      PairParent(w, fs, g, a, key, c, 0, rest);
      PairWeak(w, fs, g, a, key, c, 0, rest);
      MergeLeavesWf(a, key, c, w.cur, left);
      m := Leaf(a.id, w.cur, a.recs + c.recs);
      MergePair(w, fs, g, a, key, c, 0, rest, m);
      MergeFlat(fs, g, a, key, c, m);
      var l, r := if left then sid else nid, if left then nid else sid;
      var merged := MergeLeaves(pager.pages[l].recs, pager.pages[r].recs);
      pager.SetAndFree(l, LeafPage(pager.meta.txid, merged), r);
    }

    /** While a write transaction is open its tree can be read from its root. */
    lemma {:induction false} HoldsReadable(ot: Option<Tree>, h: nat, rest: multiset<PageId>)
      requires pager.InTx() && pager.meta.pageCount <= PAGE_MAX_COUNT && Holds(pager.TheWorld(), ot, h, rest)
      ensures ReadableRoot(pager.pages, pager.meta.userRoot, ot, h, pager.meta.txid, pager.meta.pageCount)
    {
      hide InStore, Wf, Ordered, Flat, Bag;
      pager.HeldInFile();
      if ot.Some? { assert rest + Bag(ot.value) <= FileBag(pager.meta.pageCount); }
    }

    /** node.Update(slot_id, key, value): in place if there is room, otherwise the old value stays. */
    method UpdateRecord(id: PageId, pos: nat, r: Rec, ghost fs: seq<Frame>, ghost n: Tree, ghost rest: multiset<PageId>)
      returns (ghost n': Tree)
      requires pager.InTx() && Weak(pager.TheWorld(), fs, n, 0, rest) && n.Leaf? && id == n.id && RecOk(r)
      requires PathOk(fs) && Around(fs, r.key) && LeafPos(n.recs, pos, r.key)
      requires pos < |n.recs| && n.recs[pos].key == r.key
      requires Ordered(PathPre(fs) + Flat(n) + PathPost(fs))
      modifies pager
      ensures pager.InTx() && Wrote(old(pager.TheSnap()), pager.TheSnap()) && pager.meta == old(pager.meta)
      ensures Weak(pager.TheWorld(), fs, n', 0, rest) && n'.Leaf? && n'.recs != []
      ensures n' == if RoomFor(n.recs, pos, r) then Leaf(n.id, n.tx, n.recs[pos := r]) else n
      ensures Ordered(PathPre(fs) + Flat(n') + PathPost(fs))
      ensures var m := MapOf(PathPre(fs) + Flat(n) + PathPost(fs));
        && r.key in m && m[r.key] == n.recs[pos].value
        && MapOf(PathPre(fs) + Flat(n') + PathPost(fs)) == if RoomFor(n.recs, pos, r) then m[r.key := r.value] else m
    {
      hide Weak, Frozen, Pager.InTx, LeafUsed, InStore, Bag, PathOk, PathPre, PathPost, Ordered, MapOf, Once, Around,
           LeafPos, RecOk, Items;
      ghost var w := pager.TheWorld();
      pager.HeldOnce();
      WeakPage(w, fs, n, 0, rest);
      WeakLeaf(w, fs, n, rest);
      ReplaceFlat(fs, n.recs, pos, r);
      WroteNothing(pager.TheSnap());
      n' := n;
      var recs := pager.pages[id].recs;
      if RoomFor(recs, pos, r) {
        n' := Leaf(n.id, n.tx, n.recs[pos := r]);
        LeafReplaceFits(n.recs, pos, r);
        LeafWrite(w, fs, n, n', rest);
        pager.SetPage(id, LeafPage(pager.meta.txid, recs[pos := r]));
      }
    }

    /** node.Insert(slot_id, key, value) with room in the leaf. */
    method InsertRecord(id: PageId, pos: nat, r: Rec, ghost fs: seq<Frame>, ghost n: Tree, ghost rest: multiset<PageId>)
      returns (ghost n': Tree)
      requires pager.InTx() && Weak(pager.TheWorld(), fs, n, 0, rest) && n.Leaf? && id == n.id && RecOk(r)
      requires PathOk(fs) && Around(fs, r.key) && LeafPos(n.recs, pos, r.key)
      requires pos == |n.recs| || n.recs[pos].key != r.key
      requires LeafUsed(n.recs) + RecCost(r) <= MAX_SPACE && Ordered(PathPre(fs) + Flat(n) + PathPost(fs))
      modifies pager
      ensures pager.InTx() && Wrote(old(pager.TheSnap()), pager.TheSnap()) && pager.meta == old(pager.meta)
      ensures Weak(pager.TheWorld(), fs, n', 0, rest) && n'.Leaf? && n'.recs != []
      ensures n' == Leaf(n.id, n.tx, InsertAt(n.recs, pos, r))
      ensures Ordered(PathPre(fs) + Flat(n') + PathPost(fs))
      ensures r.key !in MapOf(PathPre(fs) + Flat(n) + PathPost(fs))
      ensures MapOf(PathPre(fs) + Flat(n') + PathPost(fs))
           == MapOf(PathPre(fs) + Flat(n) + PathPost(fs))[r.key := r.value]
    {
      hide Weak, Frozen, Pager.InTx, LeafUsed, InStore, Bag, PathOk, PathPre, PathPost, Ordered, MapOf, Once, Around,
           RecOk, Items;
      ghost var w := pager.TheWorld();
      pager.HeldOnce();
      WeakPage(w, fs, n, 0, rest);
      WeakLeaf(w, fs, n, rest);
      n' := Leaf(n.id, n.tx, InsertAt(n.recs, pos, r));
      LeafInsertFits(n.recs, pos, r);
      LeafWrite(w, fs, n, n', rest);
      InsertFlat(fs, n.recs, pos, r);
      pager.SetPage(id, LeafPage(pager.meta.txid, InsertAt(pager.pages[id].recs, pos, r)));
    }

    /** The leaf is full: it is split, and the first key of the right half is inserted upward. */
    method SplitRecord(id: PageId, pos: nat, r: Rec, ghost fs: seq<Frame>, ghost n: Tree, ghost rest: multiset<PageId>)
      returns (rid: PageId, up: Key, ghost lt: Tree, ghost rt: Tree)
      requires pager.InTx() && Weak(pager.TheWorld(), fs, n, 0, rest) && n.Leaf? && id == n.id && RecOk(r)
      requires PathOk(fs) && Around(fs, r.key) && LeafPos(n.recs, pos, r.key)
      requires pos == |n.recs| || n.recs[pos].key != r.key
      requires LeafUsed(n.recs) + RecCost(r) > MAX_SPACE && Ordered(PathPre(fs) + Flat(n) + PathPost(fs))
      requires pager.meta.pageCount < PAGE_MAX_COUNT
      modifies pager
      ensures pager.InTx() && Wrote(old(pager.TheSnap()), pager.TheSnap())
      ensures pager.meta.pageCount <= old(pager.meta.pageCount) + 1
      ensures lt.id == id && rt.id == rid && Rising(pager.TheWorld(), fs, lt, up, rt, 0, rest)
      ensures LeafCutInTwo(n, pos, r, lt, up, rt)
      ensures Ordered(RisingFlat(fs, lt, up, rt))
      ensures r.key !in MapOf(PathPre(fs) + Flat(n) + PathPost(fs))
      ensures MapOf(RisingFlat(fs, lt, up, rt)) == MapOf(PathPre(fs) + Flat(n) + PathPost(fs))[r.key := r.value]
    {
      hide Weak, Frozen, Pager.InTx, LeafUsed, InStore, Bag, PathOk, PathPre, PathPost, Ordered, MapOf, Once, Around,
           Inline, ShortKey, Items, Rising, RisingFlat, LeafCut, LeafCutInTwo, InsertAt;
      ghost var w := pager.TheWorld();
      pager.HeldOnce();
      WeakPage(w, fs, n, 0, rest);
      WeakLeaf(w, fs, n, rest);
      InsertFlat(fs, n.recs, pos, r);
      var left, right := SplitLeaf(pager.pages[id].recs, pos, r);
      HalvesFit(n.recs, pos, r, left, right);
      rid := pager.SplitPage(id, LeafPage(pager.meta.txid, left), LeafPage(pager.meta.txid, right));
      lt, rt := Leaf(id, w.cur, left), Leaf(rid, w.cur, right);
      LeafSplit(w, fs, n, lt, rt, rest);
      LeafHalves(n, pos, r, left, right, rid);
      SplitLeafFlat(fs, InsertAt(n.recs, pos, r), lt, rt);
      up := right[0].key;
    }

    /** Put(Iterator*, key, value, false, ...) at a leaf: updates, inserts, or splits and inserts upward. */
    method PutAt(iter: BTreeIterator, key: Key, value: Value, ghost fs: seq<Frame>, ghost n: Tree,
                 ghost rest: multiset<PageId>)
      returns (ghost t: Tree, ghost h': nat)
      requires AtLeaf(iter.stack, fs, n) && LeafPos(n.recs, iter.stack[|fs|].slot, key)
      requires iter.status == LeafStatus(n.recs, iter.stack[|fs|].slot, key)
      requires pager.InTx() && Weak(pager.TheWorld(), fs, n, 0, rest) && RecOk(Rec(key, value))
      requires PathOk(fs) && Around(fs, key) && Ordered(PathPre(fs) + Flat(n) + PathPost(fs))
      requires pager.meta.pageCount + |fs| + 1 < PAGE_MAX_COUNT
      modifies pager, iter
      ensures pager.InTx() && Rooted(pager.TheWorld(), t, h', rest)
      ensures Wrote(old(pager.TheSnap()), pager.TheSnap())
      ensures pager.meta.pageCount <= old(pager.meta.pageCount) + |fs| + 2
      ensures Ordered(Flat(t))
      ensures var m := MapOf(PathPre(fs) + Flat(n) + PathPost(fs)); var pos := old(iter.stack)[|fs|].slot;
        && (key in m <==> pos < |n.recs| && n.recs[pos].key == key)
        && (key in m ==> m[key] == n.recs[pos].value)
        && MapOf(Flat(t)) == if key in m && !RoomFor(n.recs, pos, Rec(key, value)) then m else m[key := value]
      ensures Entered(t, fs, n, old(iter.stack)[|fs|].slot, Rec(key, value), pager.meta.txid)
    {
      hide Weak, Rooted, Rising, Wrote, Flat, RisingFlat, Pager.InTx, LeafUsed, InStore, Bag, PathOk, PathPre, PathPost,
           Ordered, MapOf, Plug, Around, LeafPos, RecOk, RoomFor, OnPath, Pager.TheSnap, Risen, LeafCutInTwo;
      ghost var s := pager.TheSnap();
      var front, r := iter.stack[|iter.stack| - 1], Rec(key, value);
      WeakPage(pager.TheWorld(), fs, n, 0, rest);
      FoundStatus(n.recs, front.slot, key);
      ghost var n';
      if iter.status == Eq {
        n' := UpdateRecord(front.pgid, front.slot, r, fs, n, rest);
        WeakDone(pager.TheWorld(), fs, n', 0, rest);
        return Plug(fs, n'), |fs|;
      }
      if LeafUsed(pager.pages[front.pgid].recs) + RecCost(r) <= MAX_SPACE {
        n' := InsertRecord(front.pgid, front.slot, r, fs, n, rest);
        WeakDone(pager.TheWorld(), fs, n', 0, rest);
        return Plug(fs, n'), |fs|;
      }
      var rid, up;
      ghost var lt, rt;
      rid, up, lt, rt := SplitRecord(front.pgid, front.slot, r, fs, n, rest);
      ghost var s1 := pager.TheSnap();
      iter.stack := iter.stack[..|iter.stack| - 1];
      t, h' := PutUp(iter, front.pgid, rid, up, fs, lt, rt, 0, rest);
      EnteredAbove(t, fs, n, front.slot, r, pager.meta.txid, lt, up, rt);
      WroteThen(s, s1, pager.TheSnap());
    }

    /** The first turn of CopyAllPagesByPath, at the leaf: copies it, unless it is this transaction's. */
    method CopyLeaf(id: PageId, ghost t: Tree, ghost h: nat, ghost fs: seq<Frame>, ghost n: Tree,
                    ghost rest: multiset<PageId>)
      returns (copied: bool, lower: PageId, ghost n': Tree)
      requires pager.InTx() && Rooted(pager.TheWorld(), t, h, rest) && Linked(t, fs, n) && n.Leaf? && id == n.id
      requires pager.meta.pageCount < PAGE_MAX_COUNT
      modifies pager
      ensures pager.InTx() && Wrote(old(pager.TheSnap()), pager.TheSnap())
      ensures pager.meta.pageCount <= old(pager.meta.pageCount) + 1
      ensures pager.meta.txid == old(pager.meta.txid) && n'.id == lower && n'.Leaf? && n'.recs == n.recs && PathOk(fs)
      ensures copied <==> n.tx < old(pager.meta.txid)
      ensures n.tx <= old(pager.meta.txid) && MovedAt(n'.id, n, pager.meta.txid, old(pager.Used()))
      ensures !copied ==> n' == n && Weak(pager.TheWorld(), fs, n, 0, rest)
      ensures !copied ==> pager.TheSnap() == old(pager.TheSnap()) && pager.TheWorld() == old(pager.TheWorld())
      ensures copied ==> Climbed(pager.TheWorld(), t, fs, n, |fs|, [], n', rest) && Bag(t) <= pager.Used()
    {
      hide Wf, InStore, Linked, Rooted, Weak, Wrote, Climbed, Pager.InTx, Bag, PathOk, Plug, PathBag, PendBag;
      ghost var w := pager.TheWorld();
      LeafOfPath(w, t, h, fs, n, rest);
      LeafCapped(w, t, h, fs, n, rest);
      WroteNothing(pager.TheSnap());
      copied, lower, n' := pager.pages[id].tx < pager.meta.txid, id, n;
      if copied {
        lower := pager.CopyPage(id);
        n' := Leaf(lower, w.cur, n.recs);
        ClimbLeaf(w, t, h, fs, n, lower, rest);
      } else {
        ClimbNothing(w, t, h, fs, n, rest);
      }
    }

    /** A further turn, at a branch: copies it or, if it is this transaction's, points it to the copy below. */
    method CopyBranchOfPath(top: Entry, child: PageId, ghost t: Tree, ghost h: nat, ghost fs: seq<Frame>, ghost n: Tree,
                            ghost k: nat, ghost cfs: seq<Frame>, ghost n': Tree, ghost rest: multiset<PageId>)
      returns (copied: bool, lower: PageId, ghost fs': seq<Frame>)
      requires pager.InTx() && Climbed(pager.TheWorld(), t, fs, n, k, cfs, n', rest) && WfRoot(t, h, pager.meta.txid)
      requires PathOk(fs) && PathOk(cfs) && child == Plug(cfs, n').id
      requires 0 < k <= |fs| && top == Entry(fs[k - 1].t.id, fs[k - 1].i)
      requires pager.meta.pageCount < PAGE_MAX_COUNT && Bag(t) <= pager.Used()
      modifies pager
      ensures pager.InTx() && Wrote(old(pager.TheSnap()), pager.TheSnap()) && Bag(t) <= pager.Used()
      ensures pager.meta.pageCount <= old(pager.meta.pageCount) + 1
      ensures pager.meta.txid == old(pager.meta.txid) && PathOk(fs')
      ensures fs[k - 1].t.tx <= pager.meta.txid && (copied <==> fs[k - 1].t.tx < pager.meta.txid)
      ensures copied ==> lower !in old(pager.Used())
      ensures !copied ==>
        && fs' == fs[..k] + cfs && Weak(pager.TheWorld(), fs', n', 0, rest)
        && PathPre(fs') == PathPre(fs) && PathPost(fs') == PathPost(fs)
      ensures copied ==>
        && fs' == [Frame(Inner(lower, pager.meta.txid, fs[k - 1].t.b), fs[k - 1].i)] + cfs && fs[k - 1].t.Inner?
        && Climbed(pager.TheWorld(), t, fs, n, k - 1, fs', n', rest) && lower == Plug(fs', n').id
    {
      hide Wf, InStore, Linked, Weak, Frozen, Climbed, Pager.InTx, Bag, PathOk, Plug, PathBag, PendBag, Once,
           PathPre, PathPost, Ids, WfRoot;
      ghost var w := pager.TheWorld();
      pager.HeldOnce();
      BranchOfPath(w, t, fs, n, k, cfs, n', rest);
      BranchCapped(w, t, h, fs, n, k, cfs, n', rest);
      copied, lower := pager.pages[top.pgid].tx < pager.meta.txid, child;
      if copied {
        lower := pager.CopyBranch(top.pgid, top.slot, child);
        ClimbBranch(w, t, fs, n, k, cfs, n', rest, lower);
        fs' := [Frame(Inner(lower, w.cur, fs[k - 1].t.b), fs[k - 1].i)] + cfs;
        CopyOnTop(fs[k - 1], cfs, n', lower, w.cur);
      } else {
        ClimbOwned(w, t, h, fs, n, k, cfs, n', rest);
        pager.SetPage(top.pgid, BranchPage(pager.meta.txid, pager.pages[top.pgid].b.SetChild(top.slot, child)));
        fs' := fs[..k] + cfs;
      }
    }

    /**
     * CopyAllPagesByPath: from the leaf up, pages of older transactions are copied, until one is met that
     * is this transaction's already, and is pointed to the copy. Afterwards the whole path is this transaction's.
     * If the leaf is this transaction's, so is the path already, and nothing changes. Just the pages of older
     * transactions are moved, each to a page that was not in use.
     */
    method CopyAllPagesByPath(iter: BTreeIterator, ghost t: Tree, ghost h: nat, ghost fs: seq<Frame>, ghost n: Tree,
                              ghost rest: multiset<PageId>)
      returns (ghost fs': seq<Frame>, ghost n': Tree)
      requires AtLeaf(iter.stack, fs, n) && Linked(t, fs, n)
      requires pager.InTx() && Rooted(pager.TheWorld(), t, h, rest)
      requires pager.meta.pageCount + |fs| < PAGE_MAX_COUNT
      modifies pager, iter
      ensures pager.InTx() && Weak(pager.TheWorld(), fs', n', 0, rest)
      ensures Wrote(old(pager.TheSnap()), pager.TheSnap())
      ensures pager.meta.pageCount <= old(pager.meta.pageCount) + |fs| + 1
      ensures AtLeaf(iter.stack, fs', n') && n'.recs == n.recs && |fs'| == |fs| && PathOk(fs) && PathOk(fs')
      ensures iter.stack[|fs|].slot == old(iter.stack)[|fs|].slot && iter.status == old(iter.status)
      ensures PathPre(fs') == PathPre(fs) && PathPost(fs') == PathPost(fs)
      ensures Recopied(fs', fs, pager.meta.txid) && MovedJust(fs', fs, pager.meta.txid, old(pager.Used()))
      ensures MovedAt(n'.id, n, pager.meta.txid, old(pager.Used()))
      ensures n.tx == old(pager.meta.txid) ==>
        fs' == fs && n' == n && pager.TheSnap() == old(pager.TheSnap()) && pager.TheWorld() == old(pager.TheWorld())
    {
      hide Wf, InStore, Linked, Rooted, Weak, Wrote, Climbed, Pager.InTx, Bag, PathPre, PathPost, PathOk, Plug, WfRoot,
           Pager.TheSnap, Pager.Used, Recopied, StackClimbed, MovedJust, MovedAt, Copying, AtLeaf;
      ghost var s0, used0 := pager.TheSnap(), pager.Used();
      pager.SnapUsed();
      var i := |iter.stack| - 1;
      StackSize(iter.stack, fs, n);
      var leaf := iter.stack[i];
      RootedWf(pager.TheWorld(), t, h, rest);
      var copied, lower;
      copied, lower, n' := CopyLeaf(leaf.pgid, t, h, fs, n, rest);
      fs' := [];
      if !copied {
        MovedNone(t, fs, n, h, pager.meta.txid, used0);
        return fs, n';
      }
      iter.stack := iter.stack[i := Entry(lower, leaf.slot)];
      CopyingBegins(old(iter.stack), iter.stack, pager.TheWorld(), t, h, fs, n, n', leaf.slot, lower, rest, used0);
      while i > 0
        invariant Copying(iter.stack, pager.TheWorld(), t, h, fs, n, i, fs', n', leaf.slot, lower, rest, used0)
        invariant pager.InTx() && Bag(t) <= pager.Used() && iter.status == old(iter.status)
        invariant Wrote(s0, pager.TheSnap()) && pager.meta.txid == old(pager.meta.txid)
        invariant pager.meta.pageCount <= old(pager.meta.pageCount) + (|fs| - i) + 1
      {
        ghost var s1, cfs, w, below := pager.TheSnap(), fs', pager.TheWorld(), lower;
        pager.SnapUsed();
        WroteUsed(s0, s1);
        CopyingFacts(iter.stack, w, t, h, fs, n, i, cfs, n', leaf.slot, lower, rest, used0);
        var top := iter.stack[i - 1];
        copied, lower, fs' := CopyBranchOfPath(top, lower, t, h, fs, n, i, cfs, n', rest);
        WroteThen(s0, s1, pager.TheSnap());
        if !copied {
          CopyingStops(iter.stack, w, t, h, fs, n, i, cfs, n', leaf.slot, below, rest, used0);
          return fs', n';
        }
        CopyingGoesOn(iter.stack, w, pager.TheWorld(), t, h, fs, n, i, cfs, n', leaf.slot, below, rest, used0,
                      fs', lower, s1.used);
        i := i - 1;
        iter.stack := iter.stack[i := Entry(lower, top.slot)];
      }
      ghost var s1, w := pager.TheSnap(), pager.TheWorld();
      CopyingEnds(iter.stack, w, t, h, fs, n, fs', n', leaf.slot, lower, rest, used0);
      pager.SetRoot(lower);
      WroteThen(s0, s1, pager.TheSnap());
    }

    /** The binary search in the node at pgid: the slot, one further for an equal branch key, and the status. */
    method SearchNode(pgid: PageId, key: Key, ghost n: Tree) returns (slot: nat, status: Status)
      requires pgid in pager.pages && pager.pages[pgid] == PageOf(n)
      requires if n.Inner? then SortedKeys(n.b.Keys()) else SortedKeys(LeafKeys(n.recs))
      ensures if n.Inner? then ChildFor(n.b, slot, key)
              else LeafPos(n.recs, slot, key) && status == LeafStatus(n.recs, slot, key)
    {
      var page := pager.pages[pgid];
      var ks := if page.LeafPage? then LeafKeys(page.recs) else page.b.Keys();
      assert n.Inner? ==> ks == n.b.Keys();
      assert n.Leaf? ==> forall j :: 0 <= j < |ks| ==> n.recs[j].key == ks[j];
      status, slot := Ne, 0;
      if |ks| > 0 {
        var eq;
        slot, eq := LowerBoundOf(ks, key);
        if eq {
          status := Eq;
        } else if slot == |ks| && page.LeafPage? {
          status := Invalid;
        }
        if page.BranchPage? {
          ChildForKeys(n.b, ks, slot, eq, key);
          if eq { slot := slot + 1; }
        }
      }
    }

    /** BTreeIterator::Down: one more node of the descent, or none below a leaf. */
    method Down(iter: BTreeIterator, root: PageId, key: Key, ghost t: Tree, ghost h: nat, ghost cap: TxId,
                ghost pageCount: nat,
                ghost fs: seq<Frame>, ghost n: Tree)
      returns (cont: bool, ghost fs': seq<Frame>, ghost n': Tree)
      requires Readable(pager.pages, t, h, cap, pageCount) && Ordered(Flat(t)) && root == t.id
      requires iter.stack == [] || Descended(t, iter.stack, iter.status, fs, n, key)
      modifies iter
      ensures !cont ==> iter.stack == old(iter.stack) && iter.status == old(iter.status) && iter.stack != []
                        && fs' == fs && n' == n && n.Leaf?
      ensures cont ==> Descended(t, iter.stack, iter.status, fs', n', key)
                       && |iter.stack| == |old(iter.stack)| + 1
    {
      hide InStore, Wf, Ordered, Flat, Bag, Around, ShortKey, WfRoot, PageOf, Linked, SortedKeys, ChildFor, LeafPos,
           LeafFor;
      var pgid;
      fs', n' := fs, n;
      if iter.stack == [] {
        pgid := root;
        fs', n' := [], t;
        RootAround(t, key);
      } else {
        var top := iter.stack[|iter.stack| - 1];
        NodeAtPage(pager.pages, t, fs, n);
        if pager.pages[top.pgid].LeafPage? {
          return false, fs, n;
        }
        NodeChild(n, top.slot, key);
        LeafForChild(n, top.slot, key);
        pgid := pager.pages[top.pgid].b.Child(top.slot);
        fs', n' := fs + [Frame(n, top.slot)], n.b.Child(top.slot);
        DescendChild(t, fs, n, top.slot, key);
        assert iter.stack == iter.stack[..|fs|] + [top];
      }
      DepthBound(pager.pages, t, h, cap, pageCount, fs', n');
      NodeAtPage(pager.pages, t, fs', n');
      NodeSorted(t, fs', n');
      var slot, status := SearchNode(pgid, key, n');
      assert |iter.stack| < STACK_SIZE;  // push_back's assert
      iter.status := status;
      iter.stack := iter.stack + [Entry(pgid, slot)];
      cont := true;
    }

    /**
     * LowerBound: descends from the root to the only leaf that may hold the key; without a root the iterator stays
     * empty. It is kInvalid, which makes it equal to end(), if all records of that leaf are below the key, even when
     * the next leaf has greater ones. Otherwise it is at the least record of the map that is not below the key. In a
     * root without records it is neither equal to end() nor at a record.
     */
    method LowerBound(root: PageId, key: Key, ghost ot: Option<Tree>, ghost h: nat, ghost cap: TxId,
                      ghost pageCount: nat)
      returns (iter: BTreeIterator, ghost fs: seq<Frame>, ghost n: Tree)
      requires ReadableRoot(pager.pages, root, ot, h, cap, pageCount)
      ensures fresh(iter)
      ensures ot.None? ==> iter.stack == [] && iter.status == Invalid
      ensures ot.Some? ==> Descended(ot.value, iter.stack, iter.status, fs, n, key) && n.Leaf? && |fs| + 1 < 31
      ensures ot.Some? ==> n == LeafFor(ot.value, key) && |iter.stack| == |fs| + 1 && iter.status != Iter
      ensures ot.Some? ==>
        (iter.status == Invalid <==> n.recs != [] && forall j :: 0 <= j < |n.recs| ==> Lt(n.recs[j].key, key))
      ensures ot.Some? && n.recs == [] ==> iter.status == Ne && iter.stack[|fs|].slot == 0
      ensures ot.Some? && n.recs != [] && iter.status != Invalid ==>
        iter.stack[|fs|].slot < |n.recs| && IsLeast(Denotes(ot), key, n.recs[iter.stack[|fs|].slot].key)
      ensures iter.status == Eq <==> key in Denotes(ot)
    {
      hide Readable, Ordered, Flat, Descended, MapOf, LeafFor, IsLeast;
      iter := new BTreeIterator();
      fs, n := [], Leaf(INVALID_PAGE, 0, []);
      if root == INVALID_PAGE {
        return;
      }
      ghost var t := ot.value;
      n := t;
      var cont;
      cont, fs, n := Down(iter, root, key, t, h, cap, pageCount, fs, n);
      DescendedDepth(pager.pages, h, cap, pageCount, t, iter.stack, iter.status, fs, n, key);
      while cont
        invariant Descended(t, iter.stack, iter.status, fs, n, key)
        invariant !cont ==> n.Leaf?
        invariant |iter.stack| == |fs| + 1 < 31 && |fs| <= h
        invariant fresh(iter)
        decreases h - |fs|, cont
      {
        cont, fs, n := Down(iter, root, key, t, h, cap, pageCount, fs, n);
        DescendedDepth(pager.pages, h, cap, pageCount, t, iter.stack, iter.status, fs, n, key);
      }
      FoundOrNot(ot, iter.stack, iter.status, fs, n, key);
      FoundWhere(t, iter.stack, iter.status, fs, n, key);
    }

    /** The part of Put for a tree without a root: a leaf with the one record becomes the root. */
    method PutFirst(key: Key, value: Value, ghost rest: multiset<PageId>)
      returns (ghost t: Tree)
      requires pager.InTx() && Holds(pager.TheWorld(), None, 0, rest) && RecOk(Rec(key, value))
      requires pager.meta.pageCount < PAGE_MAX_COUNT
      modifies pager
      ensures pager.InTx() && Holds(pager.TheWorld(), Some(t), 0, rest)
      ensures Wrote(old(pager.TheSnap()), pager.TheSnap())
      ensures pager.meta.pageCount <= old(pager.meta.pageCount) + 1
      ensures MapOf(Flat(t)) == map[key := value] && t == Leaf(t.id, pager.meta.txid, [Rec(key, value)])
    {
      hide Frozen, Pager.InTx, Rooted, RecOk, Flat, MapOf, Ordered;
      ghost var w, s := pager.TheWorld(), pager.TheSnap();
      var id := pager.NewPage(LeafPage(pager.meta.txid, [Rec(key, value)]));
      t := Leaf(id, w.cur, [Rec(key, value)]);
      ghost var s1 := pager.TheSnap();
      FirstLeaf(w, id, Rec(key, value), rest);
      pager.SetRoot(id);
      WroteThen(s, s1, pager.TheSnap());
    }

    /** Put after the lookup, in a tree with a root. */
    method PutInto(iter: BTreeIterator, key: Key, value: Value, ghost t: Tree, ghost h: nat,
                   ghost rest: multiset<PageId>,
                   ghost fs: seq<Frame>, ghost n: Tree)
      returns (ghost t': Tree, ghost h': nat)
      requires pager.InTx() && Holds(pager.TheWorld(), Some(t), h, rest) && RecOk(Rec(key, value))
      requires Descended(t, iter.stack, iter.status, fs, n, key) && n.Leaf? && |fs| + 1 < 31
      requires pager.meta.pageCount + 64 <= PAGE_MAX_COUNT
      modifies pager, iter
      ensures pager.InTx() && Holds(pager.TheWorld(), Some(t'), h', rest)
      ensures Wrote(old(pager.TheSnap()), pager.TheSnap())
      ensures pager.meta.pageCount <= old(pager.meta.pageCount) + 64
      ensures Denotes(Some(t')) == if StaysOld(Some(t), key, value) then Denotes(Some(t))
                                 else Denotes(Some(t))[key := value]
      ensures PutMakes(t, t', Rec(key, value), pager.meta.txid, old(pager.Used()))
    {
      hide Wrote, Pager.InTx, Rooted, RecOk, Flat, MapOf, Ordered, Weak, PathOk, PathPre, PathPost, Around, LeafPos,
           Pager.TheSnap, LeafUsed, OnPath, LeafFor, Linked, Recopied, MovedJust, MovedAt, Entered, PathOwned, PutMakes;
      ghost var s := pager.TheSnap();
      LinkedFlat(t, fs, n);
      LeafForLeaf(n, key);
      ghost var fs', n';
      fs', n' := CopyAllPagesByPath(iter, t, h, fs, n, rest);
      ghost var s1 := pager.TheSnap();
      AroundSame(fs, fs', key);
      FlatOfLeaf(n, n');
      OwnedNow(pager.TheWorld(), t, key, fs, n, fs', n', rest, old(pager.Used()));
      ghost var pos := iter.stack[|fs|].slot;
      pager.SnapUsed();
      FoundStatus(n.recs, pos, key);
      t', h' := PutAt(iter, key, value, fs', n', rest);
      pager.SameTx(s1);
      PutMade(t, t', Rec(key, value), pager.meta.txid, old(pager.Used()), fs, fs', n', pos);
      WroteThen(s, s1, pager.TheSnap());
      RootInFile(t', h', rest);
    }

    /**
     * Put(key, value): the map afterwards is the map before with the record in it; only if the key is there
     * already and its leaf has no room for the new value, the map is as before.
     */
    method Put(key: Key, value: Value, ghost ot: Option<Tree>, ghost h: nat, ghost rest: multiset<PageId>)
      returns (ghost t': Tree, ghost h': nat)
      requires pager.InTx() && Holds(pager.TheWorld(), ot, h, rest) && RecOk(Rec(key, value))
      requires pager.meta.pageCount + 64 <= PAGE_MAX_COUNT
      modifies pager
      ensures pager.InTx() && Holds(pager.TheWorld(), Some(t'), h', rest)
      ensures Wrote(old(pager.TheSnap()), pager.TheSnap())
      ensures pager.meta.pageCount <= old(pager.meta.pageCount) + 64
      ensures Denotes(Some(t')) == if StaysOld(ot, key, value) then Denotes(ot) else Denotes(ot)[key := value]
      ensures if ot.None? then t' == Leaf(t'.id, pager.meta.txid, [Rec(key, value)])
              else PutMakes(ot.value, t', Rec(key, value), pager.meta.txid, old(pager.Used()))
      ensures pager.meta.pageCount > old(pager.meta.pageCount) ==> SpanBag(pager.freeMap) == multiset{}
    {
      hide Wrote, Pager.InTx, Rooted, RecOk, Flat, MapOf, Ordered, Descended, LeafUsed, LeafFor, ReadableRoot, PutMakes,
           SpanBag;
      ghost var s := pager.TheSnap();
      var iter;
      ghost var fs, n;
      HoldsReadable(ot, h, rest);
      iter, fs, n := LowerBound(pager.meta.userRoot, key, ot, h, pager.meta.txid, pager.meta.pageCount);
      if iter.stack == [] {
        DescendedNotEmpty(ot, iter.stack, iter.status, fs, n, key);
        t' := PutFirst(key, value, rest);
        GrewNoneFree(s, pager.TheSnap());
        return t', 0;
      }
      t', h' := PutInto(iter, key, value, ot.value, h, rest, fs, n);
      GrewNoneFree(s, pager.TheSnap());
    }

    /** Delete(key) after the lookup, when the key was found. */
    method DeleteFound(iter: BTreeIterator, key: Key, ghost t: Tree, ghost h: nat, ghost rest: multiset<PageId>,
                       ghost fs: seq<Frame>, ghost n: Tree)
      returns (ghost t': Tree, ghost h': nat)
      requires pager.InTx() && Holds(pager.TheWorld(), Some(t), h, rest)
      requires Descended(t, iter.stack, iter.status, fs, n, key) && n.Leaf? && |fs| + 1 < 31 && iter.status == Eq
      requires pager.meta.pageCount + 100 <= PAGE_MAX_COUNT
      modifies pager, iter
      ensures pager.InTx() && Holds(pager.TheWorld(), Some(t'), h', rest)
      ensures Wrote(old(pager.TheSnap()), pager.TheSnap())
      ensures pager.meta.pageCount <= old(pager.meta.pageCount) + 100
      ensures key in Denotes(Some(t)) && Denotes(Some(t')) == Denotes(Some(t)) - {key}
      ensures DeleteMakes(t, t', key, pager.meta.txid, old(pager.Used()))
    {
      hide Wrote, Pager.InTx, Rooted, Flat, MapOf, Ordered, Weak, PathOk, PathPre, PathPost, Around, LeafPos,
           Pager.TheSnap, LeafUsed, OnPath, LeafFor, Linked, Recopied, MovedJust, MovedAt, Rebalanced, PathOwned,
           DeleteMakes, RemoveAt;
      ghost var s := pager.TheSnap();
      LinkedFlat(t, fs, n);
      FoundStatus(n.recs, iter.stack[|fs|].slot, key);
      FoundHere(fs, n, iter.stack[|fs|].slot, key);
      ghost var fs', n';
      fs', n' := CopyAllPagesByPath(iter, t, h, fs, n, rest);
      ghost var s1 := pager.TheSnap();
      FlatOfLeaf(n, n');
      LeafForLeaf(n, key);
      OwnedNow(pager.TheWorld(), t, key, fs, n, fs', n', rest, old(pager.Used()));
      ghost var pos := iter.stack[|fs|].slot;
      pager.SnapUsed();
      t', h' := DeleteAt(iter, fs', n', rest);
      pager.SameTx(s1);
      DeleteMade(t, t', key, pager.meta.txid, old(pager.Used()), fs, fs', n', pos);
      WroteThen(s, s1, pager.TheSnap());
      RootInFile(t', h', rest);
    }

    /** Delete(key): says whether the key was there; the map afterwards is the map before without it. */
    method Delete(key: Key, ghost ot: Option<Tree>, ghost h: nat, ghost rest: multiset<PageId>)
      returns (found: bool, ghost ot': Option<Tree>, ghost h': nat)
      requires pager.InTx() && Holds(pager.TheWorld(), ot, h, rest)
      requires pager.meta.pageCount + 100 <= PAGE_MAX_COUNT
      modifies pager
      ensures pager.InTx() && Holds(pager.TheWorld(), ot', h', rest)
      ensures Wrote(old(pager.TheSnap()), pager.TheSnap())
      ensures pager.meta.pageCount <= old(pager.meta.pageCount) + 100
      ensures found == (key in Denotes(ot)) && Denotes(ot') == Denotes(ot) - {key}
      ensures !found ==> ot' == ot && pager.TheSnap() == old(pager.TheSnap())
      ensures found ==> ot.Some? && ot'.Some?
                        && DeleteMakes(ot.value, ot'.value, key, pager.meta.txid, old(pager.Used()))
      ensures pager.meta.pageCount > old(pager.meta.pageCount) ==> SpanBag(pager.freeMap) == multiset{}
    {
      hide Wrote, Pager.InTx, Rooted, Flat, MapOf, Ordered, Descended, LeafUsed, LeafFor, ReadableRoot, DeleteMakes,
           SpanBag;
      ghost var s := pager.TheSnap();
      WroteNothing(s);
      ot', h' := ot, h;
      var iter;
      ghost var fs, n;
      HoldsReadable(ot, h, rest);
      iter, fs, n := LowerBound(pager.meta.userRoot, key, ot, h, pager.meta.txid, pager.meta.pageCount);
      FoundOrNot(ot, iter.stack, iter.status, fs, n, key);
      if iter.status != Eq {
        return false, ot, h;
      }
      ghost var t';
      t', h' := DeleteFound(iter, key, ot.value, h, rest, fs, n);
      GrewNoneFree(s, pager.TheSnap());
      found, ot' := true, Some(t');
    }

    /** Get: the value of the key, if it is there, in the tree under the root: the write transaction's or a view's. */
    method Get(root: PageId, key: Key, ghost ot: Option<Tree>, ghost h: nat, ghost cap: TxId, ghost pageCount: nat)
      returns (r: Option<Value>)
      requires ReadableRoot(pager.pages, root, ot, h, cap, pageCount)
      ensures r == if key in Denotes(ot) then Some(Denotes(ot)[key]) else None
    {
      hide Flat, MapOf, Ordered, Descended, LeafUsed, LeafFor, InStore, WfRoot, Bag;
      var iter;
      ghost var fs, n;
      iter, fs, n := LowerBound(root, key, ot, h, cap, pageCount);
      FoundOrNot(ot, iter.stack, iter.status, fs, n, key);
      if iter.status != Eq {
        return None;
      }
      var front := iter.stack[|iter.stack| - 1];
      DescendedPage(pager.pages, ot.value, iter.stack, iter.status, fs, n, key);
      r := Some(pager.pages[front.pgid].recs[front.slot].value);
    }

    /** The root page of a tree is a page of the file. */
    lemma {:induction false} RootInFile(t: Tree, h: nat, rest: multiset<PageId>)
      requires pager.InTx() && Rooted(pager.TheWorld(), t, h, rest) && pager.meta.pageCount <= PAGE_MAX_COUNT
      ensures pager.meta.userRoot != INVALID_PAGE
    {
      hide InStore, Wf;
      pager.HeldInFile();
      BagHasId(t);
      assert t.id in pager.held;
    }
  }

  /** The stack holds a path and below it a leaf. */
  ghost predicate AtLeaf(stack: seq<Entry>, fs: seq<Frame>, n: Tree) {
    |stack| == |fs| + 1 && OnPath(stack[..|fs|], fs) && n.Leaf? && stack[|fs|].pgid == n.id
  }

  /** After CopyAllPagesByPath the path is the transaction's. */
  lemma {:induction false} OwnedNow(w: World, t: Tree, key: Key, fs: seq<Frame>, n: Tree, fs': seq<Frame>, n': Tree,
                                    rest: multiset<PageId>, used: multiset<PageId>)
    requires Linked(t, fs, n) && n.Leaf? && n == LeafFor(t, key) && n'.Leaf? && n'.recs == n.recs
    requires Weak(w, fs', n', 0, rest) && PathOk(fs')
    requires Recopied(fs', fs, w.cur) && MovedJust(fs', fs, w.cur, used) && MovedAt(n'.id, n, w.cur, used)
    ensures PathOwned(t, key, fs, fs', n', w.cur, used) && n' == Leaf(n'.id, w.cur, n.recs)
  {
    hide Hangs, LeafFits;
  }

  /** The stack of CopyAllPagesByPath: copies from depth k down, old pages above. */
  ghost predicate StackClimbed(stack: seq<Entry>, fs: seq<Frame>, k: nat, cfs: seq<Frame>, n': Tree, slot: nat) {
    && k <= |fs| && |stack| == |fs| + 1 && |cfs| == |fs| - k && n'.Leaf? && stack[|fs|] == Entry(n'.id, slot)
    && OnPath(stack[..k], fs[..k]) && OnPath(stack[k..|fs|], cfs)
  }

  /** Between two turns of CopyAllPagesByPath: the path is copied from depth i down to the leaf. */
  ghost predicate Copying(stack: seq<Entry>, w: World, t: Tree, h: nat, fs: seq<Frame>, n: Tree, i: nat,
                          cfs: seq<Frame>, n': Tree, slot: nat, lower: PageId, rest: multiset<PageId>,
                          used: multiset<PageId>) {
    && StackClimbed(stack, fs, i, cfs, n', slot) && PathOk(fs) && PathOk(cfs)
    && n.Leaf? && n'.Leaf? && n'.recs == n.recs
    && Climbed(w, t, fs, n, i, cfs, n', rest) && lower == Plug(cfs, n').id
    && WfRoot(t, h, w.cur) && MovedJust(cfs, fs[i..], w.cur, used)
  }

  lemma {:induction false} StackSize(stack: seq<Entry>, fs: seq<Frame>, n: Tree)
    requires AtLeaf(stack, fs, n)
    ensures |stack| == |fs| + 1 && stack[|fs|].pgid == n.id && n.Leaf?
  {}

  lemma {:induction false} CopyingBegins(stack0: seq<Entry>, stack: seq<Entry>, w: World, t: Tree, h: nat,
                                         fs: seq<Frame>, n: Tree, n': Tree, slot: nat, lower: PageId,
                                         rest: multiset<PageId>, used: multiset<PageId>)
    requires AtLeaf(stack0, fs, n) && stack == stack0[|fs| := Entry(lower, slot)] && PathOk(fs) && n'.Leaf?
    requires n'.id == lower && n'.recs == n.recs && WfRoot(t, h, w.cur)
    requires Climbed(w, t, fs, n, |fs|, [], n', rest)
    ensures Copying(stack, w, t, h, fs, n, |fs|, [], n', slot, lower, rest, used)
  {
    hide Climbed, WfRoot;
    assert stack[..|fs|] == stack0[..|fs|];
    PlugNothing(n');
    StackBegin(stack, fs, n', slot);
    MovedNothing(fs, w.cur, used);
  }

  /** What the next turn starts from. */
  lemma {:induction false} CopyingFacts(stack: seq<Entry>, w: World, t: Tree, h: nat, fs: seq<Frame>, n: Tree, i: nat,
                                        cfs: seq<Frame>, n': Tree, slot: nat, lower: PageId, rest: multiset<PageId>,
                                        used: multiset<PageId>)
    requires Copying(stack, w, t, h, fs, n, i, cfs, n', slot, lower, rest, used)
    ensures PathOk(fs) && PathOk(cfs) && n'.recs == n.recs && |stack| == |fs| + 1
    ensures Climbed(w, t, fs, n, i, cfs, n', rest) && lower == Plug(cfs, n').id && WfRoot(t, h, w.cur)
    ensures i <= |fs| && (i > 0 ==> stack[i - 1] == Entry(fs[i - 1].t.id, fs[i - 1].i))
  {
    hide Climbed, WfRoot, PathOk, MovedJust, Plug;
    if i > 0 { StackEntry(stack, fs, i, cfs, n', slot); }
  }

  /** The climb stops at a branch of the transaction. */
  lemma {:induction false} CopyingStops(stack: seq<Entry>, w: World, t: Tree, h: nat, fs: seq<Frame>, n: Tree, i: nat,
                                        cfs: seq<Frame>, n': Tree, slot: nat, lower: PageId, rest: multiset<PageId>,
                                        used: multiset<PageId>)
    requires Copying(stack, w, t, h, fs, n, i, cfs, n', slot, lower, rest, used) && 0 < i <= |fs|
    requires fs[i - 1].t.tx == w.cur
    ensures AtLeaf(stack, fs[..i] + cfs, n') && |stack| == |fs| + 1 && stack[|fs|].slot == slot
    ensures Recopied(fs[..i] + cfs, fs, w.cur) && MovedJust(fs[..i] + cfs, fs, w.cur, used)
    ensures |fs[..i] + cfs| == |fs|
  {
    ClimbedFrames(w, t, fs, n, i, cfs, n', rest);
    hide Climbed, PathOk, MovedJust, Plug, Linked, Recopied;
    StackJoin(stack, fs, i, cfs, n', slot);
    MovedWhole(t, fs, n, h, w.cur, i, cfs, used);
  }

  /** One more branch was copied. */
  lemma {:induction false} CopyingGoesOn(stack: seq<Entry>, w: World, w': World, t: Tree, h: nat, fs: seq<Frame>,
                                         n: Tree, i: nat, cfs: seq<Frame>, n': Tree, slot: nat, lower: PageId,
                                         rest: multiset<PageId>, used: multiset<PageId>, fs': seq<Frame>, id: PageId,
                                         now: multiset<PageId>)
    requires Copying(stack, w, t, h, fs, n, i, cfs, n', slot, lower, rest, used) && 0 < i <= |fs| && w'.cur == w.cur
    requires fs[i - 1].t.Inner? && fs' == [Frame(Inner(id, w.cur, fs[i - 1].t.b), fs[i - 1].i)] + cfs
    requires PathOk(fs') && Climbed(w', t, fs, n, i - 1, fs', n', rest) && id == Plug(fs', n').id
    requires fs[i - 1].t.tx != w.cur && id !in now && used <= now
    ensures |stack| == |fs| + 1
    ensures Copying(stack[i - 1 := Entry(id, stack[i - 1].slot)], w', t, h, fs, n, i - 1, fs', n', slot, id, rest, used)
  {
    hide Climbed, WfRoot, PathOk, MovedJust, Plug;
    StackEntry(stack, fs, i, cfs, n', slot);
    StackClimb(stack, fs, i, cfs, n', slot, id, w.cur, fs');
    MovedOne(fs, i, cfs, fs'[0], w.cur, used, now);
  }

  /** The whole path is copied, and the copy of the root is about to become the root. */
  lemma {:induction false} CopyingEnds(stack: seq<Entry>, w: World, t: Tree, h: nat, fs: seq<Frame>, n: Tree,
                                       cfs: seq<Frame>, n': Tree, slot: nat, lower: PageId, rest: multiset<PageId>,
                                       used: multiset<PageId>)
    requires Copying(stack, w, t, h, fs, n, 0, cfs, n', slot, lower, rest, used)
    ensures AtLeaf(stack, cfs, n') && |stack| == |fs| + 1 && stack[|fs|].slot == slot
    ensures |cfs| == |fs| && n'.recs == n.recs
    ensures PathOk(fs) && PathOk(cfs) && Weak(w.(root := lower), cfs, n', 0, rest)
    ensures PathPre(cfs) == PathPre(fs) && PathPost(cfs) == PathPost(fs)
    ensures Recopied(cfs, fs, w.cur) && MovedJust(cfs, fs, w.cur, used)
  {
    ClimbedFrames(w, t, fs, n, 0, cfs, n', rest);
    hide Climbed, WfRoot, PathOk, MovedJust, Plug, Linked, Recopied, PathPre, PathPost, Weak;
    ClimbTop(w, t, h, fs, n, cfs, n', rest);
    StackTop(stack, fs, cfs, n', slot);
    MovedWhole(t, fs, n, h, w.cur, 0, cfs, used);
    assert fs[..0] + cfs == cfs && fs[0..] == fs;
  }

  lemma {:induction false} StackBegin(stack: seq<Entry>, fs: seq<Frame>, n': Tree, slot: nat)
    requires |stack| == |fs| + 1 && OnPath(stack[..|fs|], fs) && n'.Leaf? && stack[|fs|] == Entry(n'.id, slot)
    ensures StackClimbed(stack, fs, |fs|, [], n', slot)
  {
    assert fs[..|fs|] == fs;
  }

  lemma {:induction false} StackEntry(stack: seq<Entry>, fs: seq<Frame>, k: nat, cfs: seq<Frame>, n': Tree, slot: nat)
    requires StackClimbed(stack, fs, k, cfs, n', slot) && k > 0
    ensures k <= |fs| == |stack| - 1 && stack[k - 1] == Entry(fs[k - 1].t.id, fs[k - 1].i)
  {
    assert stack[..k][k - 1] == Entry(fs[..k][k - 1].t.id, fs[..k][k - 1].i);
  }

  lemma {:induction false} StackClimb(stack: seq<Entry>, fs: seq<Frame>, k: nat, cfs: seq<Frame>, n': Tree, slot: nat,
                                      id: PageId, tx: TxId, fs': seq<Frame>)
    requires StackClimbed(stack, fs, k, cfs, n', slot) && k > 0
    requires fs[k - 1].t.Inner? && fs' == [Frame(Inner(id, tx, fs[k - 1].t.b), fs[k - 1].i)] + cfs
    ensures stack[k - 1] == Entry(fs[k - 1].t.id, fs[k - 1].i)
    ensures StackClimbed(stack[k - 1 := Entry(id, stack[k - 1].slot)], fs, k - 1, fs', n', slot)
  {
    assert stack[..k][k - 1] == Entry(fs[..k][k - 1].t.id, fs[..k][k - 1].i);
    var stack' := stack[k - 1 := Entry(id, stack[k - 1].slot)];
    var up, fup := stack'[..k - 1], fs[..k - 1];
    forall j | 0 <= j < k - 1 ensures up[j] == Entry(fup[j].t.id, fup[j].i) {
      assert stack[..k][j] == Entry(fs[..k][j].t.id, fs[..k][j].i);
    }
    forall j | 0 <= j < |fs'| ensures stack'[k - 1..|fs|][j] == Entry(fs'[j].t.id, fs'[j].i) {
      if j > 0 { assert stack[k..|fs|][j - 1] == Entry(cfs[j - 1].t.id, cfs[j - 1].i); }
    }
  }

  lemma {:induction false} StackJoin(stack: seq<Entry>, fs: seq<Frame>, k: nat, cfs: seq<Frame>, n': Tree, slot: nat)
    requires StackClimbed(stack, fs, k, cfs, n', slot)
    ensures AtLeaf(stack, fs[..k] + cfs, n') && stack[|fs|].slot == slot && |fs[..k] + cfs| == |fs|
  {
    var fs' := fs[..k] + cfs;
    forall j | 0 <= j < |fs| ensures stack[..|fs|][j] == Entry(fs'[j].t.id, fs'[j].i) {
      if j < k {
        assert stack[..k][j] == Entry(fs[..k][j].t.id, fs[..k][j].i);
      } else {
        assert stack[k..|fs|][j - k] == Entry(cfs[j - k].t.id, cfs[j - k].i);
      }
    }
  }

  lemma {:induction false} StackTop(stack: seq<Entry>, fs: seq<Frame>, cfs: seq<Frame>, n': Tree, slot: nat)
    requires StackClimbed(stack, fs, 0, cfs, n', slot)
    ensures AtLeaf(stack, cfs, n') && stack[|fs|].slot == slot && |cfs| == |fs|
  {
    StackJoin(stack, fs, 0, cfs, n', slot);
    assert fs[..0] + cfs == cfs;
  }

  /** The state of a lookup after some nodes: the node on top, and the place of the key in it. */
  ghost predicate Descended(t: Tree, stack: seq<Entry>, status: Status, fs: seq<Frame>, n: Tree, key: Key) {
    && |stack| == |fs| + 1 && OnPath(stack[..|fs|], fs) && stack[|fs|].pgid == n.id
    && Linked(t, fs, n) && Around(fs, key) && LeafFor(t, key) == LeafFor(n, key)
    && (if n.Inner? then ChildFor(n.b, stack[|fs|].slot, key)
        else LeafPos(n.recs, stack[|fs|].slot, key) && status == LeafStatus(n.recs, stack[|fs|].slot, key))
  }

  /** The status Down leaves at a leaf. */
  function LeafStatus(recs: seq<Rec>, pos: nat, key: Key): Status {
    if pos < |recs| then (if recs[pos].key == key then Eq else Ne)
    else if recs == [] then Ne
    else Invalid
  }

  /** kEq at a leaf means the record under the slot has the key. */
  lemma {:induction false} FoundStatus(recs: seq<Rec>, pos: nat, key: Key)
    requires LeafPos(recs, pos, key)
    ensures pos <= |recs| && (LeafStatus(recs, pos, key) == Eq <==> pos < |recs| && recs[pos].key == key)
  {}

  // ----- a bucket's tree, which may be absent

  /** The tree under the root, if there is one. rest: the pages held that are not the tree's. */
  ghost predicate Holds(w: World, ot: Option<Tree>, h: nat, rest: multiset<PageId>) {
    match ot
    case None => w.root == INVALID_PAGE && w.held == rest
    case Some(t) => w.root != INVALID_PAGE && Rooted(w, t, h, rest) && Ordered(Flat(t))
  }

  /** A bucket whose tree, if there is one, can be read from its root page. */
  ghost predicate ReadableRoot(pages: map<PageId, Page>, root: PageId, ot: Option<Tree>, h: nat, cap: TxId,
                               pageCount: nat) {
    match ot
    case None => root == INVALID_PAGE
    case Some(t) => root == t.id != INVALID_PAGE && Readable(pages, t, h, cap, pageCount) && Ordered(Flat(t))
  }

  /** The ordered map of the bucket. */
  ghost function Denotes(ot: Option<Tree>): map<Key, Value> {
    match ot
    case None => map[]
    case Some(t) => MapOf(Flat(t))
  }

  /** The bucket's pages. */
  ghost function PagesOf(ot: Option<Tree>): multiset<PageId> {
    match ot
    case None => multiset{}
    case Some(t) => Bag(t)
  }

  /** Put overwrites in place, and the leaf of the key has no room for the longer value. */
  ghost predicate StaysOld(ot: Option<Tree>, key: Key, value: Value) {
    && ot.Some? && key in Denotes(ot)
    && LeafUsed(LeafFor(ot.value, key).recs) - |Denotes(ot)[key]| + |value| > MAX_SPACE
  }

  lemma {:induction false} DescendedDepth(pages: map<PageId, Page>, h: nat, cap: TxId, pageCount: nat, t: Tree,
                                          stack: seq<Entry>, status: Status, fs: seq<Frame>, n: Tree, key: Key)
    requires Readable(pages, t, h, cap, pageCount) && Descended(t, stack, status, fs, n, key)
    ensures |stack| == |fs| + 1 < 31 && |fs| <= h
  {
    hide Readable;
    DepthBound(pages, t, h, cap, pageCount, fs, n);
  }

  /** A tree of one leaf with one record. */
  lemma {:induction false} FirstLeaf(w: World, id: PageId, r: Rec, rest: multiset<PageId>)
    requires w.held == rest && RecOk(r)
    ensures var t := Leaf(id, w.cur, [r]);
      && Rooted(World(w.pages[id := LeafPage(w.cur, [r])], w.held + multiset{id}, id, w.cur), t, 0, rest)
      && Ordered(Flat(t)) && MapOf(Flat(t)) == map[r.key := r.value]
  {
    var t := Leaf(id, w.cur, [r]);
    LeafInsertFits([], 0, r);
    assert InsertAt([], 0, r) == [r];
    assert Flat(t) == [Item(r)];
    MapOfOne(Item(r));
  }

  lemma {:induction false} LeafForLeaf(n: Tree, key: Key)
    requires n.Leaf?
    ensures LeafFor(n, key) == n
  {}

  lemma {:induction false} FlatOfLeaf(n: Tree, n': Tree)
    requires n.Leaf? && n'.Leaf? && n'.recs == n.recs
    ensures Flat(n') == Flat(n) == Items(n.recs)
  {}

  lemma {:induction false} AroundSame(fs: seq<Frame>, fs': seq<Frame>, key: Key)
    requires Around(fs, key) && PathOk(fs') && PathPre(fs') == PathPre(fs) && PathPost(fs') == PathPost(fs)
    ensures Around(fs', key)
  {}

  lemma {:induction false} DescendedNotEmpty(ot: Option<Tree>, stack: seq<Entry>, status: Status, fs: seq<Frame>,
                                             n: Tree, key: Key)
    requires ot.Some? ==> Descended(ot.value, stack, status, fs, n, key)
    ensures ot.Some? ==> stack != []
  {}

  /** What the lookup has found is the map's record. */
  lemma {:induction false} FoundHere(fs: seq<Frame>, n: Tree, pos: nat, key: Key)
    requires Around(fs, key) && n.Leaf? && LeafPos(n.recs, pos, key) && PathOk(fs)
    requires Ordered(PathPre(fs) + Flat(n) + PathPost(fs))
    ensures var m := MapOf(PathPre(fs) + Flat(n) + PathPost(fs));
      && (key in m <==> pos < |n.recs| && n.recs[pos].key == key)
      && (key in m ==> m[key] == n.recs[pos].value)
  {
    FoundIsInMap(fs, n.recs, pos, key);
  }

  /** Where a lookup has ended: at the least record not below the key, unless the leaf has none. */
  lemma {:induction false} FoundWhere(t: Tree, stack: seq<Entry>, status: Status, fs: seq<Frame>, n: Tree, key: Key)
    requires Descended(t, stack, status, fs, n, key) && n.Leaf? && Ordered(Flat(t))
    ensures n == LeafFor(t, key) && |stack| == |fs| + 1 && status != Iter
    ensures status == Invalid <==> n.recs != [] && forall j :: 0 <= j < |n.recs| ==> Lt(n.recs[j].key, key)
    ensures n.recs == [] ==> status == Ne && stack[|fs|].slot == 0
    ensures n.recs != [] && status != Invalid ==>
      stack[|fs|].slot < |n.recs| && IsLeast(MapOf(Flat(t)), key, n.recs[stack[|fs|].slot].key)
  {
    hide Ordered, MapOf, IsLeast, Around, Linked;
    var pos := stack[|fs|].slot;
    LinkedFlat(t, fs, n);
    if pos < |n.recs| {
      LeastInMap(fs, n.recs, pos, key);
      LtTransitive(key, n.recs[pos].key, key);
      assert !Lt(n.recs[pos].key, key);
    }
  }

  /** The status of a lookup says whether the map has the key. */
  lemma {:induction false} FoundOrNot(ot: Option<Tree>, stack: seq<Entry>, status: Status, fs: seq<Frame>, n: Tree,
                                      key: Key)
    requires ot.None? ==> stack == [] && status == Invalid
    requires ot.Some? ==> Descended(ot.value, stack, status, fs, n, key) && n.Leaf? && Ordered(Flat(ot.value))
    ensures status == Eq <==> key in Denotes(ot)
    ensures key in Denotes(ot) ==>
      && |stack| == |fs| + 1 && stack[|fs|].slot < |n.recs| && Denotes(ot)[key] == n.recs[stack[|fs|].slot].value
  {
    hide Ordered, MapOf, LeafFor, Flat;
    if ot.Some? {
      LinkedFlat(ot.value, fs, n);
      FoundStatus(n.recs, stack[|fs|].slot, key);
      FoundHere(fs, n, stack[|fs|].slot, key);
    }
  }

  lemma {:induction false} DescendedPage(pages: map<PageId, Page>, t: Tree, stack: seq<Entry>, status: Status,
                                         fs: seq<Frame>, n: Tree, key: Key)
    requires Descended(t, stack, status, fs, n, key) && n.Leaf? && InStore(pages, t)
    ensures |stack| == |fs| + 1 && stack[|fs|].pgid in pages && pages[stack[|fs|].pgid] == LeafPage(n.tx, n.recs)
  {
    NodeAtPage(pages, t, fs, n);
    NodeStored(pages, t, fs, n);
  }

  /** A value that is no longer than the one it replaces is always written. */
  lemma {:induction false} ShorterValueFits(w: World, ot: Option<Tree>, h: nat, rest: multiset<PageId>, key: Key,
                                            value: Value)
    requires Holds(w, ot, h, rest) && key in Denotes(ot) && |value| <= |Denotes(ot)[key]|
    ensures !StaysOld(ot, key, value)
  {
    LeafForFits(ot.value, h, w.cur, key);
  }

  lemma {:induction false} LeafForFits(t: Tree, h: nat, cap: TxId, key: Key)
    requires WfRoot(t, h, cap)
    ensures LeafFits(LeafFor(t, key).recs)
    decreases h
  {
    WfLeaf(t, h, cap);
    if t.Inner? {
      WfChild(t, ChildIndex(t.b.slots, key), h, cap);
      LeafForFits(t.b.Child(ChildIndex(t.b.slots, key)), h - 1, cap, key);
    }
  }

  /** A stored leaf can be such that Put leaves the old value: it is full, and the value would grow by a byte. */
  lemma {:induction false} PutCanKeepOldValue() returns (t: Tree, key: Key, value: Value)
    ensures Holds(World(map[t.id := PageOf(t)], multiset{t.id}, t.id, 1), Some(t), 0, multiset{})
    ensures WfRoot(t, 0, 1) && Ordered(Flat(t)) && RecOk(Rec(key, value)) && StaysOld(Some(t), key, value)
  {
    var a, b, c := ThreeKeys();
    var recs := FullLeaf(a, b, c);
    t, key, value := Leaf(2, 1, recs), c, [0];
    ThreeOrdered(recs);
    hide LeafUsed, Ordered, MapOf;
    FlatOfLeaf(t, t);
    RootAround(t, key);
    assert PathPre([]) + Items(recs) + PathPost([]) == Items(recs);
    FoundIsInMap([], recs, 2, key);
  }
}
