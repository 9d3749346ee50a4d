/** How high a tree can be: why the path stack of 32 entries never overflows. */
module Heights {
  import opened Nodes
  import opened Trees
  import opened FreeSpace
  import opened Steps
  import opened Searching

  function Pow2(n: nat): nat { if n == 0 then 1 else 2 * Pow2(n - 1) }

  lemma {:induction false} Pow2Monotone(m: nat, n: nat)
    requires m <= n
    ensures Pow2(m) <= Pow2(n)
    decreases n
  {
    if m < n { Pow2Monotone(m, n - 1); }
  }

  /** Every branch has two children or more, so a tree of height h has at least 2^(h+1) - 1 pages. */
  lemma {:induction false} TreeSize(t: Tree, h: nat, cap: TxId)
    requires Wf(t, h, cap)
    ensures |Bag(t)| >= Pow2(h + 1) - 1
    decreases h
  {
    if t.Inner? {
      var b := t.b;
      var l, r := b.Child(0), b.Child(|b.slots|);
      TreeSize(l, h - 1, t.tx);
      TreeSize(r, h - 1, t.tx);
      BagSlotsMember(b.slots, 0);
      PartSize(Bag(l), BagSlots(b.slots));
    }
  }

  /** A path through a tree whose pages are distinct pages of a file below 2^31 pages fits the stack. */
  lemma {:induction false} HeightBound(t: Tree, h: nat, cap: TxId, pageCount: nat)
    requires Wf(t, h, cap) && Bag(t) <= FileBag(pageCount) && 2 <= pageCount <= PAGE_MAX_COUNT
    ensures h + 1 < 31
  {
    TreeSize(t, h, cap);
    PartSize(Bag(t), FileBag(pageCount));
    IntervalSize(2, pageCount);
    if h + 1 >= 31 {
      Pow2Monotone(31, h + 1);
      Pow2Of31();
    }
  }

  lemma {:induction false} Pow2Of31()
    ensures Pow2(31) == PAGE_MAX_COUNT
  {
    assert Pow2(8) == 256;
    assert Pow2(16) == 65536;
    assert Pow2(24) == 0x100_0000;
  }

  /** A stored tree of a file within the page id limit. */
  ghost predicate Readable(pages: map<PageId, Page>, t: Tree, h: nat, cap: TxId, pageCount: nat) {
    && InStore(pages, t) && WfRoot(t, h, cap)
    && Bag(t) <= FileBag(pageCount) && 2 <= pageCount <= PAGE_MAX_COUNT
  }

  /** A path through the tree fits the stack. */
  lemma {:induction false} DepthBound(pages: map<PageId, Page>, t: Tree, h: nat, cap: TxId, pageCount: nat,
                                      fs: seq<Frame>, m: Tree)
    requires Readable(pages, t, h, cap, pageCount) && Linked(t, fs, m)
    ensures |fs| + 1 < 31 && |fs| <= h && WfRoot(m, h - |fs|, cap) && (fs != [] ==> NonEmpty(m))
  {
    hide InStore;
    LinkedWf(t, fs, m, h, cap, |fs|);
    if fs != [] {
      LinkedWf(t, fs, m, h, cap, 0);
      HeightBound(t, h, cap, pageCount);
    }
  }
}
