/** What a write transaction's changes leave alone: trees of older versions. And where its pages go. */
module Snapshots {
  import opened Nodes
  import opened Trees
  import opened FreeSpace
  import opened Steps
  import opened Searching
  import opened Pagers
  import opened BTrees

  /** A tree of an older transaction, stored on pages in use, is stored unchanged after any changes by cur. */
  lemma {:induction false} FrozenTree(p: map<PageId, Page>, p': map<PageId, Page>, used: multiset<PageId>, cur: TxId,
                                      t: Tree, h: nat, cap: TxId)
    requires Frozen(p, p', used, cur) && InStore(p, t) && Bag(t) <= used
    requires WfRoot(t, h, cap) && cap < cur
    ensures InStore(p', t)
    decreases h
  {
    BagHasId(t);
    WfLeaf(t, h, cap);
    assert t.id in used && !Owned(p[t.id], cur);
    if t.Inner? {
      forall i | 0 <= i <= |t.b.slots| ensures InStore(p', t.b.Child(i)) {
        BagChild(t, i);
        WfChild(t, i, h, cap);
        FrozenTree(p, p', used, cur, t.b.Child(i), h - 1, cap);
      }
    }
  }

  /**
   * Page accounting of a tree operation. The pages reachable afterwards and the pages it freed are disjoint
   * and are, together, the pages reachable before and the pages it allocated; no page is reachable twice.
   */
  lemma {:induction false} PageAccounting(s: Snap, s': Snap, w: World, w': World, ot: Option<Tree>, ot': Option<Tree>,
                                          h: nat, h': nat, rest: multiset<PageId>)
    requires Holds(w, ot, h, rest) && Holds(w', ot', h', rest) && Wrote(s, s')
    requires s.used == s.pending + w.held && s'.used == s'.pending + w'.held && Once(s'.used)
    ensures var freed, taken := s'.pending - s.pending, s'.used - s.used;
      && PagesOf(ot') + freed == PagesOf(ot) + taken
      && Once(PagesOf(ot')) && Once(freed) && PagesOf(ot') !! freed && taken !! s.used
  {
    hide Rooted, Ordered, Flat, Frozen, Bag;
    HoldsPages(w, ot, h, rest);
    HoldsPages(w', ot', h', rest);
    Accounts(s.pending, s'.pending - s.pending, PagesOf(ot), PagesOf(ot'), rest, s'.used - s.used);
  }

  /** The same in numbers of occurrences. */
  lemma {:induction false} Accounts(pend: multiset<PageId>, freed: multiset<PageId>, before: multiset<PageId>,
                                    after: multiset<PageId>, rest: multiset<PageId>, taken: multiset<PageId>)
    requires (pend + freed) + (rest + after) == (pend + (rest + before)) + taken
    requires Once((pend + freed) + (rest + after))
    ensures after + freed == before + taken
    ensures Once(after) && Once(freed) && after !! freed && taken !! pend + (rest + before)
  {
    var all := (pend + freed) + (rest + after);
    forall x ensures after[x] + freed[x] == before[x] + taken[x] {
      assert all[x] == pend[x] + freed[x] + rest[x] + after[x];
      assert all[x] == pend[x] + rest[x] + before[x] + taken[x];
    }
    OncePart(pend + (rest + before), taken);
    assert all == (after + freed) + (pend + rest);
    OncePart(after + freed, pend + rest);
    OncePart(after, freed);
  }

  lemma {:induction false} HoldsPages(w: World, ot: Option<Tree>, h: nat, rest: multiset<PageId>)
    requires Holds(w, ot, h, rest)
    ensures w.held == rest + PagesOf(ot)
  {}
}
