/** The store of byte pages under the tree: every change of a page is the change of the store that the tree makes. */
module NodeStores {
  import opened Order
  import opened Nodes
  import opened Trees
  import opened SlottedPages

  /** What a slotted page holds for the tree. */
  ghost function PageIn(n: SlottedPage): Page
    requires n.Valid()
    reads n, n.buf
  {
    if n.leaf then LeafPage(n.txid, n.Recs()) else BranchPage(n.txid, n.Content())
  }

  class NodeStore {
    var nodes: map<PageId, SlottedPage>

    /** Pages in order, and no two in the same place. */
    ghost predicate Valid()
      reads this, nodes.Values, set n | n in nodes.Values :: n.buf
    {
      && (forall id :: id in nodes ==> nodes[id].Valid())
      && forall i, j :: i in nodes && j in nodes && i != j ==> nodes[i] != nodes[j] && nodes[i].buf != nodes[j].buf
    }

    /** The store as the tree layer sees it. */
    ghost function Pages(): map<PageId, Page>
      requires Valid()
      reads this, nodes.Values, set n | n in nodes.Values :: n.buf
    {
      map id | id in nodes :: PageIn(nodes[id])
    }

    /** A change of one page is that change of the store. */
    twostate lemma {:induction false} OnlyNode(id: PageId)
      requires old(Valid()) && nodes == old(nodes) && id in nodes && nodes[id].Valid()
      requires forall j :: j in nodes && j != id ==> unchanged(nodes[j]) && unchanged(nodes[j].buf)
      ensures Valid() && Pages() == old(Pages())[id := PageIn(nodes[id])]
    {
      hide SlottedPage.Valid, PageIn;
    }

    /** What the tree sees of one page. */
    lemma {:induction false} PageHere(id: PageId)
      requires Valid() && id in nodes
      ensures nodes[id].Valid() && id in Pages() && Pages()[id] == PageIn(nodes[id])
      ensures |nodes[id].Recs()| == |nodes[id].Content().slots| == |nodes[id].slots|
      ensures if nodes[id].leaf then Pages()[id] == LeafPage(nodes[id].txid, nodes[id].Recs())
              else Pages()[id] == BranchPage(nodes[id].txid, nodes[id].Content())
    {
      hide SlottedPage.Valid;
      nodes[id].Sizes();
    }

    /** node.Insert(slot_id, key, value) on the page. */
    method LeafInsert(id: PageId, i: nat, key: Key, value: Value) returns (ok: bool)
      requires Valid() && id in nodes && nodes[id].leaf && i <= |nodes[id].slots| && Inline(Rec(key, value))
      modifies nodes[id], nodes[id].buf
      ensures Valid() && id in old(Pages()) && old(Pages())[id].LeafPage? && i <= |old(Pages())[id].recs|
      ensures var page := old(Pages())[id];
        && (ok <==> LeafUsed(page.recs) + RecCost(Rec(key, value)) <= MAX_SPACE)
        && Pages() == old(Pages())[id := if ok then page.(recs := InsertAt(page.recs, i, Rec(key, value))) else page]
    {
      hide LeafUsed, SlottedPage.Valid, SlottedPage.Recs, SlottedPage.Content, PageIn, NodeStore.Pages;
      PageHere(id);
      ok := nodes[id].LeafInsert(i, key, value);
      OnlyNode(id);
      PageHere(id);
    }

    /** node.Update(slot_id, key, value) on a leaf's page. */
    method LeafUpdate(id: PageId, i: nat, key: Key, value: Value) returns (ok: bool)
      requires Valid() && id in nodes && nodes[id].leaf && i < |nodes[id].slots| && Inline(Rec(key, value))
      modifies nodes[id], nodes[id].buf
      ensures Valid() && id in old(Pages()) && old(Pages())[id].LeafPage? && i < |old(Pages())[id].recs|
      ensures var page := old(Pages())[id];
        && (ok <==> RoomFor(page.recs, i, Rec(key, value)))
        && Pages() == old(Pages())[id := if ok then page.(recs := page.recs[i := Rec(key, value)]) else page]
    {
      hide LeafUsed, SlottedPage.Valid, SlottedPage.Recs, SlottedPage.Content, PageIn, NodeStore.Pages, RoomFor;
      PageHere(id);
      ok := nodes[id].LeafUpdate(i, key, value);
      OnlyNode(id);
      PageHere(id);
    }

    /** node.Delete(slot_id) on a leaf's page. */
    method LeafDelete(id: PageId, i: nat)
      requires Valid() && id in nodes && nodes[id].leaf && i < |nodes[id].slots|
      modifies nodes[id]
      ensures Valid() && id in old(Pages()) && old(Pages())[id].LeafPage? && i < |old(Pages())[id].recs|
      ensures var page := old(Pages())[id]; Pages() == old(Pages())[id := page.(recs := RemoveAt(page.recs, i))]
    {
      hide SlottedPage.Valid, SlottedPage.Recs, SlottedPage.Content, PageIn, NodeStore.Pages;
      PageHere(id);
      nodes[id].LeafDelete(i);
      OnlyNode(id);
      PageHere(id);
    }

    /** node.Insert(slot_id, key, child, is_right_child) on a branch's page. */
    method BranchInsert(id: PageId, i: nat, key: Key, child: PageId, isRightChild: bool) returns (ok: bool)
      requires Valid() && id in nodes && !nodes[id].leaf && i <= |nodes[id].slots| && |key| <= MAX_INLINE
      modifies nodes[id], nodes[id].buf
      ensures Valid() && id in old(Pages()) && old(Pages())[id].BranchPage? && i <= |old(Pages())[id].b.slots|
      ensures var page := old(Pages())[id];
        && (ok <==> BranchUsed(page.b.slots) + KeyCost(key) <= MAX_SPACE)
        && Pages() == old(Pages())[id := if ok then page.(b := page.b.Insert(i, key, child, isRightChild)) else page]
    {
      hide BranchUsed, SlottedPage.Valid, SlottedPage.Recs, SlottedPage.Content, PageIn, NodeStore.Pages;
      PageHere(id);
      ok := nodes[id].BranchInsert(i, key, child, isRightChild);
      OnlyNode(id);
      PageHere(id);
    }

    /** node.Delete(slot_id, right_child) on a branch's page. */
    method BranchDelete(id: PageId, i: nat, rightChild: bool)
      requires Valid() && id in nodes && !nodes[id].leaf && i < |nodes[id].slots|
      modifies nodes[id]
      ensures Valid() && id in old(Pages()) && old(Pages())[id].BranchPage? && i < |old(Pages())[id].b.slots|
      ensures var page := old(Pages())[id]; Pages() == old(Pages())[id := page.(b := page.b.Delete(i, rightChild))]
    {
      hide SlottedPage.Valid, SlottedPage.Recs, SlottedPage.Content, PageIn, NodeStore.Pages;
      PageHere(id);
      nodes[id].BranchDelete(i, rightChild);
      OnlyNode(id);
      PageHere(id);
    }

    /** node.Update(slot_id, key) on a branch's page. */
    method BranchUpdate(id: PageId, i: nat, key: Key) returns (ok: bool)
      requires Valid() && id in nodes && !nodes[id].leaf && i < |nodes[id].slots| && |key| <= MAX_INLINE
      modifies nodes[id], nodes[id].buf
      ensures Valid() && id in old(Pages()) && old(Pages())[id].BranchPage? && i < |old(Pages())[id].b.slots|
      ensures var page := old(Pages())[id];
        && (ok <==> BranchUsed(page.b.slots) - KeyCost(page.b.slots[i].key) + KeyCost(key) <= MAX_SPACE)
        && Pages() == old(Pages())[id := if ok then page.(b := page.b.SetKey(i, key)) else page]
    {
      hide BranchUsed, SlottedPage.Valid, SlottedPage.Recs, SlottedPage.Content, PageIn, NodeStore.Pages;
      PageHere(id);
      ok := nodes[id].BranchUpdate(i, key);
      OnlyNode(id);
      PageHere(id);
    }

    /** node.SetLeftChild(slot_id, child) on a branch's page. */
    method SetLeftChild(id: PageId, i: nat, child: PageId)
      requires Valid() && id in nodes && !nodes[id].leaf && i <= |nodes[id].slots|
      modifies nodes[id]
      ensures Valid() && id in old(Pages()) && old(Pages())[id].BranchPage? && i <= |old(Pages())[id].b.slots|
      ensures var page := old(Pages())[id]; Pages() == old(Pages())[id := page.(b := page.b.SetChild(i, child))]
    {
      hide SlottedPage.Valid, SlottedPage.Recs, SlottedPage.Content, PageIn, NodeStore.Pages;
      PageHere(id);
      nodes[id].SetLeftChild(i, child);
      OnlyNode(id);
      PageHere(id);
    }

    /** A page built or copied anew. */
    twostate lemma {:induction false} NewNode(id: PageId, new n: SlottedPage)
      requires old(Valid()) && nodes == old(nodes)[id := n] && fresh(n) && fresh(n.buf) && n.Valid()
      requires forall j :: j in old(nodes) ==> unchanged(old(nodes)[j]) && unchanged(old(nodes)[j].buf)
      ensures Valid() && Pages() == old(Pages())[id := PageIn(n)]
    {
      hide SlottedPage.Valid, PageIn;
    }

    /** LeafNode::Build on a page. */
    method BuildLeaf(id: PageId, txid: TxId)
      requires Valid()
      modifies this
      ensures Valid() && Pages() == old(Pages())[id := LeafPage(txid, [])]
    {
      hide SlottedPage.Valid, PageIn, NodeStore.Pages;
      var n := new SlottedPage(true, txid, INVALID_PAGE);
      EmptyPage(n);
      nodes := nodes[id := n];
      NewNode(id, n);
    }

    /** BranchNode::Build on a page. */
    method BuildBranch(id: PageId, txid: TxId, tailChild: PageId)
      requires Valid()
      modifies this
      ensures Valid() && Pages() == old(Pages())[id := BranchPage(txid, Branch([], tailChild))]
    {
      hide SlottedPage.Valid, PageIn, NodeStore.Pages;
      var n := new SlottedPage(false, txid, tailChild);
      EmptyPage(n);
      nodes := nodes[id := n];
      NewNode(id, n);
    }

    /** Node::Copy: a page's bytes on another page, as one of transaction txid. */
    method CopyNode(id: PageId, copy: PageId, txid: TxId)
      requires Valid() && id in nodes
      modifies this
      ensures Valid() && id in old(Pages()) && !old(Pages())[id].ListPage?
      ensures Pages() == old(Pages())[copy := old(Pages())[id].(tx := txid)]
    {
      hide SlottedPage.Valid, PageIn, NodeStore.Pages;
      PageHere(id);
      var n := new SlottedPage.Copy(nodes[id], txid);
      CopiedPage(nodes[id], n);
      nodes := nodes[copy := n];
      NewNode(copy, n);
    }
  }

  lemma {:induction false} EmptyPage(n: SlottedPage)
    requires n.Valid() && n.Cells() == []
    ensures PageIn(n) == if n.leaf then LeafPage(n.txid, []) else BranchPage(n.txid, Branch([], n.tailChild))
  {}

  lemma {:induction false} CopiedPage(n: SlottedPage, copy: SlottedPage)
    requires n.Valid() && copy.Valid() && copy.Cells() == n.Cells()
    requires copy.leaf == n.leaf && copy.tailChild == n.tailChild
    ensures !PageIn(n).ListPage? && PageIn(copy) == PageIn(n).(tx := copy.txid)
  {}
}
