/** Views and write transactions as a state machine, and snapshot isolation over all its runs. */
module Transactions {
  import opened Nodes
  import opened Trees
  import opened FreeSpace
  import opened Steps
  import opened Pagers
  import opened BTrees
  import opened Snapshots

  /** What a transaction has committed: the tree under its user_root. */
  datatype Version = Version(txid: TxId, tree: Option<Tree>, h: nat)

  ghost predicate IsVersion(v: Version) {
    v.tree.Some? ==> WfRoot(v.tree.value, v.h, v.txid) && Ordered(Flat(v.tree.value))
  }

  ghost predicate Stored(pages: map<PageId, Page>, v: Version) {
    v.tree.Some? ==> InStore(pages, v.tree.value)
  }

  /** The version's pages are in use, and none of them was freed by its transaction or an older one. */
  ghost predicate Kept(v: Version, pending: seq<Pending>, used: multiset<PageId>) {
    PagesOf(v.tree) + PendBag(pending[..LowerPending(pending, v.txid + 1)]) <= used
  }

  /**
   * pending, used: frees that wait and pages in use, as they stood when the open write transaction began.
   * now: pages in use by now. freed: those among them that it has freed. views: the open read transactions.
   */
  datatype Db = Db(pages: map<PageId, Page>, pending: seq<Pending>, used: multiset<PageId>, now: multiset<PageId>,
                   freed: multiset<PageId>, committed: Version, views: map<nat, Version>, writing: bool)

  ghost predicate Fine(db: Db, v: Version) {
    IsVersion(v) && Stored(db.pages, v) && Kept(v, db.pending, db.used) && v.txid <= db.committed.txid
  }

  ghost predicate Inv(db: Db) {
    && SortedPending(db.pending) && OlderThan(db.pending, db.committed.txid + 1)
    && db.used <= db.now && (!db.writing ==> db.now == db.used && db.freed == multiset{})
    && Fine(db, db.committed)
    && forall id :: id in db.views ==> Fine(db, db.views[id])
  }

  datatype Action =
    | Begin(oldest: TxId)
    | Write
    | Commit(v: Version)
    | Rollback
    | OpenView(id: nat)
    | CloseView(id: nat)

  /** min_view_txid_: the oldest open view, or the last commit when there is none. */
  ghost predicate IsOldest(db: Db, oldest: TxId) {
    if db.views == map[] then oldest == db.committed.txid
    else (exists id :: id in db.views && db.views[id].txid == oldest)
         && forall id :: id in db.views ==> oldest <= db.views[id].txid
  }

  /** Update: frees of transactions before oldest - 1 are released. */
  ghost predicate BeginStep(db: Db, oldest: TxId, db': Db) {
    && !db.writing && IsOldest(db, oldest)
    && var n := LowerPending(db.pending, if oldest == 0 then 0 else oldest - 1);
       db.used == db'.used + PendBag(db.pending[..n])
       && db' == db.(pending := db.pending[n..], used := db'.used, now := db'.used, writing := true)
  }

  /** Any change by the write transaction: it takes free pages, writes pages of its own and frees pages. */
  ghost predicate WriteStep(db: Db, db': Db) {
    && db.writing && db.now <= db'.now && db.freed <= db'.freed
    && Frozen(db.pages, db'.pages, db.now, db.committed.txid + 1)
    && db' == db.(pages := db'.pages, now := db'.now, freed := db'.freed)
  }

  /**
   * Commit: the writer's tree becomes the committed one. What it freed waits under its id, and nothing else is
   * added or dropped. It has freed just the pages of the old tree, and those it took, that are not the new tree's.
   */
  ghost predicate CommitStep(db: Db, v: Version, db': Db) {
    && db.writing && v.txid == db.committed.txid + 1 && IsVersion(v) && Stored(db'.pages, v)
    && Frozen(db.pages, db'.pages, db.now, v.txid)
    && SortedPending(db'.pending) && ExtendsBy(db'.pending, db.pending, v.txid)
    && PendBag(db'.pending) == PendBag(db.pending) + db.freed
    && PagesOf(v.tree) + db.freed == PagesOf(db.committed.tree) + (db.now - db.used)
    && db.now <= db'.used && PagesOf(v.tree) + PendBag(db'.pending) <= db'.used
    && db' == Db(db'.pages, db'.pending, db'.used, db'.used, multiset{}, v, db.views, false)
  }

  ghost predicate Next(db: Db, a: Action, db': Db) {
    match a
    case Begin(oldest) => BeginStep(db, oldest, db')
    case Write => WriteStep(db, db')
    case Commit(v) => CommitStep(db, v, db')
    case Rollback => db.writing && db' == db.(now := db.used, freed := multiset{}, writing := false)
    case OpenView(id) => id !in db.views && db' == db.(views := db.views[id := db.committed])
    case CloseView(id) => id in db.views && db' == db.(views := db.views - {id})
  }

  const TX_INVALID: TxId := 0xffff_ffff_ffff_ffff  // kTxInvalidId

  /** IsTxExpired */
  predicate IsTxExpired(txid: TxId, minViewTxid: TxId) { txid < minViewTxid }

  /** CopyNeeded: pages of the open transaction, and in kWal mode some others, are changed in place. */
  predicate CopyNeeded(txid: TxId, minViewTxid: TxId, persistedTxid: TxId, current: TxId) {
    if IsTxExpired(txid, minViewTxid) && txid > persistedTxid then false else txid < current
  }

  /**
   * In kUpdateInPlace mode persisted_txid_ keeps its initial value: a page may be changed in place exactly if it
   * belongs to the open transaction, whatever views there are.
   */
  lemma {:induction false} CopyNeededInPlace(page: Page, minViewTxid: TxId, current: TxId)
    requires !page.ListPage? && page.tx <= current <= TX_INVALID
    ensures !CopyNeeded(page.tx, minViewTxid, TX_INVALID, current) <==> Owned(page, current)
  {}

  // ----- every step keeps the invariant

  lemma {:induction false} LowerPendingMonotone(s: seq<Pending>, a: TxId, b: TxId)
    requires SortedPending(s) && a <= b
    ensures LowerPending(s, a) <= LowerPending(s, b)
  {}

  lemma {:induction false} LowerPendingSuffix(s: seq<Pending>, a: TxId, b: TxId)
    requires SortedPending(s) && a <= b
    ensures LowerPending(s, a) <= LowerPending(s, b)
    ensures LowerPending(s[LowerPending(s, a)..], b) == LowerPending(s, b) - LowerPending(s, a)
  {
    LowerPendingMonotone(s, a, b);
    LowerPendingUnique(s[LowerPending(s, a)..], b, LowerPending(s, b) - LowerPending(s, a));
  }

  lemma {:induction false} CancelBag(a: multiset<PageId>, b: multiset<PageId>, c: multiset<PageId>, u: multiset<PageId>)
    requires a + (c + b) <= u + c
    ensures a + b <= u
  {
    forall x ensures (a + b)[x] <= u[x] {
      assert (a + (c + b))[x] == a[x] + c[x] + b[x];
      assert (u + c)[x] == u[x] + c[x];
    }
  }

  /** Releasing frees that are older than a version keeps the version's pages in use. */
  lemma {:induction false} KeptAfterRelease(v: Version, pending: seq<Pending>, used: multiset<PageId>, bound: TxId,
                                            used': multiset<PageId>)
    requires Kept(v, pending, used) && SortedPending(pending) && bound <= v.txid
    requires used == used' + PendBag(pending[..LowerPending(pending, bound)])
    ensures Kept(v, pending[LowerPending(pending, bound)..], used')
  {
    hide PendBag, LowerPending, PagesOf, SortedPending;
    var n, k := LowerPending(pending, bound), LowerPending(pending, v.txid + 1);
    LowerPendingSuffix(pending, bound, v.txid + 1);
    ReleasedPart(PagesOf(v.tree), pending, n, k, used, used');
  }

  lemma {:induction false} ReleasedPart(pages: multiset<PageId>, pending: seq<Pending>, n: nat, k: nat,
                                        used: multiset<PageId>, used': multiset<PageId>)
    requires n <= k <= |pending| && pages + PendBag(pending[..k]) <= used
    requires used == used' + PendBag(pending[..n])
    ensures pages + PendBag(pending[n..][..k - n]) <= used'
  {
    hide PendBag;
    var rest := pending[n..k];
    assert pending[n..][..k - n] == rest;
    assert pending[..k] == pending[..n] + rest;
    PendBagConcat(pending[..n], rest);
    CancelBag(pages, PendBag(rest), PendBag(pending[..n]), used');
  }

  /** Frees by a newer transaction do not concern the version. */
  lemma {:induction false} KeptAfterFrees(v: Version, pending: seq<Pending>, used: multiset<PageId>, cur: TxId,
                                          pending': seq<Pending>, used': multiset<PageId>)
    requires Kept(v, pending, used) && v.txid < cur && ExtendsBy(pending', pending, cur) && SortedPending(pending')
    requires used <= used'
    ensures Kept(v, pending', used')
  {
    var k := LowerPending(pending, v.txid + 1);
    LowerPendingUnique(pending', v.txid + 1, k);
    assert pending'[..k] == pending[..k];
  }

  lemma {:induction false} KeptPages(v: Version, pending: seq<Pending>, used: multiset<PageId>)
    requires Kept(v, pending, used)
    ensures PagesOf(v.tree) <= used
  {}

  lemma {:induction false} StoredAfter(db: Db, v: Version, pages: map<PageId, Page>)
    requires Fine(db, v) && db.used <= db.now && Frozen(db.pages, pages, db.now, db.committed.txid + 1)
    ensures Stored(pages, v)
  {
    KeptPages(v, db.pending, db.used);
    if v.tree.Some? {
      FrozenTree(db.pages, pages, db.now, db.committed.txid + 1, v.tree.value, v.h, v.txid);
    }
  }

  lemma {:induction false} FineNext(db: Db, a: Action, db': Db, v: Version)
    requires Inv(db) && Next(db, a, db') && Fine(db, v)
    requires a.Begin? ==> a.oldest <= v.txid
    ensures Fine(db', v)
  {
    hide IsVersion, Stored, Kept, Frozen, PendBag;
    match a
    case Begin(oldest) =>
      KeptAfterRelease(v, db.pending, db.used, if oldest == 0 then 0 else oldest - 1, db'.used);
    case Write =>
      StoredAfter(db, v, db'.pages);
    case Commit(c) =>
      StoredAfter(db, v, db'.pages);
      KeptAfterFrees(v, db.pending, db.used, c.txid, db'.pending, db'.used);
    case _ =>
  }

  /** The newest version is kept by being in use: no newer transaction has freed anything yet. */
  lemma {:induction false} FineCommitted(db: Db, v: Version, db': Db)
    requires Inv(db) && CommitStep(db, v, db')
    ensures Fine(db', v) && OlderThan(db'.pending, v.txid + 1)
  {
    hide PendBag, IsVersion, Stored, Frozen;
    LowerPendingUnique(db'.pending, v.txid + 1, |db'.pending|);
    assert db'.pending[..|db'.pending|] == db'.pending;
  }

  lemma {:induction false} OldestBounds(db: Db, oldest: TxId, id: nat)
    requires Inv(db) && IsOldest(db, oldest)
    ensures oldest <= db.committed.txid && (id in db.views ==> oldest <= db.views[id].txid)
  {
    hide IsVersion, Stored, Kept;
  }

  lemma {:induction false} InvNext(db: Db, a: Action, db': Db)
    requires Inv(db) && Next(db, a, db')
    ensures Inv(db')
  {
    hide Fine, Frozen, PendBag, IsVersion, Stored, IsOldest;
    if a.Begin? { OldestBounds(db, a.oldest, 0); }
    if a.Commit? { FineCommitted(db, a.v, db'); } else { FineNext(db, a, db', db.committed); }
    forall id | id in db'.views ensures Fine(db', db'.views[id]) {
      if id in db.views {
        if a.Begin? { OldestBounds(db, a.oldest, id); }
        FineNext(db, a, db', db.views[id]);
      }
    }
  }

  /** Every page of the old version that the new one does not have waits for its release after the commit. */
  lemma {:induction false} ReplacedPagesWait(db: Db, v: Version, db': Db, x: PageId)
    requires Next(db, Commit(v), db') && x in PagesOf(db.committed.tree) && x !in PagesOf(v.tree)
    ensures x in db.freed && x in PendBag(db'.pending)
  {
    hide PagesOf, PendBag, Frozen, IsVersion, Stored;
    assert (PagesOf(v.tree) + db.freed)[x] == (PagesOf(db.committed.tree) + (db.now - db.used))[x];
  }

  // ----- runs

  /** A run: any interleaving of actions. */
  ghost predicate Run(run: seq<Db>, actions: seq<Action>) {
    |run| == |actions| + 1 && forall i :: 0 <= i < |actions| ==> Next(run[i], actions[i], run[i + 1])
  }

  lemma {:induction false} InvRun(run: seq<Db>, actions: seq<Action>, i: nat)
    requires Run(run, actions) && Inv(run[0]) && i < |run|
    ensures Inv(run[i])
  {
    hide Inv, Next;
    if i > 0 {
      InvRun(run, actions, i - 1);
      InvNext(run[i - 1], actions[i - 1], run[i]);
    }
  }

  /** While it is open, a view keeps its version. */
  lemma {:induction false} ViewStays(run: seq<Db>, actions: seq<Action>, i: nat, j: nat, id: nat)
    requires Run(run, actions) && i <= j < |run|
    requires forall k :: i <= k <= j ==> id in run[k].views
    ensures run[j].views[id] == run[i].views[id]
    decreases j
  {
    if i < j {
      ViewStays(run, actions, i, j - 1, id);
      assert Next(run[j - 1], actions[j - 1], run[j]) && id in run[j - 1].views && id in run[j].views;
    }
  }

  /** Two stores that hold the same tree hold the same content on every page of it. */
  lemma {:induction false} SamePages(p: map<PageId, Page>, p': map<PageId, Page>, t: Tree, id: PageId)
    requires InStore(p, t) && InStore(p', t) && id in Bag(t)
    ensures id in p && id in p' && p'[id] == p[id]
  {
    if t.Inner? && id != t.id {
      var i := ChildWithPage(t.b, id);
      SamePages(p, p', t.b.Child(i), id);
    }
  }

  lemma {:induction false} ChildWithPage(b: Branch<Tree>, id: PageId) returns (i: nat)
    requires id in BagBranch(b)
    ensures i <= |b.slots| && id in Bag(b.Child(i))
  {
    if id in Bag(b.tail) {
      i := |b.slots|;
    } else {
      i := SlotWithPage(b.slots, id);
    }
  }

  lemma {:induction false} SlotWithPage(s: seq<Slot<Tree>>, id: PageId) returns (i: nat)
    requires id in BagSlots(s)
    ensures i < |s| && id in Bag(s[i].left)
  {
    if id in Bag(s[|s| - 1].left) {
      i := |s| - 1;
    } else {
      i := SlotWithPage(s[..|s| - 1], id);
    }
  }

  /**
   * Snapshot isolation. In every run, from the moment i a view opens and as long as it is open, its root
   * denotes the version that was committed at i, and every page reachable from it has the content it had at i.
   */
  lemma {:induction false} SnapshotIsolation(run: seq<Db>, actions: seq<Action>, i: nat, j: nat, id: nat)
    requires Run(run, actions) && Inv(run[0])
    requires i < j < |run| && actions[i] == OpenView(id)
    requires forall k :: i < k <= j ==> id in run[k].views
    ensures run[j].views[id] == run[i].committed && Stored(run[j].pages, run[i].committed)
    ensures forall x :: x in PagesOf(run[i].committed.tree) ==>
              x in run[i].pages && x in run[j].pages && run[j].pages[x] == run[i].pages[x]
  {
    hide Fine, InStore, Bag;
    assert Next(run[i], actions[i], run[i + 1]);
    ViewStays(run, actions, i + 1, j, id);
    InvRun(run, actions, i);
    InvRun(run, actions, j);
    var v := run[i].committed;
    assert Stored(run[i].pages, v) && Stored(run[j].pages, v) by { FineStored(run[i], v); FineStored(run[j], v); }
    forall x | x in PagesOf(v.tree)
      ensures x in run[i].pages && x in run[j].pages && run[j].pages[x] == run[i].pages[x]
    {
      SamePages(run[i].pages, run[j].pages, v.tree.value, x);
    }
  }

  lemma {:induction false} FineStored(db: Db, v: Version)
    requires Fine(db, v)
    ensures Stored(db.pages, v)
  {}

  /** No page that a view can reach is free, or is being handed out, at any time while the view is open. */
  lemma {:induction false} ViewPagesInUse(run: seq<Db>, actions: seq<Action>, j: nat, id: nat)
    requires Run(run, actions) && Inv(run[0]) && j < |run| && id in run[j].views
    ensures PagesOf(run[j].views[id].tree) <= run[j].used <= run[j].now
  {
    InvRun(run, actions, j);
    KeptPages(run[j].views[id], run[j].pending, run[j].used);
  }
}
