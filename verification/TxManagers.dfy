/** tx_manager.cpp in kUpdateInPlace mode: every method is a step of the state machine in Transactions. */
module TxManagers {
  import opened Order
  import opened Nodes
  import opened Trees
  import opened FreeSpace
  import opened Steps
  import opened Shapes
  import opened Pagers
  import opened BTrees
  import opened Snapshots
  import opened Transactions
  import opened ViewCounts
  import opened Heights
  import Iteration

  /** The root page id of a version. */
  ghost predicate IsRoot(root: PageId, ot: Option<Tree>) {
    match ot
    case None => root == INVALID_PAGE
    case Some(t) => root == t.id && root != INVALID_PAGE
  }

  ghost predicate Positive(views: map<nat, Version>) { forall id :: id in views ==> views[id].txid >= 1 }

  lemma {:induction false} PositiveAdd(views: map<nat, Version>, id: nat, v: Version)
    requires Positive(views) && v.txid >= 1
    ensures Positive(views[id := v])
  {}

  lemma {:induction false} PositiveDrop(views: map<nat, Version>, id: nat)
    requires Positive(views)
    ensures Positive(views - {id})
  {}

  lemma {:induction false} BeginIsNext(db: Db, oldest: TxId, db': Db)
    requires !db.writing && IsOldest(db, oldest) && oldest >= 1
    requires var n := LowerPending(db.pending, oldest - 1);
      && db.used == db'.used + PendBag(db.pending[..n])
      && db' == db.(pending := db.pending[n..], used := db'.used, now := db'.used, writing := true)
    ensures Next(db, Begin(oldest), db')
  {}

  lemma {:induction false} RollbackIsNext(db: Db, db': Db)
    requires db.writing && db' == db.(now := db.used, freed := multiset{}, writing := false)
    ensures Next(db, Rollback, db')
  {}

  lemma {:induction false} InitialInv(db: Db)
    requires db == IdleDb(map[], [], db.used, Version(1, None, 0), map[])
    ensures Inv(db)
  {
    PendBagEmpty();
  }

  lemma {:induction false} HeldRest(held: multiset<PageId>, rest: multiset<PageId>, part: multiset<PageId>,
                                    held': multiset<PageId>)
    requires held == rest + part && held <= held'
    ensures held' == (held' - part) + part && part <= held'
  {}

  /** What the transaction freed waits beside what waited before. */
  lemma {:induction false} ExtendsBag(s: seq<Pending>, base: seq<Pending>, tx: TxId)
    requires ExtendsBy(s, base, tx)
    ensures PendBag(base) <= PendBag(s)
  {
    hide SpanBag;
    PendBagConcat(s[..|base|], s[|base|..]);
    assert s == s[..|base|] + s[|base|..];
  }

  /** The pages of two trees over the same rest: those freed and those taken make the difference. */
  lemma {:induction false} Replaced(base: multiset<PageId>, pend: multiset<PageId>, rest: multiset<PageId>,
                                    before: multiset<PageId>, after: multiset<PageId>)
    requires base <= pend && base + (rest + before) <= pend + (rest + after)
    ensures after + (pend - base) == before + ((pend + (rest + after)) - (base + (rest + before)))
  {}

  lemma {:induction false} CommitIsNext(db: Db, v: Version, db': Db)
    requires db.writing && v.txid == db.committed.txid + 1 && IsVersion(v) && Stored(db'.pages, v)
    requires SameOn(db.pages, db'.pages, db.now) && db.now <= db'.used
    requires SortedPending(db'.pending) && ExtendsBy(db'.pending, db.pending, v.txid)
    requires PagesOf(v.tree) + PendBag(db'.pending) <= db'.used
    requires PendBag(db'.pending) == PendBag(db.pending) + db.freed
    requires PagesOf(v.tree) + db.freed == PagesOf(db.committed.tree) + (db.now - db.used)
    requires db' == Db(db'.pages, db'.pending, db'.used, db'.used, multiset{}, v, db.views, false)
    ensures Next(db, Action.Commit(v), db')
  {
    SameIsFrozen(db.pages, db'.pages, db.now, v.txid);
  }

  lemma {:induction false} OpenIsNext(db: Db, id: nat, db': Db)
    requires id !in db.views && db' == db.(views := db.views[id := db.committed])
    ensures Next(db, OpenView(id), db')
  {}

  lemma {:induction false} CloseIsNext(db: Db, id: nat, db': Db)
    requires id in db.views && db' == db.(views := db.views - {id})
    ensures Next(db, CloseView(id), db')
  {}

  lemma {:induction false} OldestPositive(db: Db, oldest: TxId)
    requires IsOldest(db, oldest) && Positive(db.views) && db.committed.txid >= 1
    ensures oldest >= 1
  {}

  lemma {:induction false} InvOlder(db: Db)
    requires Inv(db)
    ensures OlderThan(db.pending, db.committed.txid + 1) && SortedPending(db.pending)
  {}

  lemma {:induction false} InvUsed(db: Db)
    requires Inv(db)
    ensures db.used <= db.now
  {}

  /** The committed tree is what the write transaction begins with. */
  lemma {:induction false} CommittedHolds(db: Db, w: World, rest: multiset<PageId>)
    requires Inv(db) && w.pages == db.pages && IsRoot(w.root, db.committed.tree) && w.cur >= db.committed.txid
    requires w.held == rest + PagesOf(db.committed.tree)
    ensures Holds(w, db.committed.tree, db.committed.h, rest)
  {
    hide Kept, InStore, Ordered, Flat, Bag;
    var v := db.committed;
    assert IsVersion(v) && Stored(db.pages, v);
    if v.tree.Some? && Wf(v.tree.value, v.h, v.txid) { WfWeaken(v.tree.value, v.h, v.txid, w.cur); }
  }

  /** The write transaction's tree becomes the committed version. */
  lemma {:induction false} HoldsVersion(w: World, pages: map<PageId, Page>, ot: Option<Tree>, h: nat,
                                        rest: multiset<PageId>,
                                        used: multiset<PageId>)
    requires Holds(w, ot, h, rest) && w.held <= used && SameOn(w.pages, pages, used)
    ensures IsVersion(Version(w.cur, ot, h)) && Stored(pages, Version(w.cur, ot, h))
    ensures IsRoot(w.root, ot) && w.held == rest + PagesOf(ot)
  {
    hide Wf, Ordered, Flat;
    if ot.Some? {
      SameOnPart(w.pages, pages, used, Bag(ot.value));
      InStoreFrame(w.pages, pages, ot.value);
    }
  }

  /** The state of the state machine while no write transaction is open. */
  ghost function IdleDb(pages: map<PageId, Page>, pending: seq<Pending>, used: multiset<PageId>, committed: Version,
                        views: map<nat, Version>): Db
  {
    Db(pages, pending, used, used, multiset{}, committed, views, false)
  }

  /** The state while one is. */
  ghost function WriterDb(s: Snap, committed: Version, views: map<nat, Version>): Db {
    Db(s.pages, s.fixed.basePending, PendBag(s.fixed.basePending) + s.fixed.baseHeld, s.used,
       s.pending - PendBag(s.fixed.basePending), committed, views, true)
  }

  /** The write transaction began from the last commit. */
  ghost predicate BegunFrom(s: Snap, dbMeta: MetaStruct, committed: Version, rest: multiset<PageId>) {
    && s.cur == dbMeta.txid + 1 && s.fixed.baseCount == dbMeta.pageCount
    && s.fixed.freeListPgid == INVALID_PAGE && s.fixed.baseHeld == rest + PagesOf(committed.tree)
  }

  /** What a tree operation does is a step of the writer. */
  lemma {:induction false} WroteIsNext(s: Snap, s': Snap, dbMeta: MetaStruct, committed: Version, views: map<nat,
                                       Version>,
                                       rest: multiset<PageId>)
    requires Wrote(s, s') && BegunFrom(s, dbMeta, committed, rest) && dbMeta.txid == committed.txid
    ensures BegunFrom(s', dbMeta, committed, rest)
    ensures Next(WriterDb(s, committed, views), Write, WriterDb(s', committed, views))
  {
    hide Frozen, PendBag;
  }

  class TxManager {
    const pager: Pager
    const btree: BTree               // the user bucket of update_tx_
    var dbMeta: MetaStruct           // db_->meta().meta_struct()
    var updating: bool               // update_tx_.has_value()
    var viewTxMap: seq<ViewCount>
    var minViewTxid: TxId
    ghost var committed: Version
    ghost var views: map<nat, Version>
    ghost var tree: Option<Tree>     // the write transaction's
    ghost var height: nat
    ghost var rest: multiset<PageId> // pages held that belong to no tree

    ghost function State(): Db
      reads this`updating, this`committed, this`views, pager
    {
      if updating then WriterDb(pager.TheSnap(), committed, views)
      else IdleDb(pager.pages, pager.pendingMap, pager.Used(), committed, views)
    }

    /** The fields say what the state says. */
    ghost predicate Consistent()
      reads this`dbMeta, this`committed, this`viewTxMap, this`views
    {
      && dbMeta.txid == committed.txid >= 1 && IsRoot(dbMeta.userRoot, committed.tree)
      && dbMeta.freeListPgid == INVALID_PAGE && Counts(viewTxMap, views) && Positive(views)
    }

    /** No write transaction is open. */
    ghost predicate Idle()
      reads this`updating, this`dbMeta, this`rest, this`committed, pager
    {
      !updating && pager.Valid() && pager.meta == dbMeta && pager.held == rest + PagesOf(committed.tree)
    }

    /** A write transaction is open. */
    ghost predicate Open()
      reads this`updating, this`dbMeta, this`rest, this`committed, this`tree, this`height, pager
    {
      && updating && pager.InTx() && BegunFrom(pager.TheSnap(), dbMeta, committed, rest)
      && Holds(pager.TheWorld(), tree, height, rest)
    }

    ghost predicate Valid()
      reads this, pager
    {
      btree.pager == pager && Inv(State()) && Consistent() && (Idle() || Open())
    }

    /** A database that has just been initialised: Meta::Init leaves txid 1 in memory. */
    constructor ()
      ensures Valid() && !updating && views == map[] && fresh(pager)
      ensures committed == Version(1, None, 0) && dbMeta == MetaStruct(2, INVALID_PAGE, INVALID_PAGE, 0, 0, 1)
    {
      hide Inv, Consistent, Pager.Valid, FileBag, Pager.Used;
      var meta := MetaStruct(2, INVALID_PAGE, INVALID_PAGE, 0, 0, 1);
      var p := new Pager(meta, map[]);
      pager := p;
      btree := new BTree(p);
      dbMeta, updating, viewTxMap, minViewTxid := meta, false, [], 1;
      committed, views, tree, height, rest := Version(1, None, 0), map[], None, 0, FileBag(2);
      new;
      InitialInv(IdleDb(map[], [], pager.Used(), committed, views));
      InitiallyConsistent();
    }

    lemma {:induction false} InitiallyConsistent()
      requires dbMeta == MetaStruct(2, INVALID_PAGE, INVALID_PAGE, 0, 0, 1) && committed == Version(1, None, 0)
      requires viewTxMap == [] && views == map[]
      ensures Consistent()
    {
      forall t ensures Viewers(map[], t) == {} {}
    }

    lemma {:induction false} IdleFacts()
      requires Valid() && !updating
      ensures pager.Valid() && pager.meta == dbMeta && pager.held == rest + PagesOf(committed.tree)
      ensures State() == IdleDb(pager.pages, pager.pendingMap, pager.Used(), committed, views) && Inv(State())
      ensures dbMeta.txid == committed.txid >= 1 && Consistent()
      ensures btree.pager == pager && OlderThan(pager.pendingMap, dbMeta.txid + 1)
    {
      InvOlder(State());
    }

    lemma {:induction false} OpenFacts()
      requires Valid() && updating
      ensures pager.InTx() && BegunFrom(pager.TheSnap(), dbMeta, committed, rest)
      ensures Holds(pager.TheWorld(), tree, height, rest)
      ensures State() == WriterDb(pager.TheSnap(), committed, views) && Inv(State())
      ensures dbMeta.txid == committed.txid && Consistent() && btree.pager == pager
      ensures pager.meta.txid == dbMeta.txid + 1 && pager.meta.freeListPgid == INVALID_PAGE
      ensures Counts(viewTxMap, views) && Positive(views) && dbMeta.txid >= 1
    {
      hide Inv, Counts, Positive, Pager.InTx, Holds, PagesOf, PendBag, Pager.Used;
    }

    /** The oldest open view: what the pager is told at the beginning of Update. */
    method FindOldest()
      requires Valid() && !updating
      modifies this`minViewTxid
      ensures IsOldest(State(), minViewTxid) && minViewTxid >= 1
    {
      hide Idle, Inv, IsRoot, Pager.Used, IsOldest;
      if viewTxMap == [] {
        minViewTxid := dbMeta.txid;
      } else {
        minViewTxid := viewTxMap[0].txid;
      }
      OldestIsFirst(viewTxMap, State());
      OldestPositive(State(), minViewTxid);
    }

    /** Update: begins the write transaction, and releases frees no open view can be interested in. */
    method Update()
      requires Valid() && !updating
      modifies this`updating, this`minViewTxid, this`tree, this`height, pager
      ensures Valid() && updating
      ensures Next(old(State()), Begin(minViewTxid), State())
      ensures tree == committed.tree && pager.meta == dbMeta.(txid := dbMeta.txid + 1)
    {
      hide Inv, Idle, Holds, PendBag, SpanBag, Pager.Valid, Pager.InTx, PagesOf, IsOldest, Next, Consistent,
           LowerPending, OlderThan, State, Valid, Pager.Used;
      ghost var s := State();
      IdleFacts();
      FindOldest();
      ghost var n := pager.BeginTx(dbMeta, minViewTxid - 1);
      updating := true;
      tree, height := committed.tree, committed.h;
      Begun(s, n);
    }

    lemma {:induction false} WriterState()
      requires updating
      ensures State() == WriterDb(pager.TheSnap(), committed, views)
    {}

    /** What the pager and the fields look like after Update is a state after the begin step. */
    lemma {:induction false} Begun(s: Db, n: nat)
      requires Inv(s) && s == IdleDb(pager.pages, s.pending, s.used, committed, views)
      requires IsOldest(s, minViewTxid) && minViewTxid >= 1 && n == LowerPending(s.pending, minViewTxid - 1)
      requires updating && btree.pager == pager && Consistent() && pager.InTx()
      requires pager.basePending == pager.pendingMap == s.pending[n..]
      requires s.used == pager.Used() + PendBag(s.pending[..n])
      requires pager.meta == dbMeta.(txid := dbMeta.txid + 1) && pager.baseCount == dbMeta.pageCount
      requires pager.baseHeld == pager.held == rest + PagesOf(committed.tree)
      requires tree == committed.tree && height == committed.h
      ensures Valid() && Next(s, Begin(minViewTxid), State())
    {
      hide Inv, Pager.InTx, Counts, Positive, PendBag, PagesOf, IsOldest, Next, LowerPending, Holds;
      WriterState();
      BeginIsNext(s, minViewTxid, State());
      InvNext(s, Begin(minViewTxid), State());
      CommittedHolds(State(), pager.TheWorld(), rest);
    }

    /** The write transaction goes on. */
    lemma {:induction false} StillOpen()
      requires updating && btree.pager == pager && Inv(State()) && Consistent() && pager.InTx()
      requires BegunFrom(pager.TheSnap(), dbMeta, committed, rest) && Holds(pager.TheWorld(), tree, height, rest)
      ensures Valid()
    {}

    /** View: a read transaction on the last commit; it keeps a copy of the meta. */
    method View(ghost id: nat) returns (meta: MetaStruct)
      requires Valid() && id !in views
      modifies this`views, this`viewTxMap
      ensures Valid() && Next(old(State()), OpenView(id), State())
      ensures meta == dbMeta && id in views && views[id] == committed && IsRoot(meta.userRoot, committed.tree)
    {
      hide Inv, Idle, Open, IsRoot, Counts, Positive, Pager.Used, Next, PendBag;
      ghost var s := State();
      meta := dbMeta;
      CountsAdd(viewTxMap, views, id, committed);
      viewTxMap := AddView(viewTxMap, dbMeta.txid);
      PositiveAdd(views, id, committed);
      views := views[id := committed];
      OpenIsNext(s, id, State());
      InvNext(s, OpenView(id), State());
    }

    /** RollBack(view_txid): the end of a read transaction. */
    method EndView(viewTxid: TxId, ghost id: nat)
      requires Valid() && id in views && views[id].txid == viewTxid
      modifies this`views, this`viewTxMap
      ensures Valid() && Next(old(State()), CloseView(id), State())
    {
      hide Inv, Idle, Open, IsRoot, Counts, Positive, Pager.Used, Next, PendBag;
      ghost var s := State();
      CountsDrop(viewTxMap, views, id);
      viewTxMap := DropView(viewTxMap, viewTxid);
      PositiveDrop(views, id);
      views := views - {id};
      CloseIsNext(s, id, State());
      InvNext(s, CloseView(id), State());
    }

    /** The fields that the state takes from the pager. */
    lemma {:induction false} StateNow()
      requires Valid()
      ensures State().pages == pager.pages && State().now == pager.Used() && State().views == views && Inv(State())
      ensures pager.Valid() || pager.InTx()
    {
      hide Inv, Consistent, Pager.Valid, Pager.InTx, BegunFrom, Holds, PendBag, Pager.Used;
    }

    /** The tree of an open view can be read from the root in the view's meta. */
    lemma {:induction false} ViewReadable(root: PageId, id: nat)
      requires Valid() && id in views && IsRoot(root, views[id].tree) && pager.meta.pageCount <= PAGE_MAX_COUNT
      ensures ReadableRoot(pager.pages, root, views[id].tree, views[id].h, views[id].txid, pager.meta.pageCount)
    {
      hide Consistent, PendBag, InStore, WfRoot, Ordered, Flat, Kept, Pager.Used, FileBag, BegunFrom, Holds, State,
           Valid, Idle, Open, Pager.Valid, Pager.InTx;
      StateNow();
      var s, v := State(), views[id];
      assert Fine(s, v);
      KeptPages(v, s.pending, s.used);
      pager.UsedInFile();
    }

    /** Get in a view: what the commit it opened on has at the key. meta: the view's copy. */
    method ViewGet(meta: MetaStruct, key: Key, ghost id: nat) returns (r: Option<Value>)
      requires Valid() && id in views && IsRoot(meta.userRoot, views[id].tree) && pager.meta.pageCount <= PAGE_MAX_COUNT
      ensures r == if key in Denotes(views[id].tree) then Some(Denotes(views[id].tree)[key]) else None
    {
      hide Inv, Idle, Open, Consistent, ReadableRoot, Denotes;
      ViewReadable(meta.userRoot, id);
      r := btree.Get(meta.userRoot, key, views[id].tree, views[id].h, views[id].txid, pager.meta.pageCount);
    }

    /** for (auto& iter : bucket) in a view: the records of the commit it opened on, in order. */
    method ViewScan(meta: MetaStruct, ghost id: nat) returns (visited: seq<Rec>)
      requires Valid() && id in views && IsRoot(meta.userRoot, views[id].tree) && pager.meta.pageCount <= PAGE_MAX_COUNT
      ensures visited == if views[id].tree.None? then [] else RecsOf(Flat(views[id].tree.value))
    {
      hide Inv, Idle, Open, Consistent, Readable, Flat, RecsOf;
      ViewReadable(meta.userRoot, id);
      if meta.userRoot == INVALID_PAGE {
        return [];
      }
      visited := Iteration.VisitAll(btree, meta.userRoot, views[id].tree.value, views[id].h, views[id].txid,
                                    pager.meta.pageCount);
    }

    /** A loop from LowerBound(key) to end() in a view: the records of its commit from the key on, as ScanFrom says. */
    method ViewScanFrom(meta: MetaStruct, key: Key, ghost id: nat) returns (visited: seq<Rec>, stray: bool)
      requires Valid() && id in views && IsRoot(meta.userRoot, views[id].tree) && pager.meta.pageCount <= PAGE_MAX_COUNT
      ensures views[id].tree.None? ==> visited == []
      ensures stray <==> views[id].tree.Some? && RecsOf(Flat(views[id].tree.value)) == []
      ensures views[id].tree.Some? ==>
        if Iteration.LeafBelow(views[id].tree.value, key) then visited == []
        else Iteration.IsTail(RecsOf(Flat(views[id].tree.value)), key, visited)
    {
      hide Inv, Idle, Open, Consistent, ReadableRoot, Flat, RecsOf, Iteration.LeafBelow, Iteration.IsTail;
      ViewReadable(meta.userRoot, id);
      visited, stray := Iteration.ScanFrom(btree, meta.userRoot, key, views[id].tree, views[id].h, views[id].txid,
                                           pager.meta.pageCount);
    }

    /** Get in the write transaction: its own changes are seen. */
    method Get(key: Key) returns (r: Option<Value>)
      requires Valid() && updating && pager.meta.pageCount <= PAGE_MAX_COUNT
      ensures r == if key in Denotes(tree) then Some(Denotes(tree)[key]) else None
    {
      hide Inv, Idle, Open, Consistent, ReadableRoot, Denotes, Holds, Pager.InTx;
      OpenFacts();
      btree.HoldsReadable(tree, height, rest);
      r := btree.Get(pager.meta.userRoot, key, tree, height, pager.meta.txid, pager.meta.pageCount);
    }

    /** Bucket::Put in the write transaction. */
    method Put(key: Key, value: Value)
      requires Valid() && updating && RecOk(Rec(key, value)) && pager.meta.pageCount + 64 <= PAGE_MAX_COUNT
      modifies this`tree, this`height, pager
      ensures Valid() && updating
      ensures Next(old(State()), Write, State())
      ensures pager.meta.pageCount <= old(pager.meta.pageCount) + 64
      ensures Denotes(tree) == if StaysOld(old(tree), key, value) then Denotes(old(tree))
                               else Denotes(old(tree))[key := value]
      ensures tree.Some?
      ensures if old(tree).None? then tree.value == Leaf(tree.value.id, pager.meta.txid, [Rec(key, value)])
              else PutMakes(old(tree).value, tree.value, Rec(key, value), pager.meta.txid, old(pager.Used()))
      ensures pager.meta.pageCount > old(pager.meta.pageCount) ==> SpanBag(pager.freeMap) == multiset{}
    {
      hide Inv, Idle, Open, Pager.InTx, Holds, Consistent, Wrote, Denotes, StaysOld, RecOk, Next, State, Valid,
           BegunFrom, WriterDb, Pager.TheSnap, Pager.TheWorld, PutMakes, SpanBag, Pager.Used;
      ghost var s, sn := State(), pager.TheSnap();
      OpenFacts();
      ghost var t, h := btree.Put(key, value, tree, height, rest);
      tree, height := Some(t), h;
      WriterState();
      WroteIsNext(sn, pager.TheSnap(), dbMeta, committed, views, rest);
      InvNext(s, Write, State());
      StillOpen();
    }

    /** Bucket::Delete in the write transaction. */
    method Delete(key: Key) returns (found: bool)
      requires Valid() && updating && pager.meta.pageCount + 100 <= PAGE_MAX_COUNT
      modifies this`tree, this`height, pager
      ensures Valid() && updating
      ensures Next(old(State()), Write, State())
      ensures pager.meta.pageCount <= old(pager.meta.pageCount) + 100
      ensures found == (key in Denotes(old(tree))) && Denotes(tree) == Denotes(old(tree)) - {key}
      ensures if !found then tree == old(tree)
              else old(tree).Some? && tree.Some?
                   && DeleteMakes(old(tree).value, tree.value, key, pager.meta.txid, old(pager.Used()))
      ensures pager.meta.pageCount > old(pager.meta.pageCount) ==> SpanBag(pager.freeMap) == multiset{}
    {
      hide Inv, Idle, Open, Pager.InTx, Holds, Consistent, Wrote, Denotes, Next, State, Valid,
           BegunFrom, WriterDb, Pager.TheSnap, Pager.TheWorld, DeleteMakes, SpanBag, Pager.Used;
      ghost var s, sn := State(), pager.TheSnap();
      OpenFacts();
      ghost var ot, h;
      found, ot, h := btree.Delete(key, tree, height, rest);
      tree, height := ot, h;
      WriterState();
      WroteIsNext(sn, pager.TheSnap(), dbMeta, committed, views, rest);
      InvNext(s, Write, State());
      StillOpen();
    }

    /** RollBack: allocations and frees of the write transaction are undone, and its meta copy is dropped. */
    method RollBack()
      requires Valid() && updating
      modifies this`updating, pager
      ensures Valid() && !updating
      ensures Next(old(State()), Rollback, State())
    {
      hide Inv, Idle, Open, Pager.InTx, Pager.Valid, Holds, Consistent, Next, State, Valid, PendBag, SpanBag, PagesOf;
      ghost var s := State();
      OpenFacts();
      pager.Rollback(dbMeta);
      updating := false;
      IdleState();
      RollbackIsNext(s, State());
      InvNext(s, Rollback, State());
      Closed();
    }

    /** The fields are consistent after a commit: the views are as before. */
    lemma {:induction false} NewCommit(committed0: Version)
      requires committed0.txid >= 1 && Counts(viewTxMap, views) && Positive(views)
      requires dbMeta.txid == committed.txid == committed0.txid + 1
      requires IsRoot(dbMeta.userRoot, committed.tree) && dbMeta.freeListPgid == INVALID_PAGE
      ensures Consistent()
    {}

    lemma {:induction false} IdleState()
      requires !updating
      ensures State() == IdleDb(pager.pages, pager.pendingMap, pager.Used(), committed, views)
    {}

    /** The write transaction is over. */
    lemma {:induction false} Closed()
      requires !updating && btree.pager == pager && Inv(State()) && Consistent()
      requires pager.Valid() && pager.meta == dbMeta && pager.held == rest + PagesOf(committed.tree)
      ensures Valid()
    {}

    /**
     * Commit: the transaction's meta becomes the database's. The free list is saved after the copy, so the
     * database's meta never refers to it, and the count pages it was written to are lost if they were free ones.
     * What the transaction freed still waits.
     */
    method Commit() returns (ghost count: nat)
      requires Valid() && updating && pager.meta.pageCount <= PAGE_MAX_COUNT
      modifies this`updating, this`dbMeta, this`committed, this`rest, pager
      ensures Valid() && !updating
      ensures committed == Version(old(committed).txid + 1, tree, height)
      ensures Next(old(State()), Action.Commit(committed), State())
      ensures dbMeta == old(pager.meta)
      ensures pager.pendingMap == old(pager.pendingMap)
      ensures FewestPages(|old(pager.freeMap)| + |AllPairs(pager.pendingMap)|, count)
      ensures SpanBag(pager.freeMap) + ListKept(old(pager.freeMap), count) == old(SpanBag(pager.freeMap))
      ensures pager.held == old(pager.held) + ListKept(old(pager.freeMap), count)
    {
      hide Inv, Idle, Open, Pager.InTx, Pager.Valid, Holds, Consistent, Next, State, Valid, BegunFrom, Pager.Used,
           IsVersion, Stored, SameOn, SpanBag, PendBag, SortedPending, ExtendsBy, PagesOf, IsRoot, FewestPages,
           ListKept, AllPairs;
      ghost var s, w, used, rest0 := State(), pager.TheWorld(), pager.Used(), rest;
      OpenFacts();
      pager.TxPending();
      OpenPending();
      ghost var pending, free, held := pager.pendingMap, pager.freeMap, pager.held;
      dbMeta := pager.meta;
      count := pager.FinishCommit();
      assert pager.pendingMap == pending && FewestPages(|free| + |AllPairs(pending)|, count);
      assert pager.held == held + ListKept(free, count);
      updating := false;
      committed := Version(w.cur, tree, height);
      rest := pager.held - PagesOf(tree);
      Committed(s, w, used, rest0, old(committed));
    }

    /** No commit leaves a free list in the meta page. */
    lemma {:induction false} NoListSaved()
      requires Valid()
      ensures ListedFree(pager.pages, dbMeta) == multiset{}
    {
      hide Inv, Idle, Open;
    }

    /**
     * The pager's part of opening the file again: no page is free. The pages that were free or waiting are free
     * again exactly if there were none.
     */
    method Reopen() returns (p: Pager)
      requires Valid() && !updating
      ensures fresh(p) && p.Valid() && p.pages == pager.pages && p.meta == dbMeta
      ensures SpanBag(p.freeMap) == multiset{} && p.pendingMap == [] && p.held == FileBag(dbMeta.pageCount)
      ensures SpanBag(p.freeMap) == SpanBag(pager.freeMap) + PendBag(pager.pendingMap)
         <==> SpanBag(pager.freeMap) == PendBag(pager.pendingMap) == multiset{}
    {
      hide Inv, Idle, Consistent, SpanBag, PendBag, FileBag, ListedFree, ListReadable;
      IdleFacts();
      NoListSaved();
      NoListToRead();
      p := OpenPager(dbMeta, pager.pages);
    }

    lemma {:induction false} NoListToRead()
      requires Valid() && !updating
      ensures 2 <= dbMeta.pageCount < PAGE_COUNT_LIMIT && dbMeta.freeListPgid == INVALID_PAGE
    {
      hide Inv, Idle, Open, State, SpanBag, PendBag, FileBag;
      IdleFacts();
    }

    /** What the pager and the fields look like after Commit is a state after the Commit step. */
    lemma {:induction false} Committed(s: Db, w: World, used: multiset<PageId>, rest0: multiset<PageId>,
                                       committed0: Version)
      requires Inv(s) && s.writing && s.pages == w.pages && s.now == used == PendBag(pager.pendingMap) + w.held
      requires s.freed == PendBag(pager.pendingMap) - PendBag(s.pending)
      requires s.used == PendBag(s.pending) + (rest0 + PagesOf(committed0.tree))
      requires s.committed == committed0 && s.views == views
      requires Holds(w, tree, height, rest0) && w.held <= used
      requires !updating && btree.pager == pager && pager.Valid() && pager.meta == dbMeta
      requires SameOn(w.pages, pager.pages, used) && used <= pager.Used() && w.held <= pager.held
      requires ExtendsBy(pager.pendingMap, s.pending, w.cur) && SortedPending(pager.pendingMap)
      requires committed == Version(w.cur, tree, height) && rest == pager.held - PagesOf(tree)
      requires committed0.txid >= 1 && w.cur == dbMeta.txid == committed0.txid + 1 && dbMeta.userRoot == w.root
      requires dbMeta.freeListPgid == INVALID_PAGE && Counts(viewTxMap, views) && Positive(views)
      ensures Valid() && Next(s, Action.Commit(committed), State())
    {
      hide Inv, Pager.Valid, Holds, Consistent, Next, Pager.Used, IsVersion, Stored, SameOn, PendBag, SortedPending,
           ExtendsBy,
           PagesOf, IsRoot, State, Counts, Positive;
      HoldsVersion(w, pager.pages, tree, height, rest0, used);
      TreeHeld(w.held, rest0);
      NewCommit(committed0);
      IdleState();
      ExtendsBag(pager.pendingMap, s.pending, w.cur);
      assert s.used <= s.now by { InvUsed(s); }
      HoldsPages(w, tree, height, rest0);
      Replaced(PendBag(s.pending), PendBag(pager.pendingMap), rest0, PagesOf(committed0.tree), PagesOf(tree));
      CommitIsNext(s, committed, State());
      InvNext(s, Action.Commit(committed), State());
    }

    lemma {:induction false} OpenPending()
      requires Valid() && updating
      ensures State().pages == pager.pages && State().now == pager.Used() && State().pending == pager.basePending
      ensures State().views == views && State().writing && State().committed == committed
      ensures State().used == PendBag(pager.basePending) + (rest + PagesOf(committed.tree))
      ensures State().freed == PendBag(pager.pendingMap) - PendBag(pager.basePending)
      ensures pager.Used() == PendBag(pager.pendingMap) + pager.held
      ensures pager.held <= pager.Used()
    {}

    /** The tree's pages are held, and so in use beside those that wait. */
    lemma {:induction false} TreeHeld(held0: multiset<PageId>, rest0: multiset<PageId>)
      requires held0 == rest0 + PagesOf(tree) && held0 <= pager.held && rest == pager.held - PagesOf(tree)
      ensures pager.held == rest + PagesOf(tree)
      ensures PagesOf(tree) + PendBag(pager.pendingMap) <= pager.Used()
    {
      hide PagesOf, PendBag;
      HeldRest(held0, rest0, PagesOf(tree), pager.held);
    }
  }
}
