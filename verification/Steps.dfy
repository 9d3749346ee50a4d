/** The states a tree passes through while a change travels up its path, and the steps between them. */
module Steps {
  import opened Order
  import opened Nodes
  import opened Trees
  import opened FreeSpace
  import opened Zipper

  /** A page that transaction cur may change in place: !CopyNeeded(last_modified_txid). */
  ghost predicate Owned(p: Page, cur: TxId) { !p.ListPage? && p.tx == cur }

  /** Of the pages in use, only those owned by transaction cur have changed. */
  ghost predicate Frozen(p0: map<PageId, Page>, p1: map<PageId, Page>, used: multiset<PageId>, cur: TxId) {
    forall id :: id in used && id in p0 && !Owned(p0[id], cur) ==> id in p1 && p1[id] == p0[id]
  }

  lemma {:induction false} FrozenThen(p0: map<PageId, Page>, p1: map<PageId, Page>, p2: map<PageId, Page>,
                                      used: multiset<PageId>, used': multiset<PageId>, cur: TxId)
    requires Frozen(p0, p1, used, cur) && Frozen(p1, p2, used', cur) && used <= used'
    ensures Frozen(p0, p2, used, cur)
  {
    forall id | id in used && id in p0 && !Owned(p0[id], cur) ensures id in p2 && p2[id] == p0[id] {
      assert used'[id] >= used[id] > 0;
    }
  }

  /** The allocator at the start of the transaction and the meta fields no tree operation changes. */
  datatype Fixed = Fixed(freeListPgid: PageId, freePairCount: nat, freeListPageCount: nat,
                         baseFree: multiset<PageId>, basePending: seq<Pending>,
                         baseHeld: multiset<PageId>, baseCount: nat)

  /** What a write transaction's effect on others depends on.
      pending: pages freed but not yet free; used: those and the held ones; free: all others of the file. */
  datatype Snap = Snap(pages: map<PageId, Page>, pending: multiset<PageId>, used: multiset<PageId>,
                       free: multiset<PageId>, pageCount: nat, cur: TxId, fixed: Fixed)

  /** Of the free pages the lowest have been taken. */
  ghost predicate TookLowest(free: multiset<PageId>, free': multiset<PageId>) {
    free' <= free && forall x, y :: x in free && x !in free' && y in free' ==> x < y
  }

  /** From s to s' the transaction allocated pages, freed pages and changed pages of its own, and nothing else.
      Free pages were taken from the lowest up, and the file was grown only when there were none. */
  ghost predicate Wrote(s: Snap, s': Snap) {
    && s'.cur == s.cur && s'.fixed == s.fixed && s.pageCount <= s'.pageCount
    && s.used <= s'.used && s.pending <= s'.pending
    && TookLowest(s.free, s'.free) && (s'.pageCount > s.pageCount ==> s'.free == multiset{})
    && Frozen(s.pages, s'.pages, s.used, s.cur)
  }

  lemma {:induction false} WroteNothing(s: Snap)
    ensures Wrote(s, s)
  {}

  lemma {:induction false} WroteThen(s: Snap, s': Snap, s'': Snap)
    requires Wrote(s, s') && Wrote(s', s'')
    ensures Wrote(s, s'')
  {
    FrozenThen(s.pages, s'.pages, s''.pages, s.used, s'.used, s.cur);
  }

  lemma {:induction false} GrewNoneFree(s: Snap, s': Snap)
    requires Wrote(s, s')
    ensures s'.pageCount > s.pageCount ==> s'.free == multiset{}
  {}

  lemma {:induction false} WroteUsed(s: Snap, s': Snap)
    requires Wrote(s, s')
    ensures s.used <= s'.used
  {}

  /** What the tree operations change: the store, the pages held, the root, and the current transaction. */
  datatype World = World(pages: map<PageId, Page>, held: multiset<PageId>, root: PageId, cur: TxId)

  /** A finished tree. rest: the pages held that are not the tree's. */
  ghost predicate Rooted(w: World, t: Tree, h: nat, rest: multiset<PageId>) {
    t.id == w.root && WfRoot(t, h, w.cur) && InStore(w.pages, t) && w.held == rest + Bag(t)
  }

  /** t hangs at the end of a path of the current transaction. */
  ghost predicate Hangs(w: World, fs: seq<Frame>, t: Tree, h: nat) {
    PathOk(fs) && PathWf(fs, h, w.cur) && InStore(w.pages, Plug(fs, t)) && Plug(fs, t).id == w.root
  }

  /** lt hangs at the end of the path; rt, right of it, still has to be entered with its key. */
  ghost predicate Rising(w: World, fs: seq<Frame>, lt: Tree, key: Key, rt: Tree, h: nat, rest: multiset<PageId>) {
    && Hangs(w, fs, lt, h) && InStore(w.pages, rt)
    && Wf(lt, h, w.cur) && Wf(rt, h, w.cur) && ShortKey(key)
    && w.held == rest + PathBag(fs) + Bag(lt) + Bag(rt)
  }

  /** The same with the last frame named. */
  ghost predicate RisingAt(w: World, fs: seq<Frame>, f: Frame, lt: Tree, key: Key, rt: Tree, h: nat,
                           rest: multiset<PageId>) {
    && FrameWf(f, h + 1, w.cur) && Hangs(w, fs, SetKid(f.t, f.i, lt), h + 1) && InStore(w.pages, rt)
    && Wf(lt, h, w.cur) && Wf(rt, h, w.cur) && ShortKey(key)
    && w.held == rest + PathBag(fs) + FrameBag(f) + Bag(lt) + Bag(rt)
  }

  /** A node of the transaction that may have too few records, or none. */
  ghost predicate WeakNode(t: Tree, h: nat, cur: TxId) {
    && t.tx == cur
    && match t
       case Leaf(_, _, recs) => h == 0 && LeafFits(recs)
       case Inner(_, _, b) => h > 0 && BranchFits(b.slots) && KidsWf(b, h - 1, cur)
  }

  predicate NonEmpty(t: Tree) { if t.Leaf? then t.recs != [] else t.b.slots != [] }

  /** A weak node hangs at the end of the path. */
  ghost predicate Weak(w: World, fs: seq<Frame>, t: Tree, h: nat, rest: multiset<PageId>) {
    Hangs(w, fs, t, h) && WeakNode(t, h, w.cur) && w.held == rest + PathBag(fs) + Bag(t)
  }

  /** Well-formed, or a weak node of the transaction. */
  ghost predicate HalfWf(t: Tree, h: nat, cur: TxId) { Wf(t, h, cur) || WeakNode(t, h, cur) }

  /** Two neighbours, one of them perhaps weak, and the branch they hang from. */
  ghost predicate Paired(w: World, fs: seq<Frame>, g: Frame, a: Tree, key: Key, c: Tree, h: nat,
                         rest: multiset<PageId>) {
    && PairFrameWf(g, h + 1, w.cur) && ShortKey(key) && BranchUsed(g.t.b.slots) + KeyCost(key) <= MAX_SPACE
    && HalfWf(a, h, w.cur) && HalfWf(c, h, w.cur)
    && Hangs(w, fs, Graft(g, a, key, c), h + 1)
    && w.held == rest + PathBag(fs) + FrameBag(g) + Bag(a) + Bag(c)
  }

  // ----- paths and their last frame

  lemma {:induction false} PathLast(fs: seq<Frame>, t: Tree, h: nat, cur: TxId)
    requires PathOk(fs) && PathWf(fs, h, cur) && fs != []
    ensures var init, f := fs[..|fs| - 1], fs[|fs| - 1];
      && PathOk(init) && PathWf(init, h + 1, cur) && FrameWf(f, h + 1, cur)
      && Plug(fs, t) == Plug(init, SetKid(f.t, f.i, t))
      && PathBag(fs) == PathBag(init) + FrameBag(f)
      && PathPre(fs) == PathPre(init) + FramePre(f)
      && PathPost(fs) == FramePost(f) + PathPost(init)
  {
    var n := |fs| - 1;
    forall j | 0 <= j < n ensures FrameWf(fs[..n][j], h + 1 + n - j, cur) {
      assert fs[..n][j] == fs[j];
    }
  }

  lemma {:induction false} PathSnoc(fs: seq<Frame>, f: Frame, t: Tree, h: nat, cur: TxId)
    requires PathOk(fs) && PathWf(fs, h + 1, cur) && FrameWf(f, h + 1, cur)
    ensures PathOk(fs + [f]) && PathWf(fs + [f], h, cur)
    ensures PathBag(fs + [f]) == PathBag(fs) + FrameBag(f)
    ensures PathPre(fs + [f]) == PathPre(fs) + FramePre(f)
    ensures PathPost(fs + [f]) == FramePost(f) + PathPost(fs)
    ensures Plug(fs + [f], t) == Plug(fs, SetKid(f.t, f.i, t))
  {
    assert (fs + [f])[..|fs|] == fs;
  }

  /** The tree's root page is that of the topmost frame. */
  lemma {:induction false} PlugId(fs: seq<Frame>, t: Tree, t': Tree)
    requires PathOk(fs) && t.id == t'.id
    ensures Plug(fs, t).id == Plug(fs, t').id
  {
    if fs != [] {
      var f := fs[|fs| - 1];
      PlugId(fs[..|fs| - 1], SetKid(f.t, f.i, t), SetKid(f.t, f.i, t'));
    }
  }

  /** Writing the node at the end of a path. */
  lemma {:induction false} StoreNode(w: World, w': World, fs: seq<Frame>, n0: Tree, n: Tree, h: nat)
    requires Hangs(w, fs, n0, h) && n.id == n0.id && w'.root == w.root && w'.cur == w.cur
    requires n.id in w'.pages && w'.pages[n.id] == PageOf(n)
    requires n.Inner? ==> KidsIn(w'.pages, n.b)
    requires SameOn(w.pages, w'.pages, PathBag(fs))
    ensures Hangs(w', fs, n, h)
  {
    assert InStore(w'.pages, n);
    InStoreReplace(w.pages, w'.pages, fs, n0, n);
    PlugId(fs, n, n0);
  }

  /** The pages of the current transaction's held pages but one are untouched by a write to that one. */
  lemma {:induction false} WriteApart(pages: map<PageId, Page>, pages': map<PageId, Page>, held: multiset<PageId>,
                                      id: PageId, others: multiset<PageId>)
    requires held == multiset{id} + others && Once(held)
    requires forall x :: x in held && x != id && x in pages ==> x in pages' && pages'[x] == pages[x]
    ensures SameOn(pages, pages', others)
  {
    OncePart(multiset{id}, others);
    forall x | x in others ensures x in held && x != id { assert held[x] >= others[x] > 0; }
  }

  lemma {:induction false} WeakIsWf(t: Tree, h: nat, cur: TxId)
    ensures WeakNode(t, h, cur) && NonEmpty(t) ==> Wf(t, h, cur)
    ensures Wf(t, h, cur) && t.tx == cur ==> WeakNode(t, h, cur) && NonEmpty(t)
  {}

  /** A weak node with a record left is part of a finished tree. */
  lemma {:induction false} WeakDone(w: World, fs: seq<Frame>, t: Tree, h: nat, rest: multiset<PageId>)
    requires Weak(w, fs, t, h, rest)
    requires NonEmpty(t) || (fs == [] && t.Leaf?)
    ensures Rooted(w, Plug(fs, t), h + |fs|, rest)
    ensures Flat(Plug(fs, t)) == PathPre(fs) + Flat(t) + PathPost(fs)
  {
    FlatPlug(fs, t);
    BagPlug(fs, t);
    if NonEmpty(t) {
      WeakIsWf(t, h, w.cur);
      WfPlug(fs, t, h, w.cur);
    }
  }

  // ----- a key and a right neighbour rising

  /** The order of the tree that rising leads to. */
  ghost function RisingFlat(fs: seq<Frame>, lt: Tree, key: Key, rt: Tree): seq<Tok>
    requires PathOk(fs)
  {
    PathPre(fs) + Flat(lt) + [Sep(key)] + (Flat(rt) + PathPost(fs))
  }

  lemma {:induction false} RisingLast(w: World, fs: seq<Frame>, lt: Tree, key: Key, rt: Tree, h: nat,
                                      rest: multiset<PageId>)
    requires Rising(w, fs, lt, key, rt, h, rest) && fs != []
    ensures RisingAt(w, fs[..|fs| - 1], fs[|fs| - 1], lt, key, rt, h, rest)
  {
    hide Wf, FrameWf, InStore, Plug, PathBag, FrameBag, PathOk, PathWf;
    PathLast(fs, lt, h, w.cur);
  }

  lemma {:induction false} RisingFlatLast(fs: seq<Frame>, lt: Tree, key: Key, rt: Tree, h: nat, cur: TxId)
    requires PathOk(fs) && PathWf(fs, h, cur) && fs != []
    ensures PathOk(fs[..|fs| - 1]) && FrameOk(fs[|fs| - 1])
    ensures RisingFlat(fs, lt, key, rt) == Flat(Plug(fs[..|fs| - 1], Graft(fs[|fs| - 1], lt, key, rt)))
  {
    hide Flat, PathPre, PathPost, FramePre, FramePost, Graft, Plug;
    PathLast(fs, lt, h, cur);
    FlatRise(fs[..|fs| - 1], fs[|fs| - 1], lt, key, rt);
  }

  lemma {:induction false} RisingFlatOf(w: World, fs: seq<Frame>, lt: Tree, key: Key, rt: Tree, h: nat,
                                        rest: multiset<PageId>)
    requires Rising(w, fs, lt, key, rt, h, rest) && fs != []
    ensures PathOk(fs) && PathOk(fs[..|fs| - 1]) && FrameOk(fs[|fs| - 1])
    ensures RisingFlat(fs, lt, key, rt) == Flat(Plug(fs[..|fs| - 1], Graft(fs[|fs| - 1], lt, key, rt)))
  {
    RisingFlatLast(fs, lt, key, rt, h, w.cur);
  }

  /** What the parent of the risen key holds. */
  lemma {:induction false} RisingParent(w: World, fs: seq<Frame>, f: Frame, lt: Tree, key: Key, rt: Tree, h: nat,
                                        rest: multiset<PageId>)
    requires RisingAt(w, fs, f, lt, key, rt, h, rest)
    ensures var p := SetKid(f.t, f.i, lt); var g := Graft(f, lt, key, rt);
      && f.t.id in w.held && f.t.id in w.pages && w.pages[f.t.id] == BranchPage(w.cur, Ids(p.b))
      && f.i <= |Ids(p.b).slots| && BranchFits(Ids(p.b).slots) && ShortKey(key)
      && BranchUsed(Ids(p.b).slots) == BranchUsed(f.t.b.slots)
      && PageOf(g) == BranchPage(w.cur, Ids(p.b).Insert(f.i, key, rt.id, true))
  {
    var p := SetKid(f.t, f.i, lt);
    assert f.t.id in w.held by { FrameBagOwn(f); }
    InStoreFocus(w.pages, fs, p);
    FitsSetChild(f.t.b, f.i, lt);
    IdsUsed(p.b);
    GraftIds(f, lt, key, rt);
    IdsSetChild(f.t.b, f.i, lt);
  }

  /** While the parent's page changes, its children do not. */
  lemma {:induction false} RisingKids(w: World, pages': map<PageId, Page>, fs: seq<Frame>, f: Frame,
                                      lt: Tree, key: Key, rt: Tree, h: nat, rest: multiset<PageId>)
    requires RisingAt(w, fs, f, lt, key, rt, h, rest) && Once(w.held)
    requires forall x :: x in w.held && x != f.t.id && x in w.pages ==> x in pages' && pages'[x] == w.pages[x]
    ensures SameOn(w.pages, pages', PathBag(fs))
    ensures KidsIn(pages', Graft(f, lt, key, rt).b)
  {
    hide Bag, BagBranch, FrameBag, OtherBag, Wf, Once, PathBag, Ids, Graft, PathWf, SameOn, BranchFits;
    var others := rest + PathBag(fs) + OtherBag(f) + Bag(lt) + Bag(rt);
    FrameBagOwn(f);
    WriteApart(w.pages, pages', w.held, f.t.id, others);
    SameOnPart(w.pages, pages', others, PathBag(fs));
    SameOnPart(w.pages, pages', others, OtherBag(f));
    SameOnPart(w.pages, pages', others, Bag(lt));
    SameOnPart(w.pages, pages', others, Bag(rt));
    var p := SetKid(f.t, f.i, lt);
    InStoreFocus(w.pages, fs, p);
    assert p.b.Child(f.i) == lt;
    InStoreFrame(w.pages, pages', lt);
    InStoreFrame(w.pages, pages', rt);
    KidsInOthers(w.pages, pages', f, lt, key, rt);
  }

  /** A graft's children are stored when its two new ones are and the others' pages have not changed. */
  lemma {:induction false} KidsInOthers(pages: map<PageId, Page>, pages': map<PageId, Page>,
                                        f: Frame, lt: Tree, key: Key, rt: Tree)
    requires FrameOk(f) && InStore(pages, SetKid(f.t, f.i, lt))
    requires InStore(pages', lt) && InStore(pages', rt)
    requires SameOn(pages, pages', OtherBag(f))
    ensures KidsIn(pages', Graft(f, lt, key, rt).b)
  {
    var b := Graft(f, lt, key, rt).b;
    forall j | 0 <= j <= |b.slots| ensures InStore(pages', b.Child(j)) {
      GraftChild(f, lt, key, rt, j);
      if j != f.i && j != f.i + 1 {
        var k := if j < f.i then j else j - 1;
        FrameBagOther(f, k);
        SameOnPart(pages, pages', OtherBag(f), Bag(f.t.b.Child(k)));
        assert SetKid(f.t, f.i, lt).b.Child(k) == f.t.b.Child(k);
        InStoreFrame(pages, pages', f.t.b.Child(k));
      }
    }
  }

  /** There is no parent: a new root over both. */
  lemma {:induction false} RiseRoot(w: World, lt: Tree, key: Key, rt: Tree, h: nat, rest: multiset<PageId>, id: PageId)
    returns (t: Tree)
    requires Rising(w, [], lt, key, rt, h, rest) && id !in w.held
    ensures t == Inner(id, w.cur, Branch([Slot(lt, key)], rt))
    ensures Rooted(World(w.pages[id := BranchPage(w.cur, Branch([Slot(lt.id, key)], rt.id))],
                         w.held + multiset{id}, id, w.cur), t, h + 1, rest)
    ensures Flat(t) == RisingFlat([], lt, key, rt)
  {
    hide Wf, Bag, Flat, InStore, PageOf, ShortKey;
    var b := Branch([Slot(lt, key)], rt);
    t := Inner(id, w.cur, b);
    assert w.held == rest + Bag(lt) + Bag(rt) && Plug([], lt) == lt;
    RootNode(w.pages, w.held, w.cur, lt, key, rt, h, rest, id);
  }

  lemma {:induction false} RootNode(pages: map<PageId, Page>, held: multiset<PageId>, cur: TxId,
                                    lt: Tree, key: Key, rt: Tree, h: nat, rest: multiset<PageId>, id: PageId)
    requires Wf(lt, h, cur) && Wf(rt, h, cur) && ShortKey(key) && id !in held
    requires InStore(pages, lt) && InStore(pages, rt) && held == rest + Bag(lt) + Bag(rt)
    ensures var t := Inner(id, cur, Branch([Slot(lt, key)], rt));
      && Wf(t, h + 1, cur) && Bag(t) == multiset{id} + Bag(lt) + Bag(rt)
      && Flat(t) == Flat(lt) + [Sep(key)] + Flat(rt)
      && InStore(pages[id := BranchPage(cur, Branch([Slot(lt.id, key)], rt.id))], t)
  {
    var b := Branch([Slot(lt, key)], rt);
    var t := Inner(id, cur, b);
    var pages' := pages[id := BranchPage(cur, Branch([Slot(lt.id, key)], rt.id))];
    assert Flat(t) == Flat(lt) + [Sep(key)] + Flat(rt) && Bag(t) == multiset{id} + Bag(lt) + Bag(rt) by {
      hide Wf, InStore;
      FlatSlotsOne(Slot(lt, key));
      BagSlotsOne(Slot(lt, key));
    }
    assert InStore(pages', t) by {
      hide FlatSlots, BagSlots, Flat, Wf;
      RootStored(pages, pages', held, t, rest);
    }
    assert Wf(t, h + 1, cur) by {
      hide FlatSlots, BagSlots, Flat, Bag, InStore;
      OneSlotFits(Slot(lt, key));
    }
  }

  lemma {:induction false} RootStored(pages: map<PageId, Page>, pages': map<PageId, Page>, held: multiset<PageId>,
                                      t: Tree, rest: multiset<PageId>)
    requires t.Inner? && |t.b.slots| == 1 && t.id !in held
    requires InStore(pages, t.b.slots[0].left) && InStore(pages, t.b.tail)
    requires held == rest + Bag(t.b.slots[0].left) + Bag(t.b.tail)
    requires pages'
             == pages[t.id := BranchPage(t.tx, Branch([Slot(t.b.slots[0].left.id, t.b.slots[0].key)], t.b.tail.id))]
    ensures InStore(pages', t)
  {
    hide Bag;
    assert Ids(t.b).slots == [Slot(t.b.slots[0].left.id, t.b.slots[0].key)];
    InStoreFrame(pages, pages', t.b.slots[0].left);
    InStoreFrame(pages, pages', t.b.tail);
  }

  lemma {:induction false} OneSlotFits<C>(s: Slot<C>)
    requires ShortKey(s.key)
    ensures BranchFits([s])
  {
    assert [s][..|[s]| - 1] == [];
  }

  lemma {:induction false} FlatRise(fs: seq<Frame>, f: Frame, lt: Tree, key: Key, rt: Tree)
    requires PathOk(fs) && FrameOk(f)
    ensures Flat(Plug(fs, Graft(f, lt, key, rt)))
         == PathPre(fs) + FramePre(f) + Flat(lt) + [Sep(key)] + (Flat(rt) + (FramePost(f) + PathPost(fs)))
  {
    hide Flat, Graft, FramePre, FramePost, PathPre, PathPost;
    FlatPlug(fs, Graft(f, lt, key, rt));
    FlatGraft(f, lt, key, rt);
    RegroupGraft(PathPre(fs), FramePre(f), Flat(lt), [Sep(key)], Flat(rt), FramePost(f), PathPost(fs));
  }

  lemma {:induction false} RegroupGraft<T>(p: seq<T>, q: seq<T>, a: seq<T>, s: seq<T>, c: seq<T>, y: seq<T>, z: seq<T>)
    ensures p + (q + a + s + (c + y)) + z == (p + q) + a + s + (c + (y + z))
  {}

  /** The parent has room: the change ends here. */
  lemma {:induction false} RiseFits(w: World, fs: seq<Frame>, f: Frame, lt: Tree, key: Key, rt: Tree,
                                    h: nat, rest: multiset<PageId>)
    returns (t: Tree)
    requires RisingAt(w, fs, f, lt, key, rt, h, rest) && Once(w.held)
    requires BranchUsed(f.t.b.slots) + KeyCost(key) <= MAX_SPACE
    ensures t == Plug(fs, Graft(f, lt, key, rt))
    ensures Rooted(w.(pages := w.pages[f.t.id := PageOf(Graft(f, lt, key, rt))]), t, h + 1 + |fs|, rest)
  {
    hide Bag, FrameBag, InStore, Wf, KidsIn, KidsWf, PathBag, BranchUsed, BranchFits, PageOf, Once, PathWf;
    var g := Graft(f, lt, key, rt);
    var w' := w.(pages := w.pages[f.t.id := PageOf(g)]);
    RisingKids(w, w'.pages, fs, f, lt, key, rt, h, rest);
    WfGraft(f, lt, key, rt, h, w.cur);
    StoreNode(w, w', fs, SetKid(f.t, f.i, lt), g, h + 1);
    t := Plug(fs, g);
    WfPlug(fs, g, h + 1, w.cur);
    BagPlug(fs, g);
    BagGraft(f, lt, key, rt);
  }

  lemma {:induction false} SplitFits(w: Branch<Tree>, lb: Branch<Tree>, up: Key, rb: Branch<Tree>)
    requires Join(lb, up, rb) == w && ShortKeys(w.slots)
    requires BranchUsed(Ids(lb).slots) <= MAX_SPACE && BranchUsed(Ids(rb).slots) <= MAX_SPACE
    ensures BranchFits(lb.slots) && BranchFits(rb.slots) && ShortKey(up)
  {
    hide ShortKeys, BranchUsed, Ids, Join;
    IdsUsed(lb);
    IdsUsed(rb);
    ShortKeysJoin(lb, up, rb);
  }

  /** The parent was split: its halves take the place of the two neighbours, one level up. */
  lemma {:induction false} RiseSplit(w: World, fs: seq<Frame>, f: Frame, lt: Tree, key: Key, rt: Tree,
                                     h: nat, rest: multiset<PageId>,
                                     l: Branch<PageId>, up: Key, r: Branch<PageId>, rid: PageId)
    returns (lt': Tree, rt': Tree)
    requires RisingAt(w, fs, f, lt, key, rt, h, rest) && Once(w.held) && rid !in w.held
    requires Join(l, up, r) == Ids(Graft(f, lt, key, rt).b)
    requires l.slots != [] && r.slots != []
    requires BranchUsed(l.slots) <= MAX_SPACE && BranchUsed(r.slots) <= MAX_SPACE
    ensures lt'.id == f.t.id && rt'.id == rid && lt'.Inner? && rt'.Inner? && lt'.tx == rt'.tx == w.cur
    ensures Join(lt'.b, up, rt'.b) == Graft(f, lt, key, rt).b && |lt'.b.slots| == |l.slots|
    ensures Rising(World(w.pages[f.t.id := BranchPage(w.cur, l)][rid := BranchPage(w.cur, r)],
                         w.held + multiset{rid}, w.root, w.cur), fs, lt', up, rt', h + 1, rest)
    ensures RisingFlat(fs, lt', up, rt') == Flat(Plug(fs, Graft(f, lt, key, rt)))
  {
    hide BranchUsed, Flat, FlatBranch, Bag, InStore, Plug, RisingFlat, PathBag, FrameBag, Once, KidsIn, PathWf;
    var g := Graft(f, lt, key, rt);
    var lb, rb := CutLikeIds(g.b, l, up, r);
    lt', rt' := Inner(f.t.id, w.cur, lb), Inner(rid, w.cur, rb);
    WfGraft(f, lt, key, rt, h, w.cur);
    SplitFits(g.b, lb, up, rb);
    var pages' := w.pages[f.t.id := BranchPage(w.cur, l)][rid := BranchPage(w.cur, r)];
    KidsJoin(lb, up, rb, h, w.cur, pages');
    assert Ids(lb).slots == l.slots && Ids(rb).slots == r.slots;
    assert Wf(lt', h + 1, w.cur) && Wf(rt', h + 1, w.cur);
    SplitStore(w, fs, f, lt, key, rt, h, rest, lt', up, rt');
    SplitFlat(fs, g, lt', up, rt');
  }

  lemma {:induction false} SplitFlat(fs: seq<Frame>, g: Tree, lt': Tree, up: Key, rt': Tree)
    requires PathOk(fs) && g.Inner? && lt'.Inner? && rt'.Inner? && g.b == Join(lt'.b, up, rt'.b)
    ensures RisingFlat(fs, lt', up, rt') == Flat(Plug(fs, g))
  {
    FlatPlug(fs, g);
    FlatJoin(lt'.b, up, rt'.b);
    hide FlatBranch, Flat, PathPre, PathPost, Join;
    RegroupSplit(PathPre(fs), Flat(lt'), [Sep(up)], Flat(rt'), PathPost(fs));
  }

  lemma {:induction false} RegroupSplit<T>(p: seq<T>, a: seq<T>, s: seq<T>, c: seq<T>, z: seq<T>)
    ensures p + (a + s + c) + z == p + a + s + (c + z)
  {}

  lemma {:induction false} SplitBag(f: Frame, lt: Tree, key: Key, rt: Tree, lt': Tree, up: Key, rt': Tree)
    requires FrameOk(f) && lt'.Inner? && rt'.Inner? && lt'.id == f.t.id
    requires Join(lt'.b, up, rt'.b) == Graft(f, lt, key, rt).b
    ensures FrameBag(f) + Bag(lt) + Bag(rt) + multiset{rt'.id} == Bag(lt') + Bag(rt')
  {
    BagGraft(f, lt, key, rt);
    BagJoin(lt'.b, up, rt'.b);
    hide FrameBag, BagBranch, Join;
    assert Bag(Graft(f, lt, key, rt)) == multiset{f.t.id} + BagBranch(Graft(f, lt, key, rt).b);
  }

  lemma {:induction false} SplitStore(w: World, fs: seq<Frame>, f: Frame, lt: Tree, key: Key, rt: Tree,
                                      h: nat, rest: multiset<PageId>, lt': Tree, up: Key, rt': Tree)
    requires RisingAt(w, fs, f, lt, key, rt, h, rest) && Once(w.held)
    requires lt'.Inner? && rt'.Inner? && lt'.id == f.t.id && rt'.id !in w.held
    requires Join(lt'.b, up, rt'.b) == Graft(f, lt, key, rt).b
    ensures var w' := World(w.pages[lt'.id := PageOf(lt')][rt'.id := PageOf(rt')],
                            w.held + multiset{rt'.id}, w.root, w.cur);
      Hangs(w', fs, lt', h + 1) && InStore(w'.pages, rt')
      && w'.held == rest + PathBag(fs) + Bag(lt') + Bag(rt')
  {
    hide FrameBag, PathBag, BranchUsed, BranchFits, PageOf, Once, PathWf, SameOn, Wf, Plug, Bag, Graft, Join;
    var w' := World(w.pages[lt'.id := PageOf(lt')][rt'.id := PageOf(rt')],
                    w.held + multiset{rt'.id}, w.root, w.cur);
    assert f.t.id in w.held by { FrameBagOwn(f); }
    RisingKids(w, w'.pages, fs, f, lt, key, rt, h, rest);
    KidsJoin(lt'.b, up, rt'.b, h, w.cur, w'.pages);
    StoreNode(w, w', fs, SetKid(f.t, f.i, lt), lt', h + 1);
    assert InStore(w'.pages, rt');
    SplitBag(f, lt, key, rt, lt', up, rt');
    assert w'.held == rest + PathBag(fs) + (FrameBag(f) + Bag(lt) + Bag(rt) + multiset{rt'.id});
  }
}
