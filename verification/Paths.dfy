/** Copying a path: the pages from the leaf up become pages of the transaction, the old tree stays. */
module Paths {
  import opened Nodes
  import opened Trees
  import opened FreeSpace
  import opened Steps
  import opened Searching

  /** The same branches and slots on pages of transaction cur. */
  ghost predicate Recopied(fs': seq<Frame>, fs: seq<Frame>, cur: TxId) {
    |fs'| == |fs| && forall j :: 0 <= j < |fs| ==> RecopiedAt(fs'[j], fs[j], cur)
  }

  ghost predicate RecopiedAt(f': Frame, f: Frame, cur: TxId) {
    && f'.i == f.i && f'.t.Inner? && f.t.Inner? && f'.t.b == f.t.b && f'.t.tx == cur
  }

  /** Branches of transaction cur keep their pages, the others get pages that were not in use. */
  ghost predicate MovedJust(fs': seq<Frame>, fs: seq<Frame>, cur: TxId, used: multiset<PageId>) {
    |fs'| == |fs| && forall j :: 0 <= j < |fs| ==> MovedAt(fs'[j].t.id, fs[j].t, cur, used)
  }

  /** The node of transaction cur stays on its page, that of an older one is moved. */
  ghost predicate MovedAt(id': PageId, t: Tree, cur: TxId, used: multiset<PageId>) {
    if t.tx == cur then id' == t.id else id' !in used
  }

  lemma {:induction false} MovedNothing(fs: seq<Frame>, cur: TxId, used: multiset<PageId>)
    ensures Recopied([], fs[|fs|..], cur) && MovedJust([], fs[|fs|..], cur, used) && fs[..|fs|] + [] == fs
  {}

  /** The climb has stopped at a branch of the transaction, or above the root. */
  lemma {:induction false} MovedWhole(t: Tree, fs: seq<Frame>, n: Tree, h: nat, cur: TxId, k: nat, cfs: seq<Frame>,
                                      used: multiset<PageId>)
    requires Linked(t, fs, n) && WfRoot(t, h, cur) && k <= |fs|
    requires k > 0 ==> NodeAt(fs, n, k - 1).tx == cur
    requires Recopied(cfs, fs[k..], cur) && MovedJust(cfs, fs[k..], cur, used)
    ensures Recopied(fs[..k] + cfs, fs, cur) && MovedJust(fs[..k] + cfs, fs, cur, used)
  {
    hide Wf;
    var fs' := fs[..k] + cfs;
    forall j | 0 <= j < |fs| ensures RecopiedAt(fs'[j], fs[j], cur) && MovedAt(fs'[j].t.id, fs[j].t, cur, used) {
      if j < k {
        LinkedTx(t, fs, n, h, cur, j, k - 1);
        assert LinkAt(fs, n, j);
      } else {
        assert RecopiedAt(cfs[j - k], fs[k..][j - k], cur) && MovedAt(cfs[j - k].t.id, fs[k..][j - k].t, cur, used);
      }
    }
  }

  /** The leaf is the transaction's, and so is the path. */
  lemma {:induction false} MovedNone(t: Tree, fs: seq<Frame>, n: Tree, h: nat, cur: TxId, used: multiset<PageId>)
    requires Linked(t, fs, n) && WfRoot(t, h, cur) && n.tx == cur
    ensures Recopied(fs, fs, cur) && MovedJust(fs, fs, cur, used)
  {
    hide Wf;
    MovedNothing(fs, cur, used);
    if fs != [] { LinkedTx(t, fs, n, h, cur, |fs| - 1, |fs|); }
    if fs != [] { LinkedTx(t, fs, n, h, cur, 0, |fs| - 1); }
    MovedWhole(t, fs, n, h, cur, |fs|, [], used);
  }

  lemma {:induction false} MovedOne(fs: seq<Frame>, k: nat, cfs: seq<Frame>, f': Frame, cur: TxId,
                                    used: multiset<PageId>, now: multiset<PageId>)
    requires 0 < k <= |fs| && MovedJust(cfs, fs[k..], cur, used)
    requires fs[k - 1].t.tx != cur && f'.t.id !in now && used <= now
    ensures MovedJust([f'] + cfs, fs[k - 1..], cur, used)
  {
    var fs' := [f'] + cfs;
    forall j | 0 <= j < |fs'| ensures MovedAt(fs'[j].t.id, fs[k - 1..][j].t, cur, used) {
      if j > 0 { assert MovedAt(cfs[j - 1].t.id, fs[k..][j - 1].t, cur, used); }
    }
  }

  lemma {:induction false} RecopiedOk(fs': seq<Frame>, fs: seq<Frame>, cur: TxId)
    requires Recopied(fs', fs, cur) && PathOk(fs)
    ensures PathOk(fs')
  {
    forall j | 0 <= j < |fs| ensures FrameOk(fs'[j]) { assert RecopiedAt(fs'[j], fs[j], cur) && FrameOk(fs[j]); }
  }

  lemma {:induction false} RecopiedInit(fs': seq<Frame>, fs: seq<Frame>, cur: TxId)
    requires Recopied(fs', fs, cur) && PathOk(fs) && fs != []
    ensures var k := |fs| - 1;
      && Recopied(fs'[..k], fs[..k], cur) && PathOk(fs[..k]) && FrameOk(fs[k]) && FrameOk(fs'[k])
      && FramePre(fs'[k]) == FramePre(fs[k]) && FramePost(fs'[k]) == FramePost(fs[k])
  {
    var k := |fs| - 1;
    assert RecopiedAt(fs'[k], fs[k], cur);
    forall j | 0 <= j < k ensures RecopiedAt(fs'[..k][j], fs[..k][j], cur) { assert RecopiedAt(fs'[j], fs[j], cur); }
  }

  lemma {:induction false} RecopiedFlat(fs': seq<Frame>, fs: seq<Frame>, cur: TxId)
    requires Recopied(fs', fs, cur) && PathOk(fs)
    ensures PathOk(fs') && PathPre(fs') == PathPre(fs) && PathPost(fs') == PathPost(fs)
  {
    hide Recopied, FramePre, FramePost;
    RecopiedOk(fs', fs, cur);
    assert |fs'| == |fs| by { RecopiedSize(fs', fs, cur); }
    if fs != [] {
      RecopiedInit(fs', fs, cur);
      RecopiedFlat(fs'[..|fs| - 1], fs[..|fs| - 1], cur);
    }
  }

  lemma {:induction false} RecopiedSize(fs': seq<Frame>, fs: seq<Frame>, cur: TxId)
    requires Recopied(fs', fs, cur)
    ensures |fs'| == |fs|
  {}

  /** Along a descent transaction ids never increase. */
  lemma {:induction false} LinkedTx(t: Tree, fs: seq<Frame>, n: Tree, h: nat, cap: TxId, i: nat, j: nat)
    requires Linked(t, fs, n) && WfRoot(t, h, cap) && i <= j <= |fs|
    ensures NodeAt(fs, n, j).tx <= NodeAt(fs, n, i).tx <= cap
    decreases j
  {
    LinkedWf(t, fs, n, h, cap, i);
    if i < j {
      LinkedTx(t, fs, n, h, cap, i, j - 1);
      LinkedWf(t, fs, n, h, cap, j - 1);
      assert LinkAt(fs, n, j - 1);
      WfChild(fs[j - 1].t, fs[j - 1].i, h - j + 1, cap);
    }
  }

  /** A recopied descent is a path of the transaction. */
  lemma {:induction false} RecopiedWf(t: Tree, fs: seq<Frame>, n: Tree, h: nat, cur: TxId, fs': seq<Frame>)
    requires Linked(t, fs, n) && WfRoot(t, h, cur) && n.Leaf? && Recopied(fs', fs, cur)
    ensures PathOk(fs') && PathWf(fs', 0, cur) && h == |fs|
  {
    LinkedWf(t, fs, n, h, cur, |fs|);
    WfLeaf(n, h - |fs|, cur);
    forall j | 0 <= j < |fs| ensures FrameWf(fs'[j], |fs| - j, cur) && FrameOk(fs'[j]) {
      LinkedWf(t, fs, n, h, cur, j);
      assert LinkAt(fs, n, j) && RecopiedAt(fs'[j], fs[j], cur);
      FrameOfWf(fs[j].t, fs'[j], h - j, cur);
    }
  }

  lemma {:induction false} FrameOfWf(p: Tree, f: Frame, h: nat, cur: TxId)
    requires WfRoot(p, h, cur) && p.Inner? && f.t.Inner? && f.t.b == p.b && f.t.tx == cur && f.i <= |p.b.slots|
    ensures FrameWf(f, h, cur)
  {
    forall i | 0 <= i <= |p.b.slots| ensures Wf(p.b.Child(i), h - 1, cur) { WfChild(p, i, h, cur); }
  }

  lemma {:induction false} PlugCons(f: Frame, fs: seq<Frame>, t: Tree)
    requires FrameOk(f) && PathOk(fs)
    ensures PathOk([f] + fs) && Plug([f] + fs, t) == SetKid(f.t, f.i, Plug(fs, t))
  {
    if fs != [] {
      var g := fs[|fs| - 1];
      assert ([f] + fs)[..|fs|] == [f] + fs[..|fs| - 1];
      PlugCons(f, fs[..|fs| - 1], SetKid(g.t, g.i, t));
    } else {
      assert [f] + fs == [f] && [f][..0] == [];
    }
  }

  lemma {:induction false} PlugConcat(a: seq<Frame>, b: seq<Frame>, t: Tree)
    requires PathOk(a) && PathOk(b)
    ensures PathOk(a + b) && Plug(a + b, t) == Plug(a, Plug(b, t))
    decreases |b|
  {
    if b != [] {
      var g := b[|b| - 1];
      assert (a + b)[..|a + b| - 1] == a + b[..|b| - 1];
      PlugConcat(a, b[..|b| - 1], SetKid(g.t, g.i, t));
    } else {
      assert a + b == a;
    }
  }

  lemma {:induction false} PathBagConcat(a: seq<Frame>, b: seq<Frame>)
    requires PathOk(a) && PathOk(b)
    ensures PathOk(a + b) && PathBag(a + b) == PathBag(a) + PathBag(b)
    decreases |b|
  {
    if b != [] {
      assert (a + b)[..|a + b| - 1] == a + b[..|b| - 1];
      PathBagConcat(a, b[..|b| - 1]);
    } else {
      assert a + b == a;
    }
  }

  /** The nodes from depth k down are copied and stored; the old tree is still whole. */
  ghost predicate Climbed(w: World, t: Tree, fs: seq<Frame>, n: Tree, k: nat, cfs: seq<Frame>, n': Tree,
                          rest: multiset<PageId>) {
    && k <= |fs| && Linked(t, fs, n) && PathOk(fs) && PathOk(cfs) && Recopied(cfs, fs[k..], w.cur)
    && n.Leaf? && n'.Leaf? && n'.recs == n.recs && n'.tx == w.cur
    && ClimbStored(w, t, cfs, n')
    && w.held == rest + PathBag(fs[..k]) + Bag(Plug(cfs, n'))
  }

  ghost predicate ClimbStored(w: World, t: Tree, cfs: seq<Frame>, n': Tree)
    requires PathOk(cfs)
  {
    InStore(w.pages, t) && t.id == w.root && InStore(w.pages, Plug(cfs, n'))
  }

  lemma {:induction false} ClimbedFrames(w: World, t: Tree, fs: seq<Frame>, n: Tree, k: nat, cfs: seq<Frame>, n': Tree,
                                         rest: multiset<PageId>)
    requires Climbed(w, t, fs, n, k, cfs, n', rest)
    ensures k <= |fs| && Linked(t, fs, n) && Recopied(cfs, fs[k..], w.cur)
  {}

  /** What the leaf's page holds. */
  lemma {:induction false} LeafOfPath(w: World, t: Tree, h: nat, fs: seq<Frame>, n: Tree, rest: multiset<PageId>)
    requires Rooted(w, t, h, rest) && Linked(t, fs, n) && n.Leaf?
    ensures n.id in w.held && n.id in w.pages && w.pages[n.id] == LeafPage(n.tx, n.recs)
    ensures PathOk(fs) && w.held == rest + PathBag(fs) + Bag(n) && InStore(w.pages, t) && t.id == w.root
    ensures Bag(t) <= w.held
  {
    LinkedPlug(t, fs, n);
    hide Wf, Linked, InStore, PathBag;
    BagPlug(fs, n);
    assert w.pages[n.id] == PageOf(n) by { NodeAtPage(w.pages, t, fs, n); }
  }

  /** The leaf is copied. */
  lemma {:induction false} ClimbLeaf(w: World, t: Tree, h: nat, fs: seq<Frame>, n: Tree, id: PageId,
                                     rest: multiset<PageId>)
    requires Rooted(w, t, h, rest) && Linked(t, fs, n) && n.Leaf? && id !in w.held
    ensures Climbed(w.(pages := w.pages[id := LeafPage(w.cur, n.recs)], held := w.held + multiset{id} - multiset{n.id}),
                    t, fs, n, |fs|, [], Leaf(id, w.cur, n.recs), rest)
  {
    hide PathBag, Plug, InStore, Linked, Wf, PathOk, Bag, Rooted;
    LeafOfPath(w, t, h, fs, n, rest);
    var pages' := w.pages[id := LeafPage(w.cur, n.recs)];
    InStoreFrame(w.pages, pages', t);
    var n' := Leaf(id, w.cur, n.recs);
    PlugNothing(n');
    LeafStored(pages', n');
    BagOfLeaf(n);
    BagOfLeaf(n');
    assert fs[..|fs|] == fs;
  }

  lemma {:induction false} BagOfLeaf(n: Tree)
    requires n.Leaf?
    ensures Bag(n) == multiset{n.id}
  {}

  lemma {:induction false} PlugNothing(t: Tree)
    ensures PathOk([]) && Plug([], t) == t
  {}

  lemma {:induction false} LeafStored(pages: map<PageId, Page>, n: Tree)
    requires n.Leaf? && n.id in pages && pages[n.id] == PageOf(n)
    ensures InStore(pages, n)
  {}

  /** What the page of the branch above the copies holds. */
  lemma {:induction false} BranchOfPath(w: World, t: Tree, fs: seq<Frame>, n: Tree, k: nat, cfs: seq<Frame>, n': Tree,
                                        rest: multiset<PageId>)
    requires Climbed(w, t, fs, n, k, cfs, n', rest) && k > 0
    ensures var f := fs[k - 1];
      && FrameOk(f) && f.t.id in w.held && f.t.id in w.pages && w.pages[f.t.id] == BranchPage(f.t.tx, Ids(f.t.b))
      && f.i <= |Ids(f.t.b).slots| == |f.t.b.slots|
  {
    hide InStore, Plug, Bag, Recopied, FrameBag;
    var f := fs[k - 1];
    assert LinkAt(fs, n, k - 1);
    PathSplit(fs, k);
    FrameBagOwn(f);
    LinkedPrefix(t, fs, n, k - 1);
    NodeAtPage(w.pages, t, fs[..k - 1], f.t);
  }

  /** A branch of the path is copied, with its child link on the copy below. */
  lemma {:induction false} ClimbBranch(w: World, t: Tree, fs: seq<Frame>, n: Tree, k: nat, cfs: seq<Frame>, n': Tree,
                                       rest: multiset<PageId>, id: PageId)
    requires Climbed(w, t, fs, n, k, cfs, n', rest) && k > 0 && id !in w.held && id !in Bag(t)
    ensures var f := fs[k - 1]; var sub := Plug(cfs, n');
      && FrameOk(f) && f.i <= |Ids(f.t.b).slots|
      && Climbed(w.(pages := w.pages[id := BranchPage(w.cur, Ids(f.t.b).SetChild(f.i, sub.id))],
                    held := w.held + multiset{id} - multiset{f.t.id}),
                 t, fs, n, k - 1, [Frame(Inner(id, w.cur, f.t.b), f.i)] + cfs, n', rest)
  {
    hide PathBag, InStore, Linked, PathOk, SetKid, FrameBag, Bag, Plug, Recopied, Ids;
    BranchOfPath(w, t, fs, n, k, cfs, n', rest);
    var f, sub := fs[k - 1], Plug(cfs, n');
    var f' := Frame(Inner(id, w.cur, f.t.b), f.i);
    ClimbKids(w, t, fs, n, k, sub, id);
    PathSplit(fs, k);
    RecopiedCons(f', cfs, fs, k, w.cur);
    PlugCons(f', cfs, n');
    ClimbBag(w.held, rest + PathBag(fs[..k - 1]), f, f', sub);
  }

  lemma {:induction false} ClimbBag(held: multiset<PageId>, others: multiset<PageId>, f: Frame, f': Frame, sub: Tree)
    requires FrameOk(f) && FrameOk(f') && f'.i == f.i && f'.t.b == f.t.b
    requires held == others + FrameBag(f) + Bag(sub)
    ensures held + multiset{f'.t.id} - multiset{f.t.id} == others + Bag(SetKid(f'.t, f'.i, sub))
  {
    BagSetKid(f', sub);
    FrameBagOwn(f);
    FrameBagOwn(f');
    assert OtherBag(f') == OtherBag(f);
    hide FrameBag, OtherBag, Bag;
    assert held + multiset{f'.t.id} == others + (multiset{f'.t.id} + OtherBag(f) + Bag(sub)) + multiset{f.t.id};
  }

  lemma {:induction false} PathSplit(fs: seq<Frame>, k: nat)
    requires PathOk(fs) && 0 < k <= |fs|
    ensures PathOk(fs[..k]) && PathOk(fs[..k - 1]) && FrameOk(fs[k - 1])
    ensures PathBag(fs[..k]) == PathBag(fs[..k - 1]) + FrameBag(fs[k - 1])
  {
    assert fs[..k][..k - 1] == fs[..k - 1];
  }

  lemma {:induction false} RecopiedCons(f': Frame, cfs: seq<Frame>, fs: seq<Frame>, k: nat, cur: TxId)
    requires 0 < k <= |fs| && Recopied(cfs, fs[k..], cur)
    requires RecopiedAt(f', fs[k - 1], cur) && FrameOk(fs[k - 1]) && PathOk(cfs)
    ensures Recopied([f'] + cfs, fs[k - 1..], cur) && PathOk([f'] + cfs)
  {
    var c := [f'] + cfs;
    forall j | 0 <= j < |c| ensures RecopiedAt(c[j], fs[k - 1..][j], cur) && FrameOk(c[j]) {
      if j > 0 { assert RecopiedAt(cfs[j - 1], fs[k..][j - 1], cur) && FrameOk(cfs[j - 1]); }
    }
  }

  /** The copy of a branch is stored: its other children are the old ones, the child on the path is the copy below. */
  lemma {:induction false} ClimbKids(w: World, t: Tree, fs: seq<Frame>, n: Tree, k: nat, sub: Tree, id: PageId)
    requires 0 < k <= |fs| && Linked(t, fs, n) && FrameOk(fs[k - 1]) && InStore(w.pages, t)
    requires InStore(w.pages, sub) && id !in Bag(t) && id !in Bag(sub)
    ensures var f := fs[k - 1];
      && f.t.id in w.pages && w.pages[f.t.id] == BranchPage(f.t.tx, Ids(f.t.b)) && f.i <= |Ids(f.t.b).slots|
      && var pages' := w.pages[id := BranchPage(w.cur, Ids(f.t.b).SetChild(f.i, sub.id))];
         InStore(pages', SetKid(Inner(id, w.cur, f.t.b), f.i, sub)) && InStore(pages', t)
  {
    var f := fs[k - 1];
    LinkedPrefix(t, fs, n, k - 1);
    NodeStored(w.pages, t, fs[..k - 1], f.t);
    var pages' := w.pages[id := BranchPage(w.cur, Ids(f.t.b).SetChild(f.i, sub.id))];
    hide Linked, Bag;
    InStoreFrame(w.pages, pages', t);
    NodeStored(pages', t, fs[..k - 1], f.t);
    InStoreFrame(w.pages, pages', sub);
    IdsSetChild(f.t.b, f.i, sub);
    var p := SetKid(Inner(id, w.cur, f.t.b), f.i, sub);
    forall j | 0 <= j <= |p.b.slots| ensures InStore(pages', p.b.Child(j)) {
      assert p.b.Child(j) == if j == f.i then sub else f.t.b.Child(j);
    }
  }

  lemma {:induction false} LinkedPrefix(t: Tree, fs: seq<Frame>, n: Tree, k: nat)
    requires Linked(t, fs, n) && k < |fs|
    ensures Linked(t, fs[..k], fs[k].t)
  {
    forall j | 0 <= j < k ensures LinkAt(fs[..k], fs[k].t, j) { assert LinkAt(fs, n, j); }
  }

  // ----- the end of the copying

  /** The leaf a descent ends at is a weak node of whoever owns it. */
  lemma {:induction false} LeafOfDescent(t: Tree, h: nat, fs: seq<Frame>, n: Tree, cur: TxId, n': Tree)
    requires Linked(t, fs, n) && WfRoot(t, h, cur) && n.Leaf? && n'.Leaf? && n'.recs == n.recs && n'.tx == cur
    ensures WeakNode(n', 0, cur)
  {
    LinkedWf(t, fs, n, h, cur, |fs|);
    WfLeaf(n, h - |fs|, cur);
  }

  /** Nothing needs copying: the leaf is owned, and so is every page above it. */
  lemma {:induction false} ClimbNothing(w: World, t: Tree, h: nat, fs: seq<Frame>, n: Tree, rest: multiset<PageId>)
    requires Rooted(w, t, h, rest) && Linked(t, fs, n) && n.Leaf? && n.tx == w.cur
    ensures Weak(w, fs, n, 0, rest) && PathOk(fs)
  {
    hide Wf, InStore, Bag, PathBag;
    forall j | 0 <= j < |fs| ensures RecopiedAt(fs[j], fs[j], w.cur) {
      assert LinkAt(fs, n, j);
      LinkedTx(t, fs, n, h, w.cur, j, |fs|);
    }
    RecopiedWf(t, fs, n, h, w.cur, fs);
    LeafOfDescent(t, h, fs, n, w.cur, n);
    LinkedPlug(t, fs, n);
    BagPlug(fs, n);
  }

  /** Everything was copied: the root moves to the copy. */
  lemma {:induction false} ClimbTop(w: World, t: Tree, h: nat, fs: seq<Frame>, n: Tree, cfs: seq<Frame>, n': Tree,
                                    rest: multiset<PageId>)
    requires Climbed(w, t, fs, n, 0, cfs, n', rest) && WfRoot(t, h, w.cur)
    ensures Weak(w.(root := Plug(cfs, n').id), cfs, n', 0, rest)
    ensures PathPre(cfs) == PathPre(fs) && PathPost(cfs) == PathPost(fs)
  {
    hide Wf, InStore, Bag, PathBag, Recopied, Linked, PathPre, PathPost;
    assert fs[0..] == fs && fs[..0] == [];
    RecopiedWf(t, fs, n, h, w.cur, cfs);
    RecopiedFlat(cfs, fs, w.cur);
    LeafOfDescent(t, h, fs, n, w.cur, n');
    BagPlug(cfs, n');
    PathBagNothing();
  }

  lemma {:induction false} PathBagNothing()
    ensures PathOk([]) && PathBag([]) == multiset{}
  {}

  /** The path down to an owned branch and the copies below it are one path of the transaction. */
  lemma {:induction false} OwnedPrefix(t: Tree, h: nat, fs: seq<Frame>, n: Tree, k: nat, cfs: seq<Frame>, cur: TxId)
    requires Linked(t, fs, n) && WfRoot(t, h, cur) && 0 < k <= |fs| && fs[k - 1].t.tx == cur
    requires Recopied(cfs, fs[k..], cur)
    ensures Recopied(fs[..k] + cfs, fs, cur)
  {
    hide WfRoot, Wf;
    var c := fs[..k] + cfs;
    forall j | 0 <= j < |fs| ensures RecopiedAt(c[j], fs[j], cur) {
      if j < k {
        assert LinkAt(fs, n, j);
        LinkedTx(t, fs, n, h, cur, j, k - 1);
      } else {
        assert RecopiedAt(cfs[j - k], fs[k..][j - k], cur);
      }
    }
  }

  /** An owned branch is pointed to the copy below it: its page holds the branch with the copy in place. */
  lemma {:induction false} OwnedBranch(pages: map<PageId, Page>, pages': map<PageId, Page>, f: Frame, sub: Tree)
    requires FrameOk(f) && InStore(pages, f.t) && InStore(pages', sub)
    requires f.i <= |Ids(f.t.b).slots|
    requires f.t.id in pages' && pages'[f.t.id] == BranchPage(f.t.tx, Ids(f.t.b).SetChild(f.i, sub.id))
    requires SameOn(pages, pages', OtherBag(f))
    ensures InStore(pages', SetKid(f.t, f.i, sub))
  {
    hide Bag, OtherBag;
    var p := SetKid(f.t, f.i, sub);
    IdsSetChild(f.t.b, f.i, sub);
    forall j | 0 <= j <= |p.b.slots| ensures InStore(pages', p.b.Child(j)) {
      assert p.b.Child(j) == if j == f.i then sub else f.t.b.Child(j);
      if j != f.i {
        FrameBagOther(f, j);
        SameOnPart(pages, pages', OtherBag(f), Bag(f.t.b.Child(j)));
        InStoreFrame(pages, pages', f.t.b.Child(j));
      }
    }
  }

  /** The write to an owned branch leaves the rest of the tree and the copies alone. */
  lemma {:induction false} OwnedApart(w: World, pages': map<PageId, Page>, f: Frame, up: multiset<PageId>, sub: Tree,
                                      rest: multiset<PageId>)
    requires FrameOk(f) && w.held == rest + (up + FrameBag(f)) + Bag(sub) && Once(w.held)
    requires forall x :: x in w.held && x != f.t.id && x in w.pages ==> x in pages' && pages'[x] == w.pages[x]
    ensures SameOn(w.pages, pages', up) && SameOn(w.pages, pages', OtherBag(f)) && SameOn(w.pages, pages', Bag(sub))
  {
    hide Bag, FrameBag, OtherBag, Once, SameOn;
    FrameBagOwn(f);
    var others := rest + up + OtherBag(f) + Bag(sub);
    WriteApart(w.pages, pages', w.held, f.t.id, others);
    SameOnPart(w.pages, pages', others, up);
    SameOnPart(w.pages, pages', others, OtherBag(f));
    SameOnPart(w.pages, pages', others, Bag(sub));
  }

  /** The new tree at an owned branch is stored under the old root. */
  lemma {:induction false} OwnedStored(w: World, t: Tree, fs: seq<Frame>, n: Tree, k: nat, cfs: seq<Frame>, n': Tree,
                                       rest: multiset<PageId>)
    requires Climbed(w, t, fs, n, k, cfs, n', rest) && k > 0 && fs[k - 1].t.tx == w.cur && Once(w.held)
    ensures var f := fs[k - 1]; var sub := Plug(cfs, n');
      && FrameOk(f) && f.i <= |Ids(f.t.b).slots| && PathOk(fs[..k] + cfs)
      && InStore(w.pages[f.t.id := BranchPage(w.cur, Ids(f.t.b).SetChild(f.i, sub.id))], Plug(fs[..k] + cfs, n'))
      && Plug(fs[..k] + cfs, n').id == w.root
  {
    hide Bag, PathBag, FrameBag, OtherBag, Once, InStore, Plug, Linked, Recopied, Ids, SameOn, PathOk, SetKid;
    var f, sub, up := fs[k - 1], Plug(cfs, n'), fs[..k - 1];
    BranchOfPath(w, t, fs, n, k, cfs, n', rest);
    PathSplit(fs, k);
    var pages' := w.pages[f.t.id := BranchPage(w.cur, Ids(f.t.b).SetChild(f.i, sub.id))];
    OwnedApart(w, pages', f, PathBag(up), sub, rest);
    LinkedPrefix(t, fs, n, k - 1);
    NodeStored(w.pages, t, up, f.t);
    InStoreFrame(w.pages, pages', sub);
    OwnedBranch(w.pages, pages', f, sub);
    LinkedPlug(t, up, f.t);
    SetKidId(f, sub);
    InStoreReplace(w.pages, pages', up, f.t, SetKid(f.t, f.i, sub));
    PlugId(up, f.t, SetKid(f.t, f.i, sub));
    PlugMiddle(fs, k, cfs, n');
  }

  lemma {:induction false} SetKidId(f: Frame, c: Tree)
    requires FrameOk(f)
    ensures SetKid(f.t, f.i, c).id == f.t.id
  {}

  lemma {:induction false} PlugMiddle(fs: seq<Frame>, k: nat, cfs: seq<Frame>, n: Tree)
    requires 0 < k <= |fs| && PathOk(fs) && PathOk(cfs)
    ensures PathOk(fs[..k] + cfs) && PathOk(fs[..k - 1]) && FrameOk(fs[k - 1])
    ensures Plug(fs[..k] + cfs, n) == Plug(fs[..k - 1], SetKid(fs[k - 1].t, fs[k - 1].i, Plug(cfs, n)))
  {
    assert fs[..k] + cfs == fs[..k - 1] + ([fs[k - 1]] + cfs);
    PlugCons(fs[k - 1], cfs, n);
    PlugConcat(fs[..k - 1], [fs[k - 1]] + cfs, n);
  }

  /** An owned branch ends the copying: the pages above it are owned too. */
  lemma {:induction false} ClimbOwned(w: World, t: Tree, h: nat, fs: seq<Frame>, n: Tree, k: nat, cfs: seq<Frame>,
                                      n': Tree,
                                      rest: multiset<PageId>)
    requires Climbed(w, t, fs, n, k, cfs, n', rest) && WfRoot(t, h, w.cur)
    requires k > 0 && fs[k - 1].t.tx == w.cur && Once(w.held)
    ensures var f := fs[k - 1]; var fs' := fs[..k] + cfs;
      && FrameOk(f) && f.i <= |Ids(f.t.b).slots| && PathOk(fs')
      && Weak(w.(pages := w.pages[f.t.id := BranchPage(w.cur, Ids(f.t.b).SetChild(f.i, Plug(cfs, n').id))]),
              fs', n', 0, rest)
      && PathPre(fs') == PathPre(fs) && PathPost(fs') == PathPost(fs)
  {
    hide Wf, Bag, PathBag, InStore, Plug, Linked, Recopied, Once, PathPre, PathPost, PathOk, Ids, PathWf;
    OwnedStored(w, t, fs, n, k, cfs, n', rest);
    OwnedPrefix(t, h, fs, n, k, cfs, w.cur);
    RecopiedWf(t, fs, n, h, w.cur, fs[..k] + cfs);
    RecopiedFlat(fs[..k] + cfs, fs, w.cur);
    LeafOfDescent(t, h, fs, n, w.cur, n');
    PathSplit(fs, k);
    PathBagConcat(fs[..k], cfs);
    BagPlug(cfs, n');
  }

  lemma {:induction false} LeafCapped(w: World, t: Tree, h: nat, fs: seq<Frame>, n: Tree, rest: multiset<PageId>)
    requires Rooted(w, t, h, rest) && Linked(t, fs, n)
    ensures n.tx <= w.cur
  {
    LinkedTx(t, fs, n, h, w.cur, 0, |fs|);
  }

  lemma {:induction false} BranchCapped(w: World, t: Tree, h: nat, fs: seq<Frame>, n: Tree, k: nat, cfs: seq<Frame>,
                                        n': Tree, rest: multiset<PageId>)
    requires Climbed(w, t, fs, n, k, cfs, n', rest) && WfRoot(t, h, w.cur) && 0 < k
    ensures fs[k - 1].t.tx <= w.cur
  {
    LinkedTx(t, fs, n, h, w.cur, 0, k - 1);
  }

  lemma {:induction false} RootedWf(w: World, t: Tree, h: nat, rest: multiset<PageId>)
    requires Rooted(w, t, h, rest)
    ensures WfRoot(t, h, w.cur)
  {}

  /** A copied branch is the top of the copied path. */
  lemma {:induction false} CopyOnTop(f: Frame, cfs: seq<Frame>, n: Tree, id: PageId, cur: TxId)
    requires FrameOk(f) && PathOk(cfs)
    ensures var c := [Frame(Inner(id, cur, f.t.b), f.i)] + cfs; PathOk(c) && Plug(c, n).id == id
  {
    PlugCons(Frame(Inner(id, cur, f.t.b), f.i), cfs, n);
  }
}
