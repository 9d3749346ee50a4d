/** The steps of a deletion on its way up: pairing with a sibling, borrowing, merging, collapsing the root. */
module Shrinks {
  import opened Order
  import opened Nodes
  import opened Trees
  import opened FreeSpace
  import opened Zipper
  import opened Steps

  /** GetSibling: the left sibling for the last child, else the right one; ks is the key between. */
  predicate LeftSibling(f: Frame)
    requires FrameOk(f)
  {
    f.i == |f.t.b.slots|
  }

  function PairSlot(f: Frame): nat
    requires FrameOk(f) && f.t.b.slots != []
  {
    if LeftSibling(f) then f.i - 1 else f.i
  }

  /** The two children next to the key of a frame whose child on the path is n. */
  lemma {:induction false} PairOf(f: Frame, n: Tree)
    requires FrameOk(f) && f.t.b.slots != []
    ensures var ks, s := PairSlot(f), f.t.b.slots; var g := PairFrame(f.t, ks);
      var a := if LeftSibling(f) then f.t.b.Child(ks) else n;
      var c := if LeftSibling(f) then n else f.t.b.Child(ks + 1);
      && ks < |s| && FrameOk(g) && SetKid(f.t, f.i, n) == Graft(g, a, s[ks].key, c)
      && FrameBag(f) + Bag(n) == FrameBag(g) + Bag(a) + Bag(c)
  {
    var ks, s := PairSlot(f), f.t.b.slots;
    var g := PairFrame(f.t, ks);
    var a := if LeftSibling(f) then f.t.b.Child(ks) else n;
    var c := if LeftSibling(f) then n else f.t.b.Child(ks + 1);
    assert Graft(g, a, s[ks].key, c).b.slots == SetKid(f.t, f.i, n).b.slots;
    hide FrameBag, Bag, SetKid, Graft;
    BagSetKid(f, n);
    BagGraft(g, a, s[ks].key, c);
  }

  lemma {:induction false} PairFrameShape(f: Frame, h: nat, cur: TxId)
    requires FrameWf(f, h, cur)
    ensures var ks := PairSlot(f); var g := PairFrame(f.t, ks);
      && ks < |f.t.b.slots| && PairFrameWf(g, h, cur) && g.t.id == f.t.id && g.i == ks && ShortKey(f.t.b.slots[ks].key)
      && BranchUsed(g.t.b.slots) + KeyCost(f.t.b.slots[ks].key) == BranchUsed(f.t.b.slots) <= MAX_SPACE
      && Wf(f.t.b.Child(if LeftSibling(f) then ks else ks + 1), h - 1, cur)
  {
    hide Wf, BranchUsed, ShortKey;
    var ks := PairSlot(f);
    FitsDelete(f.t.b, ks, true);
    var g := PairFrame(f.t, ks);
    assert forall j :: 0 <= j <= |g.t.b.slots| ==> g.t.b.Child(j) == f.t.b.Child(if j <= ks then j else j + 1);
  }

  /** A weak node that is not the root is one of two neighbours. */
  lemma {:induction false} PairUp(w: World, fs: seq<Frame>, n: Tree, h: nat, rest: multiset<PageId>)
    returns (g: Frame, a: Tree, key: Key, c: Tree)
    requires Weak(w, fs, n, h, rest) && fs != []
    ensures var f := fs[|fs| - 1];
      && FrameWf(f, h + 1, w.cur)
      && g == PairFrame(f.t, PairSlot(f)) && g.t.id == f.t.id && g.i == PairSlot(f)
      && key == f.t.b.slots[PairSlot(f)].key
      && (if LeftSibling(f) then c == n && a == f.t.b.Child(PairSlot(f)) && Wf(a, h, w.cur)
          else a == n && c == f.t.b.Child(PairSlot(f) + 1) && Wf(c, h, w.cur))
    ensures PathOk(fs) && Paired(w, fs[..|fs| - 1], g, a, key, c, h, rest)
    ensures Plug(fs, n) == Plug(fs[..|fs| - 1], Graft(g, a, key, c))
  {
    hide Wf, BranchUsed, BranchFits, InStore, PathBag, FrameBag, Bag, Graft, SetKid, Plug, WeakNode, PathWf, ShortKey,
         PairFrame, PairFrameWf;
    var f := fs[|fs| - 1];
    PairUpShape(w, fs, n, h);
    g, key := PairFrame(f.t, PairSlot(f)), f.t.b.slots[PairSlot(f)].key;
    a := if LeftSibling(f) then f.t.b.Child(PairSlot(f)) else n;
    c := if LeftSibling(f) then n else f.t.b.Child(PairSlot(f) + 1);
    PairUpHeld(w, fs, n, h, rest);
  }

  /** The pair, the frame it hangs from, and the tree with both. */
  lemma {:induction false} PairUpShape(w: World, fs: seq<Frame>, n: Tree, h: nat)
    requires Hangs(w, fs, n, h) && fs != []
    ensures PathOk(fs) && PathOk(fs[..|fs| - 1]) && PathWf(fs[..|fs| - 1], h + 1, w.cur)
    ensures var f := fs[|fs| - 1]; var ks := PairSlot(f);
      && FrameWf(f, h + 1, w.cur) && ks < |f.t.b.slots| && FrameOk(PairFrame(f.t, ks))
      && PairFrameWf(PairFrame(f.t, ks), h + 1, w.cur)
      && PairFrame(f.t, ks).t.id == f.t.id && PairFrame(f.t, ks).i == ks && ShortKey(f.t.b.slots[ks].key)
      && BranchUsed(PairFrame(f.t, ks).t.b.slots) + KeyCost(f.t.b.slots[ks].key) <= MAX_SPACE
      && (if LeftSibling(f) then Wf(f.t.b.Child(ks), h, w.cur) else Wf(f.t.b.Child(ks + 1), h, w.cur))
    ensures var f := fs[|fs| - 1]; var ks := PairSlot(f);
      var a := if LeftSibling(f) then f.t.b.Child(ks) else n;
      var c := if LeftSibling(f) then n else f.t.b.Child(ks + 1);
      Plug(fs, n) == Plug(fs[..|fs| - 1], Graft(PairFrame(f.t, ks), a, f.t.b.slots[ks].key, c))
  {
    hide Wf, BranchUsed, BranchFits, InStore, PathBag, FrameBag, Bag, Graft, SetKid, Plug, PathWf, ShortKey, PairFrame,
         PairFrameWf, PathPre, PathPost, FramePre, FramePost;
    PathLast(fs, n, h, w.cur);
    PairOf(fs[|fs| - 1], n);
    PairFrameShape(fs[|fs| - 1], h + 1, w.cur);
  }

  lemma {:induction false} PairUpHeld(w: World, fs: seq<Frame>, n: Tree, h: nat, rest: multiset<PageId>)
    requires PathOk(fs) && PathWf(fs, h, w.cur) && fs != [] && w.held == rest + PathBag(fs) + Bag(n)
    ensures PathOk(fs[..|fs| - 1])
    ensures var f := fs[|fs| - 1]; var ks := PairSlot(f);
      && FrameOk(f) && ks < |f.t.b.slots| && FrameOk(PairFrame(f.t, ks))
      && var a := if LeftSibling(f) then f.t.b.Child(ks) else n;
         var c := if LeftSibling(f) then n else f.t.b.Child(ks + 1);
         w.held == rest + PathBag(fs[..|fs| - 1]) + FrameBag(PairFrame(f.t, ks)) + Bag(a) + Bag(c)
  {
    hide Wf, BranchUsed, BranchFits, PathBag, FrameBag, Bag, Graft, SetKid, Plug, PathWf, ShortKey, PairFrame,
         PairFrameWf, PathPre, PathPost, FramePre, FramePost;
    PathLast(fs, n, h, w.cur);
    var init, f := fs[..|fs| - 1], fs[|fs| - 1];
    PairOf(f, n);
    var ks := PairSlot(f);
    var a := if LeftSibling(f) then f.t.b.Child(ks) else n;
    var c := if LeftSibling(f) then n else f.t.b.Child(ks + 1);
    PairHeld(w.held, rest, PathBag(init), FrameBag(f), Bag(n), FrameBag(PairFrame(f.t, ks)), Bag(a), Bag(c));
  }

  lemma {:induction false} PairHeld(held: multiset<PageId>, rest: multiset<PageId>, p: multiset<PageId>,
                                    f: multiset<PageId>,
                                    n: multiset<PageId>, g: multiset<PageId>, a: multiset<PageId>, c: multiset<PageId>)
    requires held == rest + (p + f) + n && f + n == g + a + c
    ensures held == rest + p + g + a + c
  {
    assert rest + (p + f) + n == rest + p + (f + n);
    assert rest + p + g + a + c == rest + p + (g + a + c);
  }

  /** Seen from the pair, the tree reads the same. */
  lemma {:induction false} PairUpFlat(fs: seq<Frame>, n: Tree, g: Frame, a: Tree, key: Key, c: Tree)
    requires PathOk(fs) && fs != [] && FrameOk(g)
    requires Plug(fs, n) == Plug(fs[..|fs| - 1], Graft(g, a, key, c))
    ensures PairFlat(fs[..|fs| - 1], g, a, key, c) == PathPre(fs) + Flat(n) + PathPost(fs)
  {
    hide Flat, PathPre, PathPost, FramePre, FramePost, Graft, Plug;
    FlatPlug(fs, n);
    FlatRise(fs[..|fs| - 1], g, a, key, c);
  }

  /** A pair's slots as the code finds them from the child's own slot. */
  lemma {:induction false} PairSlots(f: Frame, a: Tree, key: Key, c: Tree)
    requires FrameOk(f) && f.t.b.slots != []
    ensures |Graft(PairFrame(f.t, PairSlot(f)), a, key, c).b.slots| == |f.t.b.slots|
  {}

  /** The parent and the two neighbours are three pages. */
  lemma {:induction false} PairIds(w: World, fs: seq<Frame>, g: Frame, a: Tree, key: Key, c: Tree, h: nat,
                                   rest: multiset<PageId>)
    requires Paired(w, fs, g, a, key, c, h, rest) && Once(w.held)
    ensures g.t.id != a.id && g.t.id != c.id && a.id != c.id
  {
    hide Bag, FrameBag, PathBag, Plug, InStore, Wf;
    PairIdsApart(w.held, rest + PathBag(fs), g, a, c);
  }

  /** What the parent of a pair holds. */
  lemma {:induction false} PairParent(w: World, fs: seq<Frame>, g: Frame, a: Tree, key: Key, c: Tree, h: nat,
                                      rest: multiset<PageId>)
    requires Paired(w, fs, g, a, key, c, h, rest)
    ensures FrameOk(g) && PathOk(fs)
    ensures {g.t.id, a.id, c.id} <= w.pages.Keys
    ensures var b := Graft(g, a, key, c).b;
      && w.pages[g.t.id] == BranchPage(w.cur, Ids(b)) == PageOf(Graft(g, a, key, c))
      && w.pages[a.id] == PageOf(a) && w.pages[c.id] == PageOf(c)
      && g.i < |b.slots| && b.slots[g.i].key == key && Ids(b).slots[g.i].key == key
      && Ids(b).Child(g.i) == a.id && Ids(b).Child(g.i + 1) == c.id
      && |Ids(b).slots| == |b.slots| == |g.t.b.slots| + 1
    ensures InStore(w.pages, a) && InStore(w.pages, c)
    ensures g.t.id in w.held && a.id in w.held && c.id in w.held
  {
    hide BranchUsed, PathBag, Plug, PathWf, HalfWf, BranchFits, FrameBag, Bag, Wf;
    var n := Graft(g, a, key, c);
    InStoreFocus(w.pages, fs, n);
    GraftChild(g, a, key, c, g.i);
    GraftChild(g, a, key, c, g.i + 1);
    GraftIds(g, a, key, c);
    BagHasId(a);
    BagHasId(c);
    FrameBagOwn(g);
  }

  /** What no change to a pair, its parent's page, or new pages touches. */
  lemma {:induction false} PairApart(w: World, pages': map<PageId, Page>, fs: seq<Frame>, g: Frame, a: Tree, c: Tree,
                                     rest: multiset<PageId>)
    requires PathOk(fs) && FrameOk(g) && Once(w.held)
    requires w.held == rest + PathBag(fs) + FrameBag(g) + Bag(a) + Bag(c)
    requires forall x :: x in w.held && x != g.t.id && x != a.id && x != c.id && x in w.pages ==>
               x in pages' && pages'[x] == w.pages[x]
    ensures SameOn(w.pages, pages', PathBag(fs)) && SameOn(w.pages, pages', OtherBag(g))
  {
    hide PathBag, Bag, OtherBag, FrameBag;
    FrameBagOwn(g);
    var others := PathBag(fs) + OtherBag(g);
    var mine := multiset{g.t.id} + Bag(a) + Bag(c);
    assert w.held == others + mine + rest;
    OncePart(others + mine, rest);
    OncePart(others, mine);
    BagHasId(a);
    BagHasId(c);
    forall x | x in others ensures x in w.held && x != g.t.id && x != a.id && x != c.id {
      assert w.held[x] >= others[x] > 0;
      assert x !in mine;
    }
    SameOnPart(w.pages, pages', others, PathBag(fs));
    SameOnPart(w.pages, pages', others, OtherBag(g));
  }

  /** New neighbours, and perhaps a new key, in place of a pair. */
  lemma {:induction false} RePair(w: World, w': World, fs: seq<Frame>, g: Frame, a: Tree, key: Key, c: Tree,
                                  a': Tree, key': Key, c': Tree, h: nat, rest: multiset<PageId>)
    requires Paired(w, fs, g, a, key, c, h, rest) && Once(w.held)
    requires w'.root == w.root && w'.cur == w.cur
    requires InStore(w'.pages, a') && InStore(w'.pages, c')
    requires g.t.id in w'.pages && w'.pages[g.t.id] == PageOf(Graft(g, a', key', c'))
    requires forall x :: x in w.held && x != g.t.id && x != a.id && x != c.id && x in w.pages ==>
               x in w'.pages && w'.pages[x] == w.pages[x]
    ensures Hangs(w', fs, Graft(g, a', key', c'), h + 1)
  {
    hide PathBag, FrameBag, Bag, BranchUsed, PageOf, PathWf, Once, HalfWf, SameOn, ShortKey, OtherBag;
    PairApart(w, w'.pages, fs, g, a, c, rest);
    var n, n' := Graft(g, a, key, c), Graft(g, a', key', c');
    InStoreFocus(w.pages, fs, n);
    KidsInGraft(w.pages, w'.pages, g, a, key, c, a', key', c');
    StoreNode(w, w', fs, n, n', h + 1);
  }

  // ----- the sibling is copied

  /** The node on another page, as a page of transaction cur. */
  function Retag(t: Tree, id: PageId, cur: TxId): Tree {
    match t
    case Leaf(_, _, recs) => Leaf(id, cur, recs)
    case Inner(_, _, b) => Inner(id, cur, b)
  }

  lemma {:induction false} RetagFacts(t: Tree, id: PageId, cur: TxId, h: nat)
    ensures !PageOf(t).ListPage? && PageOf(Retag(t, id, cur)) == PageOf(t).(tx := cur)
    ensures Flat(Retag(t, id, cur)) == Flat(t)
    ensures Bag(Retag(t, id, cur)) + multiset{t.id} == Bag(t) + multiset{id}
    ensures Wf(t, h, cur) ==> Wf(Retag(t, id, cur), h, cur)
  {
    if Wf(t, h, cur) && t.Inner? {
      forall i | 0 <= i <= |t.b.slots| ensures Wf(t.b.Child(i), h - 1, cur) {
        WfWeaken(t.b.Child(i), h - 1, t.tx, cur);
      }
    }
  }

  /** A copied node is stored when the copy is written and nothing of the original's subtree changes. */
  lemma {:induction false} RetagStored(pages: map<PageId, Page>, pages': map<PageId, Page>, t: Tree, id: PageId,
                                       cur: TxId)
    requires InStore(pages, t) && SameOn(pages, pages', Bag(t) - multiset{t.id})
    requires id in pages' && pages'[id] == PageOf(Retag(t, id, cur))
    ensures InStore(pages', Retag(t, id, cur))
  {
    if t.Inner? {
      assert Bag(t) - multiset{t.id} == BagBranch(t.b);
      KidsInKeep(pages, pages', t.b);
    }
  }

  lemma {:induction false} KidsInKeep(pages: map<PageId, Page>, pages': map<PageId, Page>, b: Branch<Tree>)
    requires KidsIn(pages, b) && SameOn(pages, pages', BagBranch(b))
    ensures KidsIn(pages', b)
  {
    forall i | 0 <= i <= |b.slots| ensures InStore(pages', b.Child(i)) {
      BagBranchChild(b, i);
      SameOnPart(pages, pages', BagBranch(b), Bag(b.Child(i)));
      InStoreFrame(pages, pages', b.Child(i));
    }
  }

  lemma {:induction false} BagBranchChild(b: Branch<Tree>, i: nat)
    requires i <= |b.slots|
    ensures Bag(b.Child(i)) <= BagBranch(b)
  {
    if i < |b.slots| {
      BagSlotsMember(b.slots, i);
    }
  }

  lemma {:induction false} GraftSetLeft(g: Frame, a: Tree, key: Key, c: Tree, a': Tree)
    requires FrameOk(g)
    ensures g.i <= |Ids(Graft(g, a, key, c).b).slots|
    ensures Ids(Graft(g, a', key, c).b) == Ids(Graft(g, a, key, c).b).SetChild(g.i, a'.id)
  {
    GraftOther(g, a, key, c, a', c);
    hide Graft;
    IdsSetChild(Graft(g, a, key, c).b, g.i, a');
  }

  /** The content of a graft, written out. */
  lemma {:induction false} GraftShape(g: Frame, a: Tree, key: Key, c: Tree)
    requires FrameOk(g)
    ensures var s, i := g.t.b.slots, g.i;
      Graft(g, a, key, c).b == if i < |s|
                               then Branch(s[..i] + [Slot(a, key), Slot(c, s[i].key)] + s[i + 1..], g.t.b.tail)
                               else Branch(s + [Slot(a, key)], c)
  {
    var s, i := g.t.b.slots, g.i;
    var b := g.t.b.SetChild(i, a);
    if i < |s| {
      assert b.slots[i] == Slot(a, s[i].key) && b.slots[..i] == s[..i] && b.slots[i + 1..] == s[i + 1..];
    }
  }

  lemma {:induction false} SetMiddle<T>(x: seq<T>, p: T, q: T, y: seq<T>, p': T, q': T)
    ensures (x + [p, q] + y)[|x| := p'] == x + [p', q] + y
    ensures (x + [p, q] + y)[|x| + 1 := q'] == x + [p, q'] + y
  {}

  /** Another child in one of the two places of a graft is another graft. */
  lemma {:induction false} GraftOther(g: Frame, a: Tree, key: Key, c: Tree, a': Tree, c': Tree)
    requires FrameOk(g)
    ensures g.i + 1 <= |Graft(g, a, key, c).b.slots|
    ensures Graft(g, a', key, c).b == Graft(g, a, key, c).b.SetChild(g.i, a')
    ensures Graft(g, a, key, c').b == Graft(g, a, key, c).b.SetChild(g.i + 1, c')
  {
    GraftShape(g, a, key, c);
    GraftShape(g, a', key, c);
    GraftShape(g, a, key, c');
    hide Graft;
    var s, i := g.t.b.slots, g.i;
    if i < |s| {
      SetMiddle(s[..i], Slot(a, key), Slot(c, s[i].key), s[i + 1..], Slot(a', key), Slot(c', s[i].key));
    } else {
      assert (s + [Slot(a, key)])[i := Slot(a', key)] == s + [Slot(a', key)];
    }
  }

  lemma {:induction false} GraftSetRight(g: Frame, a: Tree, key: Key, c: Tree, c': Tree)
    requires FrameOk(g)
    ensures g.i + 1 <= |Ids(Graft(g, a, key, c).b).slots|
    ensures Ids(Graft(g, a, key, c').b) == Ids(Graft(g, a, key, c).b).SetChild(g.i + 1, c'.id)
  {
    GraftOther(g, a, key, c, a, c');
    hide Graft;
    IdsSetChild(Graft(g, a, key, c).b, g.i + 1, c');
  }

  /** The sibling is copied to a new page and the parent points to the copy. */
  lemma {:induction false} CopySibling(w: World, w': World, fs: seq<Frame>, g: Frame, a: Tree, key: Key, c: Tree,
                                       h: nat, rest: multiset<PageId>, left: bool, o: Tree, a': Tree, c': Tree)
    requires FrameOk(g)
    requires if left then o == a && c' == c && a' == Retag(o, a'.id, w.cur) && a'.id !in w.held
             else o == c && a' == a && c' == Retag(o, c'.id, w.cur) && c'.id !in w.held
    requires var n := if left then a' else c';
             w' == w.(pages := w.pages[n.id := PageOf(n)][g.t.id := PageOf(Graft(g, a', key, c'))],
                      held := w.held + multiset{n.id} - multiset{o.id})
    requires Paired(w, fs, g, a, key, c, h, rest) && Once(w.held) && Wf(o, h, w.cur)
    ensures Paired(w', fs, g, a', key, c', h, rest)
    ensures Flat(a') == Flat(a) && Flat(c') == Flat(c)
  {
    hide PathBag, FrameBag, Bag, BranchUsed, PageOf, PathWf, Once, SameOn, ShortKey, OtherBag, Graft, InStore, Wf, Flat,
         WeakNode, Plug, PairFrameWf, Retag;
    var n, k := if left then a' else c', if left then c else a;
    RetagFacts(o, n.id, w.cur, h);
    PairParent(w, fs, g, a, key, c, h, rest);
    CopySiblingStored(w, w'.pages, fs, g, a, key, c, h, rest, o, k, n.id);
    RePair(w, w', fs, g, a, key, c, a', key, c', h, rest);
    CopyHeld(w.held, rest + PathBag(fs) + FrameBag(g), Bag(k), Bag(o), Bag(n), n.id, o.id);
  }

  /** The copy is held in place of the original. */
  lemma {:induction false} CopyHeld(held: multiset<PageId>, others: multiset<PageId>, k: multiset<PageId>,
                                    o: multiset<PageId>, n: multiset<PageId>, nid: PageId, oid: PageId)
    requires held == others + o + k && n + multiset{oid} == o + multiset{nid}
    ensures held + multiset{nid} - multiset{oid} == others + n + k
  {
    assert (others + o + k) + multiset{nid} == (others + k) + (o + multiset{nid});
    assert (others + n + k) + multiset{oid} == (others + k) + (n + multiset{oid});
  }

  lemma {:induction false} CopySiblingStored(w: World, pages': map<PageId, Page>, fs: seq<Frame>, g: Frame,
                                             a: Tree, key: Key, c: Tree, h: nat,
                                             rest: multiset<PageId>, o: Tree, k: Tree, id: PageId)
    requires Paired(w, fs, g, a, key, c, h, rest) && Once(w.held) && id !in w.held
    requires (o == a && k == c) || (o == c && k == a)
    requires id in pages' && pages'[id] == PageOf(Retag(o, id, w.cur))
    requires forall x :: x in w.held && x != g.t.id && x in w.pages ==> x in pages' && pages'[x] == w.pages[x]
    ensures InStore(pages', Retag(o, id, w.cur)) && InStore(pages', k)
  {
    hide PathBag, Bag, BranchUsed, PageOf, PathWf, SameOn, ShortKey, OtherBag, Graft, InStore, Wf, Plug, Once, FrameBag,
         Retag, HalfWf, BranchFits;
    PairParent(w, fs, g, a, key, c, h, rest);
    FrameBagOwn(g);
    var others := rest + PathBag(fs) + OtherBag(g) + Bag(a) + Bag(c);
    WriteApart(w.pages, pages', w.held, g.t.id, others);
    SameOnPart(w.pages, pages', others, Bag(a));
    SameOnPart(w.pages, pages', others, Bag(c));
    SameOnPart(w.pages, pages', Bag(o), Bag(o) - multiset{o.id});
    InStoreFrame(w.pages, pages', k);
    RetagStored(w.pages, pages', o, id, w.cur);
  }

  // ----- records move between the neighbours

  /** Two leaves share their records anew, or two branches their slots and the key between. */
  ghost predicate Shared(a: Tree, key: Key, c: Tree, a': Tree, key': Key, c': Tree) {
    && a'.id == a.id && c'.id == c.id
    && ((a.Leaf? && c.Leaf? && a'.Leaf? && c'.Leaf?)
        || (a.Inner? && c.Inner? && a'.Inner? && c'.Inner? && Join(a'.b, key', c'.b) == Join(a.b, key, c.b)))
  }

  lemma {:induction false} BagPair(a: multiset<PageId>, b: multiset<PageId>, c: multiset<PageId>, d: multiset<PageId>)
    ensures (a + b) + (c + d) == (a + c) + (b + d)
  {}

  lemma {:induction false} SharedBag(a: Tree, key: Key, c: Tree, a': Tree, key': Key, c': Tree)
    requires Shared(a, key, c, a', key', c')
    ensures Bag(a') + Bag(c') == Bag(a) + Bag(c)
  {
    if a.Inner? {
      BagJoin(a.b, key, c.b);
      BagJoin(a'.b, key', c'.b);
      hide BagBranch, Join;
      BagPair(multiset{a.id}, BagBranch(a.b), multiset{c.id}, BagBranch(c.b));
      BagPair(multiset{a.id}, BagBranch(a'.b), multiset{c.id}, BagBranch(c'.b));
    }
  }

  /** Writing the two nodes' own pages leaves their children's pages alone. */
  lemma {:induction false} OwnPagesApart(pages: map<PageId, Page>, pages': map<PageId, Page>, a: Tree, c: Tree,
                                         p: Page, q: Page)
    requires a.Inner? && c.Inner? && Once(Bag(a) + Bag(c)) && pages' == pages[a.id := p][c.id := q]
    ensures a.id != c.id && SameOn(pages, pages', BagBranch(a.b) + BagBranch(c.b))
  {
    var own, kids := multiset{a.id} + multiset{c.id}, BagBranch(a.b) + BagBranch(c.b);
    BagPair(multiset{a.id}, BagBranch(a.b), multiset{c.id}, BagBranch(c.b));
    hide BagBranch;
    OncePart(own, kids);
    OncePart(multiset{a.id}, multiset{c.id});
    assert a.id in own && c.id in own;
  }

  /** Two branches that share slots anew share their children. */
  lemma {:induction false} SharedKids(pages: map<PageId, Page>, pages': map<PageId, Page>, a: Branch<Tree>, key: Key,
                                      c: Branch<Tree>, a': Branch<Tree>, key': Key, c': Branch<Tree>)
    requires Join(a', key', c') == Join(a, key, c) && KidsIn(pages, a) && KidsIn(pages, c)
    requires SameOn(pages, pages', BagBranch(a) + BagBranch(c))
    ensures KidsIn(pages', a') && KidsIn(pages', c')
  {
    hide BagBranch, Join, SameOn, KidsIn, KidsWf;
    BagJoin(a, key, c);
    KidsJoin(a, key, c, 0, 0, pages);
    KidsInKeep(pages, pages', Join(a, key, c));
    KidsJoin(a', key', c', 0, 0, pages');
  }

  /** The new neighbours are stored once their own pages are written. */
  lemma {:induction false} SharedStored(pages: map<PageId, Page>, pages': map<PageId, Page>,
                                        a: Tree, key: Key, c: Tree, a': Tree, key': Key, c': Tree)
    requires Shared(a, key, c, a', key', c') && InStore(pages, a) && InStore(pages, c) && Once(Bag(a) + Bag(c))
    requires pages' == pages[a.id := PageOf(a')][c.id := PageOf(c')]
    ensures InStore(pages', a') && InStore(pages', c')
  {
    hide PageOf, Join, SameOn;
    if a.Inner? {
      OwnPagesApart(pages, pages', a, c, PageOf(a'), PageOf(c'));
      hide Bag, Once;
      SharedKids(pages, pages', a.b, key, c.b, a'.b, key', c'.b);
    } else {
      OncePart(multiset{a.id}, multiset{c.id});
    }
  }

  /** Borrowing: both neighbours are rewritten in place; the parent still has the old key. */
  lemma {:induction false} Borrow(w: World, fs: seq<Frame>, g: Frame, a: Tree, key: Key, c: Tree, h: nat,
                                  rest: multiset<PageId>, a': Tree, key': Key, c': Tree)
    requires Paired(w, fs, g, a, key, c, h, rest) && Once(w.held)
    requires Shared(a, key, c, a', key', c') && Wf(a', h, w.cur) && Wf(c', h, w.cur)
    ensures Paired(w.(pages := w.pages[a.id := PageOf(a')][c.id := PageOf(c')]), fs, g, a', key, c', h, rest)
  {
    hide PathBag, Bag, FrameBag, BranchUsed, PageOf, PathWf, Once, SameOn, ShortKey, OtherBag, Graft, InStore, Wf,
         WeakNode, Plug, Shared, PairFrameWf;
    var w' := w.(pages := w.pages[a.id := PageOf(a')][c.id := PageOf(c')]);
    PairParent(w, fs, g, a, key, c, h, rest);
    SharedBag(a, key, c, a', key', c');
    assert w.held == rest + PathBag(fs) + FrameBag(g) + (Bag(a) + Bag(c));
    OncePart(rest + PathBag(fs) + FrameBag(g), Bag(a) + Bag(c));
    SharedStored(w.pages, w'.pages, a, key, c, a', key', c');
    PairIdsApart(w.held, rest + PathBag(fs), g, a, c);
    SharedIds(g, a, key, c, a', key', c');
    RePair(w, w', fs, g, a, key, c, a', key, c', h, rest);
  }

  lemma {:induction false} PairIdsApart(held: multiset<PageId>, others: multiset<PageId>, g: Frame, a: Tree, c: Tree)
    requires FrameOk(g) && Once(held) && held == others + FrameBag(g) + (Bag(a) + Bag(c))
    ensures g.t.id != a.id && g.t.id != c.id && a.id != c.id
  {
    FrameBagOwn(g);
    BagHasId(a);
    BagHasId(c);
    hide Bag, FrameBag, OtherBag;
    assert held[g.t.id] <= 1 && held[a.id] <= 1 && held[c.id] <= 1;
  }

  /** The parent's page does not change with its children's content. */
  lemma {:induction false} SharedIds(g: Frame, a: Tree, key: Key, c: Tree, a': Tree, key': Key, c': Tree)
    requires FrameOk(g) && Shared(a, key, c, a', key', c')
    ensures PageOf(Graft(g, a', key, c')) == PageOf(Graft(g, a, key, c))
  {
    GraftIds(g, a, key, c);
    GraftIds(g, a', key, c');
  }

  lemma {:induction false} PairWeak(w: World, fs: seq<Frame>, g: Frame, a: Tree, key: Key, c: Tree, h: nat,
                                    rest: multiset<PageId>)
    requires Paired(w, fs, g, a, key, c, h, rest)
    ensures ShortKey(key) && HalfWf(a, h, w.cur) && HalfWf(c, h, w.cur)
    ensures a.tx == w.cur ==> WeakNode(a, h, w.cur)
    ensures c.tx == w.cur ==> WeakNode(c, h, w.cur)
  {
    hide InStore, Plug, PathBag, Bag, FrameBag, PathWf;
  }

  // ----- the separator

  /** The order of a tree with a new key between two neighbours. */
  ghost function PairFlat(fs: seq<Frame>, g: Frame, a: Tree, key: Key, c: Tree): seq<Tok>
    requires PathOk(fs) && FrameOk(g)
  {
    PathPre(fs) + FramePre(g) + Flat(a) + [Sep(key)] + (Flat(c) + (FramePost(g) + PathPost(fs)))
  }

  /** The tree reads the same when the two neighbours and the key between do. */
  lemma {:induction false} PairFlatSame(fs: seq<Frame>, g: Frame, a: Tree, key: Key, c: Tree,
                                        a': Tree, key': Key, c': Tree)
    requires PathOk(fs) && FrameOk(g)
    requires Flat(a') + [Sep(key')] + Flat(c') == Flat(a) + [Sep(key)] + Flat(c)
    ensures PairFlat(fs, g, a', key', c') == PairFlat(fs, g, a, key, c)
  {
    hide Flat, PathPre, PathPost, FramePre, FramePost;
    var p, q := PathPre(fs) + FramePre(g), FramePost(g) + PathPost(fs);
    RegroupPair(p, Flat(a'), [Sep(key')], Flat(c'), q);
    RegroupPair(p, Flat(a), [Sep(key)], Flat(c), q);
  }

  lemma {:induction false} RegroupPair<T>(p: seq<T>, a: seq<T>, s: seq<T>, c: seq<T>, q: seq<T>)
    ensures p + a + s + (c + q) == p + (a + s + c) + q
  {}

  lemma {:induction false} KeyPage(g: Frame, a: Tree, key: Key, c: Tree, key': Key)
    requires FrameOk(g)
    ensures g.i < |Ids(Graft(g, a, key, c).b).slots|
    ensures Ids(Graft(g, a, key', c).b) == Ids(Graft(g, a, key, c).b).SetKey(g.i, key')
  {
    GraftSetKey(g, a, key, c, key');
    IdsSetKey(Graft(g, a, key, c).b, g.i, key');
  }

  /** What the parent's page becomes under Update and under Delete, and how much it holds. */
  lemma {:induction false} SeparatorPages(w: World, fs: seq<Frame>, g: Frame, a: Tree, key: Key, c: Tree, h: nat,
                                          rest: multiset<PageId>, key': Key)
    requires Paired(w, fs, g, a, key, c, h, rest) && ShortKey(key')
    ensures FrameOk(g)
    ensures var b := Ids(Graft(g, a, key, c).b);
      && g.i < |b.slots| && b.slots[g.i].key == key
      && BranchUsed(b.slots) == BranchUsed(g.t.b.slots) + KeyCost(key)
      && PageOf(Graft(g, a, key', c)) == BranchPage(w.cur, b.SetKey(g.i, key'))
      && PageOf(SetKid(g.t, g.i, a)) == BranchPage(w.cur, b.Delete(g.i, true))
    ensures BranchUsed(g.t.b.slots) + KeyCost(key') > MAX_SPACE ==> g.t.b.slots != []
  {
    hide InStore, Wf, Plug, PathBag, Bag, FrameBag, PathWf;
    KeyPage(g, a, key, c, key');
    GraftIds(g, a, key, c);
    IdsUsed(Graft(g, a, key, c).b);
    FitsSetChild(g.t.b, g.i, a);
    FitsInsert(g.t.b.SetChild(g.i, a), g.i, key, c, true);
  }

  /** parent.Update succeeds: the tree is finished. */
  lemma {:induction false} NewKeyFits(w: World, fs: seq<Frame>, g: Frame, a: Tree, key: Key, c: Tree, h: nat,
                                      rest: multiset<PageId>, key': Key)
    returns (t: Tree)
    requires Paired(w, fs, g, a, key, c, h, rest) && Once(w.held)
    requires Wf(a, h, w.cur) && Wf(c, h, w.cur) && ShortKey(key')
    requires BranchUsed(g.t.b.slots) + KeyCost(key') <= MAX_SPACE
    ensures t == Plug(fs, Graft(g, a, key', c))
    ensures Rooted(w.(pages := w.pages[g.t.id := PageOf(Graft(g, a, key', c))]), t, h + 1 + |fs|, rest)
    ensures Flat(t) == PairFlat(fs, g, a, key', c)
  {
    hide PathBag, Bag, FrameBag, BranchUsed, PageOf, PathWf, SameOn, ShortKey, OtherBag, InStore, Wf, WeakNode, Flat,
         FramePre, FramePost, PathPre, PathPost, Once;
    var n := Graft(g, a, key', c);
    var w' := w.(pages := w.pages[g.t.id := PageOf(n)]);
    PairParent(w, fs, g, a, key, c, h, rest);
    NeighboursStay(w, w'.pages, fs, g, a, key, c, h, rest);
    RePair(w, w', fs, g, a, key, c, a, key', c, h, rest);
    WfGraft(g, a, key', c, h, w.cur);
    t := Plug(fs, n);
    WfPlug(fs, n, h + 1, w.cur);
    BagPlug(fs, n);
    BagGraft(g, a, key', c);
    FlatRise(fs, g, a, key', c);
  }

  /** A write to the parent's page leaves both neighbours. */
  lemma {:induction false} NeighboursStay(w: World, pages': map<PageId, Page>, fs: seq<Frame>, g: Frame,
                                          a: Tree, key: Key, c: Tree, h: nat, rest: multiset<PageId>)
    requires Paired(w, fs, g, a, key, c, h, rest) && Once(w.held)
    requires forall x :: x in w.held && x != g.t.id && x in w.pages ==> x in pages' && pages'[x] == w.pages[x]
    ensures InStore(pages', a) && InStore(pages', c)
    ensures SameOn(w.pages, pages', PathBag(fs)) && SameOn(w.pages, pages', OtherBag(g))
  {
    hide PathBag, Bag, BranchUsed, PageOf, PathWf, SameOn, ShortKey, OtherBag, Graft, InStore, Wf, Plug, Once, FrameBag,
         HalfWf, BranchFits;
    PairParent(w, fs, g, a, key, c, h, rest);
    FrameBagOwn(g);
    var others := rest + PathBag(fs) + OtherBag(g) + Bag(a) + Bag(c);
    WriteApart(w.pages, pages', w.held, g.t.id, others);
    SameOnPart(w.pages, pages', others, PathBag(fs));
    SameOnPart(w.pages, pages', others, OtherBag(g));
    SameOnPart(w.pages, pages', others, Bag(a));
    SameOnPart(w.pages, pages', others, Bag(c));
    InStoreFrame(w.pages, pages', a);
    InStoreFrame(w.pages, pages', c);
  }

  /** The frame of a pair as the last frame of a path, once it has a key left. */
  lemma {:induction false} PairFrameIsFrame(g: Frame, h: nat, cur: TxId)
    requires PairFrameWf(g, h, cur) && g.t.b.slots != []
    ensures FrameWf(g, h, cur)
  {}

  /** parent.Update fails: the key is deleted from the parent, and the new one rises. */
  lemma {:induction false} NewKeyRises(w: World, fs: seq<Frame>, g: Frame, a: Tree, key: Key, c: Tree, h: nat,
                                       rest: multiset<PageId>, key': Key)
    requires Paired(w, fs, g, a, key, c, h, rest) && Once(w.held)
    requires Wf(a, h, w.cur) && Wf(c, h, w.cur) && ShortKey(key') && g.t.b.slots != []
    ensures Rising(w.(pages := w.pages[g.t.id := PageOf(SetKid(g.t, g.i, a))]), fs + [g], a, key', c, h, rest)
    ensures PathOk(fs + [g]) && RisingFlat(fs + [g], a, key', c) == PairFlat(fs, g, a, key', c)
  {
    hide PathBag, Bag, FrameBag, BranchUsed, PageOf, PathWf, SameOn, ShortKey, OtherBag, InStore, Wf, WeakNode, Flat,
         FramePre, FramePost, PathPre, PathPost, Once, Plug, BranchFits;
    var n := SetKid(g.t, g.i, a);
    var w' := w.(pages := w.pages[g.t.id := PageOf(n)]);
    PairFrameIsFrame(g, h + 1, w.cur);
    PathSnoc(fs, g, a, h, w.cur);
    KeyDeleted(w, w'.pages, fs, g, a, key, c, h, rest);
    StoreNode(w, w', fs, Graft(g, a, key, c), n, h + 1);
  }

  /** The branch without its key stores its other children. */
  lemma {:induction false} KeyDeleted(w: World, pages': map<PageId, Page>, fs: seq<Frame>, g: Frame,
                                      a: Tree, key: Key, c: Tree, h: nat, rest: multiset<PageId>)
    requires Paired(w, fs, g, a, key, c, h, rest) && Once(w.held)
    requires forall x :: x in w.held && x != g.t.id && x in w.pages ==> x in pages' && pages'[x] == w.pages[x]
    ensures KidsIn(pages', SetKid(g.t, g.i, a).b) && SameOn(w.pages, pages', PathBag(fs))
    ensures InStore(pages', c)
  {
    hide Wf, BranchUsed, Bag, PathBag, OtherBag, Once, PathWf, Plug, FrameBag, BranchFits;
    NeighboursStay(w, pages', fs, g, a, key, c, h, rest);
    InStoreFocus(w.pages, fs, Graft(g, a, key, c));
    KidsOfSetKid(w.pages, pages', g, a, key, c, a);
  }

  lemma {:induction false} KidsOfSetKid(pages: map<PageId, Page>, pages': map<PageId, Page>, g: Frame,
                                        a: Tree, key: Key, c: Tree, m: Tree)
    requires FrameOk(g) && KidsIn(pages, Graft(g, a, key, c).b) && InStore(pages', m)
    requires SameOn(pages, pages', OtherBag(g))
    ensures KidsIn(pages', SetKid(g.t, g.i, m).b)
  {
    var b := SetKid(g.t, g.i, m).b;
    forall j | 0 <= j <= |b.slots| ensures InStore(pages', b.Child(j)) {
      if j != g.i {
        var k := if j < g.i then j else j + 1;
        GraftChild(g, a, key, c, k);
        assert b.Child(j) == g.t.b.Child(j) == Graft(g, a, key, c).b.Child(k);
        FrameBagOther(g, j);
        SameOnPart(pages, pages', OtherBag(g), Bag(b.Child(j)));
        InStoreFrame(pages, pages', b.Child(j));
      }
    }
  }

  // ----- merging

  /** m takes the place of a and c. */
  ghost predicate MergeOf(a: Tree, key: Key, c: Tree, m: Tree) {
    && m.id == a.id
    && ((a.Leaf? && c.Leaf? && m.Leaf?)
        || (a.Inner? && c.Inner? && m.Inner? && m.b == Join(a.b, key, c.b)))
  }

  /** Two neighbours have been merged into m; the parent's page still has the key and both children. */
  ghost predicate Merged(w: World, fs: seq<Frame>, g: Frame, m: Tree, h: nat, rest: multiset<PageId>) {
    && PairFrameWf(g, h + 1, w.cur) && Wf(m, h, w.cur)
    && g.t.id in w.held && g.t.id in w.pages && w.pages[g.t.id].BranchPage? && w.pages[g.t.id].tx == w.cur
    && g.i < |w.pages[g.t.id].b.slots|
    && w.pages[g.t.id].b.Delete(g.i, true) == Ids(SetKid(g.t, g.i, m).b)
    && Hangs(w.(pages := w.pages[g.t.id := PageOf(SetKid(g.t, g.i, m))]), fs, SetKid(g.t, g.i, m), h + 1)
    && w.held == rest + PathBag(fs) + FrameBag(g) + Bag(m)
  }

  lemma {:induction false} MergeBag(a: Tree, key: Key, c: Tree, m: Tree)
    requires MergeOf(a, key, c, m)
    ensures Bag(m) + multiset{c.id} == Bag(a) + Bag(c)
  {
    if a.Inner? {
      BagJoin(a.b, key, c.b);
      hide BagBranch, Join;
      assert Bag(m) == multiset{a.id} + (BagBranch(a.b) + BagBranch(c.b));
    }
  }

  lemma {:induction false} MergeStored(pages: map<PageId, Page>, pages': map<PageId, Page>,
                                       a: Tree, key: Key, c: Tree, m: Tree)
    requires MergeOf(a, key, c, m) && InStore(pages, a) && InStore(pages, c)
    requires a.id in pages' && pages'[a.id] == PageOf(m)
    requires SameOn(pages, pages', Bag(a) + Bag(c) - multiset{a.id})
    ensures InStore(pages', m)
  {
    hide PageOf;
    if a.Inner? {
      BagJoin(a.b, key, c.b);
      var kids := BagBranch(a.b) + BagBranch(c.b);
      assert Bag(a) + Bag(c) - multiset{a.id} == kids + multiset{c.id};
      hide Bag, BagBranch, Join;
      SameOnPart(pages, pages', kids + multiset{c.id}, kids);
      KidsJoin(a.b, key, c.b, 0, 0, pages);
      KidsInKeep(pages, pages', m.b);
    }
  }

  /** Merge: the left neighbour's page gets everything and the right one's page is freed. */
  lemma {:induction false} MergePair(w: World, fs: seq<Frame>, g: Frame, a: Tree, key: Key, c: Tree, h: nat,
                                     rest: multiset<PageId>, m: Tree)
    requires Paired(w, fs, g, a, key, c, h, rest) && Once(w.held)
    requires MergeOf(a, key, c, m) && Wf(m, h, w.cur)
    ensures Merged(w.(pages := w.pages[a.id := PageOf(m)], held := w.held - multiset{c.id}), fs, g, m, h, rest)
  {
    hide PathBag, Bag, FrameBag, BranchUsed, PageOf, PathWf, Once, SameOn, ShortKey, OtherBag, InStore, Wf,
         WeakNode, Plug, MergeOf, PairFrameWf, IdSlots, KidsIn, BranchFits;
    PairParent(w, fs, g, a, key, c, h, rest);
    MergePages(w, fs, g, a, key, c, h, rest, m);
    var pages' := w.pages[a.id := PageOf(m)][g.t.id := PageOf(SetKid(g.t, g.i, m))];
    StoreNode(w, w.(pages := pages'), fs, Graft(g, a, key, c), SetKid(g.t, g.i, m), h + 1);
    MergeBag(a, key, c, m);
    assert w.held == rest + PathBag(fs) + FrameBag(g) + (Bag(m) + multiset{c.id});
    PairIdsApart(w.held, rest + PathBag(fs), g, a, c);
    GraftIds(g, a, key, c);
    IdsSetChild(g.t.b, g.i, a);
    IdsSetChild(g.t.b, g.i, m);
    assert m.id == a.id by { MergeId(a, key, c, m); }
  }

  lemma {:induction false} MergeId(a: Tree, key: Key, c: Tree, m: Tree)
    requires MergeOf(a, key, c, m)
    ensures m.id == a.id
  {}

  lemma {:induction false} MergeApart(w: World, pages': map<PageId, Page>, fs: seq<Frame>, g: Frame, a: Tree, c: Tree,
                                      rest: multiset<PageId>)
    requires PathOk(fs) && FrameOk(g) && Once(w.held)
    requires w.held == rest + PathBag(fs) + FrameBag(g) + Bag(a) + Bag(c)
    requires forall x :: x in w.held && x != g.t.id && x != a.id && x in w.pages ==>
               x in pages' && pages'[x] == w.pages[x]
    ensures SameOn(w.pages, pages', Bag(a) + Bag(c) - multiset{a.id})
    ensures g.t.id != a.id
  {
    hide PathBag, Bag, FrameBag, SameOn, OtherBag, Once;
    FrameBagOwn(g);
    BagHasId(a);
    var others := rest + PathBag(fs) + OtherBag(g);
    var mine := Bag(a) + Bag(c) - multiset{a.id};
    assert Bag(a) + Bag(c) == mine + multiset{a.id};
    assert w.held == multiset{g.t.id} + multiset{a.id} + (others + mine);
    TwoApart(w.pages, pages', w.held, g.t.id, a.id, others + mine);
    SameOnPart(w.pages, pages', others + mine, mine);
    PairIdsApart(w.held, rest + PathBag(fs), g, a, c);
  }

  lemma {:induction false} MergePages(w: World, fs: seq<Frame>, g: Frame, a: Tree, key: Key, c: Tree, h: nat,
                                      rest: multiset<PageId>, m: Tree)
    requires Paired(w, fs, g, a, key, c, h, rest) && Once(w.held) && MergeOf(a, key, c, m)
    ensures FrameOk(g) && PathOk(fs)
    ensures var pages' := w.pages[a.id := PageOf(m)][g.t.id := PageOf(SetKid(g.t, g.i, m))];
      KidsIn(pages', SetKid(g.t, g.i, m).b) && SameOn(w.pages, pages', PathBag(fs))
  {
    hide PathBag, Bag, FrameBag, BranchUsed, PageOf, PathWf, SameOn, ShortKey, OtherBag, Wf, Graft, InStore, KidsIn,
         WeakNode, Plug, MergeOf, Ids, BranchFits, Once;
    var pages' := w.pages[a.id := PageOf(m)][g.t.id := PageOf(SetKid(g.t, g.i, m))];
    PairParent(w, fs, g, a, key, c, h, rest);
    PairApart(w, pages', fs, g, a, c, rest);
    MergeApart(w, pages', fs, g, a, c, rest);
    MergeStored(w.pages, pages', a, key, c, m);
    InStoreFocus(w.pages, fs, Graft(g, a, key, c));
    GraftKids(w.pages, g, a, key, c);
    KidsOfSetKid(w.pages, pages', g, a, key, c, m);
  }

  lemma {:induction false} GraftKids(pages: map<PageId, Page>, g: Frame, a: Tree, key: Key, c: Tree)
    requires FrameOk(g) && InStore(pages, Graft(g, a, key, c))
    ensures KidsIn(pages, Graft(g, a, key, c).b)
  {}

  lemma {:induction false} TwoApart(pages: map<PageId, Page>, pages': map<PageId, Page>, held: multiset<PageId>,
                                    x: PageId, y: PageId, others: multiset<PageId>)
    requires Once(held) && held == multiset{x} + multiset{y} + others
    requires forall z :: z in held && z != x && z != y && z in pages ==> z in pages' && pages'[z] == pages[z]
    ensures SameOn(pages, pages', others)
  {
    OncePart(multiset{x} + multiset{y}, others);
    forall z | z in others ensures z in held && z != x && z != y { assert held[z] >= others[z] > 0; }
  }

  /** The parent drops the key and the right child. */
  lemma {:induction false} DropKey(w: World, fs: seq<Frame>, g: Frame, m: Tree, h: nat, rest: multiset<PageId>)
    requires Merged(w, fs, g, m, h, rest)
    ensures Weak(w.(pages := w.pages[g.t.id := BranchPage(w.cur, w.pages[g.t.id].b.Delete(g.i, true))]),
                 fs, SetKid(g.t, g.i, m), h + 1, rest)
  {
    hide PathBag, FrameBag, Bag, InStore, Plug, PathWf, BranchUsed, Wf;
    BagSetKid(g, m);
    FitsSetChild(g.t.b, g.i, m);
    var b := SetKid(g.t, g.i, m).b;
    forall j | 0 <= j <= |b.slots| ensures Wf(b.Child(j), h, w.cur) {
      assert b.Child(j) == if j == g.i then m else g.t.b.Child(j);
    }
  }

  /** A root without a key: its only child becomes the root. */
  lemma {:induction false} Collapse(w: World, n: Tree, h: nat, rest: multiset<PageId>)
    requires Weak(w, [], n, h, rest) && n.Inner? && n.b.slots == []
    ensures h > 0 && n.id in w.held
    ensures n.id in w.pages && w.pages[n.id] == BranchPage(w.cur, Branch([], n.b.tail.id))
    ensures Rooted(w.(root := n.b.tail.id, held := w.held - multiset{n.id}), n.b.tail, h - 1, rest)
    ensures Flat(n) == Flat(n.b.tail)
  {
    assert n.b.Child(0) == n.b.tail;
    assert Ids(n.b).slots == [];
    assert FlatSlots(n.b.slots) == [] && BagSlots(n.b.slots) == multiset{};
    assert Flat(n) == [] + Flat(n.b.tail);
    assert Bag(n) == multiset{n.id} + Bag(n.b.tail);
  }

  /** What a weak node's page holds. */
  lemma {:induction false} WeakPage(w: World, fs: seq<Frame>, n: Tree, h: nat, rest: multiset<PageId>)
    requires Weak(w, fs, n, h, rest)
    ensures n.id in w.held && n.id in w.pages && w.pages[n.id] == PageOf(n) && n.tx == w.cur
    ensures n.Inner? ==> BranchUsed(Ids(n.b).slots) == BranchUsed(n.b.slots)
    ensures n.Inner? && n.b.slots == [] ==> BranchUsed(n.b.slots) == 0
    ensures n.Leaf? && n.recs == [] ==> LeafUsed(n.recs) == 0
  {
    hide PathBag, Bag, Plug, PathWf, Wf;
    InStoreFocus(w.pages, fs, n);
    BagHasId(n);
    if n.Inner? { IdsUsed(n.b); }
  }

  /** What the page of a merged pair's parent still holds. */
  lemma {:induction false} MergedPage(w: World, fs: seq<Frame>, g: Frame, m: Tree, h: nat, rest: multiset<PageId>)
    requires Merged(w, fs, g, m, h, rest)
    ensures FrameOk(g) && g.t.id in w.held && g.t.id in w.pages
    ensures w.pages[g.t.id].BranchPage? && w.pages[g.t.id].tx == w.cur && g.i < |w.pages[g.t.id].b.slots|
  {}

  /** The tree above a merged branch reads as above the pair it was. */
  lemma {:induction false} MergedFlat(fs: seq<Frame>, g: Frame, a: Tree, key: Key, c: Tree, m: Tree)
    requires PathOk(fs) && FrameOk(g) && Flat(m) == Flat(a) + [Sep(key)] + Flat(c)
    ensures PathPre(fs) + Flat(SetKid(g.t, g.i, m)) + PathPost(fs) == PairFlat(fs, g, a, key, c)
  {
    hide Flat, PathPre, PathPost, FramePre, FramePost, SetKid;
    FlatSetKid(g, m);
    Regroup(PathPre(fs), FramePre(g), Flat(m), FramePost(g), PathPost(fs));
    RegroupPair(PathPre(fs) + FramePre(g), Flat(a), [Sep(key)], Flat(c), FramePost(g) + PathPost(fs));
  }

  /** Two neighbours are both leaves at height 0 and both branches above. */
  lemma {:induction false} SameKind(w: World, fs: seq<Frame>, g: Frame, a: Tree, key: Key, c: Tree, h: nat,
                                    rest: multiset<PageId>)
    requires Paired(w, fs, g, a, key, c, h, rest)
    ensures a.Inner? == c.Inner? == (h > 0)
  {
    hide InStore, Plug, PathBag, Bag, FrameBag, PathWf, BranchFits, LeafFits;
  }
}
