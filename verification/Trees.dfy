/** The tree a root page denotes, as a value: its records in order, its pages, and its well-formedness. */
module Trees {
  import opened Order
  import opened Nodes

  /** What a page of the file holds. */
  datatype Page =
    | LeafPage(tx: TxId, recs: seq<Rec>)
    | BranchPage(tx: TxId, b: Branch<PageId>)
    | ListPage(pairs: seq<PagePair>)   // first page of a saved free list

  datatype Tree =
    | Leaf(id: PageId, tx: TxId, recs: seq<Rec>)
    | Inner(id: PageId, tx: TxId, b: Branch<Tree>)

  function IdSlots(s: seq<Slot<Tree>>): (r: seq<Slot<PageId>>)
    ensures |r| == |s|
  {
    seq(|s|, i requires 0 <= i < |s| => Slot(s[i].left.id, s[i].key))
  }

  /** The same branch with page ids for children. */
  function Ids(b: Branch<Tree>): Branch<PageId> {
    Branch(IdSlots(b.slots), b.tail.id)
  }

  /** The page of the root node of a tree. */
  function PageOf(t: Tree): Page {
    match t
    case Leaf(_, tx, recs) => LeafPage(tx, recs)
    case Inner(_, tx, b) => BranchPage(tx, Ids(b))
  }

  /** Every node of t is stored at its page id. */
  ghost predicate InStore(pages: map<PageId, Page>, t: Tree) {
    && t.id in pages && pages[t.id] == PageOf(t)
    && (t.Inner? ==> forall i :: 0 <= i <= |t.b.slots| ==> InStore(pages, t.b.Child(i)))
  }

  /** The pages of a bag are the same in both stores. */
  ghost predicate SameOn(pages: map<PageId, Page>, pages': map<PageId, Page>, ids: multiset<PageId>) {
    forall id :: id in ids && id in pages ==> id in pages' && pages'[id] == pages[id]
  }

  lemma {:induction false} SameOnPart(pages: map<PageId, Page>, pages': map<PageId, Page>,
                                      ids: multiset<PageId>, part: multiset<PageId>)
    requires SameOn(pages, pages', ids) && part <= ids
    ensures SameOn(pages, pages', part)
  {
    forall id | id in part ensures id in ids { assert ids[id] >= part[id] > 0; }
  }

  // ----- order

  /** A separator key of a branch, or a record of a leaf. */
  datatype Tok = Sep(key: Key) | Item(rec: Rec)

  function TokKey(x: Tok): Key { if x.Sep? then x.key else x.rec.key }

  function Items(recs: seq<Rec>): (r: seq<Tok>)
    ensures |r| == |recs|
  {
    seq(|recs|, i requires 0 <= i < |recs| => Item(recs[i]))
  }

  /** The separators and records of a tree from left to right. */
  function Flat(t: Tree): seq<Tok> {
    match t
    case Leaf(_, _, recs) => Items(recs)
    case Inner(_, _, b) => FlatBranch(b)
  }

  function FlatBranch(b: Branch<Tree>): seq<Tok> {
    FlatSlots(b.slots) + Flat(b.tail)
  }

  function FlatSlots(s: seq<Slot<Tree>>): seq<Tok> {
    if s == [] then []
    else FlatSlots(s[..|s| - 1]) + Flat(s[|s| - 1].left) + [Sep(s[|s| - 1].key)]
  }

  /** x may stand somewhere left of y: a separator may equal a key to its right, nothing else is equal. */
  predicate TokLt(x: Tok, y: Tok) {
    if x.Sep? && y.Item? then Le(x.key, y.rec.key) else Lt(TokKey(x), TokKey(y))
  }

  /** Strictly sorted nodes, and child i's keys and separators in [k_{i-1}, k_i). */
  ghost predicate Ordered(s: seq<Tok>) {
    forall i, j :: 0 <= i < j < |s| ==> TokLt(s[i], s[j])
  }

  /** x belongs left of the place where k is searched. */
  predicate Below(x: Tok, k: Key) { if x.Sep? then Le(x.key, k) else Lt(x.rec.key, k) }

  predicate Above(x: Tok, k: Key) { Lt(k, TokKey(x)) }

  ghost predicate AllBelow(s: seq<Tok>, k: Key) { forall i :: 0 <= i < |s| ==> Below(s[i], k) }

  ghost predicate AllAbove(s: seq<Tok>, k: Key) { forall i :: 0 <= i < |s| ==> Above(s[i], k) }

  /** The records of a token sequence. */
  function RecsOf(s: seq<Tok>): seq<Rec> {
    if s == [] then []
    else RecsOf(s[..|s| - 1]) + if s[|s| - 1].Item? then [s[|s| - 1].rec] else []
  }

  /** The ordered map a token sequence denotes. */
  function MapOf(s: seq<Tok>): map<Key, Value> {
    if s == [] then map[]
    else
      var m, x := MapOf(s[..|s| - 1]), s[|s| - 1];
      if x.Item? then m[x.rec.key := x.rec.value] else m
  }

  // ----- pages

  /** The page ids of a tree, with multiplicity. */
  function Bag(t: Tree): multiset<PageId> {
    match t
    case Leaf(id, _, _) => multiset{id}
    case Inner(id, _, b) => multiset{id} + BagBranch(b)
  }

  function BagBranch(b: Branch<Tree>): multiset<PageId> {
    BagSlots(b.slots) + Bag(b.tail)
  }

  function BagSlots(s: seq<Slot<Tree>>): multiset<PageId> {
    if s == [] then multiset{} else BagSlots(s[..|s| - 1]) + Bag(s[|s| - 1].left)
  }

  // ----- shape

  /**
   * All leaves at depth h, no empty node, nodes within their page, and transaction ids that
   * never increase from parent to child, starting at most at cap.
   */
  ghost predicate Wf(t: Tree, h: nat, cap: TxId) {
    && t.tx <= cap
    && match t
       case Leaf(_, _, recs) => h == 0 && recs != [] && LeafFits(recs)
       case Inner(_, tx, b) =>
         && h > 0 && b.slots != [] && BranchFits(b.slots)
         && forall i :: 0 <= i <= |b.slots| ==> Wf(b.Child(i), h - 1, tx)
  }

  /** A root may also be an empty leaf. */
  ghost predicate WfRoot(t: Tree, h: nat, cap: TxId) {
    Wf(t, h, cap) || (t.Leaf? && h == 0 && t.recs == [] && t.tx <= cap)
  }

  // ----- paths

  /** A branch and the index of the child the path goes through. */
  datatype Frame = Frame(t: Tree, i: nat)

  ghost predicate FrameOk(f: Frame) { f.t.Inner? && f.i <= |f.t.b.slots| }

  ghost predicate PathOk(fs: seq<Frame>) { forall j :: 0 <= j < |fs| ==> FrameOk(fs[j]) }

  function SetKid(t: Tree, i: nat, c: Tree): Tree
    requires t.Inner? && i <= |t.b.slots|
  {
    Inner(t.id, t.tx, t.b.SetChild(i, c))
  }

  /** The whole tree: t hung below the last frame, that below the one before, and so on. */
  ghost function Plug(fs: seq<Frame>, t: Tree): Tree
    requires PathOk(fs)
  {
    if fs == [] then t else Plug(fs[..|fs| - 1], SetKid(fs[|fs| - 1].t, fs[|fs| - 1].i, t))
  }

  function FramePre(f: Frame): seq<Tok>
    requires FrameOk(f)
  {
    FlatSlots(f.t.b.slots[..f.i])
  }

  function FramePost(f: Frame): seq<Tok>
    requires FrameOk(f)
  {
    var b := f.t.b;
    if f.i == |b.slots| then [] else [Sep(b.slots[f.i].key)] + FlatSlots(b.slots[f.i + 1..]) + Flat(b.tail)
  }

  function FrameBag(f: Frame): multiset<PageId>
    requires FrameOk(f)
  {
    var b := f.t.b;
    multiset{f.t.id} + BagSlots(b.slots[..f.i]) +
    if f.i == |b.slots| then multiset{} else BagSlots(b.slots[f.i + 1..]) + Bag(b.tail)
  }

  function PathPre(fs: seq<Frame>): seq<Tok>
    requires PathOk(fs)
  {
    if fs == [] then [] else PathPre(fs[..|fs| - 1]) + FramePre(fs[|fs| - 1])
  }

  function PathPost(fs: seq<Frame>): seq<Tok>
    requires PathOk(fs)
  {
    if fs == [] then [] else FramePost(fs[|fs| - 1]) + PathPost(fs[..|fs| - 1])
  }

  function PathBag(fs: seq<Frame>): multiset<PageId>
    requires PathOk(fs)
  {
    if fs == [] then multiset{} else PathBag(fs[..|fs| - 1]) + FrameBag(fs[|fs| - 1])
  }

  /** A branch of transaction cur at height h whose children, but for the one on the path, are well-formed. */
  ghost predicate FrameWf(f: Frame, h: nat, cur: TxId) {
    && FrameOk(f) && h > 0 && f.t.tx == cur
    && f.t.b.slots != [] && BranchFits(f.t.b.slots)
    && forall i :: 0 <= i <= |f.t.b.slots| && i != f.i ==> Wf(f.t.b.Child(i), h - 1, cur)
  }

  /** Frames above a subtree of height h. */
  ghost predicate PathWf(fs: seq<Frame>, h: nat, cur: TxId) {
    forall j :: 0 <= j < |fs| ==> FrameWf(fs[j], h + |fs| - j, cur)
  }

  // ----- lemmas

  lemma {:induction false} FlatSlotsConcat(a: seq<Slot<Tree>>, b: seq<Slot<Tree>>)
    ensures FlatSlots(a + b) == FlatSlots(a) + FlatSlots(b)
  {
    hide Flat;
    if b == [] {
      assert a + b == a;
    } else {
      FlatSlotsConcat(a, b[..|b| - 1]);
      assert (a + b)[..|a + b| - 1] == a + b[..|b| - 1];
    }
  }

  lemma {:induction false} BagSlotsConcat(a: seq<Slot<Tree>>, b: seq<Slot<Tree>>)
    ensures BagSlots(a + b) == BagSlots(a) + BagSlots(b)
  {
    hide Bag;
    if b == [] {
      assert a + b == a;
    } else {
      BagSlotsConcat(a, b[..|b| - 1]);
      assert (a + b)[..|a + b| - 1] == a + b[..|b| - 1];
    }
  }

  lemma {:induction false} FlatSlotsOne(s: Slot<Tree>)
    ensures FlatSlots([s]) == Flat(s.left) + [Sep(s.key)]
  {
    assert [s][..0] == [];
  }

  lemma {:induction false} BagSlotsOne(s: Slot<Tree>)
    ensures BagSlots([s]) == Bag(s.left)
  {
    assert [s][..0] == [];
  }

  lemma {:induction false} Regroup<T>(a: seq<T>, b: seq<T>, c: seq<T>, d: seq<T>, e: seq<T>)
    ensures a + (b + c + d) + e == (a + b) + c + (d + e)
  {}

  /** A branch with another child in place reads as what is left of it, the child, what is right of it. */
  lemma {:induction false} FlatSetKid(f: Frame, c: Tree)
    requires FrameOk(f)
    ensures Flat(SetKid(f.t, f.i, c)) == FramePre(f) + Flat(c) + FramePost(f)
  {
    var b := f.t.b;
    if f.i < |b.slots| {
      var s := Slot(c, b.slots[f.i].key);
      assert b.slots[f.i := s] == b.slots[..f.i] + ([s] + b.slots[f.i + 1..]);
      FlatSlotsConcat(b.slots[..f.i], [s] + b.slots[f.i + 1..]);
      FlatSlotsConcat([s], b.slots[f.i + 1..]);
      FlatSlotsOne(s);
      var p, q := FlatSlots(b.slots[..f.i]), FlatSlots(b.slots[f.i + 1..]);
      assert Flat(SetKid(f.t, f.i, c)) == p + (Flat(c) + [Sep(s.key)] + q) + Flat(b.tail);
      hide FlatSlots, Flat;
      RegroupKid(p, Flat(c), [Sep(s.key)], q, Flat(b.tail));
    } else {
      assert b.slots[..f.i] == b.slots;
    }
  }

  lemma {:induction false} RegroupKid<T>(p: seq<T>, x: seq<T>, k: seq<T>, q: seq<T>, z: seq<T>)
    ensures p + (x + k + q) + z == p + x + (k + q + z)
  {}

  lemma {:induction false} BagSetKid(f: Frame, c: Tree)
    requires FrameOk(f)
    ensures Bag(SetKid(f.t, f.i, c)) == FrameBag(f) + Bag(c)
  {
    var b := f.t.b;
    if f.i < |b.slots| {
      var s := Slot(c, b.slots[f.i].key);
      assert b.slots[f.i := s] == b.slots[..f.i] + ([s] + b.slots[f.i + 1..]);
      BagSlotsConcat(b.slots[..f.i], [s] + b.slots[f.i + 1..]);
      BagSlotsConcat([s], b.slots[f.i + 1..]);
      BagSlotsOne(s);
    } else {
      assert b.slots[..f.i] == b.slots;
    }
  }

  lemma {:induction false} SetKidSame(t: Tree, i: nat)
    requires t.Inner? && i <= |t.b.slots|
    ensures SetKid(t, i, t.b.Child(i)) == t
  {
    if i < |t.b.slots| {
      assert t.b.slots[i := Slot(t.b.Child(i), t.b.slots[i].key)] == t.b.slots;
    }
  }

  lemma {:induction false} FlatPlug(fs: seq<Frame>, t: Tree)
    requires PathOk(fs)
    ensures Flat(Plug(fs, t)) == PathPre(fs) + Flat(t) + PathPost(fs)
  {
    if fs != [] {
      var f := fs[|fs| - 1];
      var init := fs[..|fs| - 1];
      FlatSetKid(f, t);
      FlatPlug(init, SetKid(f.t, f.i, t));
      Regroup(PathPre(init), FramePre(f), Flat(t), FramePost(f), PathPost(init));
    }
  }

  lemma {:induction false} BagPlug(fs: seq<Frame>, t: Tree)
    requires PathOk(fs)
    ensures Bag(Plug(fs, t)) == PathBag(fs) + Bag(t)
  {
    if fs != [] {
      var f := fs[|fs| - 1];
      BagSetKid(f, t);
      BagPlug(fs[..|fs| - 1], SetKid(f.t, f.i, t));
    }
  }

  lemma {:induction false} WfWeaken(t: Tree, h: nat, cap: TxId, cap': TxId)
    requires Wf(t, h, cap) && cap <= cap'
    ensures Wf(t, h, cap')
  {}

  lemma {:induction false} WfSetKid(f: Frame, c: Tree, h: nat, cur: TxId)
    requires FrameWf(f, h + 1, cur) && Wf(c, h, cur)
    ensures Wf(SetKid(f.t, f.i, c), h + 1, cur)
  {
    var n := f.t.b.SetChild(f.i, c);
    BranchUsedSetChild(f.t.b, f.i, c);
    forall i | 0 <= i <= |n.slots| ensures Wf(n.Child(i), h, cur) {
      assert n.Child(i) == if i == f.i then c else f.t.b.Child(i);
    }
  }

  lemma {:induction false} WfPlug(fs: seq<Frame>, t: Tree, h: nat, cur: TxId)
    requires PathWf(fs, h, cur) && Wf(t, h, cur)
    ensures PathOk(fs)
    ensures Wf(Plug(fs, t), h + |fs|, cur)
  {
    if fs != [] {
      var n := |fs| - 1;
      WfSetKid(fs[n], t, h, cur);
      forall j | 0 <= j < n ensures FrameWf(fs[..n][j], h + 1 + n - j, cur) {
        assert fs[..n][j] == fs[j];
      }
      WfPlug(fs[..n], SetKid(fs[n].t, fs[n].i, t), h + 1, cur);
    }
  }

  /** The subtree at the end of a stored path is stored. */
  lemma {:induction false} InStoreFocus(pages: map<PageId, Page>, fs: seq<Frame>, t: Tree)
    requires PathOk(fs) && InStore(pages, Plug(fs, t))
    ensures InStore(pages, t)
  {
    if fs != [] {
      var f := fs[|fs| - 1];
      var p := SetKid(f.t, f.i, t);
      InStoreFocus(pages, fs[..|fs| - 1], p);
      assert p.b.Child(f.i) == t;
    }
  }

  /** A child's pages are among its parent's. */
  lemma {:induction false} BagChild(t: Tree, i: nat)
    requires t.Inner? && i <= |t.b.slots|
    ensures multiset{t.id} + Bag(t.b.Child(i)) <= Bag(t)
  {
    SetKidSame(t, i);
    BagSetKid(Frame(t, i), t.b.Child(i));
  }

  lemma {:induction false} BagHasId(t: Tree)
    ensures t.id in Bag(t)
  {}

  /** A tree does not notice changes to pages that are not its own. */
  lemma {:induction false} InStoreFrame(pages: map<PageId, Page>, pages': map<PageId, Page>, t: Tree)
    requires InStore(pages, t)
    requires SameOn(pages, pages', Bag(t))
    ensures InStore(pages', t)
  {
    BagHasId(t);
    if t.Inner? {
      forall i | 0 <= i <= |t.b.slots| ensures InStore(pages', t.b.Child(i)) {
        BagChild(t, i);
        SameOnPart(pages, pages', Bag(t), Bag(t.b.Child(i)));
        InStoreFrame(pages, pages', t.b.Child(i));
      }
    }
  }

  /** Putting another child in place and taking page ids commute. */
  lemma {:induction false} IdsSetChild(b: Branch<Tree>, i: nat, c: Tree)
    requires i <= |b.slots|
    ensures Ids(b.SetChild(i, c)) == Ids(b).SetChild(i, c.id)
  {
    assert IdSlots(b.SetChild(i, c).slots) == Ids(b).SetChild(i, c.id).slots;
  }

  /** Replacing the subtree at the end of a path by another at the same page id. */
  lemma {:induction false} InStoreReplace(pages: map<PageId, Page>, pages': map<PageId, Page>,
                                          fs: seq<Frame>, t: Tree, t': Tree)
    requires PathOk(fs) && InStore(pages, Plug(fs, t))
    requires InStore(pages', t') && t'.id == t.id
    requires SameOn(pages, pages', PathBag(fs))
    ensures InStore(pages', Plug(fs, t'))
  {
    if fs != [] {
      var n := |fs| - 1;
      var f := fs[n];
      var p, p' := SetKid(f.t, f.i, t), SetKid(f.t, f.i, t');
      InStoreFocus(pages, fs[..n], p);
      IdsSetChild(f.t.b, f.i, t);
      IdsSetChild(f.t.b, f.i, t');
      forall i | 0 <= i <= |p'.b.slots| ensures InStore(pages', p'.b.Child(i)) {
        if i == f.i {
          assert p'.b.Child(i) == t';
        } else {
          assert p'.b.Child(i) == p.b.Child(i) == f.t.b.Child(i);
          FrameBagOther(f, i);
          FrameBagOwn(f);
          SameOnPart(pages, pages', PathBag(fs), Bag(p.b.Child(i)));
          InStoreFrame(pages, pages', p.b.Child(i));
        }
      }
      SameOnPart(pages, pages', PathBag(fs), PathBag(fs[..n]));
      InStoreReplace(pages, pages', fs[..n], p, p');
    }
  }

  lemma {:induction false} BagSlotsMember(s: seq<Slot<Tree>>, i: nat)
    requires i < |s|
    ensures Bag(s[i].left) <= BagSlots(s)
  {
    assert s == s[..i] + ([s[i]] + s[i + 1..]);
    BagSlotsConcat(s[..i], [s[i]] + s[i + 1..]);
    BagSlotsConcat([s[i]], s[i + 1..]);
    BagSlotsOne(s[i]);
  }

  /** The pages of a frame but its own. */
  function OtherBag(f: Frame): multiset<PageId>
    requires FrameOk(f)
  {
    var b := f.t.b;
    BagSlots(b.slots[..f.i]) +
    if f.i == |b.slots| then multiset{} else BagSlots(b.slots[f.i + 1..]) + Bag(b.tail)
  }

  lemma {:induction false} FrameBagOwn(f: Frame)
    requires FrameOk(f)
    ensures FrameBag(f) == multiset{f.t.id} + OtherBag(f)
  {}

  lemma {:induction false} FrameBagOther(f: Frame, i: nat)
    requires FrameOk(f) && i <= |f.t.b.slots| && i != f.i
    ensures Bag(f.t.b.Child(i)) <= OtherBag(f)
  {
    var s := f.t.b.slots;
    if i < f.i {
      BagSlotsMember(s[..f.i], i);
    } else if i < |s| {
      BagSlotsMember(s[f.i + 1..], i - f.i - 1);
    }
  }
}
