/** The tree that an insertion or a deletion leads to, step by step, up to the ids of the pages it takes. */
module Shapes {
  import opened Order
  import opened Nodes
  import opened NodeMoves
  import opened Trees
  import opened Zipper
  import opened Shrinks
  import opened Balance
  import opened Searching
  import opened Paths

  // ----- insertion

  /** What is left of key n of a branch, and what is right of it. */
  function LowerPart<C>(b: Branch<C>, n: nat): Branch<C>
    requires n < |b.slots|
  {
    Branch(b.slots[..n], b.slots[n].left)
  }

  function UpperPart<C>(b: Branch<C>, n: nat): Branch<C>
    requires n < |b.slots|
  {
    Branch(b.slots[n + 1..], b.tail)
  }

  predicate HasRoom(t: Tree, key: Key)
    requires t.Inner?
  {
    BranchUsed(t.b.slots) + KeyCost(key) <= MAX_SPACE
  }

  /** The branch of f with rt entered right of lt is cut; lt' and rt' are the parts, up is the key between them. */
  ghost predicate CutInTwo(f: Frame, lt: Tree, key: Key, rt: Tree, cur: TxId, lt': Tree, up: Key, rt': Tree)
    requires FrameOk(f)
  {
    var b, n := Graft(f, lt, key, rt).b, BranchCut(f.t.b.slots, f.i, key);
    && n < |b.slots| && up == b.slots[n].key
    && lt' == Inner(f.t.id, cur, LowerPart(b, n)) && rt' == Inner(rt'.id, cur, UpperPart(b, n))
  }

  /**
   * rt was entered with its key next to lt, the node at the end of the path. The first branch upward that has room
   * takes it, and nothing else changes; branches without room are cut; there is a new root only above a cut root.
   */
  ghost predicate Risen(t: Tree, fs: seq<Frame>, lt: Tree, key: Key, rt: Tree, cur: TxId)
    requires PathOk(fs)
    decreases |fs|
  {
    if fs == [] then t.Inner? && t.tx == cur && t.b == Branch([Slot(lt, key)], rt)
    else
      var init, f := fs[..|fs| - 1], fs[|fs| - 1];
      if HasRoom(f.t, key) then t == Plug(init, Graft(f, lt, key, rt))
      else exists lt', up, rt' :: CutInTwo(f, lt, key, rt, cur, lt', up, rt') && Risen(t, init, lt', up, rt', cur)
  }

  lemma {:induction false} RisenHere(t: Tree, fs: seq<Frame>, lt: Tree, key: Key, rt: Tree, cur: TxId)
    requires PathOk(fs) && fs != [] && HasRoom(fs[|fs| - 1].t, key)
    requires t == Plug(fs[..|fs| - 1], Graft(fs[|fs| - 1], lt, key, rt))
    ensures Risen(t, fs, lt, key, rt, cur)
  {}

  lemma {:induction false} RisenAbove(t: Tree, fs: seq<Frame>, lt: Tree, key: Key, rt: Tree, cur: TxId, lt': Tree,
                                      up: Key, rt': Tree)
    requires PathOk(fs) && fs != [] && !HasRoom(fs[|fs| - 1].t, key)
    requires CutInTwo(fs[|fs| - 1], lt, key, rt, cur, lt', up, rt') && Risen(t, fs[..|fs| - 1], lt', up, rt', cur)
    ensures Risen(t, fs, lt, key, rt, cur)
  {}

  lemma {:induction false} CutByKeys<C, D>(a: seq<Slot<C>>, b: seq<Slot<D>>, i: nat, key: Key)
    requires |a| == |b| && forall j :: 0 <= j < |a| ==> a[j].key == b[j].key
    ensures BranchCut(a, i, key) == BranchCut(b, i, key)
  {
    SplitPointByKeys(a, b);
    var n := SplitPoint(a);
    BranchUsedByKeys(a[n..], b[n..]);
  }

  /** A branch is cut in one way at a given key. */
  lemma {:induction false} PartsOf<C>(w: Branch<C>, l: Branch<C>, up: Key, r: Branch<C>)
    requires Join(l, up, r) == w
    ensures var n := |l.slots|; n < |w.slots| && up == w.slots[n].key && l == LowerPart(w, n) && r == UpperPart(w, n)
  {}

  /** The halves the code writes are the parts. */
  lemma {:induction false} HalvesAreParts(f: Frame, lt: Tree, key: Key, rt: Tree, cur: TxId, lt': Tree, up: Key,
                                          rt': Tree, slots: seq<Slot<PageId>>)
    requires FrameOk(f) && slots == Ids(SetKid(f.t, f.i, lt).b).slots
    requires lt'.Inner? && rt'.Inner? && lt'.id == f.t.id && lt'.tx == rt'.tx == cur
    requires Join(lt'.b, up, rt'.b) == Graft(f, lt, key, rt).b && |lt'.b.slots| == BranchCut(slots, f.i, key)
    ensures CutInTwo(f, lt, key, rt, cur, lt', up, rt')
  {
    assert forall j :: 0 <= j < |slots| ==> slots[j].key == f.t.b.slots[j].key;
    CutByKeys(slots, f.t.b.slots, f.i, key);
    hide BranchCut, Graft, Join;
    PartsOf(Graft(f, lt, key, rt).b, lt'.b, up, rt'.b);
  }

  /** A full leaf with its new record is cut, and the upper part rises with its first key. */
  ghost predicate LeafCutInTwo(n: Tree, pos: nat, r: Rec, lt: Tree, up: Key, rt: Tree)
    requires n.Leaf? && pos <= |n.recs|
  {
    var all, k := InsertAt(n.recs, pos, r), LeafCut(n.recs, pos, r);
    && k < |all| && up == all[k].key
    && lt == Leaf(n.id, n.tx, all[..k]) && rt == Leaf(rt.id, n.tx, all[k..])
  }

  lemma {:induction false} LeafHalves(n: Tree, pos: nat, r: Rec, left: seq<Rec>, right: seq<Rec>, rid: PageId)
    requires n.Leaf? && pos <= |n.recs| && left + right == InsertAt(n.recs, pos, r) && right != []
    requires |left| == LeafCut(n.recs, pos, r)
    ensures LeafCutInTwo(n, pos, r, Leaf(n.id, n.tx, left), right[0].key, Leaf(rid, n.tx, right))
  {
    hide LeafCut, InsertAt;
  }

  /**
   * The record was put at its place in the leaf at the end of the path: an equal key has its value replaced if there
   * is room and otherwise keeps it; a new one is inserted if there is room, and only otherwise the leaf is cut.
   */
  ghost predicate Entered(t: Tree, fs: seq<Frame>, n: Tree, pos: nat, r: Rec, cur: TxId)
    requires PathOk(fs) && n.Leaf? && pos <= |n.recs|
  {
    if pos < |n.recs| && n.recs[pos].key == r.key then
      t == Plug(fs, if RoomFor(n.recs, pos, r) then Leaf(n.id, n.tx, n.recs[pos := r]) else n)
    else if LeafUsed(n.recs) + RecCost(r) <= MAX_SPACE then
      t == Plug(fs, Leaf(n.id, n.tx, InsertAt(n.recs, pos, r)))
    else
      exists lt, up, rt :: LeafCutInTwo(n, pos, r, lt, up, rt) && Risen(t, fs, lt, up, rt, cur)
  }

  lemma {:induction false} EnteredAbove(t: Tree, fs: seq<Frame>, n: Tree, pos: nat, r: Rec, cur: TxId,
                                        lt: Tree, up: Key, rt: Tree)
    requires PathOk(fs) && n.Leaf? && pos <= |n.recs| && (pos == |n.recs| || n.recs[pos].key != r.key)
    requires LeafUsed(n.recs) + RecCost(r) > MAX_SPACE
    requires LeafCutInTwo(n, pos, r, lt, up, rt) && Risen(t, fs, lt, up, rt, cur)
    ensures Entered(t, fs, n, pos, r, cur)
  {}

  // ----- deletion

  function NodeUsed(t: Tree): nat { if t.Leaf? then LeafUsed(t.recs) else BranchUsed(t.b.slots) }

  function NodeCount(t: Tree): nat { if t.Leaf? then |t.recs| else |t.b.slots| }

  /** At least 40% full. */
  predicate Filled(t: Tree) { FillAtLeast40(NodeUsed(t)) }

  /** More than half full, with two records or more. */
  predicate Lends(t: Tree) { CanLend(NodeUsed(t), NodeCount(t)) }

  /** The sibling of the child on the path: the one to the right, for the last child the one to the left. */
  function Sibling(f: Frame): Tree
    requires FrameOk(f) && f.t.b.slots != []
  {
    f.t.b.Child(if LeftSibling(f) then PairSlot(f) else PairSlot(f) + 1)
  }

  /** A node as a node of transaction cur: itself, or its copy on another page. */
  ghost predicate OwnCopy(s: Tree, s': Tree, cur: TxId) {
    s' == if s.tx == cur then s else Retag(s, s'.id, cur)
  }

  /** The neighbours a and c after one record or slot went over: from the left one to the right one, or back. */
  function Lent(left: bool, a: Tree, key: Key, c: Tree): (Tree, Key, Tree)
    requires a.Leaf? == c.Leaf? && NodeCount(if left then a else c) >= 2
  {
    if a.Leaf? then
      if left then
        var x := a.recs[|a.recs| - 1];
        (Leaf(a.id, a.tx, RemoveAt(a.recs, |a.recs| - 1)), x.key, Leaf(c.id, c.tx, InsertAt(c.recs, 0, x)))
      else
        (Leaf(a.id, a.tx, InsertAt(a.recs, |a.recs|, c.recs[0])), c.recs[1].key,
         Leaf(c.id, c.tx, RemoveAt(c.recs, 0)))
    else if left then LendRight(a, key, c) else LendLeft(a, key, c)
  }

  /** The neighbours a and c in one node, which is a's. */
  function MergedNode(a: Tree, key: Key, c: Tree): Tree
    requires a.Leaf? == c.Leaf?
  {
    if a.Leaf? then Leaf(a.id, a.tx, a.recs + c.recs) else Inner(a.id, a.tx, Join(a.b, key, c.b))
  }

  /** The key between two neighbours was set: in place if their parent has room, otherwise entered anew upward. */
  ghost predicate Separated(t: Tree, fs: seq<Frame>, g: Frame, a: Tree, key: Key, c: Tree, cur: TxId)
    requires PathOk(fs) && FrameOk(g)
  {
    if HasRoom(g.t, key) then t == Plug(fs, Graft(g, a, key, c)) else Risen(t, fs + [g], a, key, c, cur)
  }

  /** One of two neighbours is below 40%: the other one lends if it can, otherwise they are merged. */
  ghost predicate Settled(t: Tree, fs: seq<Frame>, g: Frame, a: Tree, key: Key, c: Tree, left: bool, cur: TxId)
    requires PathOk(fs) && FrameOk(g) && a.Leaf? == c.Leaf?
    decreases |fs|, 2
  {
    if Lends(if left then a else c) then
      var l := Lent(left, a, key, c);
      Separated(t, fs, g, l.0, l.1, l.2, cur)
    else
      Rebalanced(t, fs, SetKid(g.t, g.i, MergedNode(a, key, c)), cur)
  }

  /**
   * The node n at the end of the path has lost a record or a slot. A root stays, but without a key it gives way to its
   * only child. Any other node stays if it is at least 40% full; otherwise it is settled with its sibling, and the
   * parent of a merged pair, which has lost a slot, is treated in the same way.
   */
  ghost predicate Rebalanced(t: Tree, fs: seq<Frame>, n: Tree, cur: TxId)
    requires PathOk(fs)
    decreases |fs|, 1
  {
    if fs == [] then t == (if n.Inner? && n.b.slots == [] then n.b.tail else n)
    else if Filled(n) then t == Plug(fs, n)
    else fs[|fs| - 1].t.b.slots != [] && exists s :: SettledWith(t, fs, n, s, cur)
  }

  ghost predicate SettledWith(t: Tree, fs: seq<Frame>, n: Tree, s: Tree, cur: TxId)
    requires PathOk(fs) && fs != [] && fs[|fs| - 1].t.b.slots != []
    decreases |fs|, 0
  {
    var init, f := fs[..|fs| - 1], fs[|fs| - 1];
    var left, ks := LeftSibling(f), PairSlot(f);
    && OwnCopy(Sibling(f), s, cur) && s.Leaf? == n.Leaf?
    && Settled(t, init, PairFrame(f.t, ks), if left then s else n, f.t.b.slots[ks].key, if left then n else s,
               left, cur)
  }

  lemma {:induction false} SettledIs(t: Tree, fs: seq<Frame>, g: Frame, a: Tree, key: Key, c: Tree, left: bool,
                                     cur: TxId)
    requires PathOk(fs) && FrameOk(g) && a.Leaf? == c.Leaf?
    ensures Settled(t, fs, g, a, key, c, left, cur) <==>
      if Lends(if left then a else c) then
        var l := Lent(left, a, key, c); Separated(t, fs, g, l.0, l.1, l.2, cur)
      else
        Rebalanced(t, fs, SetKid(g.t, g.i, MergedNode(a, key, c)), cur)
  {}

  lemma {:induction false} SettledWithIs(t: Tree, fs: seq<Frame>, n: Tree, s: Tree, cur: TxId)
    requires PathOk(fs) && fs != [] && fs[|fs| - 1].t.b.slots != []
    ensures var f := fs[|fs| - 1]; var left, ks := LeftSibling(f), PairSlot(f);
      SettledWith(t, fs, n, s, cur) <==>
        && OwnCopy(Sibling(f), s, cur) && s.Leaf? == n.Leaf?
        && Settled(t, fs[..|fs| - 1], PairFrame(f.t, ks), if left then s else n, f.t.b.slots[ks].key,
                   if left then n else s, left, cur)
  {}

  lemma {:induction false} RebalancedBy(t: Tree, fs: seq<Frame>, n: Tree, s: Tree, cur: TxId)
    requires PathOk(fs) && fs != [] && !Filled(n) && fs[|fs| - 1].t.b.slots != []
    requires SettledWith(t, fs, n, s, cur)
    ensures Rebalanced(t, fs, n, cur)
  {}

  /** What the code found and did with a node below 40% and its sibling. */
  lemma {:induction false} SettledPair(t: Tree, fs: seq<Frame>, n: Tree, g: Frame, a: Tree, key: Key, c: Tree,
                                       left: bool, s: Tree, cur: TxId)
    requires PathOk(fs) && fs != [] && !Filled(n) && fs[|fs| - 1].t.b.slots != []
    requires var f := fs[|fs| - 1];
      && g == PairFrame(f.t, PairSlot(f)) && key == f.t.b.slots[PairSlot(f)].key
      && left == LeftSibling(f) && (if left then a else c) == Sibling(f) && (if left then c else a) == n
    requires OwnCopy(if left then a else c, s, cur) && s.Leaf? == n.Leaf?
    requires Settled(t, fs[..|fs| - 1], g, if left then s else a, key, if left then c else s, left, cur)
    ensures Rebalanced(t, fs, n, cur)
  {
    SettledWithIs(t, fs, n, s, cur);
    RebalancedBy(t, fs, n, s, cur);
  }

  lemma {:induction false} StaysFilled(fs: seq<Frame>, n: Tree, cur: TxId)
    requires PathOk(fs) && (Filled(n) || fs == []) && (fs == [] ==> n.Leaf? || n.b.slots != [])
    ensures Rebalanced(Plug(fs, n), fs, n, cur)
  {}

  lemma {:induction false} RebalancedWith(t: Tree, fs: seq<Frame>, n: Tree, cur: TxId) returns (s: Tree)
    requires PathOk(fs) && fs != [] && !Filled(n) && Rebalanced(t, fs, n, cur)
    ensures fs[|fs| - 1].t.b.slots != [] && SettledWith(t, fs, n, s, cur)
  {
    s :| SettledWith(t, fs, n, s, cur);
  }

  // ----- what stays in the tree

  /** x is t or a node below it. */
  ghost predicate Under(t: Tree, x: Tree) {
    x == t || (t.Inner? && exists i :: 0 <= i <= |t.b.slots| && Under(t.b.Child(i), x))
  }

  /** x is a child of t. */
  ghost predicate KidOf(t: Tree, x: Tree) { t.Inner? && exists i :: 0 <= i <= |t.b.slots| && t.b.Child(i) == x }

  lemma {:induction false} UnderKid(t: Tree, m: Tree, x: Tree)
    requires KidOf(t, m) && Under(m, x)
    ensures Under(t, x)
  {
    var i :| 0 <= i <= |t.b.slots| && t.b.Child(i) == m;
    assert Under(t.b.Child(i), x);
  }

  lemma {:induction false} UnderThen(t: Tree, m: Tree, x: Tree)
    requires Under(t, m) && Under(m, x)
    ensures Under(t, x)
    decreases t
  {
    if m != t {
      var i :| 0 <= i <= |t.b.slots| && Under(t.b.Child(i), m);
      UnderThen(t.b.Child(i), m, x);
    }
  }

  lemma {:induction false} UnderPlug(fs: seq<Frame>, n: Tree)
    requires PathOk(fs)
    ensures Under(Plug(fs, n), n)
  {
    if fs != [] {
      var init, f := fs[..|fs| - 1], fs[|fs| - 1];
      var p := SetKid(f.t, f.i, n);
      UnderPlug(init, p);
      assert p.b.Child(f.i) == n;
      UnderKid(p, n, n);
      UnderThen(Plug(fs, n), p, n);
    }
  }

  /** A child of the parent of two grafted neighbours is one of them or was a child before. */
  lemma {:induction false} GraftKidsOf(f: Frame, a: Tree, key: Key, c: Tree)
    requires FrameOk(f)
    ensures KidOf(Graft(f, a, key, c), a) && KidOf(Graft(f, a, key, c), c)
  {
    GraftChild(f, a, key, c, f.i);
    GraftChild(f, a, key, c, f.i + 1);
  }

  lemma {:induction false} PartsKeepKids(t: Tree, b: Branch<Tree>, n: nat, l: Tree, r: Tree, x: Tree)
    requires KidOf(t, x) && t.b == b && n < |b.slots|
    requires l.Inner? && r.Inner? && l.b == LowerPart(b, n) && r.b == UpperPart(b, n)
    ensures KidOf(l, x) || KidOf(r, x)
  {
    var i :| 0 <= i <= |b.slots| && b.Child(i) == x;
    if i <= n {
      assert l.b.Child(i) == x;
    } else {
      assert r.b.Child(i - n - 1) == x;
    }
  }

  /** Both neighbours are in the tree once the key has risen. */
  lemma {:induction false} RisenUnder(t: Tree, fs: seq<Frame>, lt: Tree, key: Key, rt: Tree, cur: TxId)
    requires PathOk(fs) && Risen(t, fs, lt, key, rt, cur)
    ensures Under(t, lt) && Under(t, rt)
    decreases |fs|
  {
    if fs == [] {
      assert t.b.Child(0) == lt && t.b.Child(1) == rt;
      UnderKid(t, lt, lt);
      UnderKid(t, rt, rt);
    } else {
      var init, f := fs[..|fs| - 1], fs[|fs| - 1];
      var p := Graft(f, lt, key, rt);
      GraftKidsOf(f, lt, key, rt);
      if HasRoom(f.t, key) {
        UnderPlug(init, p);
        UnderKid(p, lt, lt);
        UnderKid(p, rt, rt);
        UnderThen(t, p, lt);
        UnderThen(t, p, rt);
      } else {
        var lt', up, rt' :| CutInTwo(f, lt, key, rt, cur, lt', up, rt') && Risen(t, init, lt', up, rt', cur);
        RisenUnder(t, init, lt', up, rt', cur);
        KidUnderCut(t, f, lt, key, rt, cur, lt', up, rt', lt);
        KidUnderCut(t, f, lt, key, rt, cur, lt', up, rt', rt);
      }
    }
  }

  lemma {:induction false} KidUnderCut(t: Tree, f: Frame, lt: Tree, key: Key, rt: Tree, cur: TxId, lt': Tree, up: Key,
                                       rt': Tree, x: Tree)
    requires FrameOk(f) && CutInTwo(f, lt, key, rt, cur, lt', up, rt') && KidOf(Graft(f, lt, key, rt), x)
    requires Under(t, lt') && Under(t, rt')
    ensures Under(t, x)
  {
    hide Graft, BranchCut;
    var p := Graft(f, lt, key, rt);
    PartsKeepKids(p, p.b, BranchCut(f.t.b.slots, f.i, key), lt', rt', x);
    var m := if KidOf(lt', x) then lt' else rt';
    UnderKid(m, x, x);
    UnderThen(t, m, x);
  }

  lemma {:induction false} SeparatedUnder(t: Tree, fs: seq<Frame>, g: Frame, a: Tree, key: Key, c: Tree, cur: TxId)
    requires PathOk(fs) && FrameOk(g) && Separated(t, fs, g, a, key, c, cur)
    ensures Under(t, a) && Under(t, c)
  {
    if HasRoom(g.t, key) {
      var p := Graft(g, a, key, c);
      GraftKidsOf(g, a, key, c);
      UnderPlug(fs, p);
      UnderKid(p, a, a);
      UnderKid(p, c, c);
      UnderThen(t, p, a);
      UnderThen(t, p, c);
    } else {
      RisenUnder(t, fs + [g], a, key, c, cur);
    }
  }

  lemma {:induction false} KidsOfJoin(l: Branch<Tree>, key: Key, r: Branch<Tree>, p: Tree, q: Tree, j: Tree, x: Tree)
    requires p.Inner? && q.Inner? && j.Inner? && p.b == l && q.b == r && j.b == Join(l, key, r)
    ensures KidOf(j, x) <==> KidOf(p, x) || KidOf(q, x)
  {
    var n := |l.slots|;
    assert forall i :: 0 <= i <= n ==> j.b.Child(i) == l.Child(i);
    assert forall i :: 0 <= i <= |r.slots| ==> j.b.Child(n + 1 + i) == r.Child(i);
    if KidOf(j, x) {
      var i :| 0 <= i <= |j.b.slots| && j.b.Child(i) == x;
      if i > n { assert r.Child(i - n - 1) == x; }
    }
  }

  /** Lending passes no child out of the two neighbours. */
  lemma {:induction false} LentKids(left: bool, a: Tree, key: Key, c: Tree, x: Tree)
    requires a.Inner? && c.Inner? && NodeCount(if left then a else c) >= 2
    requires KidOf(a, x) || KidOf(c, x)
    ensures var l := Lent(left, a, key, c); KidOf(l.0, x) || KidOf(l.2, x)
  {
    var l := Lent(left, a, key, c);
    LendShared(a, key, c);
    hide LendRight, LendLeft, KidOf, Join;
    var j := Inner(a.id, a.tx, Join(a.b, key, c.b));
    KidsOfJoin(a.b, key, c.b, a, c, j, x);
    KidsOfJoin(l.0.b, l.1, l.2.b, l.0, l.2, j, x);
  }

  /** The children of a node that was rebalanced are in the tree, wherever they hang. */
  lemma {:induction false} RebalancedKids(t: Tree, fs: seq<Frame>, n: Tree, cur: TxId, x: Tree)
    requires PathOk(fs) && Rebalanced(t, fs, n, cur) && KidOf(n, x)
    ensures Under(t, x)
    decreases |fs|
  {
    KidInner(n, x);
    hide KidOf;
    if fs == [] {
      if n.b.slots == [] {
        OnlyKid(n, x);
      } else {
        UnderKid(n, x, x);
      }
    } else if Filled(n) {
      UnderPlug(fs, n);
      UnderKid(n, x, x);
      UnderThen(t, n, x);
    } else {
      var s := RebalancedWith(t, fs, n, cur);
      SettledWithIs(t, fs, n, s, cur);
      var init, f := fs[..|fs| - 1], fs[|fs| - 1];
      var left, ks := LeftSibling(f), PairSlot(f);
      var key, a, c := f.t.b.slots[ks].key, if left then s else n, if left then n else s;
      SettledKids(t, init, PairFrame(f.t, ks), a, key, c, left, cur, x);
    }
  }

  lemma {:induction false} KidInner(n: Tree, x: Tree)
    requires KidOf(n, x)
    ensures n.Inner?
  {}

  lemma {:induction false} OnlyKid(n: Tree, x: Tree)
    requires KidOf(n, x) && n.b.slots == []
    ensures x == n.b.tail
  {}

  lemma {:induction false} SettledKids(t: Tree, fs: seq<Frame>, g: Frame, a: Tree, key: Key, c: Tree, left: bool,
                                       cur: TxId, x: Tree)
    requires PathOk(fs) && FrameOk(g) && a.Inner? && c.Inner? && Settled(t, fs, g, a, key, c, left, cur)
    requires KidOf(a, x) || KidOf(c, x)
    ensures Under(t, x)
    decreases |fs|, 1
  {
    hide KidOf, Lent;
    SettledIs(t, fs, g, a, key, c, left, cur);
    if Lends(if left then a else c) {
      var l := Lent(left, a, key, c);
      LentKids(left, a, key, c, x);
      SeparatedUnder(t, fs, g, l.0, l.1, l.2, cur);
      var m := if KidOf(l.0, x) then l.0 else l.2;
      UnderKid(m, x, x);
      UnderThen(t, m, x);
    } else {
      var m := MergedNode(a, key, c);
      KidsOfJoin(a.b, key, c.b, a, c, m, x);
      MergedUnder(t, fs, g, m, cur);
      UnderKid(m, x, x);
      UnderThen(t, m, x);
    }
  }

  /** The node that took the place of two merged neighbours is in the tree. */
  lemma {:induction false} MergedUnder(t: Tree, fs: seq<Frame>, g: Frame, m: Tree, cur: TxId)
    requires PathOk(fs) && FrameOk(g) && Rebalanced(t, fs, SetKid(g.t, g.i, m), cur)
    ensures Under(t, m)
    decreases |fs|, 0
  {
    var p := SetKid(g.t, g.i, m);
    assert p.b.Child(g.i) == m;
    if fs == [] && p.b.slots == [] {
      assert m == t;
    } else if fs == [] || Filled(p) {
      UnderPlug(fs, p);
      UnderKid(p, m, m);
      UnderThen(t, p, m);
    } else {
      var s := RebalancedWith(t, fs, p, cur);
      SettledWithIs(t, fs, p, s, cur);
      var init, f := fs[..|fs| - 1], fs[|fs| - 1];
      var left, ks := LeftSibling(f), PairSlot(f);
      SettledKids(t, init, PairFrame(f.t, ks), if left then s else p, f.t.b.slots[ks].key, if left then p else s, left,
                  cur, m);
    }
  }

  /**
   * A leaf that has lost a record and is below 40% afterwards does not stay so, unless it is the root. If the sibling
   * can lend, the leaf has as many records as before on its own page; otherwise one leaf has the records of both.
   */
  lemma {:induction false} WeakLeafIsRefilled(t: Tree, fs: seq<Frame>, n: Tree, cur: TxId) returns (x: Tree, s: Tree)
    requires PathOk(fs) && Rebalanced(t, fs, n, cur) && n.Leaf? && fs != [] && !Filled(n)
    ensures fs[|fs| - 1].t.b.slots != [] && OwnCopy(Sibling(fs[|fs| - 1]), s, cur) && s.Leaf?
    ensures Under(t, x) && x.Leaf?
    ensures if Lends(s) then x.id == n.id && |x.recs| == |n.recs| + 1
            else x.recs == if LeftSibling(fs[|fs| - 1]) then s.recs + n.recs else n.recs + s.recs
  {
    s := RebalancedWith(t, fs, n, cur);
    SettledWithIs(t, fs, n, s, cur);
    var init, f := fs[..|fs| - 1], fs[|fs| - 1];
    var left, ks := LeftSibling(f), PairSlot(f);
    var g, key, a, c := PairFrame(f.t, ks), f.t.b.slots[ks].key, if left then s else n, if left then n else s;
    SettledIs(t, init, g, a, key, c, left, cur);
    if Lends(s) {
      var l := Lent(left, a, key, c);
      SeparatedUnder(t, init, g, l.0, l.1, l.2, cur);
      x := if left then l.2 else l.0;
    } else {
      x := MergedNode(a, key, c);
      MergedUnder(t, init, g, x, cur);
    }
  }

  /** The same for a branch: the children of the node and of its sibling are in one branch, or one went over. */
  lemma {:induction false} WeakBranchIsRefilled(t: Tree, fs: seq<Frame>, n: Tree, cur: TxId) returns (x: Tree, s: Tree)
    requires PathOk(fs) && Rebalanced(t, fs, n, cur) && n.Inner? && fs != [] && !Filled(n)
    ensures fs[|fs| - 1].t.b.slots != [] && OwnCopy(Sibling(fs[|fs| - 1]), s, cur) && s.Inner?
    ensures Under(t, x) && x.Inner?
    ensures if Lends(s) then x.id == n.id && |x.b.slots| == |n.b.slots| + 1
            else |x.b.slots| == |n.b.slots| + 1 + |s.b.slots|
  {
    s := RebalancedWith(t, fs, n, cur);
    SettledWithIs(t, fs, n, s, cur);
    var init, f := fs[..|fs| - 1], fs[|fs| - 1];
    var left, ks := LeftSibling(f), PairSlot(f);
    var g, key, a, c := PairFrame(f.t, ks), f.t.b.slots[ks].key, if left then s else n, if left then n else s;
    SettledIs(t, init, g, a, key, c, left, cur);
    if Lends(s) {
      var l := Lent(left, a, key, c);
      SeparatedUnder(t, init, g, l.0, l.1, l.2, cur);
      x := if left then l.2 else l.0;
    } else {
      x := MergedNode(a, key, c);
      MergedUnder(t, init, g, x, cur);
    }
  }

  // ----- whole operations

  /**
   * A write below the leaf of the key begins with the path made the transaction's own: fs' are the branches and n' is
   * the leaf then. Nodes of the transaction stay on their pages, the others move to pages not in use.
   */
  ghost predicate PathOwned(t: Tree, key: Key, fs: seq<Frame>, fs': seq<Frame>, n': Tree, cur: TxId,
                            used: multiset<PageId>) {
    var n := LeafFor(t, key);
    && Linked(t, fs, n) && PathOk(fs') && Recopied(fs', fs, cur) && MovedJust(fs', fs, cur, used)
    && n' == Leaf(n'.id, cur, n.recs) && MovedAt(n'.id, n, cur, used)
  }

  ghost predicate PutAlong(t: Tree, t': Tree, r: Rec, cur: TxId, used: multiset<PageId>, fs: seq<Frame>,
                           fs': seq<Frame>, n': Tree, pos: nat) {
    && PathOwned(t, r.key, fs, fs', n', cur, used) && n'.Leaf?
    && pos <= |n'.recs| && LeafPos(n'.recs, pos, r.key) && Entered(t', fs', n', pos, r, cur)
  }

  /** t' is what Put makes of t. */
  ghost predicate PutMakes(t: Tree, t': Tree, r: Rec, cur: TxId, used: multiset<PageId>) {
    exists fs, fs', n', pos :: PutAlong(t, t', r, cur, used, fs, fs', n', pos)
  }

  lemma {:induction false} PutMade(t: Tree, t': Tree, r: Rec, cur: TxId, used: multiset<PageId>, fs: seq<Frame>,
                                   fs': seq<Frame>, n': Tree, pos: nat)
    requires PathOwned(t, r.key, fs, fs', n', cur, used) && n'.Leaf? && PathOk(fs')
    requires pos <= |n'.recs| && LeafPos(n'.recs, pos, r.key) && Entered(t', fs', n', pos, r, cur)
    ensures PutMakes(t, t', r, cur, used)
  {
    hide PathOwned, LeafPos, Entered;
    assert PutAlong(t, t', r, cur, used, fs, fs', n', pos);
  }

  lemma {:induction false} DeleteMade(t: Tree, t': Tree, key: Key, cur: TxId, used: multiset<PageId>, fs: seq<Frame>,
                                      fs': seq<Frame>, n': Tree, pos: nat)
    requires PathOwned(t, key, fs, fs', n', cur, used) && n'.Leaf? && PathOk(fs')
    requires pos < |n'.recs| && n'.recs[pos].key == key
    requires Rebalanced(t', fs', Leaf(n'.id, cur, RemoveAt(n'.recs, pos)), cur)
    ensures DeleteMakes(t, t', key, cur, used)
  {
    hide PathOwned, Rebalanced;
    assert DeleteAlong(t, t', key, cur, used, fs, fs', n', pos);
  }

  ghost predicate DeleteAlong(t: Tree, t': Tree, key: Key, cur: TxId, used: multiset<PageId>, fs: seq<Frame>,
                              fs': seq<Frame>, n': Tree, pos: nat) {
    && PathOwned(t, key, fs, fs', n', cur, used) && n'.Leaf?
    && pos < |n'.recs| && n'.recs[pos].key == key
    && Rebalanced(t', fs', Leaf(n'.id, cur, RemoveAt(n'.recs, pos)), cur)
  }

  /** t' is what Delete makes of t, which has the key. */
  ghost predicate DeleteMakes(t: Tree, t': Tree, key: Key, cur: TxId, used: multiset<PageId>) {
    exists fs, fs', n', pos :: DeleteAlong(t, t', key, cur, used, fs, fs', n', pos)
  }

  /** After a deletion that leaves the key's leaf below 40% there is a leaf with as many records as it had, or more. */
  lemma {:induction false} DeleteRefills(t: Tree, t': Tree, key: Key, h: nat, cap: TxId, cur: TxId,
                                         used: multiset<PageId>)
    returns (x: Tree)
    requires DeleteMakes(t, t', key, cur, used) && WfRoot(t, h, cap) && t.Inner?
    requires forall pos :: 0 <= pos < |LeafFor(t, key).recs| && LeafFor(t, key).recs[pos].key == key ==>
               !FillAtLeast40(LeafUsed(RemoveAt(LeafFor(t, key).recs, pos)))
    ensures Under(t', x) && x.Leaf? && |x.recs| >= |LeafFor(t, key).recs|
  {
    hide Wf, Recopied, MovedJust, MovedAt, LeafFor, Rebalanced, Linked;
    var fs, fs', n', pos :| DeleteAlong(t, t', key, cur, used, fs, fs', n', pos);
    var n := Leaf(n'.id, cur, RemoveAt(n'.recs, pos));
    PathNotEmpty(t, key, fs, fs', n', cur, used);
    var s;
    x, s := WeakLeafIsRefilled(t', fs', n, cur);
    SiblingNotEmpty(t, key, h, cap, fs, fs', n', cur, used);
  }

  lemma {:induction false} PathNotEmpty(t: Tree, key: Key, fs: seq<Frame>, fs': seq<Frame>, n': Tree, cur: TxId,
                                        used: multiset<PageId>)
    requires PathOwned(t, key, fs, fs', n', cur, used) && t.Inner?
    ensures fs != [] && fs' != [] && |fs| == |fs'|
  {}

  /** The sibling of a leaf of the tree has a record. */
  lemma {:induction false} SiblingNotEmpty(t: Tree, key: Key, h: nat, cap: TxId, fs: seq<Frame>, fs': seq<Frame>,
                                           n': Tree, cur: TxId, used: multiset<PageId>)
    requires PathOwned(t, key, fs, fs', n', cur, used) && fs != [] && WfRoot(t, h, cap)
    requires fs' != [] && fs'[|fs'| - 1].t.Inner? && fs'[|fs'| - 1].t.b.slots != []
    ensures FrameOk(fs'[|fs'| - 1]) && NodeCount(Sibling(fs'[|fs'| - 1])) >= 1
  {
    hide Wf, MovedJust, MovedAt, LeafFor;
    var k := |fs| - 1;
    assert RecopiedAt(fs'[k], fs[k], cur);
    assert LinkAt(fs, LeafFor(t, key), k);
    LinkedWf(t, fs, LeafFor(t, key), h, cap, k);
    var f := fs[k];
    var i := if LeftSibling(f) then PairSlot(f) else PairSlot(f) + 1;
    WfChild(f.t, i, h - k, cap);
    CountOfWf(f.t.b.Child(i), h - k - 1, cap);
  }

  lemma {:induction false} CountOfWf(t: Tree, h: nat, cap: TxId)
    requires Wf(t, h, cap)
    ensures NodeCount(t) >= 1
  {}
}
