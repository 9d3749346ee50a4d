/** btree_iterator.cpp: First and Next visit the records of the tree from left to right. */
module Iteration {
  import opened Order
  import opened Nodes
  import opened Trees
  import opened Tokens
  import opened Steps
  import opened Searching
  import opened Heights
  import opened Pagers
  import opened BTrees
  import opened Leaves

  /** The iterator is in the leaf n, reached through fs: at a record or past the last one. */
  ghost predicate InLeaf(t: Tree, stack: seq<Entry>, fs: seq<Frame>, n: Tree) {
    AtLeaf(stack, fs, n) && Linked(t, fs, n) && PathOk(fs) && stack[|fs|].slot <= |n.recs|
  }

  /** The iterator is at a record of the leaf n, reached through fs. */
  ghost predicate At(t: Tree, stack: seq<Entry>, fs: seq<Frame>, n: Tree) {
    InLeaf(t, stack, fs, n) && stack[|fs|].slot < |n.recs|
  }

  /** How many records stand before place pos of the leaf at the end of the path. */
  ghost function Index(fs: seq<Frame>, pos: nat): nat
    requires PathOk(fs)
  {
    |RecsOf(PathPre(fs))| + pos
  }

  // ----- records of token sequences

  lemma {:induction false} RecsOfConcat(a: seq<Tok>, b: seq<Tok>)
    ensures RecsOf(a + b) == RecsOf(a) + RecsOf(b)
  {
    if b == [] {
      assert a + b == a;
    } else {
      RecsOfConcat(a, b[..|b| - 1]);
      assert (a + b)[..|a + b| - 1] == a + b[..|b| - 1];
    }
  }

  lemma {:induction false} RecsOfItems(recs: seq<Rec>)
    ensures RecsOf(Items(recs)) == recs
  {
    if recs != [] {
      var n := |recs| - 1;
      RecsOfItems(recs[..n]);
      assert Items(recs)[..n] == Items(recs[..n]);
      assert recs == recs[..n] + [recs[n]];
    }
  }

  lemma {:induction false} RecsOfSep(a: seq<Tok>, k: Key)
    ensures RecsOf(a + [Sep(k)]) == RecsOf(a)
  {
    assert (a + [Sep(k)])[..|a|] == a;
  }

  /** The records of an ordered token sequence are in strictly ascending key order. */
  lemma {:induction false} RecsAscending(s: seq<Tok>)
    requires Ordered(s)
    ensures SortedKeys(LeafKeys(RecsOf(s)))
  {
    if s != [] {
      var n := |s| - 1;
      RecsAscending(s[..n]);
      var r, r0 := RecsOf(s), RecsOf(s[..n]);
      forall i, j | 0 <= i < j < |r| ensures Lt(r[i].key, r[j].key) {
        if j < |r0| {
          assert Lt(LeafKeys(r0)[i], LeafKeys(r0)[j]);
        } else {
          var k := TokenOf(s[..n], i);
          assert TokLt(s[k], s[n]);
        }
      }
    }
  }

  /** Record i stands somewhere among the tokens. */
  lemma {:induction false} TokenOf(s: seq<Tok>, i: nat) returns (k: nat)
    requires i < |RecsOf(s)|
    ensures k < |s| && s[k] == Item(RecsOf(s)[i])
  {
    var n := |s| - 1;
    if i < |RecsOf(s[..n])| {
      k := TokenOf(s[..n], i);
    } else {
      k := n;
    }
  }

  /** The map holds the records, and only them. */
  lemma {:induction false} RecsAreMap(s: seq<Tok>, k: Key)
    requires Ordered(s)
    ensures k in MapOf(s) <==> exists i :: 0 <= i < |RecsOf(s)| && RecsOf(s)[i].key == k
    ensures forall i :: 0 <= i < |RecsOf(s)| && RecsOf(s)[i].key == k
                        ==> k in MapOf(s) && MapOf(s)[k] == RecsOf(s)[i].value
  {
    RecsAscending(s);
    forall i | 0 <= i < |RecsOf(s)| && RecsOf(s)[i].key == k
      ensures k in MapOf(s) && MapOf(s)[k] == RecsOf(s)[i].value
    {
      RecInMap(s, i);
    }
    if k in MapOf(s) {
      var i := RecOfKey(s, k);
    }
  }

  lemma {:induction false} RecOfKey(s: seq<Tok>, k: Key) returns (i: nat)
    requires k in MapOf(s)
    ensures i < |RecsOf(s)| && RecsOf(s)[i].key == k
  {
    var n := |s| - 1;
    if s[n].Item? && s[n].rec.key == k {
      i := |RecsOf(s[..n])|;
    } else {
      i := RecOfKey(s[..n], k);
    }
  }

  lemma {:induction false} RecInMap(s: seq<Tok>, i: nat)
    requires SortedKeys(LeafKeys(RecsOf(s))) && i < |RecsOf(s)|
    ensures RecsOf(s)[i].key in MapOf(s) && MapOf(s)[RecsOf(s)[i].key] == RecsOf(s)[i].value
  {
    var n := |s| - 1;
    var r, r0 := RecsOf(s), RecsOf(s[..n]);
    if i < |r0| {
      forall a, b | 0 <= a < b < |r0| ensures Lt(LeafKeys(r0)[a], LeafKeys(r0)[b]) {
        assert Lt(LeafKeys(r)[a], LeafKeys(r)[b]);
      }
      RecInMap(s[..n], i);
      if s[n].Item? {
        assert Lt(LeafKeys(r)[i], LeafKeys(r)[|r0|]);
        LtTransitive(r[i].key, r[i].key, r[i].key);
      }
    }
  }

  // ----- moving along the path

  /** Going down to the first child passes no record. */
  lemma {:induction false} PreFirst(fs: seq<Frame>, m: Tree)
    requires PathOk(fs) && m.Inner?
    ensures PathOk(fs + [Frame(m, 0)]) && PathPre(fs + [Frame(m, 0)]) == PathPre(fs)
  {
    var fs' := fs + [Frame(m, 0)];
    assert fs'[..|fs|] == fs && m.b.slots[..0] == [];
  }

  /** Going on to the next child passes the child before it. */
  lemma {:induction false} PreNext(fs: seq<Frame>, m: Tree, i: nat)
    requires PathOk(fs) && m.Inner? && i < |m.b.slots|
    ensures PathOk(fs + [Frame(m, i)]) && PathOk(fs + [Frame(m, i + 1)])
    ensures RecsOf(PathPre(fs + [Frame(m, i + 1)])) == RecsOf(PathPre(fs + [Frame(m, i)]) + Flat(m.b.Child(i)))
  {
    hide Flat, RecsOf;
    var p, s := PathPre(fs), m.b.slots;
    assert (fs + [Frame(m, i)])[..|fs|] == fs && (fs + [Frame(m, i + 1)])[..|fs|] == fs;
    assert s[..i + 1][..i] == s[..i] && s[..i + 1][i] == s[i];
    assert p + FlatSlots(s[..i + 1]) == (p + FlatSlots(s[..i]) + Flat(s[i].left)) + [Sep(s[i].key)];
    RecsOfSep(p + FlatSlots(s[..i]) + Flat(s[i].left), s[i].key);
  }

  /** After the last child the branch is finished. */
  lemma {:induction false} PreLast(fs: seq<Frame>, m: Tree)
    requires PathOk(fs) && m.Inner?
    ensures PathOk(fs + [Frame(m, |m.b.slots|)])
    ensures PathPre(fs + [Frame(m, |m.b.slots|)]) + Flat(m.b.tail) == PathPre(fs) + Flat(m)
  {
    var s := m.b.slots;
    assert (fs + [Frame(m, |s|)])[..|fs|] == fs && s[..|s|] == s;
    assert PathPre(fs) + FlatSlots(s) + Flat(m.b.tail) == PathPre(fs) + (FlatSlots(s) + Flat(m.b.tail));
  }

  /** What a leaf of the tree has before, in and after it. */
  lemma {:induction false} AtRecord(t: Tree, fs: seq<Frame>, n: Tree, pos: nat)
    requires Linked(t, fs, n) && PathOk(fs) && n.Leaf? && pos < |n.recs|
    ensures Index(fs, pos) < |RecsOf(Flat(t))| && RecsOf(Flat(t))[Index(fs, pos)] == n.recs[pos]
  {
    RecsAround(t, fs, n);
    hide RecsOf, Flat, PathPre, PathPost, Linked, PathOk;
    InMiddle(RecsOf(PathPre(fs)), n.recs, RecsOf(PathPost(fs)), pos);
  }

  lemma {:induction false} InMiddle<T>(a: seq<T>, b: seq<T>, c: seq<T>, i: nat)
    requires i < |b|
    ensures |a| + i < |a + b + c| && (a + b + c)[|a| + i] == b[i]
  {}

  /** The records of the tree are those before, in and after the leaf at the end of the path. */
  lemma {:induction false} RecsAround(t: Tree, fs: seq<Frame>, n: Tree)
    requires Linked(t, fs, n) && PathOk(fs) && n.Leaf?
    ensures RecsOf(Flat(t)) == RecsOf(PathPre(fs)) + n.recs + RecsOf(PathPost(fs))
  {
    hide RecsOf, PathPre, PathPost, Linked;
    LinkedFlat(t, fs, n);
    RecsOfConcat(PathPre(fs) + Flat(n), PathPost(fs));
    RecsOfConcat(PathPre(fs), Flat(n));
    RecsOfItems(n.recs);
  }

  /** After the last record of a leaf as many records are passed as stand up to the end of the leaf. */
  lemma {:induction false} LeafPassed(fs: seq<Frame>, n: Tree)
    requires PathOk(fs) && n.Leaf?
    ensures |RecsOf(PathPre(fs) + Flat(n))| == Index(fs, |n.recs|)
  {
    RecsOfConcat(PathPre(fs), Flat(n));
    RecsOfItems(n.recs);
  }

  // ----- the iterator

  /** The stack holds the path to a node, and the node's pages can be read. */
  ghost predicate Upon(t: Tree, stack: seq<Entry>, fs: seq<Frame>, m: Tree) {
    OnPath(stack, fs) && Linked(t, fs, m) && PathOk(fs)
  }

  lemma {:induction false} PushFirst(t: Tree, stack: seq<Entry>, fs: seq<Frame>, m: Tree)
    requires Upon(t, stack, fs, m) && m.Inner?
    ensures Upon(t, stack + [Entry(m.id, 0)], fs + [Frame(m, 0)], m.b.Child(0))
    ensures PathPre(fs + [Frame(m, 0)]) == PathPre(fs)
  {
    LinkedDown(t, fs, m, 0);
    PreFirst(fs, m);
  }

  /** The page of the node the stack leads to, and room for it on the stack. */
  lemma {:induction false} UponPage(pages: map<PageId, Page>, t: Tree, h: nat, cap: TxId, pageCount: nat,
                                    stack: seq<Entry>, fs: seq<Frame>, m: Tree)
    requires Readable(pages, t, h, cap, pageCount) && Upon(t, stack, fs, m)
    ensures m.id in pages && (m.Leaf? ==> pages[m.id] == LeafPage(m.tx, m.recs))
    ensures m.Inner? ==> pages[m.id] == BranchPage(m.tx, Ids(m.b)) && |Ids(m.b).slots| == |m.b.slots| > 0
    ensures |stack| == |fs| < 31 && |fs| <= h && (fs != [] ==> NonEmpty(m))
    ensures forall i :: m.Inner? && 0 <= i <= |m.b.slots| ==> Ids(m.b).Child(i) == m.b.Child(i).id
  {
    DepthBound(pages, t, h, cap, pageCount, fs, m);
    NodeStored(pages, t, fs, m);
    WfLeaf(m, h - |fs|, cap);
  }

  /** First(pgid): down the first children to the first record below the page. */
  method First(btree: BTree, iter: BTreeIterator, pgid: PageId, ghost t: Tree, ghost h: nat, ghost cap: TxId,
               ghost pageCount: nat, ghost fs: seq<Frame>, ghost m: Tree)
    returns (ghost fs': seq<Frame>, ghost n: Tree)
    requires Readable(btree.pager.pages, t, h, cap, pageCount) && Upon(t, iter.stack, fs, m) && pgid == m.id
    modifies iter
    ensures PathOk(fs) && PathOk(fs') && iter.status == Iter
    ensures if m.Leaf? && m.recs == [] then iter.stack == old(iter.stack)
            else At(t, iter.stack, fs', n) && iter.stack[|fs'|].slot == 0 && PathPre(fs') == PathPre(fs)
  {
    hide Readable, Linked, PathPre, OnPath, PathOk, InStore, WfRoot, Upon, Ids;
    iter.status := Iter;
    fs', n := fs, m;
    var pgid := pgid;
    UponPage(btree.pager.pages, t, h, cap, pageCount, iter.stack, fs', n);
    UponOk(t, iter.stack, fs, m);
    while btree.pager.pages[pgid].BranchPage?
      invariant Upon(t, iter.stack, fs', n) && pgid == n.id && iter.status == Iter
      invariant PathOk(fs') && PathPre(fs') == PathPre(fs)
      invariant |iter.stack| == |fs'| < 31 && |fs'| <= h && pgid in btree.pager.pages
      invariant if n.Leaf? then btree.pager.pages[pgid] == LeafPage(n.tx, n.recs)
                else btree.pager.pages[pgid].BranchPage?
      invariant (n == m && iter.stack == old(iter.stack)) || (NonEmpty(n) && m.Inner?)
      decreases h - |fs'|
    {
      UponPage(btree.pager.pages, t, h, cap, pageCount, iter.stack, fs', n);
      PushFirst(t, iter.stack, fs', n);
      iter.stack := iter.stack + [Entry(pgid, 0)];
      pgid := btree.pager.pages[pgid].b.Child(0);
      fs', n := fs' + [Frame(n, 0)], n.b.Child(0);
      UponPage(btree.pager.pages, t, h, cap, pageCount, iter.stack, fs', n);
      UponOk(t, iter.stack, fs', n);
    }
    if |btree.pager.pages[pgid].recs| == 0 {
      return;
    }
    PushLeaf(t, iter.stack, fs', n);
    iter.stack := iter.stack + [Entry(pgid, 0)];
  }

  lemma {:induction false} UponOk(t: Tree, stack: seq<Entry>, fs: seq<Frame>, m: Tree)
    requires Upon(t, stack, fs, m)
    ensures PathOk(fs)
  {}

  lemma {:induction false} PushLeaf(t: Tree, stack: seq<Entry>, fs: seq<Frame>, n: Tree)
    requires Upon(t, stack, fs, n) && n.Leaf? && n.recs != []
    ensures At(t, stack + [Entry(n.id, 0)], fs, n) && PathOk(fs)
  {
    assert (stack + [Entry(n.id, 0)])[..|fs|] == stack;
  }

  /** How many records stand up to the end of the node at the end of the path. */
  ghost function Passed(fs: seq<Frame>, m: Tree): nat
    requires PathOk(fs)
  {
    |RecsOf(PathPre(fs) + Flat(m))|
  }

  /** From a finished node one goes on to its right neighbour or, after the last child, up to the finished parent. */
  lemma {:induction false} StepUp(t: Tree, stack: seq<Entry>, fs: seq<Frame>, m: Tree)
    requires Upon(t, stack, fs, m) && PathOk(fs) && fs != []
    ensures var k, f := |fs| - 1, fs[|fs| - 1];
      && |stack| == |fs| && stack[k] == Entry(f.t.id, f.i) && f.t.Inner? && f.i <= |f.t.b.slots|
      && PathOk(fs[..k]) && Upon(t, stack[..k], fs[..k], f.t)
    ensures var k, f := |fs| - 1, fs[|fs| - 1]; f.i < |f.t.b.slots| ==>
      var fs' := fs[..k] + [Frame(f.t, f.i + 1)];
      && PathOk(fs') && Upon(t, stack[k := Entry(f.t.id, f.i + 1)], fs', f.t.b.Child(f.i + 1))
      && |RecsOf(PathPre(fs'))| == Passed(fs, m)
    ensures var k, f := |fs| - 1, fs[|fs| - 1]; f.i == |f.t.b.slots| ==> Passed(fs[..k], f.t) == Passed(fs, m)
  {
    hide Flat, PathPre, RecsOf;
    var k, f := |fs| - 1, fs[|fs| - 1];
    assert LinkAt(fs, m, k);
    assert fs == fs[..k] + [f];
    LinkedUp(t, fs, m);
    assert stack[..k] + [stack[k]] == stack;
    if f.i < |f.t.b.slots| {
      LinkedDown(t, fs[..k], f.t, f.i + 1);
      PreNext(fs[..k], f.t, f.i);
    } else {
      PreLast(fs[..k], f.t);
    }
  }

  lemma {:induction false} AtFacts(t: Tree, stack: seq<Entry>, fs: seq<Frame>, n: Tree)
    requires InLeaf(t, stack, fs, n) || At(t, stack, fs, n)
    ensures |stack| == |fs| + 1 && n.Leaf? && stack[|fs|].slot <= |n.recs| && stack[|fs|].pgid == n.id
    ensures InLeaf(t, stack, fs, n) && (At(t, stack, fs, n) <==> stack[|fs|].slot < |n.recs|)
    ensures Upon(t, stack[..|fs|], fs, n) && PathOk(fs)
    ensures forall pos :: 0 <= pos < |n.recs| ==> At(t, stack[|fs| := Entry(n.id, pos)], fs, n)
    ensures Passed(fs, n) == Index(fs, |n.recs|)
  {
    LeafPassed(fs, n);
    forall pos | 0 <= pos < |n.recs| ensures At(t, stack[|fs| := Entry(n.id, pos)], fs, n) {
      assert stack[|fs| := Entry(n.id, pos)][..|fs|] == stack[..|fs|];
    }
  }

  lemma {:induction false} AllPassed(t: Tree, stack: seq<Entry>, fs: seq<Frame>, m: Tree)
    requires Upon(t, stack, fs, m) && stack == [] && PathOk(fs)
    ensures Passed(fs, m) == |RecsOf(Flat(t))|
  {
    assert [] + Flat(t) == Flat(t);
  }

  /** How many records stand up to and with the place in the leaf, which may be past its last record. */
  ghost function Behind(fs: seq<Frame>, n: Tree, pos: nat): nat
    requires PathOk(fs) && n.Leaf?
  {
    if pos < |n.recs| then Index(fs, pos) + 1 else Index(fs, |n.recs|)
  }

  /**
   * Next: to the record that follows, or to an empty stack after the last one. Within the leaf the status stays, in
   * another leaf it becomes kIter. From past the last record of a leaf, where LowerBound may leave an iterator that is
   * equal to end(), it goes on to the next leaf.
   */
  method Next(btree: BTree, iter: BTreeIterator, ghost t: Tree, ghost h: nat, ghost cap: TxId, ghost pageCount: nat,
              ghost fs: seq<Frame>, ghost n: Tree)
    returns (ghost fs': seq<Frame>, ghost n': Tree)
    requires Readable(btree.pager.pages, t, h, cap, pageCount) && InLeaf(t, iter.stack, fs, n)
    modifies iter
    ensures PathOk(fs) && PathOk(fs') && |old(iter.stack)| == |fs| + 1 && n.Leaf?
    ensures if old(iter.stack)[|fs|].slot + 1 < |n.recs| then fs' == fs && n' == n && iter.status == old(iter.status)
            else iter.status == if iter.stack == [] then old(iter.status) else Iter
    ensures if iter.stack == [] then Behind(fs, n, old(iter.stack)[|fs|].slot) == |RecsOf(Flat(t))|
            else At(t, iter.stack, fs', n') && |iter.stack| == |fs'| + 1
                 && Index(fs', iter.stack[|fs'|].slot) == Behind(fs, n, old(iter.stack)[|fs|].slot)
  {
    hide Readable, Linked, PathPre, OnPath, PathOk, InStore, WfRoot, Upon, InLeaf, At, Passed, Ids, Flat;
    AtFacts(t, iter.stack, fs, n);
    UponPage(btree.pager.pages, t, h, cap, pageCount, iter.stack[..|fs|], fs, n);
    ghost var passed := Behind(fs, n, iter.stack[|fs|].slot);
    fs', n' := fs, n;
    var last := |iter.stack| - 1;
    var front := iter.stack[last];
    iter.stack := iter.stack[last := Entry(front.pgid, front.slot + 1)];
    if front.slot + 1 < |btree.pager.pages[front.pgid].recs| {
      return;
    }
    iter.stack := iter.stack[..last];
    while iter.stack != []
      invariant PathOk(fs') && Upon(t, iter.stack, fs', n') && Passed(fs', n') == passed
      invariant iter.status == old(iter.status)
      decreases |iter.stack|
    {
      UponSize(t, iter.stack, fs', n');
      StepUp(t, iter.stack, fs', n');
      ghost var k, f := |fs'| - 1, fs'[|fs'| - 1];
      last := |iter.stack| - 1;
      front := iter.stack[last];
      UponPage(btree.pager.pages, t, h, cap, pageCount, iter.stack[..last], fs'[..k], f.t);
      var node := btree.pager.pages[front.pgid].b;
      iter.stack := iter.stack[last := Entry(front.pgid, front.slot + 1)];
      if front.slot + 1 <= |node.slots| {
        fs', n' := fs'[..k] + [Frame(f.t, f.i + 1)], f.t.b.Child(f.i + 1);
        UponPage(btree.pager.pages, t, h, cap, pageCount, iter.stack, fs', n');
        fs', n' := First(btree, iter, node.Child(front.slot + 1), t, h, cap, pageCount, fs', n');
        AtFacts(t, iter.stack, fs', n');
        return;
      }
      iter.stack := iter.stack[..last];
      fs', n' := fs'[..k], f.t;
    }
    AllPassed(t, iter.stack, fs', n');
  }

  lemma {:induction false} UponSize(t: Tree, stack: seq<Entry>, fs: seq<Frame>, m: Tree)
    requires Upon(t, stack, fs, m)
    ensures |stack| == |fs|
  {}

  /** iter == end(): the end iterator is one with an empty stack and status kInvalid. */
  predicate IsEnd(iter: BTreeIterator)
    reads iter
  {
    iter.stack == [] || iter.status == Invalid
  }

  lemma {:induction false} UponRoot(t: Tree)
    ensures Upon(t, [], [], t) && PathOk([]) && PathPre([]) == []
  {}

  lemma {:induction false} EmptyRoot(t: Tree)
    requires t.Leaf?
    ensures RecsOf(Flat(t)) == t.recs
  {
    RecsOfItems(t.recs);
  }

  /** The record under the iterator. */
  lemma {:induction false} UnderIterator(pages: map<PageId, Page>, t: Tree, h: nat, cap: TxId, pageCount: nat,
                                         stack: seq<Entry>, fs: seq<Frame>, n: Tree)
    requires Readable(pages, t, h, cap, pageCount) && At(t, stack, fs, n) && PathOk(fs)
    ensures InLeaf(t, stack, fs, n) && |stack| == |fs| + 1 && n.Leaf? && stack[|fs|].pgid in pages
    ensures pages[stack[|fs|].pgid] == LeafPage(n.tx, n.recs) && stack[|fs|].slot < |n.recs|
    ensures Index(fs, stack[|fs|].slot) < |RecsOf(Flat(t))|
    ensures n.recs[stack[|fs|].slot] == RecsOf(Flat(t))[Index(fs, stack[|fs|].slot)]
  {
    AtFacts(t, stack, fs, n);
    UponPage(pages, t, h, cap, pageCount, stack[..|fs|], fs, n);
    AtRecord(t, fs, n, stack[|fs|].slot);
  }

  /**
   * for (auto& iter : tree): from begin() to end() every record is visited once, in the order of the tree, and
   * the loop ends.
   */
  method VisitAll(btree: BTree, root: PageId, ghost t: Tree, ghost h: nat, ghost cap: TxId, ghost pageCount: nat)
    returns (visited: seq<Rec>)
    requires Readable(btree.pager.pages, t, h, cap, pageCount) && root == t.id
    ensures visited == RecsOf(Flat(t))
  {
    hide Readable, PathPre, PathOk, Upon, At, RecsOf, Flat;
    UponRoot(t);
    var iter := new BTreeIterator();
    ghost var all, fs, n := RecsOf(Flat(t)), [], t;
    fs, n := First(btree, iter, root, t, h, cap, pageCount, fs, n);
    visited := [];
    if t.Leaf? && t.recs == [] {
      EmptyRoot(t);
    } else {
      UnderIterator(btree.pager.pages, t, h, cap, pageCount, iter.stack, fs, n);
    }
    NothingBefore(fs);
    while !IsEnd(iter)
      invariant iter.status == Iter && PathOk(fs) && |visited| <= |all| && visited == all[..|visited|]
      invariant iter.stack == [] ==> |visited| == |all|
      invariant iter.stack != [] ==> At(t, iter.stack, fs, n) && |iter.stack| == |fs| + 1
                                     && Index(fs, iter.stack[|fs|].slot) == |visited|
      decreases |all| - |visited|
    {
      UnderIterator(btree.pager.pages, t, h, cap, pageCount, iter.stack, fs, n);
      var front := iter.stack[|iter.stack| - 1];
      visited := visited + [btree.pager.pages[front.pgid].recs[front.slot]];
      fs, n := Next(btree, iter, t, h, cap, pageCount, fs, n);
      if iter.stack != [] {
        UnderIterator(btree.pager.pages, t, h, cap, pageCount, iter.stack, fs, n);
      }
    }
  }

  // ----- scanning from a lower bound

  /** The records from some place on: before it all keys are below k, from it on none is. */
  ghost predicate IsTail(all: seq<Rec>, k: Key, part: seq<Rec>) {
    && |part| <= |all| && part == all[|all| - |part|..]
    && (forall i :: 0 <= i < |all| - |part| ==> Lt(all[i].key, k))
    && forall i :: 0 <= i < |part| ==> Le(k, part[i].key)
  }

  /** The leaf the search for k ends in has records, and all of them are below k. */
  ghost predicate LeafBelow(t: Tree, k: Key) {
    var recs := LeafFor(t, k).recs; recs != [] && forall j :: 0 <= j < |recs| ==> Lt(recs[j].key, k)
  }

  /** All of the tree's records are below k. */
  ghost predicate RecordsBelow(t: Tree, k: Key) {
    forall i :: 0 <= i < |RecsOf(Flat(t))| ==> Lt(RecsOf(Flat(t))[i].key, k)
  }

  lemma {:induction false} RecsBelow(s: seq<Tok>, k: Key)
    requires AllBelow(s, k)
    ensures forall i :: 0 <= i < |RecsOf(s)| ==> Lt(RecsOf(s)[i].key, k)
  {
    forall i | 0 <= i < |RecsOf(s)| ensures Lt(RecsOf(s)[i].key, k) {
      var j := TokenOf(s, i);
      assert Below(s[j], k);
    }
  }

  lemma {:induction false} RecsAbove(s: seq<Tok>, k: Key)
    requires AllAbove(s, k)
    ensures forall i :: 0 <= i < |RecsOf(s)| ==> Lt(k, RecsOf(s)[i].key)
  {
    forall i | 0 <= i < |RecsOf(s)| ensures Lt(k, RecsOf(s)[i].key) {
      var j := TokenOf(s, i);
      assert Above(s[j], k);
    }
  }

  /** The place a search ends at divides the records of the tree. */
  lemma {:induction false} SearchDivides(t: Tree, fs: seq<Frame>, n: Tree, pos: nat, k: Key)
    requires Linked(t, fs, n) && PathOk(fs) && n.Leaf? && Around(fs, k) && LeafPos(n.recs, pos, k)
    ensures Index(fs, pos) <= |RecsOf(Flat(t))| && IsTail(RecsOf(Flat(t)), k, RecsOf(Flat(t))[Index(fs, pos)..])
  {
    RecsAround(t, fs, n);
    RecsBelow(PathPre(fs), k);
    RecsAbove(PathPost(fs), k);
    hide RecsOf, Flat, PathPre, PathPost, Linked, PathOk, Around, IsTail;
    TailFrom(RecsOf(PathPre(fs)), n.recs, RecsOf(PathPost(fs)), pos, k);
  }

  lemma {:induction false} TailFrom(a: seq<Rec>, b: seq<Rec>, c: seq<Rec>, pos: nat, k: Key)
    requires LeafPos(b, pos, k) && forall i :: 0 <= i < |a| ==> Lt(a[i].key, k)
    requires forall i :: 0 <= i < |c| ==> Lt(k, c[i].key)
    ensures IsTail(a + b + c, k, (a + b + c)[|a| + pos..])
  {
    var all, i := a + b + c, |a| + pos;
    forall j | 0 <= j < i ensures Lt(all[j].key, k) {
      if |a| <= j { assert all[j] == b[j - |a|]; }
    }
    forall j | i <= j < |all| ensures Le(k, all[j].key) {
      if |a| + |b| <= j {
        assert all[j] == c[j - |a| - |b|];
        LtTransitive(k, all[j].key, k);
      } else {
        assert all[j] == b[j - |a|];
      }
    }
  }

  /** Where LowerBound has left the iterator. */
  lemma {:induction false} FoundPlace(t: Tree, stack: seq<Entry>, status: Status, fs: seq<Frame>, n: Tree, k: Key)
    requires Descended(t, stack, status, fs, n, k) && n.Leaf?
    ensures InLeaf(t, stack, fs, n) && PathOk(fs) && |stack| == |fs| + 1
    ensures At(t, stack, fs, n) <==> stack[|fs|].slot < |n.recs|
    ensures Index(fs, stack[|fs|].slot) <= |RecsOf(Flat(t))|
    ensures IsTail(RecsOf(Flat(t)), k, RecsOf(Flat(t))[Index(fs, stack[|fs|].slot)..])
  {
    hide RecsOf, Flat, IsTail, LeafFor;
    SearchDivides(t, fs, n, stack[|fs|].slot, k);
  }

  /** A leaf without records is the root of a tree without records. */
  lemma {:induction false} NoRecords(t: Tree, h: nat, cap: TxId, fs: seq<Frame>, n: Tree)
    requires WfRoot(t, h, cap) && Linked(t, fs, n) && n.Leaf?
    ensures n.recs == [] <==> RecsOf(Flat(t)) == []
  {
    hide Wf;
    LinkedWf(t, fs, n, h, cap, |fs|);
    LinkedFlat(t, fs, n);
    RecsAround(t, fs, n);
    if n.recs == [] {
      assert fs == [] by { if fs != [] { NotEmpty(n, h - |fs|, cap); } }
      RecsOfItems(t.recs);
    }
  }

  lemma {:induction false} NotEmpty(n: Tree, h: nat, cap: TxId)
    requires Wf(n, h, cap)
    ensures NonEmpty(n)
  {}

  lemma {:induction false} TailEmpty(t: Tree, k: Key)
    ensures IsTail(RecsOf(Flat(t)), k, []) <==> RecordsBelow(t, k)
    ensures RecsOf(Flat(t)) == [] ==> RecordsBelow(t, k)
  {}

  /** The page of the leaf the iterator is in. */
  lemma {:induction false} InLeafPage(pages: map<PageId, Page>, t: Tree, h: nat, cap: TxId, pageCount: nat,
                                      stack: seq<Entry>, fs: seq<Frame>, n: Tree)
    requires Readable(pages, t, h, cap, pageCount) && InLeaf(t, stack, fs, n)
    ensures |stack| == |fs| + 1 && stack[|fs|].pgid in pages && n.Leaf?
    ensures pages[stack[|fs|].pgid] == LeafPage(n.tx, n.recs)
    ensures At(t, stack, fs, n) <==> stack[|fs|].slot < |n.recs|
    ensures n.recs == [] <==> RecsOf(Flat(t)) == []
  {
    hide Upon, RecsOf, Flat;
    AtFacts(t, stack, fs, n);
    UponPage(pages, t, h, cap, pageCount, stack[..|fs|], fs, n);
    NoRecords(t, h, cap, fs, n);
  }

  /** for (; iter != end(); ++iter): from the iterator to the last record. stray: as for ScanFrom. */
  method VisitRest(btree: BTree, iter: BTreeIterator, ghost t: Tree, ghost h: nat, ghost cap: TxId,
                   ghost pageCount: nat, ghost fs0: seq<Frame>, ghost n0: Tree)
    returns (visited: seq<Rec>, stray: bool)
    requires Readable(btree.pager.pages, t, h, cap, pageCount) && InLeaf(t, iter.stack, fs0, n0)
    requires iter.status != Invalid && (RecsOf(Flat(t)) != [] ==> At(t, iter.stack, fs0, n0))
    modifies iter
    ensures PathOk(fs0) && |old(iter.stack)| == |fs0| + 1
    ensures stray <==> RecsOf(Flat(t)) == []
    ensures !stray ==> Index(fs0, old(iter.stack)[|fs0|].slot) <= |RecsOf(Flat(t))|
                       && visited == RecsOf(Flat(t))[Index(fs0, old(iter.stack)[|fs0|].slot)..]
    ensures stray ==> visited == []
  {
    hide Readable, PathPre, PathOk, Upon, At, InLeaf, RecsOf, Flat, OnPath;
    visited, stray := [], false;
    ghost var all, fs, n := RecsOf(Flat(t)), fs0, n0;
    InLeafPage(btree.pager.pages, t, h, cap, pageCount, iter.stack, fs, n);
    AtFacts(t, iter.stack, fs, n);
    ghost var from := Index(fs, iter.stack[|fs|].slot);
    if all != [] { UnderIterator(btree.pager.pages, t, h, cap, pageCount, iter.stack, fs, n); }
    while !IsEnd(iter)
      invariant iter.status != Invalid && PathOk(fs) && (all == [] ==> iter.stack != [] && visited == [])
      invariant all != [] ==> from + |visited| <= |all| && visited == all[from..from + |visited|]
      invariant iter.stack == [] ==> from + |visited| == |all|
      invariant iter.stack != [] ==> InLeaf(t, iter.stack, fs, n) && |iter.stack| == |fs| + 1
                                     && Index(fs, iter.stack[|fs|].slot) == from + |visited|
      invariant iter.stack != [] && all != [] ==> At(t, iter.stack, fs, n)
      decreases |all| - |visited|
    {
      InLeafPage(btree.pager.pages, t, h, cap, pageCount, iter.stack, fs, n);
      var front := iter.stack[|iter.stack| - 1];
      if front.slot >= |btree.pager.pages[front.pgid].recs| {
        return visited, true;
      }
      UnderIterator(btree.pager.pages, t, h, cap, pageCount, iter.stack, fs, n);
      visited := visited + [btree.pager.pages[front.pgid].recs[front.slot]];
      fs, n := Next(btree, iter, t, h, cap, pageCount, fs, n);
      if iter.stack != [] {
        UnderIterator(btree.pager.pages, t, h, cap, pageCount, iter.stack, fs, n);
      }
    }
  }

  /**
   * for (auto iter = LowerBound(key); iter != end(); ++iter): every record whose key is not below the key is
   * visited once, in ascending order, and the loop ends; but nothing is visited when the leaf that LowerBound ends in
   * has only records below the key. stray: the loop would look at a record that is not there, which happens exactly
   * in a root without records.
   */
  method ScanFrom(btree: BTree, root: PageId, key: Key, ghost ot: Option<Tree>, ghost h: nat, ghost cap: TxId,
                  ghost pageCount: nat)
    returns (visited: seq<Rec>, stray: bool)
    requires ReadableRoot(btree.pager.pages, root, ot, h, cap, pageCount)
    ensures ot.None? ==> visited == []
    ensures stray <==> ot.Some? && RecsOf(Flat(ot.value)) == []
    ensures ot.Some? ==> if LeafBelow(ot.value, key) then visited == []
                         else IsTail(RecsOf(Flat(ot.value)), key, visited)
    ensures ot.Some? ==>
      (IsTail(RecsOf(Flat(ot.value)), key, visited) <==> !LeafBelow(ot.value, key) || RecordsBelow(ot.value, key))
  {
    hide Readable, PathPre, PathOk, Upon, At, InLeaf, RecsOf, Flat, Descended, LeafFor, MapOf, Ordered, IsLeast, IsTail,
         OnPath, RecordsBelow;
    visited, stray := [], false;
    var iter;
    ghost var fs, n;
    iter, fs, n := btree.LowerBound(root, key, ot, h, cap, pageCount);
    if iter.stack == [] {
      return;
    }
    ghost var t := ot.value;
    FoundPlace(t, iter.stack, iter.status, fs, n, key);
    InLeafPage(btree.pager.pages, t, h, cap, pageCount, iter.stack, fs, n);
    TailEmpty(t, key);
    if !IsEnd(iter) {
      visited, stray := VisitRest(btree, iter, t, h, cap, pageCount, fs, n);
    }
  }

  lemma {:induction false} OneRecord(id: PageId, k: Key)
    requires |k| == 1
    ensures Wf(Leaf(id, 1, [Rec(k, [])]), 0, 1) && ShortKey(k) && Flat(Leaf(id, 1, [Rec(k, [])])) == [Item(Rec(k, []))]
  {
    TenthIsShort(k);
    LeafInsertFits([], 0, Rec(k, []));
    assert InsertAt([], 0, Rec(k, [])) == [Rec(k, [])];
    assert Items([Rec(k, [])]) == [Item(Rec(k, []))];
  }

  /** Two leaves of one record each under a root with one key. */
  lemma {:induction false} TwoLeaves(a: Key, c: Key) returns (t: Tree)
    requires |a| == |c| == 1 && Lt(a, c)
    ensures t == Inner(2, 1, Branch([Slot(Leaf(3, 1, [Rec(a, [])]), c)], Leaf(4, 1, [Rec(c, [])])))
    ensures WfRoot(t, 1, 1) && Ordered(Flat(t)) && Flat(t) == [Item(Rec(a, [])), Sep(c), Item(Rec(c, []))]
    ensures Bag(t) == multiset{2, 3, 4}
  {
    var l, r := Leaf(3, 1, [Rec(a, [])]), Leaf(4, 1, [Rec(c, [])]);
    var s := [Slot(l, c)];
    t := Inner(2, 1, Branch(s, r));
    OneRecord(3, a);
    OneRecord(4, c);
    assert s[..0] == [] && FlatSlots([]) == [] && BagSlots([]) == multiset{};
    assert FlatSlots(s) == [] + Flat(l) + [Sep(c)];
    assert BagSlots(s) == BagSlots([]) + Bag(l) && Bag(l) == multiset{3} && Bag(r) == multiset{4};
    LtTransitive(c, c, c);
    hide Wf;
    forall i | 0 <= i <= 1 ensures Wf(t.b.Child(i), 0, 1) {}
    WfOfKids(t, 1, 1);
  }

  lemma {:induction false} WfOfKids(t: Tree, h: nat, cap: TxId)
    requires t.Inner? && t.tx <= cap && h > 0 && t.b.slots != [] && BranchFits(t.b.slots)
    requires forall i :: 0 <= i <= |t.b.slots| ==> Wf(t.b.Child(i), h - 1, t.tx)
    ensures WfRoot(t, h, cap)
  {}

  /**
   * A stored, ordered tree and a key for which LowerBound's iterator is equal to end() although the tree has a greater
   * record: it is the first one of the next leaf.
   */
  lemma {:induction false} LowerBoundCanMiss() returns (t: Tree, key: Key, pages: map<PageId, Page>)
    ensures ReadableRoot(pages, t.id, Some(t), 1, 1, 5)
    ensures LeafBelow(t, key) && !RecordsBelow(t, key)
  {
    var a, b, c := ThreeKeys();
    LtTransitive(a, b, c);
    t := TwoLeaves(a, c);
    key := b;
    var l, r := t.b.slots[0].left, t.b.tail;
    pages := map[2 := PageOf(t), 3 := PageOf(l), 4 := PageOf(r)];
    assert InStore(pages, l) && InStore(pages, r);
    assert forall i :: 0 <= i <= 1 ==> InStore(pages, t.b.Child(i));
    LtTransitive(b, c, b);
    assert t.b.slots[..0] == [] && ChildIndex(t.b.slots[..0], b) == 0;
    assert ChildIndex(t.b.slots, b) == 0;
    assert LeafFor(t, b) == l;
    RecsOfThree(Rec(a, []), c, Rec(c, []));
    assert !Lt(RecsOf(Flat(t))[1].key, b);
  }

  lemma {:induction false} RecsOfThree(x: Rec, k: Key, y: Rec)
    ensures RecsOf([Item(x), Sep(k), Item(y)]) == [x, y]
  {
    RecsOfConcat([Item(x), Sep(k)], [Item(y)]);
    RecsOfConcat([Item(x)], [Sep(k)]);
    assert RecsOf([]) == [];
    assert [Item(x)][..0] == [] && [Sep(k)][..0] == [] && [Item(y)][..0] == [];
    assert [Item(x), Sep(k), Item(y)] == [Item(x)] + [Sep(k)] + [Item(y)];
    assert [Item(x), Sep(k)] == [Item(x)] + [Sep(k)];
  }

  /** A scan that visits the tail of the records visits the map's records from the key on, in ascending order. */
  lemma {:induction false} ScannedIsMap(t: Tree, key: Key, visited: seq<Rec>, k: Key)
    requires Ordered(Flat(t)) && IsTail(RecsOf(Flat(t)), key, visited)
    ensures SortedKeys(LeafKeys(visited))
    ensures k in MapOf(Flat(t)) && Le(key, k) <==> exists i :: 0 <= i < |visited| && visited[i].key == k
    ensures forall i :: 0 <= i < |visited| && visited[i].key == k
                        ==> k in MapOf(Flat(t)) && MapOf(Flat(t))[k] == visited[i].value
  {
    hide RecsOf, Flat, MapOf, Ordered;
    var all, from := RecsOf(Flat(t)), |RecsOf(Flat(t))| - |visited|;
    RecsAscending(Flat(t));
    RecsAreMap(Flat(t), k);
    forall i, j | 0 <= i < j < |visited| ensures Lt(LeafKeys(visited)[i], LeafKeys(visited)[j]) {
      assert Lt(LeafKeys(all)[from + i], LeafKeys(all)[from + j]);
    }
    forall i | 0 <= i < |visited| ensures visited[i] == all[from + i] {}
    if k in MapOf(Flat(t)) && Le(key, k) {
      var i :| 0 <= i < |all| && all[i].key == k;
      LtTransitive(k, key, k);
      assert visited[i - from].key == k;
    }
  }

  lemma {:induction false} NothingBefore(fs: seq<Frame>)
    requires PathOk(fs)
    ensures PathPre(fs) == [] ==> Index(fs, 0) == 0
  {}

  /** What is visited is the map, each key once, in strictly ascending key order. */
  lemma {:induction false} VisitedIsMap(t: Tree, visited: seq<Rec>, k: Key)
    requires Ordered(Flat(t)) && visited == RecsOf(Flat(t))
    ensures SortedKeys(LeafKeys(visited))
    ensures k in MapOf(Flat(t)) <==> exists i :: 0 <= i < |visited| && visited[i].key == k
    ensures forall i :: 0 <= i < |visited| && visited[i].key == k
                        ==> k in MapOf(Flat(t)) && MapOf(Flat(t))[k] == visited[i].value
  {
    RecsAscending(Flat(t));
    RecsAreMap(Flat(t), k);
  }
}
