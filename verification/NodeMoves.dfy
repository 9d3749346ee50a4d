/** The loops of btree.cpp that move records between two nodes: both splits and both merges. */
module NodeMoves {
  import opened Order
  import opened Nodes

  /** std::reverse over the slots of a node. */
  function Reverse<T>(s: seq<T>): (r: seq<T>)
    ensures |r| == |s|
  {
    if s == [] then [] else [s[|s| - 1]] + Reverse(s[..|s| - 1])
  }

  lemma {:induction false} ReverseAppend<T>(s: seq<T>, x: T)
    ensures Reverse(s + [x]) == [x] + Reverse(s)
  {
    assert (s + [x])[..|s|] == s;
  }

  lemma {:induction false} LeafUsedReverse(s: seq<Rec>)
    ensures LeafUsed(Reverse(s)) == LeafUsed(s)
  {
    if s != [] {
      LeafUsedReverse(s[..|s| - 1]);
      LeafUsedConcat([s[|s| - 1]], Reverse(s[..|s| - 1]));
      assert LeafUsed([s[|s| - 1]]) == RecCost(s[|s| - 1]);
    }
  }

  lemma {:induction false} BranchUsedReverse<C>(s: seq<Slot<C>>)
    ensures BranchUsed(Reverse(s)) == BranchUsed(s)
  {
    if s != [] {
      BranchUsedReverse(s[..|s| - 1]);
      BranchUsedConcat([s[|s| - 1]], Reverse(s[..|s| - 1]));
      assert BranchUsed([s[|s| - 1]]) == KeyCost(s[|s| - 1].key);
    }
  }

  /** How many records the moving loop of the leaf split leaves on the left. */
  function LeafHalf(recs: seq<Rec>): (n: nat)
    ensures n <= |recs|
  {
    if !FillAbove50(LeafUsed(recs)) then |recs| else LeafHalf(recs[..|recs| - 1])
  }

  /** How many records, the new one included, the leaf split leaves on the left. */
  function LeafCut(recs: seq<Rec>, i: nat, r: Rec): nat {
    var n := LeafHalf(recs);
    if i <= n || LeafUsed(recs[n..]) + RecCost(r) > MAX_SPACE then n + 1 else n
  }

  /** Between two turns of the moving loop: left has lost the records that moved holds in reverse. */
  ghost predicate Moving(node: seq<Rec>, left: seq<Rec>, moved: seq<Rec>) {
    && |left| <= |node|
    && left == node[..|left|]
    && Reverse(moved) == node[|left|..]
    && (left != node ==> FillAbove50(LeafUsed(left) + RecCost(node[|left|])))
    && LeafHalf(left) == LeafHalf(node)
  }

  /** One turn of the moving loop: left has a record to give and right has room for it. */
  lemma {:induction false} MoveLast(node: seq<Rec>, left: seq<Rec>, moved: seq<Rec>)
    requires Moving(node, left, moved) && FillAbove50(LeafUsed(left))
    requires LeafUsed(node) <= MAX_SPACE && forall j :: 0 <= j < |node| ==> Inline(node[j])
    ensures left != []
    ensures LeafUsed(moved) + RecCost(left[|left| - 1]) <= MAX_SPACE
    ensures Moving(node, left[..|left| - 1], moved + [left[|left| - 1]])
  {
    MovedUse(node, left, moved);
    var n := |left| - 1;
    ReverseAppend(moved, left[n]);
    hide LeafUsed, Reverse;
    HeadAndTail(node, n);
  }

  lemma {:induction false} HeadAndTail<T>(s: seq<T>, n: nat)
    requires n < |s|
    ensures [s[n]] + s[n + 1..] == s[n..] && s[..n + 1][..n] == s[..n]
  {}

  lemma {:induction false} MovedUse(node: seq<Rec>, left: seq<Rec>, moved: seq<Rec>)
    requires Moving(node, left, moved)
    ensures LeafUsed(node) == LeafUsed(left) + LeafUsed(moved)
    ensures LeafUsed(left) > 0 ==>
              left != [] && LeafUsed(left) == LeafUsed(left[..|left| - 1]) + RecCost(left[|left| - 1])
  {
    LeafUsedReverse(moved);
    LeafUsedCut(node, |left|);
  }

  /**
   * The moving loop of Split(LeafNode*, ...): records go from the tail of left to right, one at a time,
   * until left is at most half full. Appending to right never fails and left keeps a record.
   */
  method HalveLeaf(node: seq<Rec>) returns (left: seq<Rec>, right: seq<Rec>)
    requires forall j :: 0 <= j < |node| ==> Inline(node[j])
    requires LeafUsed(node) <= MAX_SPACE && FillAbove50(LeafUsed(node))
    ensures left + right == node && left != [] && right != []
    ensures LeafUsed(left) + LeafUsed(right) == LeafUsed(node)
    ensures !FillAbove50(LeafUsed(left)) && FillAbove50(LeafUsed(left) + RecCost(right[0]))
    ensures |left| == LeafHalf(node)
  {
    left := node;
    var moved: seq<Rec> := [];   // right's slots before std::reverse
    assert Moving(node, left, moved);
    while FillAbove50(LeafUsed(left))
      invariant Moving(node, left, moved)
      decreases |left|
    {
      hide Moving, LeafUsed, LeafHalf;
      MoveLast(node, left, moved);
      var last := left[|left| - 1];
      assert LeafUsed(moved) + RecCost(last) <= MAX_SPACE;  // assert(success) of right.Append
      moved := moved + [last];
      left := left[..|left| - 1];
    }
    right := Reverse(moved);
    hide Moving, LeafUsed, LeafHalf, Reverse;
    MovedLeafHalves(node, left, moved);
  }

  /** What the moving loop of the leaf split leaves when it ends. */
  lemma {:induction false} MovedLeafHalves(node: seq<Rec>, left: seq<Rec>, moved: seq<Rec>)
    requires Moving(node, left, moved) && FillAbove50(LeafUsed(node)) && !FillAbove50(LeafUsed(left))
    requires forall j :: 0 <= j < |node| ==> Inline(node[j])
    ensures var right := Reverse(moved);
      && left + right == node && left != [] && right != [] && |left| == LeafHalf(node)
      && LeafUsed(left) + LeafUsed(right) == LeafUsed(node) && FillAbove50(LeafUsed(left) + RecCost(right[0]))
  {
    MovedUse(node, left, moved);
    LeafUsedReverse(moved);
    assert LeafUsed(left) == 0 ==> Inline(node[|left|]);
  }

  lemma {:induction false} InsertInHalf<T>(left: seq<T>, right: seq<T>, i: nat, x: T)
    requires i <= |left| + |right|
    ensures i <= |left| ==> InsertAt(left, i, x) + right == InsertAt(left + right, i, x)
                            && |InsertAt(left, i, x)| == |left| + 1
    ensures i >= |left| ==> left + InsertAt(right, i - |left|, x) == InsertAt(left + right, i, x)
                            && |InsertAt(right, i - |left|, x)| == |right| + 1
  {}

  lemma {:induction false} FirstToLeft<T>(left: seq<T>, right: seq<T>)
    requires right != []
    ensures InsertAt(left, |left|, right[0]) + RemoveAt(right, 0) == left + right
    ensures |InsertAt(left, |left|, right[0])| == |left| + 1
  {}

  /**
   * Split(LeafNode*, ...): the node is full and the record is inline. Every success assert holds,
   * on both the first insert and the retry, and the halves are the old records with the new one in place.
   */
  method SplitLeaf(node: seq<Rec>, i: nat, r: Rec) returns (left: seq<Rec>, right: seq<Rec>)
    requires i <= |node|
    requires Inline(r) && forall j :: 0 <= j < |node| ==> Inline(node[j])
    requires LeafUsed(node) <= MAX_SPACE < LeafUsed(node) + RecCost(r)
    ensures left + right == InsertAt(node, i, r)
    ensures (|left| >= 1 && |right| >= 2) || (|left| >= 2 && |right| >= 1)
    ensures LeafUsed(left) <= MAX_SPACE && LeafUsed(right) <= MAX_SPACE
    ensures |left| == LeafCut(node, i, r)
  {
    hide LeafUsed, LeafHalf;
    left, right := HalveLeaf(node);
    assert right[0] == node[|left|] && right == node[|left|..];
    hide InsertAt, RemoveAt;
    if i <= |left| {
      LeafUsedInsert(left, i, r);            // assert(success) of left->Insert
      InsertInHalf(left, right, i, r);
      left := InsertAt(left, i, r);
      return;
    }
    if LeafUsed(right) + RecCost(r) > MAX_SPACE {
      LeafUsedInsert(left, |left|, right[0]);  // assert(success) of left->Append
      LeafUsedRemove(right, 0);
      FirstToLeft(left, right);
      left, right := InsertAt(left, |left|, right[0]), RemoveAt(right, 0);
    }
    LeafUsedInsert(right, i - |left|, r);    // assert(success) of right.Insert, first try or retry
    InsertInHalf(left, right, i, r);
    right := InsertAt(right, i - |left|, r);
  }

  /** How many slots the moving loop of the branch split leaves on the left. */
  function SplitPoint<C>(slots: seq<Slot<C>>): (n: nat)
    ensures n <= |slots|
  {
    if !FillAbove50(BranchUsed(slots)) then |slots| else SplitPoint(slots[..|slots| - 1])
  }

  /** The guard of the fallback at btree.cpp:378: the upper half has no room for the new key. */
  predicate SplitFallsBack<C>(slots: seq<Slot<C>>, i: nat, key: Key) {
    var n := SplitPoint(slots);
    i > n && BranchUsed(slots[n..]) + KeyCost(key) > MAX_SPACE
  }

  /** A key inline in a branch: key + slot is at most half of the node. */
  predicate InlineKey(k: Key) { 2 * KeyCost(k) <= MAX_SPACE }

  /** Between two turns of the moving loop of a branch split. */
  ghost predicate MovingSlots<C>(node: seq<Slot<C>>, left: seq<Slot<C>>, moved: seq<Slot<C>>) {
    && |left| <= |node|
    && left == node[..|left|]
    && Reverse(moved) == node[|left|..]
    && (left != node ==> FillAbove50(BranchUsed(left) + KeyCost(node[|left|].key)))
    && SplitPoint(left) == SplitPoint(node)
  }

  lemma {:induction false} MoveLastSlot<C>(node: seq<Slot<C>>, left: seq<Slot<C>>, moved: seq<Slot<C>>)
    requires MovingSlots(node, left, moved) && FillAbove50(BranchUsed(left))
    requires BranchUsed(node) <= MAX_SPACE && forall j :: 0 <= j < |node| ==> InlineKey(node[j].key)
    ensures left != []
    ensures BranchUsed(moved) + KeyCost(left[|left| - 1].key) <= MAX_SPACE
    ensures MovingSlots(node, left[..|left| - 1], moved + [left[|left| - 1]])
  {
    MovedSlotsUse(node, left, moved);
    var n := |left| - 1;
    ReverseAppend(moved, left[n]);
    hide BranchUsed, Reverse;
    HeadAndTail(node, n);
  }

  lemma {:induction false} MovedSlotsUse<C>(node: seq<Slot<C>>, left: seq<Slot<C>>, moved: seq<Slot<C>>)
    requires MovingSlots(node, left, moved)
    ensures BranchUsed(node) == BranchUsed(left) + BranchUsed(moved)
    ensures BranchUsed(left) > 0 ==>
      left != [] && BranchUsed(left) == BranchUsed(left[..|left| - 1]) + KeyCost(left[|left| - 1].key)
    ensures FillAbove50(BranchUsed(left)) ==> left != [] && SplitPoint(left[..|left| - 1]) == SplitPoint(left)
  {
    BranchUsedReverse(moved);
    BranchUsedCut(node, |left|);
  }

  /** The moving loop of Split(BranchNode*, ...), which leaves left's tail stale. */
  method HalveBranch<C>(node: Branch<C>) returns (left: Branch<C>, right: Branch<C>)
    requires forall j :: 0 <= j < |node.slots| ==> InlineKey(node.slots[j].key)
    requires BranchUsed(node.slots) <= MAX_SPACE && FillAbove50(BranchUsed(node.slots))
    ensures left.slots + right.slots == node.slots && left.slots != [] && right.slots != []
    ensures left.tail == right.tail == node.tail
    ensures |left.slots| == SplitPoint(node.slots)
    ensures BranchUsed(left.slots) + BranchUsed(right.slots) == BranchUsed(node.slots)
    ensures !FillAbove50(BranchUsed(left.slots))
    ensures FillAbove50(BranchUsed(left.slots) + KeyCost(right.slots[0].key))
  {
    left := node;
    var moved: seq<Slot<C>> := [];  // right's slots before std::reverse
    assert MovingSlots(node.slots, left.slots, moved);
    while FillAbove50(BranchUsed(left.slots))
      invariant left.tail == node.tail
      invariant MovingSlots(node.slots, left.slots, moved)
      decreases |left.slots|
    {
      hide MovingSlots, BranchUsed, Reverse, SplitPoint;
      MoveLastSlot(node.slots, left.slots, moved);
      var last := left.slots[|left.slots| - 1];
      assert BranchUsed(moved) + KeyCost(last.key) <= MAX_SPACE;  // assert(success) of right.Append
      moved := moved + [last];
      left := Branch(left.slots[..|left.slots| - 1], left.tail);
    }
    right := Branch(Reverse(moved), left.tail);
    hide MovingSlots, BranchUsed, Reverse, SplitPoint;
    MovedHalves(node.slots, left.slots, moved);
  }

  /** What the moving loop leaves when it ends. */
  lemma {:induction false} MovedHalves<C>(node: seq<Slot<C>>, left: seq<Slot<C>>, moved: seq<Slot<C>>)
    requires MovingSlots(node, left, moved) && FillAbove50(BranchUsed(node)) && !FillAbove50(BranchUsed(left))
    requires forall j :: 0 <= j < |node| ==> InlineKey(node[j].key)
    ensures var right := Reverse(moved);
      && left + right == node && left != [] && right != [] && |left| == SplitPoint(node)
      && BranchUsed(left) + BranchUsed(right) == BranchUsed(node)
      && FillAbove50(BranchUsed(left) + KeyCost(right[0].key))
  {
    MovedSlotsUse(node, left, moved);
    BranchUsedReverse(moved);
    assert BranchUsed(left) == 0 ==> InlineKey(node[|left|].key);
  }

  /** The insertion of Split(BranchNode*, ...) into one of the halves, with the fallback as written. */
  method InsertIntoHalf<C>(left0: Branch<C>, right0: Branch<C>, i: nat, key: Key, c: C)
    returns (left: Branch<C>, right: Branch<C>)
    requires left0.slots != [] && right0.slots != [] && i <= |left0.slots| + |right0.slots|
    requires InlineKey(key) && InlineKey(right0.slots[0].key)
    requires BranchUsed(left0.slots) + BranchUsed(right0.slots) <= MAX_SPACE
    requires !FillAbove50(BranchUsed(left0.slots))
    requires FillAbove50(BranchUsed(left0.slots) + KeyCost(right0.slots[0].key))
    ensures BranchUsed(left.slots) <= MAX_SPACE && BranchUsed(right.slots) <= MAX_SPACE
    ensures (|left.slots| >= 1 && |right.slots| >= 2) || (|left.slots| >= 2 && |right.slots| >= 1)
    ensures right.tail == right0.tail
    ensures |left.slots| == if i <= |left0.slots| || BranchUsed(right0.slots) + KeyCost(key) > MAX_SPACE
                            then |left0.slots| + 1 else |left0.slots|
    ensures var fallback := i > |left0.slots| && BranchUsed(right0.slots) + KeyCost(key) > MAX_SPACE;
            if fallback then
              |left.slots| >= 2 && left.slots[|left.slots| - 1].left == left0.tail
            else
              left.slots + right.slots == InsertAt(left0.slots + right0.slots, i, Slot(c, key))
  {
    hide BranchUsed;
    left, right := left0, right0;
    if i <= |left.slots| {
      BranchUsedInsert(left, i, key, c, false);       // assert(success) of left->Insert
      left := left.Insert(i, key, c, false);
      assert left.slots + right.slots == InsertAt(left0.slots + right0.slots, i, Slot(c, key));
      return;
    }
    if BranchUsed(right.slots) + KeyCost(key) > MAX_SPACE {
      BranchUsedInsert(left, |left.slots|, right.slots[0].key, right.slots[0].left, true);
      left := left.Insert(|left.slots|, right.slots[0].key, right.slots[0].left, true);
      BranchUsedDelete(right, 0, false);
      right := right.Delete(0, false);
    }
    BranchUsedInsert(right, i - |left.slots|, key, c, false);  // assert(success), first try or retry
    ghost var r := right;
    right := right.Insert(i - |left.slots|, key, c, false);
    if r == right0 {
      assert left.slots + right.slots == InsertAt(left0.slots + right0.slots, i, Slot(c, key));
    }
  }

  /** The rise of one key out of the halves: left's last if left has two, else right's first. */
  method RaiseKey<C>(left0: Branch<C>, right0: Branch<C>) returns (left: Branch<C>, up: Key, right: Branch<C>)
    requires (|left0.slots| >= 1 && |right0.slots| >= 2) || (|left0.slots| >= 2 && |right0.slots| >= 1)
    ensures |left.slots| >= 1 && |right.slots| >= 1
    ensures BranchUsed(left.slots) <= BranchUsed(left0.slots)
    ensures BranchUsed(right.slots) <= BranchUsed(right0.slots)
    ensures left.slots + [Slot(left.tail, up)] + right.slots == left0.slots + right0.slots
    ensures right.tail == right0.tail
    ensures |left0.slots| >= 2 ==> left.tail == left0.slots[|left0.slots| - 1].left
    ensures |left.slots| == if |left0.slots| >= 2 then |left0.slots| - 1 else |left0.slots|
  {
    left, right := left0, right0;
    if |left.slots| >= 2 {
      var m := |left.slots| - 1;
      up := left.slots[m].key;
      BranchUsedDelete(left, m, true);
      left := left.Delete(m, true);
      assert left.slots + [Slot(left.tail, up)] == left0.slots;
    } else {
      up := right.slots[0].key;
      var leftChild := right.slots[0].left;
      BranchUsedDelete(right, 0, false);
      right := right.Delete(0, false);
      left := Branch(left.slots, leftChild);
      assert [Slot(left.tail, up)] + right.slots == right0.slots;
    }
  }

  /**
   * Split(BranchNode*, ...): the node is full. No assert fails; the two halves and the risen key are the
   * old node with the key and its right child inserted, exactly when the fallback was not taken.
   */
  method SplitBranch<C>(node: Branch<C>, i: nat, key: Key, rightChild: C)
    returns (left: Branch<C>, up: Key, right: Branch<C>)
    requires i <= |node.slots|
    requires InlineKey(key) && forall j :: 0 <= j < |node.slots| ==> InlineKey(node.slots[j].key)
    requires BranchUsed(node.slots) <= MAX_SPACE < BranchUsed(node.slots) + KeyCost(key)
    ensures |left.slots| >= 1 && |right.slots| >= 1
    ensures BranchUsed(left.slots) <= MAX_SPACE && BranchUsed(right.slots) <= MAX_SPACE
    ensures |left.slots| == BranchCut(node.slots, i, key)
    ensures !SplitFallsBack(node.slots, i, key) ==>
              Join(left, up, right) == node.Insert(i, key, rightChild, true)
    ensures node.Insert(i, key, rightChild, true).DistinctChildren() ==>
              (Join(left, up, right) == node.Insert(i, key, rightChild, true)
               <==> !SplitFallsBack(node.slots, i, key))
  {
    ghost var whole := node.Insert(i, key, rightChild, true);
    var insertLeftChild := node.Child(i);
    var start := node.SetChild(i, rightChild);
    SetChildKeepsSpace(node, i, rightChild);
    InsertFromLeft(node, i, key, rightChild);
    left, right := HalveBranch(start);
    assert right.slots[0] == start.slots[|left.slots|];
    assert start.slots[|left.slots|..] == right.slots;
    ghost var fallback := i > |left.slots| && BranchUsed(right.slots) + KeyCost(key) > MAX_SPACE;
    assert fallback == SplitFallsBack(start.slots, i, key) == SplitFallsBack(node.slots, i, key);
    left, right := InsertIntoHalf(left, right, i, key, insertLeftChild);
    left, up, right := RaiseKey(left, right);
    if fallback {
      assert Join(left, up, right).Child(|left.slots|) == start.tail == whole.Child(|whole.slots|);
      assert |left.slots| < |Join(left, up, right).slots|;
    }
  }

  /** Inserting with a right child as the split does it: the old child goes left of the key. */
  lemma {:induction false} InsertFromLeft<C>(b: Branch<C>, i: nat, key: Key, c: C)
    requires i <= |b.slots|
    ensures var whole := b.Insert(i, key, c, true);
      && whole.slots == InsertAt(b.SetChild(i, c).slots, i, Slot(b.Child(i), key))
      && whole.tail == b.SetChild(i, c).tail && |whole.slots| == |b.slots| + 1
  {}

  lemma {:induction false} SetChildKeepsSpace<C>(b: Branch<C>, i: nat, c: C)
    requires i <= |b.slots|
    ensures BranchUsed(b.SetChild(i, c).slots) == BranchUsed(b.slots)
    ensures SplitPoint(b.SetChild(i, c).slots) == SplitPoint(b.slots)
    ensures forall k, key :: SplitFallsBack(b.SetChild(i, c).slots, k, key) == SplitFallsBack(b.slots, k, key)
  {
    var d := b.SetChild(i, c).slots;
    BranchUsedByKeys(d, b.slots);
    SplitPointByKeys(d, b.slots);
    var n := SplitPoint(d);
    BranchUsedByKeys(d[n..], b.slots[n..]);
  }

  lemma {:induction false} SplitPointByKeys<C, D>(a: seq<Slot<C>>, b: seq<Slot<D>>)
    requires |a| == |b| && forall i :: 0 <= i < |a| ==> a[i].key == b[i].key
    ensures SplitPoint(a) == SplitPoint(b)
  {
    BranchUsedByKeys(a, b);
    if FillAbove50(BranchUsed(a)) {
      SplitPointByKeys(a[..|a| - 1], b[..|b| - 1]);
    }
  }

  /** The slot at the split point is what pushes the lower half over 50%. */
  lemma {:induction false} SplitPointMaximal<C>(slots: seq<Slot<C>>)
    ensures var n := SplitPoint(slots);
            n < |slots| ==> FillAbove50(BranchUsed(slots[..n]) + KeyCost(slots[n].key))
  {
    if FillAbove50(BranchUsed(slots)) {
      var init := slots[..|slots| - 1];
      SplitPointMaximal(init);
      var n := SplitPoint(init);
      if n < |init| {
        assert slots[..n] == init[..n];
      }
    }
  }

  /** How many slots the branch split leaves on the left once a key has risen. */
  function BranchCut<C>(slots: seq<Slot<C>>, i: nat, key: Key): nat {
    var n := SplitPoint(slots);
    var m := if i <= n || SplitFallsBack(slots, i, key) then n + 1 else n;
    if m >= 2 then m - 1 else m
  }

  /** With key + slot at most a quarter of the node, the fallback is never taken. */
  lemma {:induction false} QuarterKeysNeverFallBack<C>(slots: seq<Slot<C>>, i: nat, key: Key)
    requires i <= |slots|
    requires BranchUsed(slots) <= MAX_SPACE
    requires 4 * KeyCost(key) <= MAX_SPACE && forall j :: 0 <= j < |slots| ==> 4 * KeyCost(slots[j].key) <= MAX_SPACE
    ensures !SplitFallsBack(slots, i, key)
  {
    var n := SplitPoint(slots);
    if n < |slots| {
      SplitPointMaximal(slots);
      BranchUsedCut(slots, n);
    }
  }

  lemma {:induction false} OneSlotUsed<C>(s: Slot<C>)
    ensures BranchUsed([s]) == KeyCost(s.key)
  {
    assert [s][..0] == [];
  }

  lemma {:induction false} UsedOfThree<C>(a: Slot<C>, b: Slot<C>, c: Slot<C>)
    ensures BranchUsed([a, b]) == BranchUsed([a]) + BranchUsed([b])
    ensures BranchUsed([a, b, c]) == BranchUsed([a, b]) + BranchUsed([c])
    ensures BranchUsed([a, b, c][1..]) == BranchUsed([b]) + BranchUsed([c])
  {
    assert [a, b] == [a] + [b] && [a, b, c] == [a, b] + [c] && [a, b, c][1..] == [b] + [c];
    BranchUsedConcat([a], [b]);
    BranchUsedConcat([a, b], [c]);
    BranchUsedConcat([b], [c]);
  }

  lemma {:induction false} SplitPointOfThree<C>(a: Slot<C>, b: Slot<C>, c: Slot<C>)
    requires !FillAbove50(BranchUsed([a])) && FillAbove50(BranchUsed([a]) + BranchUsed([b]))
    ensures SplitPoint([a, b, c]) == 1 && BranchUsed([a, b, c]) == BranchUsed([a]) + BranchUsed([b]) + BranchUsed([c])
    ensures BranchUsed([a, b, c][1..]) == BranchUsed([b]) + BranchUsed([c])
  {
    UsedOfThree(a, b, c);
    hide BranchUsed;
    var s := [a, b, c];
    assert s[..2] == [a, b] && s[..2][..1] == [a];
    assert SplitPoint(s) == SplitPoint(s[..2]) && SplitPoint(s[..2]) == SplitPoint(s[..2][..1]) == 1;
  }

  /** Keys in strictly ascending order of a comparator. */
  ghost predicate AscendingIn(cmp: (Key, Key) -> Ordering, ks: seq<Key>) {
    forall i, j :: 0 <= i < j < |ks| ==> cmp(ks[i], ks[j]) == Less
  }

  /** An empty key, and keys whose first byte is their number, are in the order of the default comparator. */
  lemma {:induction false} FirstBytesAscend(b: Key, c: Key, key: Key)
    requires b != [] && c != [] && key != [] && b[0] < c[0] < key[0]
    ensures AscendingIn(ByteArrayCompare, [[], b, c, key])
  {
    var ks: seq<Key> := [[], b, c, key];
    forall i, j | 0 <= i < j < |ks| ensures ByteArrayCompare(ks[i], ks[j]) == Less {
      assert BelowAt(ks[i], ks[j], 0);
      CompareIsLexicographic(ks[i], ks[j]);
    }
  }

  /** A full node of three slots with inline keys. */
  lemma {:induction false} FullBranch() returns (slots: seq<Slot<PageId>>, key: Key)
    ensures BranchUsed(slots) == MAX_SPACE && InlineKey(key) && forall j :: 0 <= j < |slots| ==> InlineKey(slots[j].key)
    ensures SplitFallsBack(slots, |slots|, key)
    ensures |slots| == 3 && slots[0] == Slot(2, []) && slots[1].left == 3 && slots[2].left == 4
    ensures slots[1].key != [] && slots[2].key != [] && key != []
    ensures slots[1].key[0] == 0 && slots[2].key[0] == 1 && key[0] == 2
  {
    var half := MAX_SPACE / 2;
    key := seq(half - SLOT_SIZE, _ => 2);
    var k0: Key, k1: Key, k2: Key := [], seq(half - SLOT_SIZE, _ => 0), seq(half - 2 * SLOT_SIZE, _ => 1);
    var a: Slot<PageId>, b: Slot<PageId>, c: Slot<PageId> := Slot(2, k0), Slot(3, k1), Slot(4, k2);
    slots := [a, b, c];
    OneSlotUsed(a);
    OneSlotUsed(b);
    OneSlotUsed(c);
    SplitPointOfThree(a, b, c);
    hide BranchUsed, SplitPoint;
    assert KeyCost(k0) == 8 && KeyCost(k1) == half && KeyCost(k2) == half - 8;
  }

  /**
   * Inline keys alone do not rule the fallback out: a full node with its keys in the default order and distinct
   * children, and a key and child to insert at its end. The split of this node is wrong.
   */
  lemma {:induction false} InlineKeysCanFallBack() returns (node: Branch<PageId>, key: Key, child: PageId)
    ensures BranchUsed(node.slots) == MAX_SPACE && InlineKey(key)
    ensures forall j :: 0 <= j < |node.slots| ==> InlineKey(node.slots[j].key)
    ensures AscendingIn(ByteArrayCompare, node.Keys() + [key])
    ensures node.Insert(|node.slots|, key, child, true).DistinctChildren()
    ensures SplitFallsBack(node.slots, |node.slots|, key)
  {
    var slots;
    slots, key := FullBranch();
    node, child := Branch(slots, 5), 6;
    FirstBytesAscend(slots[1].key, slots[2].key, key);
    assert node.Keys() + [key] == [[], slots[1].key, slots[2].key, key];
  }

  lemma {:induction false} ShortKeysNeverFallBack<C>(slots: seq<Slot<C>>, i: nat, key: Key)
    requires i <= |slots| && BranchFits(slots) && ShortKey(key)
    ensures !SplitFallsBack(slots, i, key) && InlineKey(key)
    ensures forall j :: 0 <= j < |slots| ==> InlineKey(slots[j].key)
  {
    assert forall j :: 0 <= j < |slots| ==> ShortKey(slots[j].key);
    QuarterKeysNeverFallBack(slots, i, key);
  }

  /** Merge(LeafNode&&, LeafNode&&): appends every record of right to left. */
  method MergeLeaves(left: seq<Rec>, right: seq<Rec>) returns (merged: seq<Rec>)
    requires LeafUsed(left) + LeafUsed(right) <= MAX_SPACE
    ensures merged == left + right
  {
    merged := left;
    for i := 0 to |right|
      invariant merged == left + right[..i]
    {
      hide LeafUsed;
      NextRecordFits(left, right, i);
      assert LeafUsed(merged) + RecCost(right[i]) <= MAX_SPACE;  // assert(success) of left.Append
      merged := merged + [right[i]];
    }
  }

  /** While slots are appended, the next one takes no more than all of them. */
  lemma {:induction false} NextSlotFits<C>(head: seq<Slot<C>>, slots: seq<Slot<C>>, i: nat)
    requires i < |slots|
    ensures BranchUsed(head + slots[..i]) + KeyCost(slots[i].key) <= BranchUsed(head) + BranchUsed(slots)
  {
    BranchUsedConcat(head, slots[..i]);
    BranchUsedCut(slots, i);
  }

  lemma {:induction false} NextRecordFits(head: seq<Rec>, recs: seq<Rec>, i: nat)
    requires i < |recs|
    ensures LeafUsed(head + recs[..i]) + RecCost(recs[i]) <= LeafUsed(head) + LeafUsed(recs)
  {
    LeafUsedConcat(head, recs[..i]);
    LeafUsedCut(recs, i);
  }

  /** Merge(BranchNode&&, BranchNode&&, down_key): the inverse of a split. */
  method MergeBranches<C>(left: Branch<C>, right: Branch<C>, down: Key, invalid: C) returns (merged: Branch<C>)
    requires BranchUsed(left.slots) + KeyCost(down) + BranchUsed(right.slots) <= MAX_SPACE
    ensures merged == Join(left, down, right)
  {
    merged := left.Insert(|left.slots|, down, invalid, true);
    ghost var head := left.slots + [Slot(left.tail, down)];
    BranchUsedConcat(left.slots, [Slot(left.tail, down)]);
    for i := 0 to |right.slots|
      invariant merged == Branch(head + right.slots[..i], invalid)
    {
      hide BranchUsed;
      NextSlotFits(head, right.slots, i);
      assert BranchUsed(merged.slots) + KeyCost(right.slots[i].key) <= MAX_SPACE;  // assert(success)
      merged := merged.Insert(|merged.slots|, right.slots[i].key, right.slots[i].left, false);
    }
    merged := Branch(merged.slots, right.tail);
  }
}
