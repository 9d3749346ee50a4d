/** Node contents and node space: what a page holds once its bytes are read as records. */
module Nodes {
  import opened Order

  type PageId = nat
  type TxId = nat

  const INVALID_PAGE: PageId := 0xffff_ffff  // kPageInvalidId
  const PAGE_MAX_COUNT: nat := 0x8000_0000   // kPageMaxCount

  type PageSize = n: nat | 0x100 <= n < 0x8000 && n % 2 == 0 witness 0x1000

  /** Options::page_size: every result holds for every even page size in range. */
  const PAGE_SIZE: PageSize

  const HEADER_SIZE: nat := 14    // sizeof(NodeHeader)
  const PADDING_SIZE: nat := 4    // tail_child / padding
  const SLOT_SIZE: nat := 8       // sizeof(Slot)
  const MAX_SPACE: nat := PAGE_SIZE - HEADER_SIZE - PADDING_SIZE
  const MAX_INLINE: nat := (MAX_SPACE - 2 * SLOT_SIZE) / 2  // MaxInlineRecordSize()

  /** A leaf record. */
  datatype Rec = Rec(key: Key, value: Value)

  /** A branch record: a key and the child to its left. */
  datatype Slot<+C> = Slot(left: C, key: Key)

  /** A branch node: slots in key order, then the child right of the last key. */
  datatype Branch<+C> = Branch(slots: seq<Slot<C>>, tail: C) {

    /** GetLeftChild: child i, where child |slots| is the tail. */
    function Child(i: nat): C
      requires i <= |slots|
    {
      if i == |slots| then tail else slots[i].left
    }

    /** SetLeftChild */
    function SetChild(i: nat, c: C): Branch<C>
      requires i <= |slots|
    {
      if i == |slots| then Branch(slots, c) else Branch(slots[i := Slot(c, slots[i].key)], tail)
    }

    /** BranchNode::Insert without the space check. */
    function Insert(i: nat, key: Key, c: C, isRightChild: bool): Branch<C>
      requires i <= |slots|
    {
      if !isRightChild then Branch(slots[..i] + [Slot(c, key)] + slots[i..], tail)
      else if i == |slots| then Branch(slots + [Slot(tail, key)], c)
      else Branch(slots[..i] + [Slot(slots[i].left, key), Slot(c, slots[i].key)] + slots[i + 1..], tail)
    }

    /** BranchNode::Delete */
    function Delete(i: nat, rightChild: bool): Branch<C>
      requires i < |slots|
    {
      if !rightChild then Branch(slots[..i] + slots[i + 1..], tail)
      else if i + 1 < |slots| then
        Branch(slots[..i] + [Slot(slots[i].left, slots[i + 1].key)] + slots[i + 2..], tail)
      else Branch(slots[..i], slots[i].left)
    }

    /** BranchNode::Update(slot, key) without the space check. */
    function SetKey(i: nat, key: Key): Branch<C>
      requires i < |slots|
    {
      Branch(slots[i := Slot(slots[i].left, key)], tail)
    }

    /** The keys in order. */
    function Keys(): (ks: seq<Key>) {
      seq(|slots|, i requires 0 <= i < |slots| => slots[i].key)
    }

    /** The children in order: one more than there are keys. */
    function Children(): (cs: seq<C>) {
      seq(|slots|, i requires 0 <= i < |slots| => slots[i].left) + [tail]
    }

    ghost predicate DistinctChildren() {
      forall i, j :: 0 <= i < j <= |slots| ==> Child(i) != Child(j)
    }
  }

  /** Two branches and the key between them read as one branch. */
  function Join<C>(left: Branch<C>, key: Key, right: Branch<C>): Branch<C> {
    Branch(left.slots + [Slot(left.tail, key)] + right.slots, right.tail)
  }

  function InsertAt<T>(s: seq<T>, i: nat, x: T): seq<T>
    requires i <= |s|
  {
    s[..i] + [x] + s[i..]
  }

  function RemoveAt<T>(s: seq<T>, i: nat): seq<T>
    requires i < |s|
  {
    s[..i] + s[i + 1..]
  }

  /** Inserting adds one key and one child, to the right or to the left of that key. */
  lemma {:induction false} InsertMeaning<C>(b: Branch<C>, i: nat, key: Key, c: C, isRightChild: bool)
    requires i <= |b.slots|
    ensures b.Insert(i, key, c, isRightChild).Keys() == InsertAt(b.Keys(), i, key)
    ensures b.Insert(i, key, c, isRightChild).Children()
         == InsertAt(b.Children(), if isRightChild then i + 1 else i, c)
  {
    var n, cs := b.Insert(i, key, c, isRightChild), b.Children();
    assert n.Keys() == InsertAt(b.Keys(), i, key);
    assert n.Children() == InsertAt(cs, if isRightChild then i + 1 else i, c);
  }

  /** Deleting what was inserted with its right child. */
  lemma {:induction false} DeleteInserted<C>(b: Branch<C>, i: nat, key: Key, c: C)
    requires i <= |b.slots|
    ensures i < |b.Insert(i, key, c, true).slots| && b.Insert(i, key, c, true).slots[i].key == key
    ensures b.Insert(i, key, c, true).Delete(i, true) == b
  {
    assert b.Insert(i, key, c, true).Delete(i, true).slots == b.slots;
  }

  /** Deleting removes one key and the child to its right or to its left. */
  lemma {:induction false} DeleteMeaning<C>(b: Branch<C>, i: nat, rightChild: bool)
    requires i < |b.slots|
    ensures b.Delete(i, rightChild).Keys() == RemoveAt(b.Keys(), i)
    ensures b.Delete(i, rightChild).Children() == RemoveAt(b.Children(), if rightChild then i + 1 else i)
  {
    var n := b.Delete(i, rightChild);
    assert n.Keys() == RemoveAt(b.Keys(), i);
    assert n.Children() == RemoveAt(b.Children(), if rightChild then i + 1 else i);
  }

  /** An interval of pages: the first id and how many. */
  datatype PagePair = PagePair(id: PageId, count: nat)

  // ----- space

  function RecCost(r: Rec): nat { SLOT_SIZE + |r.key| + |r.value| }

  function KeyCost(k: Key): nat { SLOT_SIZE + |k| }

  /** max_space - FreeSpaceAfterCompaction() of a leaf. */
  function LeafUsed(recs: seq<Rec>): nat {
    if recs == [] then 0 else LeafUsed(recs[..|recs| - 1]) + RecCost(recs[|recs| - 1])
  }

  /** max_space - FreeSpaceAfterCompaction() of a branch. */
  function BranchUsed<C>(slots: seq<Slot<C>>): nat {
    if slots == [] then 0 else BranchUsed(slots[..|slots| - 1]) + KeyCost(slots[|slots| - 1].key)
  }

  /** A record that is stored inline, in Put's terms: key + value <= MaxInlineRecordSize(). */
  predicate Inline(r: Rec) { |r.key| + |r.value| <= MAX_INLINE }

  /** LeafNode::Update finds room: what is left after taking out the old record takes the new one. */
  predicate RoomFor(recs: seq<Rec>, pos: nat, r: Rec)
    requires pos < |recs|
  {
    LeafUsed(recs) - RecCost(recs[pos]) + RecCost(r) <= MAX_SPACE
  }

  /** What a full node has left beside a branch just below 40% and one of 50%: a tenth of it, rounded up. */
  const MAX_SEPARATOR: nat := MAX_SPACE / 2 - (2 * MAX_SPACE - 1) / 5

  /** Keys for which every branch merge has room. */
  predicate ShortKey(k: Key) { KeyCost(k) <= MAX_SEPARATOR }

  lemma {:induction false} TenthIsShort(k: Key)
    requires 10 * KeyCost(k) <= MAX_SPACE
    ensures ShortKey(k)
  {}

  /** What the tree layer asks of a record. */
  predicate RecOk(r: Rec) { Inline(r) && ShortKey(r.key) }

  /** Records that fill at most one leaf. */
  ghost predicate LeafFits(recs: seq<Rec>) {
    LeafUsed(recs) <= MAX_SPACE && forall i :: 0 <= i < |recs| ==> RecOk(recs[i])
  }

  ghost predicate ShortKeys<C>(slots: seq<Slot<C>>) {
    forall i :: 0 <= i < |slots| ==> ShortKey(slots[i].key)
  }

  /** Slots that fill at most one branch. */
  ghost predicate BranchFits<C>(slots: seq<Slot<C>>) {
    BranchUsed(slots) <= MAX_SPACE && ShortKeys(slots)
  }

  /** GetFillRate() >= 0.4 */
  predicate FillAtLeast40(used: nat) { 5 * used >= 2 * MAX_SPACE }

  /** GetFillRate() > 0.5 */
  predicate FillAbove50(used: nat) { 2 * used > MAX_SPACE }

  lemma {:induction false} LeafUsedConcat(a: seq<Rec>, b: seq<Rec>)
    ensures LeafUsed(a + b) == LeafUsed(a) + LeafUsed(b)
  {
    if b == [] {
      assert a + b == a;
    } else {
      assert (a + b)[..|a + b| - 1] == a + b[..|b| - 1];
      LeafUsedConcat(a, b[..|b| - 1]);
    }
  }

  lemma {:induction false} BranchUsedConcat<C>(a: seq<Slot<C>>, b: seq<Slot<C>>)
    ensures BranchUsed(a + b) == BranchUsed(a) + BranchUsed(b)
  {
    if b == [] {
      assert a + b == a;
    } else {
      assert (a + b)[..|a + b| - 1] == a + b[..|b| - 1];
      BranchUsedConcat(a, b[..|b| - 1]);
    }
  }

  lemma {:induction false} LeafUsedCut(s: seq<Rec>, i: nat)
    requires i <= |s|
    ensures LeafUsed(s) == LeafUsed(s[..i]) + LeafUsed(s[i..])
    ensures i < |s| ==> LeafUsed(s[i..]) == RecCost(s[i]) + LeafUsed(s[i + 1..])
  {
    assert s == s[..i] + s[i..];
    LeafUsedConcat(s[..i], s[i..]);
    if i < |s| {
      assert s[i..] == [s[i]] + s[i + 1..];
      LeafUsedConcat([s[i]], s[i + 1..]);
    }
  }

  lemma {:induction false} BranchUsedCut<C>(s: seq<Slot<C>>, i: nat)
    requires i <= |s|
    ensures BranchUsed(s) == BranchUsed(s[..i]) + BranchUsed(s[i..])
    ensures i < |s| ==> BranchUsed(s[i..]) == KeyCost(s[i].key) + BranchUsed(s[i + 1..])
  {
    assert s == s[..i] + s[i..];
    BranchUsedConcat(s[..i], s[i..]);
    if i < |s| {
      assert s[i..] == [s[i]] + s[i + 1..];
      BranchUsedConcat([s[i]], s[i + 1..]);
    }
  }

  lemma {:induction false} LeafUsedInsert(s: seq<Rec>, i: nat, r: Rec)
    requires i <= |s|
    ensures LeafUsed(InsertAt(s, i, r)) == LeafUsed(s) + RecCost(r)
  {
    LeafUsedCut(s, i);
    LeafUsedConcat(s[..i] + [r], s[i..]);
    LeafUsedConcat(s[..i], [r]);
  }

  lemma {:induction false} LeafUsedRemove(s: seq<Rec>, i: nat)
    requires i < |s|
    ensures LeafUsed(RemoveAt(s, i)) + RecCost(s[i]) == LeafUsed(s)
  {
    LeafUsedCut(s, i);
    LeafUsedConcat(s[..i], s[i + 1..]);
  }

  /** Children cost nothing: only keys do. */
  lemma {:induction false} BranchUsedByKeys<C, D>(a: seq<Slot<C>>, b: seq<Slot<D>>)
    requires |a| == |b| && forall i :: 0 <= i < |a| ==> a[i].key == b[i].key
    ensures BranchUsed(a) == BranchUsed(b)
  {
    if a != [] {
      BranchUsedByKeys(a[..|a| - 1], b[..|b| - 1]);
    }
  }

  lemma {:induction false} BranchUsedSetChild<C>(b: Branch<C>, i: nat, c: C)
    requires i <= |b.slots|
    ensures BranchUsed(b.SetChild(i, c).slots) == BranchUsed(b.slots)
  {
    BranchUsedByKeys(b.SetChild(i, c).slots, b.slots);
  }

  lemma {:induction false} BranchUsedInsert<C>(b: Branch<C>, i: nat, key: Key, c: C, isRightChild: bool)
    requires i <= |b.slots|
    ensures BranchUsed(b.Insert(i, key, c, isRightChild).slots) == BranchUsed(b.slots) + KeyCost(key)
  {
    var plain := b.Insert(i, key, c, false);
    BranchUsedByKeys(b.Insert(i, key, c, isRightChild).slots, plain.slots);
    BranchUsedCut(b.slots, i);
    BranchUsedConcat(b.slots[..i] + [Slot(c, key)], b.slots[i..]);
    BranchUsedConcat(b.slots[..i], [Slot(c, key)]);
  }

  lemma {:induction false} BranchUsedDelete<C>(b: Branch<C>, i: nat, rightChild: bool)
    requires i < |b.slots|
    ensures BranchUsed(b.Delete(i, rightChild).slots) + KeyCost(b.slots[i].key) == BranchUsed(b.slots)
  {
    BranchUsedByKeys(b.Delete(i, rightChild).slots, b.Delete(i, false).slots);
    BranchUsedCut(b.slots, i);
    BranchUsedConcat(b.slots[..i], b.slots[i + 1..]);
  }

  lemma {:induction false} BranchUsedJoin<C>(l: Branch<C>, key: Key, r: Branch<C>)
    ensures BranchUsed(Join(l, key, r).slots) == BranchUsed(l.slots) + KeyCost(key) + BranchUsed(r.slots)
  {
    BranchUsedConcat(l.slots + [Slot(l.tail, key)], r.slots);
    BranchUsedConcat(l.slots, [Slot(l.tail, key)]);
  }
}
