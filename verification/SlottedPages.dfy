/** node.cpp: the slotted page. Slots grow up, records grow down; the page reads as a sequence of records. */
module SlottedPages {
  import opened Order
  import opened Nodes

  /** struct Slot: aux is value_size in a leaf and left_child in a branch. */
  datatype SlotData = SlotData(offset: nat, keySize: nat, aux: nat)

  /** What a slot and the bytes it points to say. */
  datatype Cell = Cell(keySize: nat, aux: nat, bytes: seq<Byte>)

  /** The size of a record. */
  function Size(leaf: bool, s: SlotData): nat { s.keySize + if leaf then s.aux else 0 }

  function SumSizes(leaf: bool, slots: seq<SlotData>): nat {
    if slots == [] then 0 else SumSizes(leaf, slots[..|slots| - 1]) + Size(leaf, slots[|slots| - 1])
  }

  /** SlotSpace(): where the slots end. */
  function SlotSpace(count: nat): nat { HEADER_SIZE + PADDING_SIZE + SLOT_SIZE * count }

  /** Two records share no byte. */
  predicate Apart(leaf: bool, a: SlotData, b: SlotData) {
    a.offset + Size(leaf, a) <= b.offset || b.offset + Size(leaf, b) <= a.offset
  }

  predicate Within(leaf: bool, s: SlotData, dataOffset: int) {
    dataOffset <= s.offset && s.offset + Size(leaf, s) <= PAGE_SIZE
  }

  /** The records but that of slot skip lie apart from each other inside [dataOffset, page size). */
  ghost predicate Laid(leaf: bool, slots: seq<SlotData>, dataOffset: nat, skip: int) {
    && (forall i :: 0 <= i < |slots| && i != skip ==> Within(leaf, slots[i], dataOffset))
    && (forall i, j :: 0 <= i < j < |slots| && i != skip && j != skip ==> Apart(leaf, slots[i], slots[j]))
  }

  function CellAt(leaf: bool, buf: seq<Byte>, s: SlotData): Cell
    requires |buf| == PAGE_SIZE && s.offset + Size(leaf, s) <= PAGE_SIZE
  {
    Cell(s.keySize, s.aux, buf[s.offset..s.offset + Size(leaf, s)])
  }

  ghost predicate Inside(leaf: bool, slots: seq<SlotData>) {
    forall i :: 0 <= i < |slots| ==> slots[i].offset + Size(leaf, slots[i]) <= PAGE_SIZE
  }

  ghost function CellsOf(leaf: bool, buf: seq<Byte>, slots: seq<SlotData>): (cs: seq<Cell>)
    requires |buf| == PAGE_SIZE && Inside(leaf, slots)
    ensures |cs| == |slots|
  {
    seq(|slots|, i requires 0 <= i < |slots| => CellAt(leaf, buf, slots[i]))
  }

  lemma {:induction false} SumSizesConcat(leaf: bool, a: seq<SlotData>, b: seq<SlotData>)
    ensures SumSizes(leaf, a + b) == SumSizes(leaf, a) + SumSizes(leaf, b)
  {
    if b == [] {
      assert a + b == a;
    } else {
      assert (a + b)[..|a + b| - 1] == a + b[..|b| - 1];
      SumSizesConcat(leaf, a, b[..|b| - 1]);
    }
  }

  lemma {:induction false} SumSizesAt(leaf: bool, s: seq<SlotData>, i: nat)
    requires i < |s|
    ensures SumSizes(leaf, s) == SumSizes(leaf, s[..i]) + Size(leaf, s[i]) + SumSizes(leaf, s[i + 1..])
  {
    assert s == s[..i] + [s[i]] + s[i + 1..];
    SumSizesConcat(leaf, s[..i] + [s[i]], s[i + 1..]);
    SumSizesConcat(leaf, s[..i], [s[i]]);
    assert [s[i]][..0] == [];
  }

  lemma {:induction false} SumSizesSet(leaf: bool, s: seq<SlotData>, i: nat, x: SlotData)
    requires i < |s|
    ensures SumSizes(leaf, s[i := x]) == SumSizes(leaf, s) - Size(leaf, s[i]) + Size(leaf, x)
  {
    SumSizesAt(leaf, s, i);
    SumSizesAt(leaf, s[i := x], i);
    assert s[i := x][..i] == s[..i] && s[i := x][i + 1..] == s[i + 1..];
  }

  lemma {:induction false} SumSizesInsert(leaf: bool, s: seq<SlotData>, i: nat, x: SlotData)
    requires i <= |s|
    ensures SumSizes(leaf, InsertAt(s, i, x)) == SumSizes(leaf, s) + Size(leaf, x)
  {
    var s' := InsertAt(s, i, x);
    SumSizesAt(leaf, s', i);
    assert s'[..i] == s[..i] && s'[i + 1..] == s[i..] && s == s[..i] + s[i..];
    SumSizesConcat(leaf, s[..i], s[i..]);
  }

  lemma {:induction false} SumSizesRemove(leaf: bool, s: seq<SlotData>, i: nat)
    requires i < |s|
    ensures SumSizes(leaf, RemoveAt(s, i)) + Size(leaf, s[i]) == SumSizes(leaf, s)
  {
    SumSizesAt(leaf, s, i);
    SumSizesConcat(leaf, s[..i], s[i + 1..]);
  }

  lemma {:induction false} SumSizesPrefix(leaf: bool, s: seq<SlotData>, i: nat, j: nat)
    requires i <= j <= |s|
    ensures SumSizes(leaf, s[..i]) <= SumSizes(leaf, s[..j]) <= SumSizes(leaf, s)
  {
    assert s[..j] == s[..i] + s[i..j] && s == s[..j] + s[j..];
    SumSizesConcat(leaf, s[..i], s[i..j]);
    SumSizesConcat(leaf, s[..j], s[j..]);
  }

  /** Where compaction puts record i: records follow each other from the end of the page downwards. */
  ghost function PackedSlot(leaf: bool, slots: seq<SlotData>, i: nat): SlotData
    requires i < |slots| && SumSizes(leaf, slots) <= PAGE_SIZE
  {
    SumSizesPrefix(leaf, slots, i + 1, i + 1);
    slots[i].(offset := PAGE_SIZE - SumSizes(leaf, slots[..i + 1]))
  }

  /** r is what compaction makes of the slots. */
  ghost predicate IsPacked(leaf: bool, slots: seq<SlotData>, r: seq<SlotData>)
    requires SumSizes(leaf, slots) <= PAGE_SIZE
  {
    |r| == |slots| && forall i :: 0 <= i < |slots| ==> r[i] == PackedSlot(leaf, slots, i)
  }

  lemma {:induction false} PackedStep(leaf: bool, slots: seq<SlotData>, i: nat)
    requires i < |slots| && SumSizes(leaf, slots) <= PAGE_SIZE
    ensures PackedSlot(leaf, slots, i).offset + Size(leaf, slots[i]) == PAGE_SIZE - SumSizes(leaf, slots[..i])
    ensures SumSizes(leaf, slots[..i + 1]) == SumSizes(leaf, slots[..i]) + Size(leaf, slots[i]) <= SumSizes(leaf, slots)
  {
    assert slots[..i + 1][..i] == slots[..i];
    SumSizesPrefix(leaf, slots, i, i + 1);
  }

  /** Compaction moves records apart, to the end of the page. */
  lemma {:induction false} PackedLaid(leaf: bool, slots: seq<SlotData>, r: seq<SlotData>)
    requires SumSizes(leaf, slots) <= PAGE_SIZE && IsPacked(leaf, slots, r)
    ensures Laid(leaf, r, PAGE_SIZE - SumSizes(leaf, slots), -1)
  {
    hide SumSizes;
    forall i | 0 <= i < |r| ensures Within(leaf, r[i], PAGE_SIZE - SumSizes(leaf, slots)) {
      PackedStep(leaf, slots, i);
    }
    forall i, j | 0 <= i < j < |r| ensures Apart(leaf, r[i], r[j]) {
      PackedStep(leaf, slots, j);
      SumSizesPrefix(leaf, slots, i + 1, j);
    }
  }

  lemma {:induction false} SumSizesSame(leaf: bool, a: seq<SlotData>, b: seq<SlotData>)
    requires |a| == |b| && forall i :: 0 <= i < |a| ==> a[i].keySize == b[i].keySize && a[i].aux == b[i].aux
    ensures SumSizes(leaf, a) == SumSizes(leaf, b)
  {
    if a != [] { SumSizesSame(leaf, a[..|a| - 1], b[..|b| - 1]); }
  }

  // ----- cells through the changes of a page

  /** Storing below all records changes no record. */
  lemma {:induction false} StoreKeeps(leaf: bool, buf: seq<Byte>, buf': seq<Byte>, s: SlotData, dataOffset: nat)
    requires |buf| == |buf'| == PAGE_SIZE && Within(leaf, s, dataOffset)
    requires forall k :: dataOffset <= k < PAGE_SIZE ==> buf'[k] == buf[k]
    ensures CellAt(leaf, buf', s) == CellAt(leaf, buf, s)
  {}

  /** The layout after a record has been stored right below dataOffset. */
  lemma {:induction false} StoredLaid(leaf: bool, slots: seq<SlotData>, i: nat, x: SlotData, dataOffset: nat)
    requires i < |slots| && Laid(leaf, slots, dataOffset, i) && dataOffset <= PAGE_SIZE
    requires x.offset + Size(leaf, x) == dataOffset
    ensures Laid(leaf, slots[i := x], x.offset, -1)
  {
    var r := slots[i := x];
    forall a, b | 0 <= a < b < |r| ensures Apart(leaf, r[a], r[b]) {
      if a != i && b != i { assert Apart(leaf, slots[a], slots[b]); }
    }
  }

  lemma {:induction false} InsertedLaid(leaf: bool, slots: seq<SlotData>, i: nat, x: SlotData, dataOffset: nat)
    requires i <= |slots| && Laid(leaf, slots, dataOffset, -1)
    ensures Laid(leaf, InsertAt(slots, i, x), dataOffset, i)
  {
    var r := InsertAt(slots, i, x);
    forall a | 0 <= a < |r| && a != i ensures Within(leaf, r[a], dataOffset) {
      assert r[a] == slots[if a < i then a else a - 1];
    }
    forall a, b | 0 <= a < b < |r| && a != i && b != i ensures Apart(leaf, r[a], r[b]) {
      assert r[a] == slots[if a < i then a else a - 1] && r[b] == slots[if b < i then b else b - 1];
    }
  }

  lemma {:induction false} RemovedLaid(leaf: bool, slots: seq<SlotData>, i: nat, dataOffset: nat)
    requires i < |slots| && Laid(leaf, slots, dataOffset, -1)
    ensures Laid(leaf, RemoveAt(slots, i), dataOffset, -1)
  {
    var r := RemoveAt(slots, i);
    forall a | 0 <= a < |r| ensures Within(leaf, r[a], dataOffset) {
      assert r[a] == slots[if a < i then a else a + 1];
    }
    forall a, b | 0 <= a < b < |r| ensures Apart(leaf, r[a], r[b]) {
      assert r[a] == slots[if a < i then a else a + 1] && r[b] == slots[if b < i then b else b + 1];
    }
  }

  /** A record shrunk to nothing still lies apart from the others. */
  lemma {:induction false} EmptiedLaid(leaf: bool, slots: seq<SlotData>, i: nat, x: SlotData, dataOffset: nat)
    requires i < |slots| && Laid(leaf, slots, dataOffset, -1) && x.offset == slots[i].offset && Size(leaf, x) == 0
    ensures Laid(leaf, slots[i := x], dataOffset, -1)
  {
    var r := slots[i := x];
    assert Within(leaf, slots[i], dataOffset);
    forall a, b | 0 <= a < b < |r| ensures Apart(leaf, r[a], r[b]) { assert Apart(leaf, slots[a], slots[b]); }
  }

  lemma {:induction false} LaidInside(leaf: bool, slots: seq<SlotData>, dataOffset: nat)
    requires Laid(leaf, slots, dataOffset, -1)
    ensures Inside(leaf, slots)
  {
    forall i | 0 <= i < |slots| ensures slots[i].offset + Size(leaf, slots[i]) <= PAGE_SIZE {
      assert Within(leaf, slots[i], dataOffset);
    }
  }

  /** The page's bytes after data has been copied to [at, at + |data|). */
  function Spliced(buf: seq<Byte>, at: nat, data: seq<Byte>): (r: seq<Byte>)
    requires at + |data| <= |buf|
    ensures |r| == |buf|
  {
    buf[..at] + data + buf[at + |data|..]
  }

  /** Storing a record for slot i: that cell is new, the others are as they were. */
  lemma {:induction false} StoredCell(leaf: bool, buf: seq<Byte>, slots: seq<SlotData>, i: nat, x: SlotData,
                                      dataOffset: nat, data: seq<Byte>, j: nat)
    requires |buf| == PAGE_SIZE && i < |slots| && j < |slots|
    requires Laid(leaf, slots, dataOffset, i) && dataOffset <= PAGE_SIZE
    requires x.offset + Size(leaf, x) == dataOffset && |data| == Size(leaf, x)
    ensures j == i ==> CellAt(leaf, Spliced(buf, x.offset, data), x) == Cell(x.keySize, x.aux, data)
    ensures j != i ==> Within(leaf, slots[j], dataOffset)
                       && CellAt(leaf, Spliced(buf, x.offset, data), slots[j]) == CellAt(leaf, buf, slots[j])
  {
    var buf' := Spliced(buf, x.offset, data);
    if j == i {
      assert buf'[x.offset..x.offset + |data|] == data;
    } else {
      StoreKeeps(leaf, buf, buf', slots[j], dataOffset);
    }
  }

  /** Insert: a slot is moved in and its record stored. */
  lemma {:induction false} InsertedCells(leaf: bool, buf: seq<Byte>, slots: seq<SlotData>, i: nat, x: SlotData,
                                         dataOffset: nat, data: seq<Byte>)
    requires |buf| == PAGE_SIZE && i <= |slots| && Laid(leaf, slots, dataOffset, -1) && dataOffset <= PAGE_SIZE
    requires x.offset + Size(leaf, x) == dataOffset && |data| == Size(leaf, x)
    ensures Inside(leaf, slots) && Inside(leaf, InsertAt(slots, i, x))
    ensures CellsOf(leaf, Spliced(buf, x.offset, data), InsertAt(slots, i, x))
         == InsertAt(CellsOf(leaf, buf, slots), i, Cell(x.keySize, x.aux, data))
  {
    hide Laid, SumSizes, Spliced, CellAt;
    var r := InsertAt(slots, i, x);
    InsertedLaid(leaf, slots, i, x, dataOffset);
    assert r[i := x] == r;
    StoredLaid(leaf, r, i, x, dataOffset);
    LaidInside(leaf, r, x.offset);
    LaidInside(leaf, slots, dataOffset);
    var cs := CellsOf(leaf, Spliced(buf, x.offset, data), r);
    var ds := InsertAt(CellsOf(leaf, buf, slots), i, Cell(x.keySize, x.aux, data));
    forall j | 0 <= j < |r| ensures cs[j] == ds[j] {
      StoredCell(leaf, buf, r, i, x, dataOffset, data, j);
    }
  }

  /** Update: the record of a slot is stored anew. */
  lemma {:induction false} ReplacedCells(leaf: bool, buf: seq<Byte>, slots: seq<SlotData>, i: nat, x: SlotData,
                                         dataOffset: nat, data: seq<Byte>)
    requires |buf| == PAGE_SIZE && i < |slots| && Laid(leaf, slots, dataOffset, -1) && dataOffset <= PAGE_SIZE
    requires x.offset + Size(leaf, x) == dataOffset && |data| == Size(leaf, x)
    ensures Inside(leaf, slots) && Inside(leaf, slots[i := x])
    ensures CellsOf(leaf, Spliced(buf, x.offset, data), slots[i := x])
         == CellsOf(leaf, buf, slots)[i := Cell(x.keySize, x.aux, data)]
  {
    hide SumSizes, Spliced, CellAt;
    assert Laid(leaf, slots, dataOffset, i);
    StoredLaid(leaf, slots, i, x, dataOffset);
    LaidInside(leaf, slots[i := x], x.offset);
    LaidInside(leaf, slots, dataOffset);
    hide Laid;
    var r := slots[i := x];
    var cs := CellsOf(leaf, Spliced(buf, x.offset, data), r);
    var ds := CellsOf(leaf, buf, slots)[i := Cell(x.keySize, x.aux, data)];
    forall j | 0 <= j < |r| ensures cs[j] == ds[j] {
      StoredCell(leaf, buf, slots, i, x, dataOffset, data, j);
    }
  }

  class SlottedPage {
    const leaf: bool                // header.type
    const txid: TxId                // header.last_modified_txid
    const buf: array<Byte>          // the page; records lie in it from dataOffset on
    var slots: seq<SlotData>        // data_->slots[0..count)
    var spaceUsed: nat
    var dataOffset: nat
    var tailChild: PageId

    /** All but perhaps the record of slot skip is in order. */
    ghost predicate ValidBut(skip: int)
      reads this, buf
    {
      && buf.Length == PAGE_SIZE && SlotSpace(|slots|) <= dataOffset <= PAGE_SIZE
      && Laid(leaf, slots, dataOffset, skip)
      && spaceUsed == SumSizes(leaf, slots) - (if 0 <= skip < |slots| then Size(leaf, slots[skip]) else 0)
      && spaceUsed <= PAGE_SIZE - dataOffset
    }

    ghost predicate Valid()
      reads this, buf
    {
      ValidBut(-1)
    }

    /** What the page holds. */
    ghost function Cells(): seq<Cell>
      requires Valid()
      reads this, buf
    {
      LaidInside(leaf, slots, dataOffset);
      CellsOf(leaf, buf[..], slots)
    }

    /** Build */
    constructor (leaf: bool, txid: TxId, tailChild: PageId)
      ensures Valid() && Cells() == [] && fresh(buf)
      ensures this.leaf == leaf && this.txid == txid && this.tailChild == tailChild
    {
      this.leaf, this.txid, this.tailChild := leaf, txid, tailChild;
      buf := new Byte[PAGE_SIZE](i => 0);
      slots, spaceUsed, dataOffset := [], 0, PAGE_SIZE;
    }

    /** Node::Copy: the bytes of another page, as a page of transaction txid. */
    constructor Copy(from: SlottedPage, txid: TxId)
      requires from.Valid()
      ensures Valid() && Cells() == from.Cells() && fresh(buf)
      ensures leaf == from.leaf && this.txid == txid && tailChild == from.tailChild
    {
      this.leaf, this.txid, this.tailChild := from.leaf, txid, from.tailChild;
      slots, spaceUsed, dataOffset := from.slots, from.spaceUsed, from.dataOffset;
      buf := new Byte[PAGE_SIZE](i requires 0 <= i < from.buf.Length reads from.buf => from.buf[i]);
      new;
      assert buf[..] == from.buf[..];
    }

    /** CopyRecordRange: the records are copied to the end of the temporary page, and the slots point there. */
    method CopyRecordRange(tmp: array<Byte>) returns (packed: seq<SlotData>)
      requires Valid() && tmp.Length == PAGE_SIZE && tmp != buf
      modifies tmp
      ensures Copied(leaf, buf[..], tmp[..], slots, packed, |slots|)
    {
      hide SumSizes, Laid, PackedSlot, CellAt, Spliced, Copied;
      packed := [];
      var offset := PAGE_SIZE;
      LaidInside(leaf, slots, dataOffset);
      CopyStart(leaf, buf[..], tmp[..], slots);
      for i := 0 to |slots|
        invariant Copied(leaf, buf[..], tmp[..], slots, packed, i) && offset == PAGE_SIZE - SumSizes(leaf, slots[..i])
      {
        PackedStep(leaf, slots, i);
        var size, from := Size(leaf, slots[i]), slots[i].offset;
        CopyStep(leaf, buf[..], tmp[..], slots, packed, i);
        offset := offset - size;
        Memcpy(tmp, offset, buf[from..from + size]);
        packed := packed + [slots[i].(offset := offset)];
      }
    }

    /** Compactify: free space becomes one piece; every record reads as before. */
    method Compactify()
      requires Valid() && SlotSpace(|slots|) + spaceUsed <= PAGE_SIZE
      modifies this`slots, this`dataOffset, buf
      ensures Valid() && Cells() == old(Cells()) && |slots| == |old(slots)|
      ensures dataOffset == PAGE_SIZE - spaceUsed
    {
      hide SumSizes, Laid, CellAt, Spliced, Copied, CellsOf;
      var tmp := new Byte[PAGE_SIZE](i => 0);
      var packed := CopyRecordRange(tmp);
      LaidInside(leaf, slots, dataOffset);
      CopiedAll(leaf, buf[..], tmp[..], slots, packed);
      ghost var buf0 := buf[..];
      dataOffset := PAGE_SIZE - spaceUsed;
      Memcpy(buf, dataOffset, tmp[dataOffset..]);
      CopiedBack(leaf, buf0, tmp[..], packed, dataOffset);
      slots := packed;
    }

    /**
     * RequestSpaceFor: room for a record, and for its slot if needed. The page is compacted only when the record does
     * not fit as it is and does fit then; in every other case nothing changes.
     */
    method RequestSpaceFor(key: Key, value: Value, slotNeeded: bool) returns (ok: bool)
      requires Valid() && |key| + |value| <= MAX_INLINE
      modifies this`slots, this`dataOffset, buf
      ensures Valid() && Cells() == old(Cells()) && |slots| == |old(slots)|
      ensures var need := |key| + |value| + if slotNeeded then SLOT_SIZE else 0;
        && (ok <==> SlotSpace(|slots|) + spaceUsed + need <= PAGE_SIZE)
        && (ok ==> SlotSpace(|slots|) + need <= dataOffset)
      ensures !ok ==> slots == old(slots) && dataOffset == old(dataOffset) && buf[..] == old(buf[..])
      ensures ok ==>
        if SlotSpace(|slots|) + |key| + |value| + (if slotNeeded then SLOT_SIZE else 0) <= old(dataOffset) then
          slots == old(slots) && dataOffset == old(dataOffset) && buf[..] == old(buf[..])
        else dataOffset == PAGE_SIZE - spaceUsed
    {
      hide SumSizes, Laid, CellsOf;
      var need := |key| + |value| + if slotNeeded then SLOT_SIZE else 0;
      if need <= dataOffset - SlotSpace(|slots|) {
        return true;
      }
      if need <= PAGE_SIZE - SlotSpace(|slots|) - spaceUsed {
        Compactify();
        return true;
      }
      return false;
    }

    /** StoreRecord: the record goes right below the others, and slot i points to it. */
    method StoreRecord(i: nat, key: Key, value: Value)
      requires ValidBut(i) && i < |slots| && SlotSpace(|slots|) + |key| + |value| <= dataOffset && (leaf || value == [])
      modifies this`slots, this`spaceUsed, this`dataOffset, buf
      ensures Valid() && dataOffset == old(dataOffset) - |key| - |value|
      ensures slots == old(slots)[i := SlotData(dataOffset, |key|, if leaf then |value| else old(slots)[i].aux)]
      ensures buf[..] == Spliced(old(buf[..]), dataOffset, key + value)
    {
      hide SumSizes, Laid;
      var size := |key| + |value|;
      var x := SlotData(dataOffset - size, |key|, if leaf then |value| else slots[i].aux);
      StoredLaid(leaf, slots, i, x, dataOffset);
      SumSizesSet(leaf, slots, i, x);
      SplicedTwice(buf[..], x.offset, key, value);
      dataOffset := dataOffset - size;
      spaceUsed := spaceUsed + size;
      slots := slots[i := x];
      Memcpy(buf, dataOffset, key);
      if value != [] {
        Memcpy(buf, dataOffset + |key|, value);
      }
    }

    /** memmove and StoreRecord: a new slot i and its record. aux: the left child of a branch's slot. */
    method InsertRecord(i: nat, key: Key, value: Value, aux: nat)
      requires Valid() && i <= |slots| && SlotSpace(|slots| + 1) + |key| + |value| <= dataOffset
      requires if leaf then aux == |value| else value == []
      modifies this`slots, this`spaceUsed, this`dataOffset, buf
      ensures Valid() && Cells() == InsertAt(old(Cells()), i, Cell(|key|, aux, key + value))
    {
      hide SumSizes, Laid, CellsOf, Spliced;
      ghost var buf0, slots0, offset0 := buf[..], slots, dataOffset;
      var stale := SlotData(dataOffset, 0, aux);
      InsertedLaid(leaf, slots, i, stale, dataOffset);
      SumSizesInsert(leaf, slots, i, stale);
      slots := InsertAt(slots, i, stale);
      StoreRecord(i, key, value);
      ghost var x := slots[i];
      assert slots == InsertAt(slots0, i, x);
      InsertedCells(leaf, buf0, slots0, i, x, offset0, key + value);
    }

    /** DeleteRecord: the slot's record becomes empty; its bytes stay where they are. */
    method DeleteRecord(i: nat)
      requires Valid() && i < |slots|
      modifies this`slots, this`spaceUsed
      ensures Valid() && slots == old(slots)[i := Emptied(leaf, old(slots)[i])]
      ensures spaceUsed == old(spaceUsed) - Size(leaf, old(slots)[i])
    {
      hide SumSizes, Laid;
      EmptiedLaid(leaf, slots, i, Emptied(leaf, slots[i]), dataOffset);
      SumSizesSet(leaf, slots, i, Emptied(leaf, slots[i]));
      SumSizesAt(leaf, slots, i);
      spaceUsed := spaceUsed - Size(leaf, slots[i]);
      slots := slots[i := Emptied(leaf, slots[i])];
    }

    /** RestoreRecord: undoes DeleteRecord when nothing was written in between. */
    method RestoreRecord(i: nat, saved: SlotData)
      requires i < |slots| && slots[i] == Emptied(leaf, saved)
      modifies this`slots, this`spaceUsed
      ensures slots == old(slots)[i := saved] && spaceUsed == old(spaceUsed) + Size(leaf, saved)
    {
      spaceUsed := spaceUsed + Size(leaf, saved);
      slots := slots[i := saved];
    }

    lemma {:induction false} EmptySkipped(i: nat)
      requires Valid() && i < |slots| && Size(leaf, slots[i]) == 0
      ensures ValidBut(i)
    {
      hide SumSizes;
    }

    /** LeafNode::Update and BranchNode::Update(slot, key): the new record is in place, or nothing has changed. */
    method UpdateRecord(i: nat, key: Key, value: Value) returns (ok: bool)
      requires Valid() && i < |slots| && |key| + |value| <= MAX_INLINE && (leaf || value == [])
      modifies this`slots, this`spaceUsed, this`dataOffset, buf
      ensures Valid() && |slots| == |old(slots)|
      ensures ok <==>
              SlotSpace(|old(slots)|) + old(spaceUsed) - Size(leaf, old(slots)[i]) + |key| + |value| <= PAGE_SIZE
      ensures ok ==> Cells() == old(Cells())[i := Cell(|key|, if leaf then |value| else old(slots)[i].aux, key + value)]
      ensures !ok ==> slots == old(slots) && spaceUsed == old(spaceUsed)
      ensures !ok ==> dataOffset == old(dataOffset) && buf[..] == old(buf[..])
    {
      hide SumSizes, Laid, CellsOf, Spliced;
      ghost var cells0 := Cells();
      var saved := slots[i];
      ghost var slots0 := slots;
      DeleteRecord(i);
      ghost var cells1 := Cells();
      EmptiedCells(leaf, buf[..], slots0, i, dataOffset);
      ok := RequestSpaceFor(key, value, false);
      if !ok {
        RestoreRecord(i, saved);
        assert slots == slots0;
        return;
      }
      CellSlot(leaf, buf[..], slots, i, dataOffset);
      EmptySkipped(i);
      ghost var buf2, slots2, offset2 := buf[..], slots, dataOffset;
      StoreRecord(i, key, value);
      ReplacedCells(leaf, buf2, slots2, i, slots[i], offset2, key + value);
    }

    /** The slot and the record of the slot go. */
    method RemoveRecord(i: nat)
      requires Valid() && i < |slots|
      modifies this`slots, this`spaceUsed
      ensures Valid() && Cells() == RemoveAt(old(Cells()), i)
    {
      hide SumSizes, Laid;
      RemovedLaid(leaf, slots, i, dataOffset);
      SumSizesRemove(leaf, slots, i);
      LaidInside(leaf, slots, dataOffset);
      spaceUsed := spaceUsed - Size(leaf, slots[i]);
      slots := RemoveAt(slots, i);
      LaidInside(leaf, slots, dataOffset);
    }

    /** SetLeftChild of a slot. */
    method SetSlotChild(i: nat, child: PageId)
      requires Valid() && !leaf && i < |slots|
      modifies this`slots
      ensures Valid() && Cells() == old(Cells())[i := old(Cells())[i].(aux := child)]
    {
      hide SumSizes, Laid;
      ChildLaid(slots, i, child, dataOffset);
      SumSizesSet(false, slots, i, slots[i].(aux := child));
      LaidInside(leaf, slots, dataOffset);
      slots := slots[i := slots[i].(aux := child)];
    }

    /** The records of a leaf. */
    ghost function Recs(): seq<Rec>
      requires Valid()
      reads this, buf
    {
      LeafRecs(Cells())
    }

    /** The content of a branch. */
    ghost function Content(): Branch<PageId>
      requires Valid()
      reads this, buf
    {
      BranchOf(Cells(), tailChild)
    }

    lemma {:induction false} Sizes()
      requires Valid()
      ensures |Recs()| == |Content().slots| == |slots|
    {
      LaidInside(leaf, slots, dataOffset);
    }

    /** max_space - FreeSpaceAfterCompaction(), the numerator of GetFillRate. */
    function UsedSpace(): (used: nat)
      requires Valid()
      reads this, buf
      ensures leaf ==> used == LeafUsed(Recs())
      ensures !leaf ==> used == BranchUsed(Content().slots)
    {
      UsedOf();
      SLOT_SIZE * |slots| + spaceUsed
    }

    lemma {:induction false} UsedOf()
      requires Valid()
      ensures leaf ==> SLOT_SIZE * |slots| + spaceUsed == LeafUsed(Recs())
      ensures !leaf ==> SLOT_SIZE * |slots| + spaceUsed == BranchUsed(Content().slots)
      ensures SlotSpace(|slots|) + spaceUsed == HEADER_SIZE + PADDING_SIZE + (SLOT_SIZE * |slots| + spaceUsed)
    {
      LaidInside(leaf, slots, dataOffset);
      if leaf { LeafUsedCells(buf[..], slots); } else { BranchUsedCells(buf[..], slots); }
    }

    /** LeafNode::Insert */
    method LeafInsert(i: nat, key: Key, value: Value) returns (ok: bool)
      requires Valid() && leaf && i <= |slots| && Inline(Rec(key, value))
      modifies this`slots, this`spaceUsed, this`dataOffset, buf
      ensures Valid()
      ensures ok <==> LeafUsed(old(Recs())) + RecCost(Rec(key, value)) <= MAX_SPACE
      ensures Recs() == if ok then InsertAt(old(Recs()), i, Rec(key, value)) else old(Recs())
    {
      hide SumSizes, Laid, CellsOf, LeafUsed, LeafRecs;
      UsedOf();
      ghost var cells := Cells();
      ok := RequestSpaceFor(key, value, true);
      if ok {
        InsertRecord(i, key, value, |value|);
        LeafRecsInsert(cells, i, key, value);
      }
    }

    /** LeafNode::Update */
    method LeafUpdate(i: nat, key: Key, value: Value) returns (ok: bool)
      requires Valid() && leaf && i < |slots| && Inline(Rec(key, value))
      modifies this`slots, this`spaceUsed, this`dataOffset, buf
      ensures Valid()
      ensures i < |old(Recs())| && (ok <==> RoomFor(old(Recs()), i, Rec(key, value)))
      ensures Recs() == if ok then old(Recs())[i := Rec(key, value)] else old(Recs())
    {
      hide SumSizes, Laid, CellsOf, LeafUsed, LeafRecs;
      UsedOf();
      CellSlot(leaf, buf[..], slots, i, dataOffset);
      LeafRecsAt(Cells(), i);
      LeafRecsSet(Cells(), i, key, value);
      CellBytes(leaf, buf[..], slots, i, dataOffset);
      ok := UpdateRecord(i, key, value);
    }

    /** LeafNode::Delete */
    method LeafDelete(i: nat)
      requires Valid() && leaf && i < |slots|
      modifies this`slots, this`spaceUsed
      ensures Valid() && i < |old(Recs())| && Recs() == RemoveAt(old(Recs()), i)
    {
      LeafRecsRemove(Cells(), i);
      RemoveRecord(i);
    }

    /** BranchNode::Insert */
    method BranchInsert(i: nat, key: Key, child: PageId, isRightChild: bool) returns (ok: bool)
      requires Valid() && !leaf && i <= |slots| && |key| <= MAX_INLINE
      modifies this`slots, this`spaceUsed, this`dataOffset, this`tailChild, buf
      ensures Valid()
      ensures ok <==> BranchUsed(old(Content()).slots) + KeyCost(key) <= MAX_SPACE
      ensures i <= |old(Content()).slots|
      ensures Content() == if ok then old(Content()).Insert(i, key, child, isRightChild) else old(Content())
    {
      hide SumSizes, Laid, CellsOf, BranchUsed, BranchOf;
      UsedOf();
      ghost var cells, tail := Cells(), tailChild;
      BranchInsertCells(cells, tail, i, key, child);
      ok := RequestSpaceFor(key, [], true);
      if !ok {
        return;
      }
      var left := child;
      if isRightChild {
        if i == |slots| {
          left := tailChild;
          tailChild := child;
        } else {
          CellSlot(leaf, buf[..], slots, i, dataOffset);
          left := slots[i].aux;
          SetSlotChild(i, child);
        }
      }
      assert key + [] == key;
      InsertRecord(i, key, [], left);
    }

    /** BranchNode::SetLeftChild */
    method SetLeftChild(i: nat, child: PageId)
      requires Valid() && !leaf && i <= |slots|
      modifies this`slots, this`tailChild
      ensures Valid() && i <= |old(Content()).slots| && Content() == old(Content()).SetChild(i, child)
    {
      hide SumSizes, Laid, CellsOf, BranchOf;
      BranchLinkCells(Cells(), tailChild, i, child);
      if i == |slots| {
        tailChild := child;
      } else {
        SetSlotChild(i, child);
      }
    }

    /** BranchNode::Delete */
    method BranchDelete(i: nat, rightChild: bool)
      requires Valid() && !leaf && i < |slots|
      modifies this`slots, this`spaceUsed, this`tailChild
      ensures Valid() && i < |old(Content()).slots| && Content() == old(Content()).Delete(i, rightChild)
    {
      hide SumSizes, Laid, CellsOf, BranchOf;
      ghost var cells, tail := Cells(), tailChild;
      BranchDeleteCells(cells, tail, i);
      CellSlot(leaf, buf[..], slots, i, dataOffset);
      if rightChild {
        if i + 1 < |slots| {
          SetSlotChild(i + 1, slots[i].aux);
        } else {
          tailChild := slots[i].aux;
        }
      }
      RemoveRecord(i);
    }

    /** BranchNode::Update(slot_id, key) */
    method BranchUpdate(i: nat, key: Key) returns (ok: bool)
      requires Valid() && !leaf && i < |slots| && |key| <= MAX_INLINE
      modifies this`slots, this`spaceUsed, this`dataOffset, buf
      ensures Valid() && i < |old(Content()).slots|
      ensures ok <==>
              BranchUsed(old(Content()).slots) - KeyCost(old(Content()).slots[i].key) + KeyCost(key) <= MAX_SPACE
      ensures Content() == if ok then old(Content()).SetKey(i, key) else old(Content())
    {
      hide SumSizes, Laid, CellsOf, BranchUsed, BranchOf;
      UsedOf();
      CellSlot(leaf, buf[..], slots, i, dataOffset);
      CellBytes(leaf, buf[..], slots, i, dataOffset);
      BranchSetCells(Cells(), tailChild, i, key);
      assert key + [] == key;
      ok := UpdateRecord(i, key, []);
    }
  }

  /** std::memcpy to at. */
  method Memcpy(dst: array<Byte>, at: nat, data: seq<Byte>)
    requires at + |data| <= dst.Length
    modifies dst
    ensures dst[..] == Spliced(old(dst[..]), at, data)
  {
    forall k | 0 <= k < |data| { dst[at + k] := data[k]; }
  }

  /** Compaction has copied the first i records. */
  ghost predicate Copied(leaf: bool, buf: seq<Byte>, tmp: seq<Byte>, slots: seq<SlotData>, packed: seq<SlotData>,
                         i: nat) {
    && |buf| == |tmp| == PAGE_SIZE && SumSizes(leaf, slots) <= PAGE_SIZE && Inside(leaf, slots)
    && |packed| == i <= |slots|
    && forall j :: 0 <= j < i ==>
         && packed[j] == PackedSlot(leaf, slots, j) && Within(leaf, packed[j], PAGE_SIZE - SumSizes(leaf, slots[..i]))
         && CellAt(leaf, tmp, packed[j]) == CellAt(leaf, buf, slots[j])
  }

  lemma {:induction false} CopyStart(leaf: bool, buf: seq<Byte>, tmp: seq<Byte>, slots: seq<SlotData>)
    requires |buf| == |tmp| == PAGE_SIZE && SumSizes(leaf, slots) <= PAGE_SIZE && Inside(leaf, slots)
    ensures Copied(leaf, buf, tmp, slots, [], 0) && SumSizes(leaf, slots[..0]) == 0
  {}

  lemma {:induction false} CopyStep(leaf: bool, buf: seq<Byte>, tmp: seq<Byte>, slots: seq<SlotData>,
                                    packed: seq<SlotData>, i: nat)
    requires Copied(leaf, buf, tmp, slots, packed, i) && i < |slots|
    ensures var s := slots[i]; var x := PackedSlot(leaf, slots, i);
      && x == s.(offset := PAGE_SIZE - SumSizes(leaf, slots[..i + 1])) && s.offset + Size(leaf, s) <= PAGE_SIZE
      && x.offset + Size(leaf, s) <= PAGE_SIZE
      && Copied(leaf, buf, Spliced(tmp, x.offset, buf[s.offset..s.offset + Size(leaf, s)]), slots, packed + [x], i + 1)
  {
    hide SumSizes, CellAt, Spliced;
    PackedStep(leaf, slots, i);
    var s, x := slots[i], PackedSlot(leaf, slots, i);
    var data := buf[s.offset..s.offset + Size(leaf, s)];
    var tmp' := Spliced(tmp, x.offset, data);
    forall j | 0 <= j < i ensures CellAt(leaf, tmp', packed[j]) == CellAt(leaf, buf, slots[j]) {
      SplicedBelow(leaf, tmp, x.offset, data, packed[j]);
    }
    SplicedHere(leaf, tmp, x, buf, s);
  }

  lemma {:induction false} SplicedBelow(leaf: bool, buf: seq<Byte>, at: nat, data: seq<Byte>, s: SlotData)
    requires |buf| == PAGE_SIZE && at + |data| <= PAGE_SIZE && Within(leaf, s, at + |data|)
    ensures CellAt(leaf, Spliced(buf, at, data), s) == CellAt(leaf, buf, s)
  {
    StoreKeeps(leaf, buf, Spliced(buf, at, data), s, at + |data|);
  }

  lemma {:induction false} SplicedHere(leaf: bool, tmp: seq<Byte>, x: SlotData, buf: seq<Byte>, s: SlotData)
    requires |tmp| == |buf| == PAGE_SIZE && s.offset + Size(leaf, s) <= PAGE_SIZE && x == s.(offset := x.offset)
    requires x.offset + Size(leaf, x) <= PAGE_SIZE
    ensures CellAt(leaf, Spliced(tmp, x.offset, buf[s.offset..s.offset + Size(leaf, s)]), x) == CellAt(leaf, buf, s)
  {
    var data := buf[s.offset..s.offset + Size(leaf, s)];
    assert Spliced(tmp, x.offset, data)[x.offset..x.offset + |data|] == data;
  }

  lemma {:induction false} CopiedAll(leaf: bool, buf: seq<Byte>, tmp: seq<Byte>, slots: seq<SlotData>,
                                     packed: seq<SlotData>)
    requires Copied(leaf, buf, tmp, slots, packed, |slots|)
    ensures Laid(leaf, packed, PAGE_SIZE - SumSizes(leaf, slots), -1) && Inside(leaf, packed) && |packed| == |slots|
    ensures SumSizes(leaf, packed) == SumSizes(leaf, slots) && CellsOf(leaf, tmp, packed) == CellsOf(leaf, buf, slots)
  {
    hide SumSizes;
    assert slots[..|slots|] == slots;
    PackedLaid(leaf, slots, packed);
    SumSizesSame(leaf, packed, slots);
    LaidInside(leaf, packed, PAGE_SIZE - SumSizes(leaf, slots));
  }

  lemma {:induction false} CopiedBack(leaf: bool, buf: seq<Byte>, tmp: seq<Byte>, packed: seq<SlotData>,
                                      dataOffset: nat)
    requires |buf| == |tmp| == PAGE_SIZE && dataOffset <= PAGE_SIZE && Laid(leaf, packed, dataOffset, -1)
    ensures Inside(leaf, packed)
    ensures CellsOf(leaf, Spliced(buf, dataOffset, tmp[dataOffset..]), packed) == CellsOf(leaf, tmp, packed)
  {
    LaidInside(leaf, packed, dataOffset);
    var buf' := Spliced(buf, dataOffset, tmp[dataOffset..]);
    forall j | 0 <= j < |packed| ensures CellAt(leaf, buf', packed[j]) == CellAt(leaf, tmp, packed[j]) {
      StoreKeeps(leaf, tmp, buf', packed[j], dataOffset);
    }
  }

  /** What DeleteRecord leaves of a slot. */
  function Emptied(leaf: bool, s: SlotData): SlotData { SlotData(s.offset, 0, if leaf then 0 else s.aux) }

  lemma {:induction false} SplicedTwice(buf: seq<Byte>, at: nat, a: seq<Byte>, b: seq<Byte>)
    requires at + |a| + |b| <= |buf|
    ensures Spliced(Spliced(buf, at, a), at + |a|, b) == Spliced(buf, at, a + b)
    ensures Spliced(buf, at, a + []) == Spliced(buf, at, a)
  {
    assert a + [] == a;
  }

  lemma {:induction false} EmptiedCells(leaf: bool, buf: seq<Byte>, slots: seq<SlotData>, i: nat, dataOffset: nat)
    requires |buf| == PAGE_SIZE && i < |slots| && Laid(leaf, slots, dataOffset, -1)
    ensures Inside(leaf, slots) && Inside(leaf, slots[i := Emptied(leaf, slots[i])])
    ensures CellsOf(leaf, buf, slots[i := Emptied(leaf, slots[i])])
         == CellsOf(leaf, buf, slots)[i := Cell(0, if leaf then 0 else slots[i].aux, [])]
  {
    LaidInside(leaf, slots, dataOffset);
    var r := slots[i := Emptied(leaf, slots[i])];
    assert Inside(leaf, r);
    var cs, ds := CellsOf(leaf, buf, r), CellsOf(leaf, buf, slots)[i := Cell(0, if leaf then 0 else slots[i].aux, [])];
    forall j | 0 <= j < |r| ensures cs[j] == ds[j] {}
  }

  lemma {:induction false} CellSlot(leaf: bool, buf: seq<Byte>, slots: seq<SlotData>, i: nat, dataOffset: nat)
    requires |buf| == PAGE_SIZE && i < |slots| && Laid(leaf, slots, dataOffset, -1)
    ensures Inside(leaf, slots)
    ensures CellsOf(leaf, buf, slots)[i].keySize == slots[i].keySize && CellsOf(leaf, buf, slots)[i].aux == slots[i].aux
  {
    LaidInside(leaf, slots, dataOffset);
  }

  lemma {:induction false} ChildLaid(slots: seq<SlotData>, i: nat, child: PageId, dataOffset: nat)
    requires i < |slots| && Laid(false, slots, dataOffset, -1)
    ensures Laid(false, slots[i := slots[i].(aux := child)], dataOffset, -1)
    ensures Inside(false, slots[i := slots[i].(aux := child)])
  {
    var r := slots[i := slots[i].(aux := child)];
    forall a | 0 <= a < |r| ensures Within(false, r[a], dataOffset) { assert Within(false, slots[a], dataOffset); }
    forall a, b | 0 <= a < b < |r| ensures Apart(false, r[a], r[b]) { assert Apart(false, slots[a], slots[b]); }
    LaidInside(false, r, dataOffset);
  }

  // ----- cells as records of a leaf or slots of a branch

  function RecOf(c: Cell): Rec {
    if c.keySize <= |c.bytes| then Rec(c.bytes[..c.keySize], c.bytes[c.keySize..]) else Rec([], [])
  }

  function LeafRecs(cs: seq<Cell>): (r: seq<Rec>)
    ensures |r| == |cs|
  {
    seq(|cs|, i requires 0 <= i < |cs| => RecOf(cs[i]))
  }

  function BranchOf(cs: seq<Cell>, tail: PageId): (b: Branch<PageId>)
    ensures |b.slots| == |cs|
  {
    Branch(seq(|cs|, i requires 0 <= i < |cs| => Slot(cs[i].aux, cs[i].bytes)), tail)
  }

  lemma {:induction false} CellBytes(leaf: bool, buf: seq<Byte>, slots: seq<SlotData>, i: nat, dataOffset: nat)
    requires |buf| == PAGE_SIZE && i < |slots| && Laid(leaf, slots, dataOffset, -1)
    ensures Inside(leaf, slots)
    ensures |CellsOf(leaf, buf, slots)[i].bytes| == Size(leaf, slots[i])
  {
    LaidInside(leaf, slots, dataOffset);
  }

  lemma {:induction false} LeafUsedCells(buf: seq<Byte>, slots: seq<SlotData>)
    requires |buf| == PAGE_SIZE && Inside(true, slots)
    ensures LeafUsed(LeafRecs(CellsOf(true, buf, slots))) == SLOT_SIZE * |slots| + SumSizes(true, slots)
  {
    if slots != [] {
      var n := |slots| - 1;
      LeafUsedCells(buf, slots[..n]);
      assert LeafRecs(CellsOf(true, buf, slots))[..n] == LeafRecs(CellsOf(true, buf, slots[..n]));
    }
  }

  lemma {:induction false} BranchUsedCells(buf: seq<Byte>, slots: seq<SlotData>)
    requires |buf| == PAGE_SIZE && Inside(false, slots)
    ensures BranchUsed(BranchOf(CellsOf(false, buf, slots), 0).slots) == SLOT_SIZE * |slots| + SumSizes(false, slots)
  {
    if slots != [] {
      var n := |slots| - 1;
      BranchUsedCells(buf, slots[..n]);
      assert BranchOf(CellsOf(false, buf, slots), 0).slots[..n] == BranchOf(CellsOf(false, buf, slots[..n]), 0).slots;
    }
  }

  lemma {:induction false} LeafRecsInsert(cs: seq<Cell>, i: nat, key: Key, value: Value)
    requires i <= |cs|
    ensures LeafRecs(InsertAt(cs, i, Cell(|key|, |value|, key + value))) == InsertAt(LeafRecs(cs), i, Rec(key, value))
  {
    assert (key + value)[..|key|] == key && (key + value)[|key|..] == value;
  }

  lemma {:induction false} LeafRecsSet(cs: seq<Cell>, i: nat, key: Key, value: Value)
    requires i < |cs|
    ensures LeafRecs(cs[i := Cell(|key|, |value|, key + value)]) == LeafRecs(cs)[i := Rec(key, value)]
  {
    assert (key + value)[..|key|] == key && (key + value)[|key|..] == value;
  }

  lemma {:induction false} LeafRecsAt(cs: seq<Cell>, i: nat)
    requires i < |cs|
    ensures LeafRecs(cs)[i] == RecOf(cs[i])
  {}

  lemma {:induction false} LeafRecsRemove(cs: seq<Cell>, i: nat)
    requires i < |cs|
    ensures LeafRecs(RemoveAt(cs, i)) == RemoveAt(LeafRecs(cs), i)
  {}

  /** The three ways BranchNode::Insert links the new child. */
  lemma {:induction false} BranchInsertCells(cs: seq<Cell>, tail: PageId, i: nat, key: Key, child: PageId)
    requires i <= |cs|
    ensures var b := BranchOf(cs, tail);
      && i <= |b.slots|
      && BranchOf(InsertAt(cs, i, Cell(|key|, child, key)), tail) == b.Insert(i, key, child, false)
      && (i == |cs| ==> BranchOf(InsertAt(cs, i, Cell(|key|, tail, key)), child) == b.Insert(i, key, child, true))
      && (i < |cs| ==>
            BranchOf(InsertAt(cs[i := cs[i].(aux := child)], i, Cell(|key|, cs[i].aux, key)), tail)
            == b.Insert(i, key, child, true))
  {
    var b := BranchOf(cs, tail);
    assert BranchOf(InsertAt(cs, i, Cell(|key|, child, key)), tail).slots == b.Insert(i, key, child, false).slots;
    if i < |cs| {
      var r := InsertAt(cs[i := cs[i].(aux := child)], i, Cell(|key|, cs[i].aux, key));
      assert BranchOf(r, tail).slots == b.Insert(i, key, child, true).slots;
    } else {
      assert BranchOf(InsertAt(cs, i, Cell(|key|, tail, key)), child).slots == b.Insert(i, key, child, true).slots;
    }
  }

  /** The three ways BranchNode::Delete relinks the children. */
  lemma {:induction false} BranchDeleteCells(cs: seq<Cell>, tail: PageId, i: nat)
    requires i < |cs|
    ensures var b := BranchOf(cs, tail);
      && i < |b.slots|
      && BranchOf(RemoveAt(cs, i), tail) == b.Delete(i, false)
      && (i + 1 == |cs| ==> BranchOf(RemoveAt(cs, i), cs[i].aux) == b.Delete(i, true))
      && (i + 1 < |cs| ==>
            BranchOf(RemoveAt(cs[i + 1 := cs[i + 1].(aux := cs[i].aux)], i), tail) == b.Delete(i, true))
  {
    var b := BranchOf(cs, tail);
    assert BranchOf(RemoveAt(cs, i), tail).slots == b.Delete(i, false).slots;
    if i + 1 < |cs| {
      var r := RemoveAt(cs[i + 1 := cs[i + 1].(aux := cs[i].aux)], i);
      assert BranchOf(r, tail).slots == b.Delete(i, true).slots;
    } else {
      assert BranchOf(RemoveAt(cs, i), cs[i].aux).slots == b.Delete(i, true).slots;
    }
  }

  lemma {:induction false} BranchLinkCells(cs: seq<Cell>, tail: PageId, i: nat, child: PageId)
    requires i <= |cs|
    ensures var b := BranchOf(cs, tail);
      && i <= |b.slots|
      && (i == |cs| ==> BranchOf(cs, child) == b.SetChild(i, child))
      && (i < |cs| ==> BranchOf(cs[i := cs[i].(aux := child)], tail) == b.SetChild(i, child))
  {
    var b := BranchOf(cs, tail);
    if i < |cs| {
      assert BranchOf(cs[i := cs[i].(aux := child)], tail).slots == b.SetChild(i, child).slots;
    }
  }

  lemma {:induction false} BranchSetCells(cs: seq<Cell>, tail: PageId, i: nat, key: Key)
    requires i < |cs|
    ensures var b := BranchOf(cs, tail);
      && i < |b.slots| && b.slots[i] == Slot(cs[i].aux, cs[i].bytes)
      && BranchOf(cs[i := Cell(|key|, cs[i].aux, key)], tail) == b.SetKey(i, key)
  {
    assert BranchOf(cs[i := Cell(|key|, cs[i].aux, key)], tail).slots == BranchOf(cs, tail).SetKey(i, key).slots;
  }
}
