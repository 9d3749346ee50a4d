/** meta.cpp: two meta pages written in turn, so that one of them is always whole. */
module Metas {
  import opened Nodes
  import opened Pagers

  const SIGN: nat := 0x6174_6f6d  // 'atom'
  const VERSION: nat := 1

  /** A meta page. crcOk: the stored checksum is that of the content. */
  datatype MetaSlot = MetaSlot(sign: nat, pageSize: nat, minVersion: nat, meta: MetaStruct, crcOk: bool)

  /** A meta page as Save writes it. */
  function Whole(meta: MetaStruct): MetaSlot { MetaSlot(SIGN, PAGE_SIZE, VERSION, meta, true) }

  /** The fields that are the same in all meta pages of a file. */
  predicate Formatted(s: MetaSlot) { s.sign == SIGN && s.pageSize == PAGE_SIZE && s.minVersion == VERSION }

  /** Slot i holds the newest whole meta; of two equally new ones the first counts. */
  predicate IsNewest(file: seq<MetaSlot>, i: nat)
    requires |file| == 2
  {
    && i < 2 && file[i].crcOk
    && (file[1 - i].crcOk ==>
          file[1 - i].meta.txid < file[i].meta.txid || (file[1 - i].meta.txid == file[i].meta.txid && i == 0))
  }

  datatype LoadResult = Loaded | NotADatabase | VersionTooHigh | PageSizeMismatch | Damaged

  class Meta {
    var file: seq<MetaSlot>      // the two meta pages
    var metaStruct: MetaStruct
    var cur: nat                 // cur_meta_index_

    ghost predicate Valid()
      reads this
    {
      |file| == 2 && cur < 2
    }

    /** Init: both meta pages are written; the txid left in memory is that of the second one. */
    constructor ()
      ensures Valid() && cur == 0 && metaStruct == MetaStruct(2, INVALID_PAGE, INVALID_PAGE, 0, 0, 1)
      ensures file == [Whole(metaStruct.(txid := 2)), Whole(metaStruct)]
    {
      var first := MetaStruct(2, INVALID_PAGE, INVALID_PAGE, 0, 0, 2);
      metaStruct := first;
      cur := 0;
      file := [Whole(first), Whole(first)];
      new;
      Save();
      Switch();
      metaStruct := metaStruct.(txid := 1);
      Save();
      Switch();
    }

    /** Load: the newest meta that is whole. */
    method Load() returns (r: LoadResult)
      requires Valid()
      modifies this`cur, this`metaStruct
      ensures Valid()
      ensures r == NotADatabase <==> file[0].sign != SIGN && file[1].sign != SIGN
      ensures r == VersionTooHigh <==> (file[0].sign == SIGN || file[1].sign == SIGN) && VERSION < file[0].minVersion
      ensures r == Damaged <==> r != NotADatabase && r != VersionTooHigh && !file[0].crcOk && !file[1].crcOk
      ensures r == Loaded || r == PageSizeMismatch ==> IsNewest(file, cur)
      ensures r == PageSizeMismatch ==> file[cur].pageSize != PAGE_SIZE
      ensures r == Loaded ==> metaStruct == file[cur].meta && file[cur].pageSize == PAGE_SIZE
    {
      if file[0].sign != SIGN && file[1].sign != SIGN {
        return NotADatabase;
      }
      if VERSION < file[0].minVersion {
        return VersionTooHigh;
      }
      cur := 0;
      if file[0].meta.txid < file[1].meta.txid {
        cur := 1;
      }
      if !file[cur].crcOk {
        cur := 1 - cur;
        if !file[cur].crcOk {
          return Damaged;
        }
      }
      if file[cur].pageSize != PAGE_SIZE {
        return PageSizeMismatch;
      }
      metaStruct := file[cur].meta;
      r := Loaded;
    }

    /** Save: the meta goes to the current page, with its checksum. */
    method Save()
      requires Valid()
      modifies this`file
      ensures Valid() && file == old(file)[cur := Whole(metaStruct)]
    {
      file := file[cur := Whole(metaStruct)];
    }

    /** Switch */
    method Switch()
      requires Valid()
      modifies this`cur
      ensures Valid() && cur == 1 - old(cur)
    {
      cur := if cur == 0 then 1 else 0;
    }

    /** Reset */
    method Reset(meta: MetaStruct)
      requires Valid()
      modifies this`metaStruct
      ensures Valid() && metaStruct == meta
    {
      metaStruct := meta;
    }

    /** The end of Commit: the meta of the transaction is published in the page that is not current. */
    method Publish(meta: MetaStruct)
      requires Valid()
      modifies this
      ensures Valid() && metaStruct == meta && cur == 1 - old(cur) && file == old(file)[1 - old(cur) := Whole(meta)]
    {
      Reset(meta);
      Switch();
      Save();
    }
  }

  // ----- publishing and tearing

  /** The current page is whole, and the other one cannot be preferred to it: it is older, or broken. */
  predicate Current(file: seq<MetaSlot>, cur: nat, meta: MetaStruct) {
    && |file| == 2 && cur < 2 && Formatted(file[0]) && Formatted(file[1])
    && file[cur] == Whole(meta) && (file[1 - cur].crcOk ==> file[1 - cur].meta.txid < meta.txid)
  }

  /**
   * What an interrupted write of s over old leaves: one of the two, or a mixture of their bytes, which keeps
   * the fields they share and has no valid checksum.
   */
  predicate Torn(before: MetaSlot, s: MetaSlot, t: MetaSlot) {
    t == before || t == s || (!t.crcOk && (Formatted(before) && Formatted(s) ==> Formatted(t)))
  }

  /** Load picks the current page. */
  lemma {:induction false} CurrentIsNewest(file: seq<MetaSlot>, cur: nat, meta: MetaStruct, i: nat)
    requires Current(file, cur, meta)
    ensures IsNewest(file, i) <==> i == cur
  {}

  /**
   * A write of a newer meta over the other page, interrupted anywhere: Load then picks the new meta if it was
   * written completely, and otherwise the old one. Either way the next commit starts from such a state again.
   */
  lemma {:induction false} TornWrite(file: seq<MetaSlot>, cur: nat, meta: MetaStruct, meta': MetaStruct, t: MetaSlot)
    requires Current(file, cur, meta) && meta.txid < meta'.txid && Torn(file[1 - cur], Whole(meta'), t)
    ensures var file' := file[1 - cur := t];
      if t == Whole(meta') then Current(file', 1 - cur, meta') else Current(file', cur, meta)
  {}

  /** The first commit after Init has the txid that the first page already has, and Load prefers the first page. */
  lemma {:induction false} FirstCommitIsLost(meta: MetaStruct)
    requires meta.txid == 2
    ensures var init := MetaStruct(2, INVALID_PAGE, INVALID_PAGE, 0, 0, 1);
      var file := [Whole(init.(txid := 2)), Whole(meta)];
      IsNewest(file, 0) && !IsNewest(file, 1) && file[0].meta.userRoot == INVALID_PAGE
  {}

  /** Load picks a completed commit exactly if it is newer than the current page, or as new and in the first page. */
  lemma {:induction false} PublishedIffNewer(file: seq<MetaSlot>, cur: nat, meta': MetaStruct)
    requires |file| == 2 && cur < 2 && file[cur].crcOk
    ensures IsNewest(file[1 - cur := Whole(meta')], 1 - cur)
        <==> file[cur].meta.txid < meta'.txid || (file[cur].meta.txid == meta'.txid && cur == 1)
  {}

  /** From the second commit on, every commit after Init is picked. */
  lemma {:induction false} SecondCommitIsCurrent(first: MetaStruct, second: MetaStruct)
    requires first.txid == 2 && second.txid == 3
    ensures var init := MetaStruct(2, INVALID_PAGE, INVALID_PAGE, 0, 0, 1);
      Current([Whole(init.(txid := 2)), Whole(first)][0 := Whole(second)], 0, second)
  {}
}
